# Episode planning, generation worker, profile sync and rate limiting, verified

A Dafny model of the four stateful cores of the repository, with proofs about every run of
them.  `dafny verify dfyconfig.toml` checks the whole project.

**Episode planning ledger** (`lib/episode_planner.py`, `lib/episode_ledger.py`).  A planner
takes a window of source text, turns untrusted end anchors into consecutive half-open ranges
and commits them to a ledger of numbered episodes; `replan` re-cuts a suffix of the ledger;
every call reads the ledger, thinks without a lock and commits under one.  The ledger can also
be rebuilt from the derived episode files by substring search.
- `Text`, `Boundaries`: exact search, and the partition of a window by anchors.
- `Ledger`, `Backfill`, `BackfillLaws`, `RoundTrip`: entries as they may come out of
  `project.json`, the rebuild from episode files, what it never touches, that it is idempotent,
  and that it inverts a split of the sources.
- `FileNames`: names in a directory, and which of several names of one number discovery reports.
- `Migration`: the ledger rebuilt for a project that was split before there was a ledger is one
  that planning may go on from.
- `ReplanScope`, `Reconcile`: which entries a replan may re-cut, and bringing the episode files
  in line with the ledger.
- `Planner`, `PlanningCalls`: the calls `plan` and `replan`, drafting and committing.
- `Tiling`, `PlannerLaws`, `PlannerRuns`: characters of all sources on one line, what a commit
  keeps, and every interleaving of any number of calls.
- `Entries`: what the entries hold that a commit writes, field by field, when a commit reports the
  sources as used up, and when a replan is possible at all.
- `Windows`, `Completion`, `Completable`: planning again and again, that it ends, when it ends
  well, and which texts can be planned to their end at all.
- `SecondNames`, `Comebacks`: what becomes of an episode whose file goes by two names, and when
  the ledger still tiles its text once its number has come back.

**Generation worker** (`lib/generation_worker.py`, with the guarded updates of
`lib/db/repositories/task_repo.py`).
- `SlotTable`: the ledger of occupied slots and the blacklist of full providers.
- `TaskRows`, `TaskProtocol`: the guarded status row, and one task from its dispatch until the
  worker has drained it, with shielded writes, cancel flips and cancellations anywhere.
- `TaskQueue`: the queue in the database, the next claim, and a failure together with the tasks
  that wait for the failed one.
- `ClaimLoop`, `ClaimLaws`: claiming queued tasks into free slots, and whom a claim passes over.
- `Orphans`: the scan for tasks a former process left behind.

**Profile sync** (`lib/profile_manifest.py`).  `ProfileSync`: the fifteen-row decision table over
profile file, project file and manifest entry, the sync over all keys, and runs that mix syncs
with user edits and upstream changes.

**Rate limiter** (`lib/gemini_shared.py`).  `RateLimiter`: the pruned queue of grant times
against the full history of grants, for blocking and asynchronous callers.

## Where the code does not do what one would expect

Each of these is kept as the code has it, and the exact condition is proved.

- A replan that drops a number deletes one of its files.  If the number has several, what is
  left brings it back with the next backfill (`SecondNames.SecondNameComesBack`), with a range
  wherever that text occurs.  A replan itself always leaves ranges that tile the text; it leaves
  nothing for a backfill to add if and only if every number from the end of its new layout on
  has at most one file (`PlannerLaws.ReplanKeepsTiled`), and a run has nothing to add throughout
  if and only if all its replans do (`PlannerRuns.EveryRunTiles`).  After the next backfill the
  ranges still tile if and only if every text left behind occurs nowhere or is found where only
  blanks separate it from the end (`Comebacks.NextBackfillTiles`); otherwise, as in
  `SecondNames.SecondNameBreaksTiling`, two episodes may share text.
- Repeated planning need not reach the end of the sources, even when every reply is accepted.  An
  anchor has at least two characters, so a single last character that is no blank can never be
  planned: no reply passes for a window shorter than two (`Windows.PassesIffTwo`,
  `Completable.AnswerableIffTwo`), and a batch that ends one character before the end is accepted
  (`Completable.OneLetterLeft`).  Some generator reaches the end if and only if the windows that
  follow each other in what is left of each source have at least two characters and need not
  leave such a single one (`Completable.CompletesExactly`).
- Two names for one episode number (`episode_7.txt`, `episode_07.txt`): discovery reports one of
  them, so reconciliation deletes only that one of a number outside the ledger
  (`Reconcile.ReconcileLeaves`), and the padded name hides the file just written unless it says
  the same (`Reconcile.DiscoveryReadsTheSlice`).
- Entries that share a number all write the same file; each file holds its own slice exactly when
  they agree (`Reconcile.FilesMatchIffDuplicatesAgree`).
- A request gap above 60 seconds is forgotten as soon as the last grant leaves the log
  (`RateLimiter.LongGapIsForgotten`).
- One sync may not be enough for the manifest: a file the user deleted and put back exactly as
  shipped takes a second one (`ProfileSync.SyncConverges`).  A file that upstream drops and later
  ships again is not delivered again (`ProfileSync.WhatGetsRecordedAsDeleted`).
- Between being taken out of its slot and the drain's last write, a task's row may still say
  running (`TaskProtocol.PoppedMayStillRun`), though only if its coroutine was cancelled
  (`TaskProtocol.ReturnedIsTerminal`); it is terminal once the drain has dealt with it.
- A cancel flip between the claim of a task and the worker's next write makes the failure or the
  return to the queue hit no row, and nothing follows up: the task stays at `cancelling` until
  the next orphan scan (`ClaimLoop.ClaimedFate`).
- A cursor that was already set, or left-over text that occurs elsewhere, may make planning skip
  text after a split; the migrated ledger is tiled if and only if only blanks lie between the
  last slice and the place that the cursor, or else the left-over text, says
  (`Migration.SplitIsTiled`).

## Model

| member | source | states |
|---|---|---|
| Text.Find | lib/episode_planner.py:202-205 | `str.find`: the first occurrence at or after a position, or -1 when there is none |
| Text.OccurrencesExact | lib/episode_planner.py:199-205 | the list of occurrences holds exactly the places where the anchor occurs, overlapping ones included |
| Boundaries.AllStarts | lib/episode_planner.py:199-205 | the stepping search collects all occurrences, in order |
| Boundaries.ResolveBoundaries | lib/episode_planner.py:178-232 | accepts exactly when each anchor occurs once, the ends strictly increase and, if the window must be covered, only blanks follow the last; then it returns one end per draft, the last moved to the window's end over trailing blanks; otherwise it lists exactly the missing and ambiguous anchors and the first one out of order, or the uncovered tail |
| Boundaries.AcceptedEndsPartition | lib/episode_planner.py:185-192 | accepted ends cut the window's prefix, or the whole window, into non-empty consecutive pieces, one per draft, whose concatenation is that text |
| Ledger.SortSorts | lib/episode_planner.py:959-962 | the sort by number gives a sorted arrangement of the very same items |
| Ledger.SortIsStable | lib/episode_ledger.py:258-274 | sorting is stable: the entries with one number keep their order among themselves |
| Ledger.NumbersExact | lib/episode_ledger.py:284 | `sorted(by_num)` lists each number in use once, ascending |
| Ledger.DigitsParse | lib/episode_ledger.py:132-140 | a number is read back from its decimal digits, as from the integer itself; a truth value, an empty text and anything that is neither integer nor text is none |
| Backfill.ListEpisodeFiles | lib/episode_ledger.py:267 | the numbers that have an episode file, in ascending order |
| FileNames.DiscoverEpisodeFiles | lib/episode_ledger.py:164-174 | the loop over a sorted directory maps each number that some file name carries to the first of its files, which is the one that the directory by numbers reports |
| FileNames.DiscoveredIsFirst | lib/episode_ledger.py:164-174 | of the names of one number the first in the directory is a padded one, if there is any, and otherwise the plain one; for number 0 it is the other way round |
| FileNames.PlainIsUnique | lib/episode_ledger.py:37-37 | each number has one name without leading zeros only |
| Backfill.SearchDocs | lib/episode_ledger.py:177-196 | the two-pass search over the live documents and their cursors answers as the specification does |
| Backfill.FindInSourcesExact | lib/episode_ledger.py:177-196 | the search finds something exactly when some source contains the text, whatever the cursors and the preferred source, and what it finds is an occurrence |
| Backfill.VisitEntry | lib/episode_ledger.py:284-319 | one entry on the live documents: an entry with a status only moves cursors forward, another is anchored or marked unanchored, and the cursor follows a new anchor even backwards |
| Backfill.DerivedCursor | lib/episode_ledger.py:210-237 | the cursor from the left-over text, unless that lies before the last anchored end, else from the last anchored end, else none |
| Backfill.BackfillLedger | lib/episode_ledger.py:240-323 | the whole rebuild on moving documents equals its specification on values: orphan files get entries, the list is sorted if it can be, pending entries are scanned in number order, the cursor is derived only when null |
| BackfillLaws.BackfillIdempotent | lib/episode_ledger.py:240-249 | on the same files a second run returns the same entries in the same order and the same cursor, with duplicate numbers, orphan files and foreign items included |
| BackfillLaws.BackfillProtects | lib/episode_ledger.py:246-248 | an entry with a status, a foreign item and a cursor already set survive unchanged, each as often as it was there |
| BackfillLaws.BackfillNumbers | lib/episode_ledger.py:265-271 | backfilling adds numbers for exactly the episode files without an entry |
| BackfillLaws.NewcomerIsPending | lib/episode_ledger.py:265-271 | a file without an entry gets one with its number, no title, the usual script path, no range and no status |
| BackfillLaws.AnchoringIsSound | lib/episode_ledger.py:300-319 | a pending entry ends pointing at a true occurrence of its file's whole text, consumed if its own script, the script of its number or step-1 drafts exist and planned otherwise, or unanchored exactly when that text is empty or occurs in no source, wherever the cursors stood |
| RoundTrip.SplitThenBackfill | lib/episode_ledger.py:284-319 | if the episode files are consecutive non-empty slices of the sources, and each entry is still bare or already points at its slice, backfilling recovers every slice's exact range, even when slices repeat text; a cursor that was set stays, otherwise it is put where the left-over text says, or else at the end of the last slice |
| Migration.SplitTiles | lib/episode_ledger.py:284-319 | a split leaves no character out and takes none twice: its slices are ordered and cover everything before the end of the last |
| Migration.SplitIsTiled | lib/episode_ledger.py:240-323 | with at most one entry for each file, bare or already pointing at its slice, the ledger backfilled from a split is tiled if and only if only blanks lie between the last slice and the place, known beforehand, that the cursor or else the left-over text gives |
| Migration.PlainSplitIsTiled | lib/episode_ledger.py:240-323 | it is tiled when no cursor is set and the left-over text, if there is any, is what follows the last slice |
| ReplanScope.ResolveScope | lib/episode_planner.py:678-739 | succeeds exactly when the affected entries start at the number asked for, none is unanchored, all have complete non-empty ranges, and these are gap-free within files that do not come back; then the slices are the merged runs |
| ReplanScope.RunsAreUnions | lib/episode_planner.py:700-739 | merged runs: one non-empty stretch per file, with the same characters and the same total length as the entries |
| ReplanScope.GapFreeStep | lib/episode_planner.py:719-738 | the code's check against the last open slice and the set of seen files is the same as gap-freedom of the whole list |
| Reconcile.Validate | lib/episode_planner.py:896-938 | the first phase succeeds exactly when every entry that owns its file points at real text, and plans one write for each of them |
| Reconcile.EpisodeFiles.ReconcileDerivedFiles | lib/episode_planner.py:879-956 | it succeeds exactly when every entry with a number that is not unanchored names a readable file and a stretch that lies in its text; an error leaves every file as it was; success writes every owned file, deletes what discovery reports outside the ledger, and the left-over text |
| Reconcile.EpisodeFiles.DeleteStrays | lib/episode_planner.py:945-950 | one file is deleted for each number outside the ledger, and nothing else |
| Reconcile.UnlinkDeletesDiscovered | lib/episode_planner.py:945-950 | of the files of a number the one deleted is the one that discovery reports, and the others stay |
| Reconcile.WriteAllExact | lib/episode_planner.py:934-944 | a number's file holds the cleaned slice of the last entry that owns it; files no entry owns are not written |
| Reconcile.FilesMatchIffDuplicatesAgree | lib/episode_planner.py:886-890 | every owned file holds its own entry's slice if and only if entries that share a number would write the same text |
| Reconcile.ReconcileLeaves | lib/episode_planner.py:945-956 | files of unanchored numbers stay as they are; a number outside the ledger is left without a file if and only if it had at most one |
| Reconcile.DiscoveryReadsTheSlice | lib/episode_ledger.py:164-174 | a later scan reads the text of the slice just written if and only if no name with leading zeros comes first that says something else |
| Planner.LastAnchoredExact | lib/episode_planner.py:803-817 | the last anchored entry is the first of those with the greatest number, and there is one exactly when some entry says where it ends |
| Planner.LaterIsLatest | lib/episode_planner.py:826-838 | of the last anchored end and the cursor the later in source order is taken; a file outside the sources loses to one inside |
| Planner.FindEffectiveStart | lib/episode_planner.py:801-846 | the loop over the entries computes the effective start, or finds that there is no source |
| Planner.StartFrom | lib/episode_planner.py:801-846 | where planning goes on, case by case: a cursor counts when it names a file and an offset that is not negative; then the later of it and the last anchored end is taken |
| Planner.OpenWindow | lib/episode_planner.py:430-440 | the walk over blank rests and blank sources ends where the specification says: at the first place with more than blanks, at the end of the sources, or with an error |
| Planner.RequestValidatedDrafts | lib/episode_planner.py:743-786 | the first reply that passes, cut to the batch limit, is used with its ends; the request fails exactly when no reply passes |
| Planner.GreatestNum | lib/episode_planner.py:482-484 | the greatest positive number in use, or 0 |
| Planner.NonNullKeepsTheRest | lib/episode_planner.py:481 | of the items only the nulls are dropped |
| PlanningCalls.DraftPlan | lib/episode_planner.py:423-469 | the reading half of `plan`: none exactly when the sources are used up; a batch, drafted from the effective start and accepted for the window there, within the batch limit, exactly when a window opens and some reply passes for it; an error otherwise |
| PlanningCalls.DraftReplan | lib/episode_planner.py:538-603 | the reading half of `replan`: it succeeds exactly when the scope can be re-cut and either consumed episodes need confirmation first, which are then reported, or every slice lies in its text and has a reply that passes; then each slice is cut completely, one after the other, by the first reply that passes for it |
| PlanningCalls.DraftSlices | lib/episode_planner.py:544-603 | all slices are checked against their texts, then cut one after the other; it succeeds exactly when each has a reply that passes, and then each carries the drafts of the first that does |
| PlanningCalls.LayOut | lib/episode_planner.py:599-603 | the pieces of a slice laid end to end |
| PlanningCalls.Workspace.CommitPlan | lib/episode_planner.py:475-513 | the commit of `plan` on the project and its files equals its specification, whose meaning is the matter of `Entries.PlanWrites`, `Entries.ReportedUsedUp` and `PlannerLaws.PlanKeepsTiled`; a conflict or a failed reconciliation changes nothing |
| PlanningCalls.Workspace.CommitReplan | lib/episode_planner.py:609-668 | the commit of `replan` equals its specification, whose meaning is the matter of `Entries.ReplanWrites` and `PlannerLaws.ReplanKeepsTiled`; a changed scope, a newly consumed episode or a failed reconciliation changes nothing |
| Tiling.CutTiles | lib/episode_planner.py:485-503 | the ranges of a batch are non-empty, in order, and cover exactly the text from its start to its last end |
| Tiling.RecutsTile | lib/episode_planner.py:596-603 | the new ranges of all slices are in order, cover exactly the characters of the slices, and end where the slices end |
| Tiling.RecutsText | lib/episode_planner.py:596-603 | the texts of the new ranges concatenate to the text of the slices |
| Tiling.RunsText | lib/episode_planner.py:719-738 | merging gap-free ranges keeps their concatenated text |
| Tiling.RunsOrdered | lib/episode_planner.py:721-738 | merging gap-free ranges keeps them in order between the same bounds |
| Tiling.OrderedDisjoint | lib/episode_planner.py:187 | in ordered ranges no character lies in two of them |
| PlannerLaws.NewProjectIsTiled | lib/episode_planner.py:843-846 | a project without entries is tiled |
| PlannerLaws.BackfillIsIdentity | lib/episode_planner.py:476-478 | the rebuild inside a commit changes nothing on a ledger of good entries that lists every episode file, by whatever names |
| PlannerLaws.OpeningSkipsBlanks | lib/episode_planner.py:430-440 | between the effective start and the window only blanks are skipped; when the sources count as used up, only blanks are left |
| PlannerLaws.PlanKeepsTiled | lib/episode_planner.py:475-511 | a planning commit from where the ledger now stands goes through: it appends the batch under the next numbers, the effective start becomes the committed cursor and lies strictly further on, and the ledger is tiled; any other is a conflict |
| PlannerLaws.UsedUpIsExhausted | lib/episode_planner.py:509-511 | when a commit reports the sources as used up, the next call finds nothing to plan |
| PlannerLaws.AffectedIsSuffix | lib/episode_planner.py:684-694 | in a tiled ledger the affected entries are a suffix and the rest stays |
| PlannerLaws.ReplanKeepsTiled | lib/episode_planner.py:609-668 | a replan commits exactly when the ledger still shows the ranges it saw and nothing more has been consumed; then entries below are untouched, new numbers run consecutively, the same characters are covered, cursor and effective start stay; the ledger is tiled, with nothing for a backfill to add, if and only if every number from the end of the new layout on has at most one file |
| PlannerLaws.StaleExactly | lib/episode_planner.py:628-650 | a number of the new layout is stale if and only if it was consumed or stale before |
| PlannerLaws.ReplanKeepsText | lib/episode_planner.py:596-668 | a replan keeps the text of all episodes, taken together in number order, to the letter |
| PlannerLaws.PlanAddsText | lib/episode_planner.py:475-511 | a planning commit appends to that text exactly the source text from the window's opening to the end of the batch |
| PlannerLaws.ExactlyOneEpisode | lib/episode_planner.py:185-192 | in a tiled ledger every non-blank character before the effective start lies in exactly one range |
| Entries.PlanWrites | lib/episode_planner.py:475-513 | a planning commit that goes through leaves the entries that were there as they were and adds one for each draft, in turn: its title and hook, the next number, the script path of that number, the range from the previous end to its own, status planned |
| Entries.ReportedUsedUp | lib/episode_planner.py:509-511 | it reports the sources as used up if and only if the window was the last of its source, only blanks follow the batch there, and that source is the last one |
| Entries.ReplanWrites | lib/episode_planner.py:628-650 | a replan that goes through leaves the entries below as they were and has one for each piece, numbered in turn: the title and hook of its draft, the script path of the old entry of that number if it had a non-empty one and otherwise that of the number, the range of the piece, stale if the old entry was consumed or stale and otherwise planned |
| Entries.ReplannableWhen | lib/episode_planner.py:678-739 | on a tiled ledger a replan from a number is possible if and only if the ledger has the number, no entry from it on is unanchored, and none leaves anything out before the next one in its file |
| Entries.CommittedFiles | lib/episode_planner.py:896-944 | after a commit the plain file of each anchored episode holds the cleaned text of its range, and the files of an unanchored one are as they were |
| Entries.PlanKeepsTheRest | lib/episode_planner.py:481-505 | on any ledger, however untidy, a planning commit keeps every entry that has a status and every foreign item but nulls |
| Entries.ReplanKeepsTheRest | lib/episode_planner.py:632-650 | on any ledger a replan keeps every foreign item, nulls included, and every entry below that has a status; from its number on it leaves one entry for each piece and nothing else |
| SecondNames.SecondNameComesBack | lib/episode_planner.py:945-950 | a number that a commit leaves out of the ledger comes back with the next backfill if and only if its file went by more than one name; if the text left still occurs in a source, it comes back with a range where it occurs |
| SecondNames.ComebackBreaksTiling | lib/episode_planner.py:945-950 | a number that comes back over a character another episode has leaves a ledger that is tiled to no place at all |
| SecondNames.SecondNameBreaksTiling | lib/episode_planner.py:945-950 | a concrete tiled ledger and a sound replan whose commit goes through, after which the next backfill puts one episode inside another |
| Comebacks.BackfillTilesExactly | lib/episode_ledger.py:284-323 | a ledger that tiles the text before the effective start still does so after a backfill that appends numbers, if and only if each returning text occurs nowhere or is found where only blanks separate it from the end of the ranges before it |
| Comebacks.NextBackfillTiles | lib/episode_planner.py:609-668 | the same for the first backfill after a replan that goes through, whatever names the dropped episode files have |
| PlannerRuns.StepKeepsGood | lib/episode_planner.py:475-511 | a step of any call leaves the ledger tiled, with nothing for a backfill to add, if and only if it is no replan that goes through and drops a number with several files; then the effective start does not go back, and a planning call that goes through moves it on |
| PlannerRuns.EveryRunTiles | lib/episode_planner.py:475-511 | in every interleaving of any number of plan and replan calls, each holding what it drafted from whatever it read, with episodes consumed and settings changed meanwhile: every ledger of the run is tiled, with nothing for a backfill to add, if and only if no replan that goes through drops a number with several files |
| PlannerRuns.RunAdvances | lib/episode_planner.py:475-511 | in a run of tiled ledgers the effective start advances by at least the number of successful planning calls |
| PlannerRuns.StartNeverGoesBack | lib/episode_planner.py:801-846 | between any two moments of a run without replans that drop a number with several files the effective start advances by at least the number of successful planning calls |
| PlannerRuns.PlanningIsFinite | lib/episode_planner.py:416-518 | no such run has more successful planning calls than characters left |
| PlannerRuns.SecondOfTwoIsRejected | lib/episode_planner.py:479-480 | in such a run, of two planning calls that read the same start the later to commit is rejected, however long ago the other one was |
| PlannerRuns.UsedUpIffAllPlanned | lib/episode_planner.py:435-438 | planning reports the sources as used up if and only if every non-blank character of every source lies in exactly one episode |
| Completion.PlanOnce | lib/episode_planner.py:416-518 | one undisturbed call leaves the ledger that its first passing reply gives; it fails, without a trace, exactly when a window opens and no reply passes for it; it ends with everything planned exactly when no window opens; otherwise fewer characters are left |
| Completion.PlanEverything | lib/episode_planner.py:416-518 | repeated planning terminates whatever the generator answers; it ends well if and only if the generator offers a reply that passes whenever a window opens on a ledger of its own run, and then every non-blank character is in exactly one episode |
| Windows.PassesIffTwo | lib/episode_planner.py:127 | some reply passes for a window if and only if it has at least two characters |
| Completable.AnswerableIffTwo | lib/episode_planner.py:442-469 | some reply passes on a tiled ledger if and only if a window opens, the window setting is at least 2 and at least two characters of that source are left |
| Windows.BestEndCuts | lib/episode_planner.py:199-219 | from a text that can be cut to its end a window always allows an end after which it still can |
| Windows.NoEndHelps | lib/episode_planner.py:199-219 | from a text that cannot be cut to its end no accepted batch leads to one that can |
| Completable.CompletesExactly | lib/episode_planner.py:416-518 | some generator plans a tiled ledger to the end of all sources if and only if what is left of each source can be cut to its end: it is blank, or the window setting is at least 2 and does not leave a single last non-blank character, or leaves one but is at least 3 and some full window holds different characters; then one generator, given outright, does it |
| Completable.OneLetterLeft | lib/episode_planner.py:225-231 | a new project over four letters and a first reply that ends after the third: the batch is accepted, the ledger is tiled, a window opens, and no reply whatever passes |
| SlotTable.BlacklistIsComplete | lib/generation_worker.py:461-477 | the blacklist built from occupied providers holds exactly the providers, of all there could be, with a positive limit and occupancy at or above it |
| SlotTable.NoEmptyBucketKept | lib/generation_worker.py:196-199 | registering, promoting, releasing and draining keep the table free of empty buckets |
| SlotTable.WhoHolds | lib/generation_worker.py:204-272 | what each operation does to who holds which slot |
| SlotTable.RegisterThenRelease | lib/generation_worker.py:204-236 | registering a newcomer takes one slot of its lane and releasing it restores the table |
| SlotTable.Table.Register | lib/generation_worker.py:204-214 | one occupant is set, the lane's bucket being created when missing |
| SlotTable.Table.Promote | lib/generation_worker.py:216-227 | only the pending flag of an existing occupant changes |
| SlotTable.Table.Release | lib/generation_worker.py:229-236 | the occupant goes, and its bucket when that empties it |
| SlotTable.Table.OccupiedProviders | lib/generation_worker.py:250-252 | exactly the providers with an occupied slot in the lane |
| SlotTable.Table.FindByTask | lib/generation_worker.py:254-260 | finds an occupant under the id if and only if some lane has one |
| SlotTable.Table.DrainFinished | lib/generation_worker.py:262-272 | removes exactly the occupants that run and are done, drops emptied buckets, and lists each removed one once |
| SlotTable.Table.PoolFullProviders | lib/generation_worker.py:461-477 | the loop computes the blacklist |
| SlotTable.Table.RequestCancel | lib/generation_worker.py:756-770 | the task to cancel is one held under the id and not done |
| TaskRows.WritesKeep | lib/db/repositories/task_repo.py:184-810 | whatever guarded writes come in whatever order, claims, passed-on failures and withdrawals of queued tasks included, a terminal status stays, a cancel flip can only end in a cancellation, and the last-resort cancellation leaves a terminal status |
| TaskRows.Transitions | lib/db/repositories/task_repo.py:184-810 | all the ways in which a guarded update changes a status, and no others |
| TaskProtocol.StepKeepsInv | lib/generation_worker.py:622-666 | the invariant of one task's life is kept by every step and flip, and by every interruption, whether it reaches the coroutine or the execution absorbs it |
| TaskProtocol.DrainedIsTerminal | lib/generation_worker.py:587-605 | in every run, once the worker has drained a task its row is terminal and never changes again |
| TaskProtocol.FlipMeansCancelled | lib/generation_worker.py:642-664 | after a cancel flip a task never succeeds or fails, and is cancelled once drained |
| TaskProtocol.OutcomeHasItsCause | lib/generation_worker.py:622-666 | a task nobody flips or interrupts ends as its execution ended; success and failure each mean that the execution ended that way, with no flip before the write; a cancelled task was flipped or interrupted |
| TaskProtocol.ReturnedIsTerminal | lib/generation_worker.py:602-605 | a task whose coroutine returned normally is terminal before the drain looks at it |
| TaskProtocol.OneInterruptionEnds | lib/generation_worker.py:637-657 | after an interruption of the execution, or of the wait for its success to be written, the coroutine does not end before its row is terminal, unless it is interrupted again |
| TaskProtocol.ShieldedWritesHappen | lib/generation_worker.py:622-657 | no interruption loses a shielded write: one that is no longer under way has happened |
| TaskProtocol.OthersAtAnyMoment | lib/generation_worker.py:627-657 | in every state of a run a running row can be flipped and a coroutine that has not ended can be interrupted; the interruption changes no row, and it ends the coroutine exactly where it is not caught |
| TaskProtocol.PoppedMayStillRun | lib/generation_worker.py:588-598 | between leaving its slot and the drain's write an interrupted task may still be running |
| TaskProtocol.RunsAreFinite | lib/generation_worker.py:622-666 | no run of one task has more than 28 steps |
| TaskProtocol.StuckIsDrained | lib/generation_worker.py:587-605 | a task with no step left is drained, terminal, and has no write under way |
| TaskQueue.NextClaim | lib/db/repositories/task_repo.py:184-236 | the first queued row of the lane that is not with a blacklisted provider and whose dependency has succeeded; a row that is not blacklisted and depends on nothing is never passed over |
| TaskQueue.Database.ClaimNext | lib/db/repositories/task_repo.py:184-267 | the claimed row runs, nothing else changes |
| TaskQueue.Database.MarkFailed | lib/db/repositories/task_repo.py:307-319 | a running task fails and with it exactly the queued tasks that wait for it, directly or over other queued tasks; a task that is not running changes nothing |
| TaskQueue.Database.CascadeFailedQueued | lib/db/repositories/task_repo.py:381-399 | the recursion over direct dependents terminates, cycles included, and fails exactly the queued tasks that wait for the task |
| TaskQueue.ViaIffBlocked | lib/db/repositories/task_repo.py:381-399 | the direct dependents and those that wait for them are exactly the tasks that wait |
| ClaimLoop.Worker.ClaimOne | lib/generation_worker.py:490-548 | one round: blacklist, claim, route, and refuse, put back or place |
| ClaimLoop.Worker.ClaimLane | lib/generation_worker.py:490-548 | the loop of one lane terminates and does what the specification of the lane says |
| ClaimLoop.Worker.ClaimTasks | lib/generation_worker.py:479-550 | all three lanes in turn; true exactly when something was refused or placed |
| ClaimLoop.LaneOutcome | lib/generation_worker.py:490-548 | each waiting task is claimed at most once, every claimed task meets exactly one fate and its row says which, only the last can have been put back; the queued tasks that waited for a refused one have failed with it, and no other row has changed |
| ClaimLoop.LaneWithinLimits | lib/generation_worker.py:522-548 | no occupancy grows beyond its limit |
| ClaimLoop.HappenWithinLimits | lib/generation_worker.py:522-548 | a task gets a slot only while the lane has room |
| ClaimLoop.LaneSlots | lib/generation_worker.py:538-548 | the slots held after a lane are those held before and those of the placed tasks |
| ClaimLoop.LaneIsExhausted | lib/generation_worker.py:497-536 | a lane stops only when a task was put back or nothing more can be claimed |
| ClaimLaws.LaneIsFair | lib/generation_worker.py:490-548 | each event of a lane concerns the first queued row, at that moment, whose dependency has succeeded and whose stored provider, if any, is below its limit or without one; it is refused exactly when its provider has no such lane, and put back exactly when that is full |
| ClaimLaws.FullProvidersAreSkipped | lib/db/repositories/task_repo.py:209-232 | no row is claimed whose stored provider has a positive limit and occupancy at or above it; so a row that was put back has no stored provider, or another one |
| ClaimLaws.LaneLeavesNobody | lib/generation_worker.py:490-536 | a row still queued when a lane ends without a put-back waits for its dependency, or has a stored provider that is full; so a queued row that is ready and has no stored provider is never left behind |
| ClaimLaws.PassedOver | lib/generation_worker.py:461-501 | a row whose stored provider is full when the lane begins, or whose dependency has not succeeded, stays as it is, unless it fails with a task it waits for |
| ClaimLaws.CallLeavesNobody | lib/generation_worker.py:479-550 | after all three lanes of one call nobody is left who could be claimed in a lane from which no task was put back |
| ClaimLoop.LanesOutcome | lib/generation_worker.py:479-550 | over all lanes of one call the same holds, a task failing with a refused one in whatever lane it is, and occupancies stay within their limits |
| ClaimLoop.EveryRunWithinLimits | lib/generation_worker.py:479-605 | over any run of claims, promotions, releases and drains under fixed limits no lane holds more than its limit, or than it held at the start if that was more |
| ClaimLoop.ClaimedFate | lib/generation_worker.py:500-548 | each claimed task's row ends failed, queued or running, and it holds a slot of its lane exactly in the last case; after a cancel flip between claim and write the row stays at cancelling instead |
| ClaimLoop.Worker.ReloadLimits | lib/generation_worker.py:368-383 | a reload changes only the numbers, a failed load not even those; listed providers get exactly their lanes, all others the defaults; slots and rows stay |
| ClaimLoop.ReloadDecides | lib/generation_worker.py:97-111 | what a reload means for the next claim: a closed lane refuses however many tasks run in it, a lane at its new limit is skipped, any other takes tasks again, and an unlisted provider is decided by the lane's default, or refused where there is none |
| Orphans.Database.Update | lib/db/repositories/task_repo.py:269-305 | one guarded update and its row count |
| Orphans.Database.HandleOrphans | lib/generation_worker.py:810-890 | the scan, with other writes before each orphan and between a failure that hit no row and the cancellation that follows it, equals its specification |
| Orphans.Database.FailOrCancel | lib/generation_worker.py:838-843 | a failure that hits no row is followed by the last-resort cancellation; either way the row ends terminal, whatever others write in between |
| Orphans.EachOrphanHasOneFate | lib/generation_worker.py:810-890 | every orphan ends as exactly one of skipped because it is active here, terminal, or once in its own provider's bucket, and none is queued again, whatever others write meanwhile |
| Orphans.BucketsExact | lib/generation_worker.py:887-890 | the buckets hold exactly the orphans to resume, each under its provider, in the order found |
| Orphans.BucketedIffItCanGoOn | lib/generation_worker.py:810-890 | an orphan is in the bucket of a provider if and only if it is not active, not cancelling, no image and no speech, has a job, and that provider is the stored one, or the routed one when none is stored, and neither "grok" nor "vidu" |
| Orphans.UndisturbedEnds | lib/generation_worker.py:810-890 | with nobody else writing, an inactive cancelling orphan ends cancelled, a running one ends failed unless it is bucketed, and a bucketed or active one keeps its status |
| Orphans.ListedInOrder | lib/generation_worker.py:887-890 | two orphans of one bucket are there in the order they were found |
| Orphans.ResumableOnly | lib/generation_worker.py:823-890 | a bucketed orphan is no image and no speech, has a job, and its provider can resume |
| Orphans.UntouchedByScan | lib/generation_worker.py:814-816 | the row of an orphan that is skipped or bucketed is changed only by others |
| ProfileSync.ProjectDir.SyncKey | lib/profile_manifest.py:539-655 | one key is decided by the table and counted once, under the counters of its own case; a path that escapes the project only counts as an error |
| ProfileSync.ProjectDir.Sync | lib/profile_manifest.py:695-726 | every key of profile, project and manifest is decided once; created, repaired, skipped and errors add up to the keys, and each counter is the number of the keys that are its case: created those the profile ships that had neither file nor entry, repaired the untouched files with new or dropped content and the missing files that were dropped |
| ProfileSync.SyncDelivers | lib/profile_manifest.py:569-652 | file and entry of every key after a sync, from what they were: content arrives where there was nothing, or where the file is just as last delivered; such a file goes if the profile dropped it, and every other stays; entries are written, adopted, cleared or turned into deletions accordingly |
| ProfileSync.WhenDelivered | lib/profile_manifest.py:569-652 | the file is the profile's afterwards if and only if it was already, there was neither file nor entry, or it was just as last delivered |
| ProfileSync.SyncConverges | lib/profile_manifest.py:658-726 | with profile and user quiet a second sync moves no file and a third nothing; the second moves nothing at all if and only if no deleted file came back exactly as shipped |
| ProfileSync.SyncNeverLosesUserContent | lib/profile_manifest.py:572-652 | over every run a sync overwrites or deletes a file only when it equals the active entry, which is content the profile shipped at an earlier sync |
| ProfileSync.DeletionIsFinal | lib/profile_manifest.py:572-652 | a recorded deletion stays, whatever the profile does, until the user writes the file |
| ProfileSync.WhatGetsRecordedAsDeleted | lib/profile_manifest.py:572-652 | a sync records a key as deleted if and only if an active file is missing, or upstream dropped an unmodified one |
| RateLimiter.RateLimiter.CleanUp | lib/gemini_shared.py:108-110 | the log becomes the grant history filtered to age at most 60 seconds |
| RateLimiter.RateLimiter.TryAcquire | lib/gemini_shared.py:135-181 | one locked pass of the asynchronous caller grants if and only if the last 60 seconds hold fewer than the limit and the gap to the last of them has passed; otherwise it asks for exactly the longer of the rest of the gap and the time until the oldest is 60.1 seconds old |
| RateLimiter.RateLimiter.BlockingPass | lib/gemini_shared.py:103-133 | one turn of the blocking caller grants if and only if there is room at its first reading and the gap has passed at its second; otherwise it sleeps for exactly the rest of the gap, or for what is left until the oldest live grant is 60.1 seconds old, and makes progress |
| RateLimiter.RateLimiter.Acquire | lib/gemini_shared.py:88-133 | the blocking caller terminates with exactly one grant, and does so without sleeping if and only if there is room and the gap has passed at its first readings |
| RateLimiter.PruneKeepsRecent | lib/gemini_shared.py:108-110 | clean-up keeps the log faithful to the full history and leaves exactly the last window of it |
| RateLimiter.WaitSuffices | lib/gemini_shared.py:160-181 | after the computed wait, with no other grant, the next pass grants |
| RateLimiter.WaitIsNeeded | lib/gemini_shared.py:160-170 | before the wait has passed no pass grants, as long as the last grant lies in the window, but for the tenth of a second that is added to the wait for room |
| RateLimiter.SpacedIffWindowBound | lib/gemini_shared.py:124-133 | at most `limit` grants in every closed 60-second interval is the same as each grant being over 60 seconds after the one `limit` places before |
| RateLimiter.EveryRunKeepsTheRate | lib/gemini_shared.py:88-181 | under a monotone clock and any interleaving of callers, every closed 60-second interval holds at most `limit` grants, and consecutive grants keep a gap of at most 60 |
| RateLimiter.LongGapIsForgotten | lib/gemini_shared.py:112-122 | for every gap above 60 seconds two grants closer than the gap are possible |

## Left out

- The screenplay fast path `_try_screenplay_split` (its regular expressions, and the shortened text it hands to reconciliation).
- Prompts, generator calls, JSON and schema parsing: the generator is any sequence of replies, each rejected by the schema or a non-empty list of anchors of at least two characters.
- Unicode normalisation and newline folding: texts are taken as already normalised. `strip_video_prompts` is an arbitrary function, and the identity in the round trip.
- Outlines, summaries, reading units, context entries and the write-back of `episode_target_units`.
- `episodes` values that are no list, digits outside ASCII in episode numbers, symbolic-link guards, and source paths that leave the project.
- Source files that change while planning calls are under way, and other tools that add entries to the ledger then.
- ProfileSync.ProjectDir.Sync: covers the branch with a readable manifest of the same content mode; full reset, forced resync, hashing, locks, and files that cannot be read or copied are not modelled.
- TaskProtocol.DrainedIsTerminal: one task of `_process_task` at a time, with database writes that do not fail; resumed tasks, which release their slots themselves, the order of shutdown and crashes of the process are not modelled.
- ClaimLoop.Worker.ClaimTasks: during one call the queue changes only by the worker's own claims, the failures they cause and cancel flips; new tasks, other workers, and a resume batch that takes slots meanwhile are not modelled.
- ClaimLoop.EveryRunWithinLimits: slots that a resume batch takes are no move of the run; they count as held at the start.
- Orphans.Database.HandleOrphans: follows the tasks that have left the queue; queued tasks that fail with an orphan, as `TaskQueue.Database.MarkFailed` has it, are no part of its rows.
- The background dispatcher of resumable orphans, worker leases, and loading limits from configuration.
- RateLimiter.EveryRunKeepsTheRate: a clock that goes back and a limit that changes are not modelled.
- SlotTable.Table.FindByTask: the order of lanes is left open, so of several occupants under one id any may be found.
