/** The calls `plan` and `replan`, step by step: drafting outside the lock, committing under it. */
module PlanningCalls {
  import opened Wrappers
  import opened Boundaries
  import opened Ledger
  import opened Backfill
  import opened ReplanScope
  import opened Reconcile
  import opened Planner

  // ---------------------------------------------------------------- drafting a batch

  datatype DraftError =
    | NowhereToStart
    | CannotOpen(error: OpenError)
    | BadScope(scope: ScopeError)
    | BadSlice
    | Rejected

  /** A ticket as a planning call may hold it: it starts where the ledger said planning goes on,
      and its ends were accepted for the window there. */
  ghost predicate Drafted(disk: Disk, ref: Place, chars: nat, t: PlanTicket) {
    && Open(disk, ref) == Ok(Opening(ref, t.file, t.start, t.text)) && t.ref == ref
    && t.final == (t.start + chars >= |t.text|)
    && var window := PySlice(t.text, t.start, t.start + chars);
      WellFormed(t.drafts) && Acceptable(window, t.drafts, false) && AreEnds(window, t.drafts, t.final, t.ends)
  }

  /** There is a place to plan from with more than blanks after it. */
  ghost predicate OpensWindow(disk: Disk, p: Project) {
    var start := EffectiveStart(disk.sources, p.items, p.cursor);
    start.Some? && Open(disk, start.value).Ok? && Open(disk, start.value).value.Opening?
  }

  /** Some reply passes for the window that planning opens on this ledger. */
  ghost predicate Answered(disk: Disk, p: Project, replies: seq<Option<seq<Draft>>>) {
    var start := EffectiveStart(disk.sources, p.items, p.cursor);
    start.Some? && AnsweredFrom(disk, start.value, Setting(p.windowChars, DEFAULT_PLANNING_WINDOW_CHARS),
                                Setting(p.maxEpisodes, DEFAULT_PLANNING_MAX_EPISODES), replies)
  }

  ghost predicate AnsweredFrom(disk: Disk, ref: Place, chars: nat, max: nat, replies: seq<Option<seq<Draft>>>) {
    var opening := Open(disk, ref);
    && opening.Ok? && opening.value.Opening?
    && var Opening(_, _, start, text) := opening.value;
      AnyPasses(PySlice(text, start, start + chars), replies, false, Some(max))
  }

  ghost predicate AnyPasses(window: string, replies: seq<Option<seq<Draft>>>, cover: bool, max: Option<nat>) {
    exists i :: 0 <= i < |replies| && Passes(window, replies[i], cover, max)
  }

  /** The ticket of a planning call on this ledger: drafted from its effective start, with the first
      reply that passes, cut to the batch limit. */
  ghost predicate TicketOf(disk: Disk, p: Project, replies: seq<Option<seq<Draft>>>, t: PlanTicket) {
    var start := EffectiveStart(disk.sources, p.items, p.cursor);
    var chars := Setting(p.windowChars, DEFAULT_PLANNING_WINDOW_CHARS);
    var max := Setting(p.maxEpisodes, DEFAULT_PLANNING_MAX_EPISODES);
    && start.Some? && Drafted(disk, start.value, chars, t)
    && exists i :: FirstToPass(PySlice(t.text, t.start, t.start + chars), replies, false, Some(max), i)
        && t.drafts == Truncated(replies[i].value, Some(max))
  }

  ghost predicate FullyPlanned(disk: Disk, p: Project) {
    var start := EffectiveStart(disk.sources, p.items, p.cursor);
    start.Some? && Open(disk, start.value) == Ok(Exhausted)
  }

  /** `plan` up to its commit, on a backfilled ledger; None when the sources are used up.  It fails
      exactly when there is nowhere to plan from or no reply passes. */
  method DraftPlan(disk: Disk, p: Project, replies: seq<Option<seq<Draft>>>)
    returns (r: Result<Option<PlanTicket>, DraftError>)
    requires DistinctRels(disk.sources)
    requires forall i :: 0 <= i < |replies| && replies[i].Some? ==> WellFormed(replies[i].value)
    ensures r == Ok(None) <==> FullyPlanned(disk, p)
    ensures r.Ok? && r.value.Some? <==> Answered(disk, p, replies)
    ensures r.Ok? && r.value.Some? ==>
      && TicketOf(disk, p, replies, r.value.value)
      && |r.value.value.drafts| <= (if p.maxEpisodes >= 1 then p.maxEpisodes else 20)
      && (r.value.value.final <==>
            r.value.value.start + (if p.windowChars >= 1 then p.windowChars else 30000) >= |r.value.value.text|)
  {
    hide Acceptable, AreEnds, DistinctRels, Open, Passes, FirstToPass, EffectiveStart, PySlice, Truncated, WellFormed;
    var ref := FindEffectiveStart(disk.sources, p.items, p.cursor);
    if ref.None? { return Err(NowhereToStart); }
    var opening := OpenWindow(disk, ref.value);
    OpenKeepsRef(disk, ref.value);
    if opening.Err? { return Err(CannotOpen(opening.error)); }
    if opening.value.Exhausted? { return Ok(None); }
    var Opening(_, file, start, text) := opening.value;
    var chars := Setting(p.windowChars, DEFAULT_PLANNING_WINDOW_CHARS);
    var max := Setting(p.maxEpisodes, DEFAULT_PLANNING_MAX_EPISODES);
    var window := PySlice(text, start, start + chars);
    var final := start + chars >= |text|;
    var answer := RequestValidatedDrafts(window, replies, false, final, Some(max));
    if answer.None? { return Err(Rejected); }
    var (drafts, ends) := answer.value;
    return Ok(Some(PlanTicket(ref.value, file, start, text, final, drafts, ends)));
  }

  lemma OpenKeepsRef(disk: Disk, ref: Place)
    ensures Open(disk, ref).Ok? && Open(disk, ref).value.Opening? ==> Open(disk, ref).value.ref == ref
  {
  }

  // ---------------------------------------------------------------- drafting a new layout

  predicate InText(disk: Disk, s: Span) {
    Load(disk, s.file).Some? && 0 <= s.start < s.end <= |Load(disk, s.file).value|
  }

  /** The pieces are an accepted cut of the whole slice. */
  ghost predicate IsCut(disk: Disk, s: Span, pieces: seq<Piece>) {
    && InText(disk, s)
    && exists drafts: seq<Draft>, ends: seq<nat> :: CutsInto(disk, s, drafts, ends, pieces)
  }

  ghost predicate CutsInto(disk: Disk, s: Span, drafts: seq<Draft>, ends: seq<nat>, pieces: seq<Piece>)
    requires InText(disk, s)
  {
    var window := Load(disk, s.file).value[s.start..s.end];
    && WellFormed(drafts) && Acceptable(window, drafts, true) && AreEnds(window, drafts, true, ends)
    && pieces == CutUp(s.file, s.start, drafts, ends)
  }

  /** Slice after slice, each cut completely. */
  ghost predicate Recuts(disk: Disk, slices: seq<Span>, pieces: seq<Piece>) {
    if slices == [] then pieces == []
    else
      exists k :: 0 <= k <= |pieces|
        && Recuts(disk, slices[..|slices| - 1], pieces[..k])
        && IsCut(disk, slices[|slices| - 1], pieces[k..])
  }

  /** The pieces of one slice are cut by the first reply that passes for it, and carry its drafts. */
  ghost predicate CutByReply(disk: Disk, s: Span, replies: seq<Option<seq<Draft>>>, pieces: seq<Piece>) {
    && InText(disk, s)
    && exists i: int, ends: seq<nat> ::
         && FirstToPass(Load(disk, s.file).value[s.start..s.end], replies, true, None, i)
         && CutsInto(disk, s, replies[i].value, ends, pieces)
  }

  ghost predicate CutByReplies(disk: Disk, slices: seq<Span>, replies: seq<seq<Option<seq<Draft>>>>,
                               pieces: seq<Piece>)
  {
    if slices == [] then pieces == []
    else
      var last := |slices| - 1;
      exists k :: 0 <= k <= |pieces|
        && CutByReplies(disk, slices[..last], replies, pieces[..k])
        && CutByReply(disk, slices[last], RepliesFor(replies, last), pieces[k..])
  }

  datatype ReplanReading = NeedsConfirmation(consumed: set<int>) | Ready(ticket: ReplanTicket)

  /** A ticket as a replanning call may hold it. */
  ghost predicate Redrafted(disk: Disk, items: seq<Item>, t: ReplanTicket) {
    && Replannable(items, t.from) && t.affected == Affected(items, t.from)
    && Recuts(disk, Runs(SpansOf(t.affected)), t.pieces)
  }

  /** The generator's replies for the `i`-th slice. */
  function RepliesFor(replies: seq<seq<Option<seq<Draft>>>>, i: nat): seq<Option<seq<Draft>>> {
    if i < |replies| then replies[i] else []
  }

  /** Every slice lies in its text. */
  ghost predicate AllInText(disk: Disk, slices: seq<Span>) {
    forall i :: 0 <= i < |slices| ==> InText(disk, slices[i])
  }

  ghost predicate SlicePasses(disk: Disk, s: Span, replies: seq<Option<seq<Draft>>>) {
    InText(disk, s) && AnyPasses(Load(disk, s.file).value[s.start..s.end], replies, true, None)
  }

  /** Every slice gets a reply that passes. */
  ghost predicate AllSlicesPass(disk: Disk, slices: seq<Span>, replies: seq<seq<Option<seq<Draft>>>>) {
    forall i :: 0 <= i < |slices| ==> SlicePasses(disk, slices[i], RepliesFor(replies, i))
  }

  /** `replan` up to its commit, on a backfilled ledger.  It fails exactly when the ledger cannot be
      re-cut from there, or the re-cut need not be confirmed first and some slice is out of its
      text or gets no reply that passes. */
  method DraftReplan(disk: Disk, p: Project, from: int, confirmed: bool, replies: seq<seq<Option<seq<Draft>>>>)
    returns (r: Result<ReplanReading, DraftError>)
    requires forall i, j :: 0 <= i < |replies| && 0 <= j < |replies[i]| && replies[i][j].Some? ==>
      WellFormed(replies[i][j].value)
    ensures var affected := Affected(p.items, from);
      var asks := !confirmed && ConsumedNums(affected) != {};
      r.Ok? <==>
        Replannable(p.items, from) && (asks || AllSlicesPass(disk, Runs(SpansOf(affected)), replies))
    ensures r.Ok? && !confirmed && ConsumedNums(Affected(p.items, from)) != {} ==>
      r.value == NeedsConfirmation(ConsumedNums(Affected(p.items, from)))
    ensures r.Ok? && (confirmed || ConsumedNums(Affected(p.items, from)) == {}) ==>
      && r.value.Ready? && r.value.ticket.from == from && Redrafted(disk, p.items, r.value.ticket)
      && CutByReplies(disk, Runs(SpansOf(Affected(p.items, from))), replies, r.value.ticket.pieces)
  {
    hide Recuts, Replannable, Affected, ConsumedNums, Runs, Acceptable, AreEnds, AllSlicesPass, SpansOf, CutByReplies;
    var scope := ResolveScope(p, from);
    if scope.Err? { return Err(BadScope(scope.error)); }
    var Scope(slices, affected) := scope.value;
    var consumed := ConsumedNums(affected);
    if consumed != {} && !confirmed { return Ok(NeedsConfirmation(consumed)); }
    var pieces := DraftSlices(disk, slices, replies);
    if pieces.Err? { return Err(pieces.error); }
    return Ok(Ready(ReplanTicket(from, affected, pieces.value)));
  }

  /** One slice after the other is cut anew; all are checked against their texts first. */
  method DraftSlices(disk: Disk, slices: seq<Span>, replies: seq<seq<Option<seq<Draft>>>>)
    returns (r: Result<seq<Piece>, DraftError>)
    requires forall i, j :: 0 <= i < |replies| && 0 <= j < |replies[i]| && replies[i][j].Some? ==>
      WellFormed(replies[i][j].value)
    ensures r.Ok? <==> AllSlicesPass(disk, slices, replies)
    ensures r.Ok? ==> Recuts(disk, slices, r.value) && CutByReplies(disk, slices, replies, r.value)
  {
    hide Recuts, CutByReplies, CutByReply, IsCut, Acceptable, AreEnds, Passes;
    for i := 0 to |slices|
      invariant AllInText(disk, slices[..i])
    {
      if !InText(disk, slices[i]) {
        assert !SlicePasses(disk, slices[i], RepliesFor(replies, i));
        return Err(BadSlice);
      }
    }
    assert slices[..|slices|] == slices;
    var pieces: seq<Piece> := [];
    NothingRecut(disk);
    NothingByReplies(disk, replies);
    for i := 0 to |slices|
      invariant Recuts(disk, slices[..i], pieces) && CutByReplies(disk, slices[..i], replies, pieces)
      invariant forall j :: 0 <= j < i ==> SlicePasses(disk, slices[j], RepliesFor(replies, j))
    {
      var cut := DraftSlice(disk, slices[i], RepliesFor(replies, i));
      if cut.None? { return Err(Rejected); }
      RecutStep(disk, slices, i, pieces, cut.value);
      ByRepliesStep(disk, slices, replies, i, pieces, cut.value);
      pieces := pieces + cut.value;
    }
    assert slices[..|slices|] == slices;
    return Ok(pieces);
  }

  method DraftSlice(disk: Disk, s: Span, replies: seq<Option<seq<Draft>>>) returns (cut: Option<seq<Piece>>)
    requires InText(disk, s)
    requires forall j :: 0 <= j < |replies| && replies[j].Some? ==> WellFormed(replies[j].value)
    ensures cut.Some? <==> SlicePasses(disk, s, replies)
    ensures cut.Some? ==> IsCut(disk, s, cut.value) && CutByReply(disk, s, replies, cut.value)
  {
    hide Acceptable, AreEnds, Passes;
    var window := Load(disk, s.file).value[s.start..s.end];
    var answer := RequestValidatedDrafts(window, replies, true, false, None);
    if answer.None? { return None; }
    var (drafts, ends) := answer.value;
    AcceptableAdvances(window, drafts, true);
    OneEndEach(window, drafts, true, ends);
    var pieces := LayOut(s, drafts, ends);
    assert CutsInto(disk, s, drafts, ends, pieces);
    assert exists i :: FirstToPass(window, replies, true, None, i) && CutsInto(disk, s, replies[i].value, ends, pieces);
    return Some(pieces);
  }

  /** The drafts of one slice as planned episodes. */
  method LayOut(s: Span, drafts: seq<Draft>, ends: seq<nat>) returns (cut: seq<Piece>)
    requires |drafts| == |ends|
    ensures cut == CutUp(s.file, s.start, drafts, ends)
  {
    cut := [];
    var prev := s.start;
    for k := 0 to |ends|
      invariant cut == CutUp(s.file, s.start, drafts[..k], ends[..k])
      invariant prev == if k == 0 then s.start else s.start + ends[k - 1]
    {
      assert drafts[..k + 1][..k] == drafts[..k] && ends[..k + 1][..k] == ends[..k];
      cut := cut + [Piece(drafts[k], Span(s.file, prev, s.start + ends[k]))];
      prev := s.start + ends[k];
    }
    assert drafts[..|ends|] == drafts && ends[..|ends|] == ends;
  }

  lemma OneEndEach(window: string, drafts: seq<Draft>, snap: bool, ends: seq<nat>)
    requires WellFormed(drafts) && Advancing(window, drafts, |drafts|) && AreEnds(window, drafts, snap, ends)
    ensures |ends| == |drafts|
  {
  }

  lemma NothingRecut(disk: Disk)
    ensures Recuts(disk, [], [])
  {
  }

  lemma RecutStep(disk: Disk, slices: seq<Span>, i: nat, pieces: seq<Piece>, cut: seq<Piece>)
    requires i < |slices| && Recuts(disk, slices[..i], pieces) && IsCut(disk, slices[i], cut)
    ensures Recuts(disk, slices[..i + 1], pieces + cut)
  {
    hide IsCut;
    var upTo, all := slices[..i + 1], pieces + cut;
    assert upTo[..|upTo| - 1] == slices[..i];
    assert all[..|pieces|] == pieces && all[|pieces|..] == cut;
  }

  lemma NothingByReplies(disk: Disk, replies: seq<seq<Option<seq<Draft>>>>)
    ensures CutByReplies(disk, [], replies, [])
  {
  }

  lemma ByRepliesStep(disk: Disk, slices: seq<Span>, replies: seq<seq<Option<seq<Draft>>>>, i: nat,
                      pieces: seq<Piece>, cut: seq<Piece>)
    requires i < |slices| && CutByReplies(disk, slices[..i], replies, pieces)
    requires CutByReply(disk, slices[i], RepliesFor(replies, i), cut)
    ensures CutByReplies(disk, slices[..i + 1], replies, pieces + cut)
  {
    hide CutByReply, RepliesFor;
    var upTo, all := slices[..i + 1], pieces + cut;
    assert upTo[..|upTo| - 1] == slices[..i] && upTo[|upTo| - 1] == slices[i];
    assert all[..|pieces|] == pieces && all[|pieces|..] == cut;
  }

  lemma NewEntriesStep(pieces: seq<Piece>, first: int, past: seq<Item>, k: nat)
    requires k < |pieces|
    ensures NewEntries(pieces[..k + 1], first, past)
      == NewEntries(pieces[..k], first, past) + [NewEntry(pieces[k], first + k, OldEntry(past, first + k))]
  {
    assert pieces[..k + 1][..k] == pieces[..k];
  }

  lemma {:induction false} CutUpTake(file: string, base: int, drafts: seq<Draft>, ends: seq<nat>, k: nat)
    requires |drafts| == |ends| && k <= |ends|
    ensures CutUp(file, base, drafts, ends)[..k] == CutUp(file, base, drafts[..k], ends[..k])
    ensures k < |ends| ==>
      var start := if k == 0 then base else base + ends[k - 1];
      CutUp(file, base, drafts, ends)[k] == Piece(drafts[k], Span(file, start, base + ends[k]))
    decreases |ends|
  {
    if k < |ends| {
      var n := |ends| - 1;
      CutUpTake(file, base, drafts[..n], ends[..n], k);
      assert drafts[..n][..k] == drafts[..k] && ends[..n][..k] == ends[..k];
      assert CutUp(file, base, drafts, ends)[..k] == CutUp(file, base, drafts[..n], ends[..n])[..k];
    } else {
      assert drafts[..k] == drafts && ends[..k] == ends;
    }
  }

  // ---------------------------------------------------------------- committing

  method AppendBatch(kept: seq<Item>, t: PlanTicket, first: int) returns (items: seq<Item>)
    requires |t.drafts| == |t.ends|
    ensures items == kept + NewEntries(CutUp(t.file, t.start, t.drafts, t.ends), first, [])
  {
    hide NewEntries, CutUp;
    var prev := t.start;
    items := kept;
    ghost var pieces := CutUp(t.file, t.start, t.drafts, t.ends);
    NoEntries(pieces, first, []);
    for k := 0 to |t.ends|
      invariant items == kept + NewEntries(pieces[..k], first, [])
      invariant prev == if k == 0 then t.start else t.start + t.ends[k - 1]
    {
      CutUpTake(t.file, t.start, t.drafts, t.ends, k);
      NewEntriesStep(pieces, first, [], k);
      var entry := NewEntry(Piece(t.drafts[k], Span(t.file, prev, t.start + t.ends[k])), first + k, None);
      assert items + [entry] == kept + (NewEntries(pieces[..k], first, []) + [entry]);
      items := items + [entry];
      prev := t.start + t.ends[k];
    }
    assert pieces[..|t.ends|] == pieces;
  }

  method AppendLayout(kept: seq<Item>, t: ReplanTicket, current: seq<Item>) returns (items: seq<Item>)
    ensures items == kept + NewEntries(t.pieces, t.from, current)
  {
    hide NewEntries, OldEntry, NewEntry;
    items := kept;
    NoEntries(t.pieces, t.from, current);
    for k := 0 to |t.pieces|
      invariant items == kept + NewEntries(t.pieces[..k], t.from, current)
    {
      NewEntriesStep(t.pieces, t.from, current, k);
      var entry := NewEntry(t.pieces[k], t.from + k, OldEntry(current, t.from + k));
      assert items + [entry] == kept + (NewEntries(t.pieces[..k], t.from, current) + [entry]);
      items := items + [entry];
    }
    assert t.pieces[..|t.pieces|] == t.pieces;
  }

  /** One project: its ledger and its episode files.  A call of a method is what happens inside
      one `update_project`; an error leaves ledger and files as they were. */
  class Workspace {
    const disk: Disk
    const clean: string -> string
    const files: EpisodeFiles
    var project: Project

    constructor (disk: Disk, clean: string -> string, files: EpisodeFiles, project: Project)
      ensures this.disk == disk && this.clean == clean && this.files == files && this.project == project
    {
      this.disk, this.clean, this.files, this.project := disk, clean, files, project;
    }

    method CommitPlan(t: PlanTicket) returns (r: Result<bool, CommitError>)
      requires |t.drafts| == |t.ends| && t.ends != [] && Load(disk, t.file) == Some(t.text)
      modifies this, files
      ensures match PlanCommit(disk, old(files.Contents()), clean, old(project), t)
        case Ok(c) => r == Ok(c.exhausted) && project == c.project && files.Contents() == c.dir
        case Err(e) => r == Err(e) && project == old(project) && files.Contents() == old(files.Contents())
    {
      hide Backfilled, NewEntries, CutUp, AllSliceable, ReconciledDir, EffectiveStart, NonNull, GreatestNum,
        UsedUp, SortIfPossible, Load;
      var ledger := BackfillLedger(disk, files.Contents(), project);
      var now := FindEffectiveStart(disk.sources, ledger.items, ledger.cursor);
      if now.None? { return Err(NothingToPlan); }
      if now.value != t.ref { return Err(Conflict); }
      var kept := NonNull(ledger.items);
      var first := GreatestNum(kept) + 1;
      var items := AppendBatch(kept, t, first);
      ledger := ledger.(items := SortIfPossible(items), cursor := RawCursor(Some(t.file), Some(EndOfBatch(t))));
      var failed := files.ReconcileDerivedFiles(disk, clean, ledger.items, map[t.file := t.text]);
      if failed.Some? { return Err(Unreconciled); }
      project := ledger;
      return Ok(UsedUp(disk, t));
    }

    method CommitReplan(t: ReplanTicket, texts: map<string, string>) returns (r: Result<(), CommitError>)
      requires AllReadable(t.affected)
      requires forall rel :: rel in texts ==> Load(disk, rel) == Some(texts[rel])
      modifies this, files
      ensures match ReplanCommit(disk, old(files.Contents()), clean, old(project), t)
        case Ok(c) => r == Ok(()) && project == c.project && files.Contents() == c.dir
        case Err(e) => r == Err(e) && project == old(project) && files.Contents() == old(files.Contents())
    {
      hide Backfilled, NewEntries, AllSliceable, ReconciledDir, Replannable, Affected, RangesOf, ConsumedNums,
        Kept, SortIfPossible, Runs, SpansOf, Load;
      var ledger := BackfillLedger(disk, files.Contents(), project);
      var scope := ResolveScope(ledger, t.from);
      if scope.Err? { return Err(Conflict); }
      var current := scope.value.affected;
      if RangesOf(current) != RangesOf(t.affected) { return Err(Conflict); }
      if !(ConsumedNums(current) <= ConsumedNums(t.affected)) { return Err(NewlyConsumed); }
      var items := AppendLayout(Kept(ledger.items, current), t, current);
      ledger := ledger.(items := SortIfPossible(items));
      var failed := files.ReconcileDerivedFiles(disk, clean, ledger.items, texts);
      if failed.Some? { return Err(Unreconciled); }
      project := ledger;
      return Ok(());
    }
  }

  lemma NoEntries(pieces: seq<Piece>, first: int, past: seq<Item>)
    ensures NewEntries(pieces[..0], first, past) == []
  {
  }
}
