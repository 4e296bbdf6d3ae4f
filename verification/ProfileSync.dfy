/** The profile sync state machine (lib/profile_manifest.py).

    One key at a time, a file that the profile ships (or not), the project's copy (or none)
    and the manifest's entry decide what happens.  Content stands for its own hash. */
module ProfileSync {
  import opened Wrappers

  type Content = string

  datatype Entry = Active(hash: Content) | Tombstone

  /** The counters a decision moves: the four that partition the keys, and the details. */
  datatype Stat = Created | Repaired | Skipped
  datatype Detail = First | Upgraded | UserModified | UserOnly | Pruned | Orphaned
    | DeletedUser | Tombstoned | Unchanged | Collision

  datatype Cell = Cell(file: Option<Content>, entry: Option<Entry>)
  datatype Decision = Decision(cell: Cell, stat: Stat, detail: Detail)

  /** The fifteen rows, in the order of the source. */
  function Decide(profile: Option<Content>, cell: Cell): Decision {
    match (profile, cell.file, cell.entry)
    case (Some(p), None, None) => Decision(Cell(Some(p), Some(Active(p))), Created, First)            // 1
    case (Some(p), None, Some(Active(m))) => Decision(Cell(None, Some(Tombstone)), Skipped, DeletedUser) // 2
    case (Some(p), Some(d), Some(Active(m))) =>
      if d == p && m == p then Decision(cell, Skipped, Unchanged)                                      // 3
      else if d == m && d != p then Decision(Cell(Some(p), Some(Active(p))), Repaired, Upgraded)       // 4
      else if d != m && d == p then Decision(Cell(Some(d), Some(Active(p))), Skipped, Unchanged)       // 5
      else Decision(cell, Skipped, UserModified)                                                       // 6
    case (None, Some(d), Some(Active(m))) =>
      if d == m then Decision(Cell(None, Some(Tombstone)), Repaired, Pruned)                           // 7
      else Decision(Cell(Some(d), None), Skipped, Orphaned)                                            // 8
    case (None, Some(d), None) => Decision(cell, Skipped, UserOnly)                                    // 9
    case (Some(p), Some(d), Some(Tombstone)) => Decision(Cell(Some(d), None), Skipped, UserOnly)       // 10
    case (Some(p), None, Some(Tombstone)) => Decision(cell, Skipped, Tombstoned)                       // 11
    case (None, Some(d), Some(Tombstone)) => Decision(Cell(Some(d), None), Skipped, UserOnly)          // 12
    case (None, None, Some(Tombstone)) => Decision(cell, Skipped, Tombstoned)                          // 13
    case (None, None, Some(Active(m))) => Decision(Cell(None, Some(Tombstone)), Repaired, Pruned)      // 14
    case (Some(p), Some(d), None) =>                                                                   // 15
      Decision(if d == p then Cell(Some(d), Some(Active(p))) else cell, Skipped, Collision)
    case (None, None, None) => Decision(cell, Skipped, Unchanged)  // no key has all three missing
  }

  // ---------------------------------------------------------------- whole projects

  datatype Project = Project(files: map<string, Content>, entries: map<string, Entry>)

  function CellOf(pj: Project, key: string): Cell {
    Cell(Get(pj.files, key), Get(pj.entries, key))
  }

  function PutCell(pj: Project, key: string, cell: Cell): Project {
    Project(Put(pj.files, key, cell.file), Put(pj.entries, key, cell.entry))
  }

  lemma PutCellOf(pj: Project, key: string, cell: Cell, j: string)
    ensures CellOf(PutCell(pj, key, cell), j) == if j == key then cell else CellOf(pj, j)
  {
    PutGet(pj.files, key, cell.file, j);
    PutGet(pj.entries, key, cell.entry, j);
  }

  lemma SameCells(a: Project, b: Project)
    requires forall key :: CellOf(a, key) == CellOf(b, key)
    ensures a == b
  {
    assert forall key :: Get(a.files, key) == CellOf(a, key).file == CellOf(b, key).file == Get(b.files, key);
    assert forall key :: Get(a.entries, key) == CellOf(a, key).entry == CellOf(b, key).entry == Get(b.entries, key);
    forall key
      ensures key in a.files <==> key in b.files
      ensures key in a.files ==> a.files[key] == b.files[key]
      ensures key in a.entries <==> key in b.entries
      ensures key in a.entries ==> a.entries[key] == b.entries[key]
    {
      assert Get(a.files, key) == Get(b.files, key);
      assert Get(a.entries, key) == Get(b.entries, key);
    }
    assert a.files.Keys == b.files.Keys && a.entries.Keys == b.entries.Keys;
  }

  /** Keys whose path escapes the project are refused before the decision: `refused`. */
  ghost predicate IsSync(profile: map<string, Content>, refused: set<string>, before: Project, after: Project) {
    forall key :: CellOf(after, key) ==
      if key in refused then CellOf(before, key)
      else Decide(Get(profile, key), CellOf(before, key)).cell
  }

  function AllKeys(profile: map<string, Content>, pj: Project): set<string> {
    profile.Keys + pj.files.Keys + pj.entries.Keys
  }

  datatype Stats = Stats(created: nat, repaired: nat, skipped: nat, errors: nat, details: multiset<Detail>)

  function Count(s: Stats, d: Decision): Stats {
    var s' := s.(details := s.details + multiset{d.detail});
    match d.stat
    case Created => s'.(created := s.created + 1)
    case Repaired => s'.(repaired := s.repaired + 1)
    case Skipped => s'.(skipped := s.skipped + 1)
  }

  class ProjectDir {
    var files: map<string, Content>
    var entries: map<string, Entry>

    function State(): Project
      reads this
    {
      Project(files, entries)
    }

    /** One key of the sync: an escaping path only counts as an error. */
    method SyncKey(profile: map<string, Content>, refused: set<string>, key: string, before: Stats,
                   ghost start: Project, ghost done: set<string>) returns (stats: Stats)
      requires SyncedUpTo(profile, refused, start, State(), done) && key !in done
      requires Tally(before, done, refused) && Counted(before, profile, refused, start, done)
      requires key in AllKeys(profile, start)
      modifies this
      ensures SyncedUpTo(profile, refused, start, State(), done + {key})
      ensures Tally(stats, done + {key}, refused) && Counted(stats, profile, refused, start, done + {key})
    {
      hide Decide, Count, SyncedUpTo, Tally, Counted, AllKeys;
      ghost var now := State();
      StillAsBefore(profile, refused, start, now, done, key);
      if key in refused {
        stats := before.(errors := before.errors + 1);
        RefusedKey(profile, refused, start, now, done, key);
        TallyError(before, done, refused, key);
        CountedRefused(before, stats, profile, refused, start, done, key);
      } else {
        var d := Decide(Get(profile, key), Cell(Get(files, key), Get(entries, key)));
        files, entries := Put(files, key, d.cell.file), Put(entries, key, d.cell.entry);
        stats := Count(before, d);
        DecidedKey(profile, refused, start, now, done, key);
        TallyDecision(before, Get(profile, key), CellOf(now, key), done, refused, key);
        CountedOne(before, profile, refused, start, done, key);
      }
    }

    /** The main entry once a manifest of the same content mode is loaded: every key of the
        profile, the project and the manifest is decided once. */
    method Sync(profile: map<string, Content>, refused: set<string>) returns (stats: Stats)
      modifies this
      ensures IsSync(profile, refused, old(State()), State())
      ensures Tally(stats, AllKeys(profile, old(State())), refused)
      ensures forall x :: stats.details[x] == |KeysMeant(profile, refused, old(State()), x)|
    {
      stats := Stats(0, 0, 0, 0, multiset{});
      assert Tally(stats, {}, refused);
      CountedNothing(profile, refused, State());
      hide Decide, SyncedUpTo, IsSync, Tally, AllKeys, CellOf, Split, Counted, KeysMeant;
      var keys := AllKeys(profile, State());
      ghost var before, all := State(), keys;
      ghost var done: set<string> := {};
      SyncStarts(profile, refused, before);
      SplitStarts(all);
      while keys != {}
        invariant Split(all, keys, done)
        invariant SyncedUpTo(profile, refused, before, State(), done)
        invariant Tally(stats, done, refused) && Counted(stats, profile, refused, before, done)
        decreases |keys|
      {
        var key :| key in keys;
        MoveKey(all, keys, done, key);
        stats := SyncKey(profile, refused, key, stats, before, done);
        keys, done := keys - {key}, done + {key};
      }
      SplitEnds(all, done);
      SyncFinishes(profile, refused, before, State(), all);
      CountedAll(stats, profile, refused, before);
    }
  }

  /** The keys still to do and the keys done make up all keys. */
  ghost predicate Split(all: set<string>, keys: set<string>, done: set<string>) {
    done !! keys && done + keys == all
  }

  lemma SplitStarts(all: set<string>)
    ensures Split(all, all, {})
  {
  }

  lemma MoveKey(all: set<string>, keys: set<string>, done: set<string>, key: string)
    requires Split(all, keys, done) && key in keys
    ensures Split(all, keys - {key}, done + {key}) && key in all && key !in done && |keys - {key}| < |keys|
  {
    assert keys == (keys - {key}) + {key};
  }

  lemma SplitEnds(all: set<string>, done: set<string>)
    requires Split(all, {}, done)
    ensures done == all
  {
  }

  /** The keys in `done` have been decided, the others are as before. */
  ghost predicate SyncedUpTo(profile: map<string, Content>, refused: set<string>,
                             before: Project, now: Project, done: set<string>) {
    forall key ::
      CellOf(now, key) ==
      if key in done && key !in refused then Decide(Get(profile, key), CellOf(before, key)).cell
      else CellOf(before, key)
  }

  lemma SyncStarts(profile: map<string, Content>, refused: set<string>, before: Project)
    ensures SyncedUpTo(profile, refused, before, before, {})
  {
  }

  lemma StillAsBefore(profile: map<string, Content>, refused: set<string>,
                      before: Project, now: Project, done: set<string>, key: string)
    requires SyncedUpTo(profile, refused, before, now, done) && key !in done
    ensures CellOf(now, key) == CellOf(before, key)
  {
  }

  lemma RefusedKey(profile: map<string, Content>, refused: set<string>,
                   before: Project, now: Project, done: set<string>, key: string)
    requires SyncedUpTo(profile, refused, before, now, done) && key in refused
    ensures SyncedUpTo(profile, refused, before, now, done + {key})
  {
  }

  lemma DecidedKey(profile: map<string, Content>, refused: set<string>,
                   before: Project, now: Project, done: set<string>, key: string)
    requires SyncedUpTo(profile, refused, before, now, done) && key !in refused && key !in done
    ensures SyncedUpTo(profile, refused, before,
                       PutCell(now, key, Decide(Get(profile, key), CellOf(now, key)).cell), done + {key})
  {
    hide Decide, PutCell, CellOf;
    var cell := Decide(Get(profile, key), CellOf(now, key)).cell;
    forall j { PutCellOf(now, key, cell, j); }
  }

  lemma SyncFinishes(profile: map<string, Content>, refused: set<string>,
                     before: Project, after: Project, all: set<string>)
    requires all == AllKeys(profile, before)
    requires SyncedUpTo(profile, refused, before, after, all)
    ensures IsSync(profile, refused, before, after)
  {
    forall key | key !in all
      ensures Decide(Get(profile, key), CellOf(before, key)).cell == CellOf(before, key)
    {
      assert CellOf(before, key) == Cell(None, None);
    }
  }

  /** Every key of `done` moved exactly one of the four counters, the refused ones the error
      counter, and the detailed counters agree with the four. */
  ghost predicate Tally(s: Stats, done: set<string>, refused: set<string>) {
    && s.created + s.repaired + s.skipped + s.errors == |done|
    && s.errors == |done * refused|
    && |s.details| == s.created + s.repaired + s.skipped
    && s.created == s.details[First]
    && s.repaired == s.details[Upgraded] + s.details[Pruned]
  }

  lemma TallyError(s: Stats, done: set<string>, refused: set<string>, key: string)
    requires Tally(s, done, refused) && key !in done && key in refused
    ensures Tally(s.(errors := s.errors + 1), done + {key}, refused)
  {
    assert (done + {key}) * refused == done * refused + {key};
  }

  lemma TallyDecision(s: Stats, profile: Option<Content>, cell: Cell,
                      done: set<string>, refused: set<string>, key: string)
    requires Tally(s, done, refused) && key !in done && key !in refused
    ensures Tally(Count(s, Decide(profile, cell)), done + {key}, refused)
  {
    assert (done + {key}) * refused == done * refused;
    DecisionCounts(profile, cell);
  }

  lemma DecisionCounts(profile: Option<Content>, cell: Cell)
    ensures var d := Decide(profile, cell);
      && (d.stat.Created? <==> d.detail.First?)
      && (d.stat.Repaired? <==> d.detail.Upgraded? || d.detail.Pruned?)
  {
  }

  // ---------------------------------------------------------------- what a sync does

  /** The project's file is just as it was last delivered. */
  predicate Untouched(file: Option<Content>, entry: Option<Entry>) {
    file.Some? && entry == Some(Active(file.value))
  }

  /** The profile's content arrives where there was neither file nor entry, or where the file is
      untouched; an untouched file goes when the profile has dropped it; every other file stays. */
  function FileAfter(p: Option<Content>, d: Option<Content>, m: Option<Entry>): Option<Content> {
    if p.Some? && ((d.None? && m.None?) || Untouched(d, m)) then p
    else if p.None? && Untouched(d, m) then None
    else d
  }

  /** A missing file with an entry leaves a tombstone, and so does an untouched one that the profile
      has dropped; a file with a tombstone, or one that the profile does not ship, has no entry;
      what the profile has just delivered, or what equals it, is recorded as such; the entry of a
      changed file stays. */
  function EntryAfter(p: Option<Content>, d: Option<Content>, m: Option<Entry>): Option<Entry> {
    if d.None? then
      if m.Some? then Some(Tombstone) else if p.Some? then Some(Active(p.value)) else None
    else if m == Some(Tombstone) then None
    else if p.None? then
      if Untouched(d, m) then Some(Tombstone) else None
    else if Untouched(d, m) || d == p then Some(Active(p.value))
    else m
  }

  /** What a sync means for one key. */
  lemma SyncDelivers(profile: map<string, Content>, refused: set<string>, before: Project, after: Project, key: string)
    requires IsSync(profile, refused, before, after)
    ensures var p, d, m := Get(profile, key), Get(before.files, key), Get(before.entries, key);
      if key in refused then Get(after.files, key) == d && Get(after.entries, key) == m
      else Get(after.files, key) == FileAfter(p, d, m) && Get(after.entries, key) == EntryAfter(p, d, m)
  {
    assert CellOf(after, key) ==
      if key in refused then CellOf(before, key) else Decide(Get(profile, key), CellOf(before, key)).cell;
  }

  /** The file afterwards is the profile's exactly if it was already, there was nothing at all, or it
      was untouched. */
  lemma WhenDelivered(profile: map<string, Content>, refused: set<string>, before: Project, after: Project, key: string)
    requires IsSync(profile, refused, before, after) && key !in refused && key in profile
    ensures Get(after.files, key) == Some(profile[key]) <==>
      || Get(before.files, key) == Some(profile[key])
      || (key !in before.files && key !in before.entries)
      || Untouched(Get(before.files, key), Get(before.entries, key))
  {
    SyncDelivers(profile, refused, before, after, key);
  }

  /** The case that each detailed counter counts. */
  predicate Meant(profile: map<string, Content>, pj: Project, key: string, x: Detail) {
    var p, d, m := Get(profile, key), Get(pj.files, key), Get(pj.entries, key);
    var active := m.Some? && m.value.Active?;
    match x
    case First => p.Some? && d.None? && m.None?
    case Upgraded => p.Some? && d != p && Untouched(d, m)
    case UserModified => p.Some? && d.Some? && d != p && active && !Untouched(d, m)
    case UserOnly => d.Some? && (m == Some(Tombstone) || (p.None? && m.None?))
    case Pruned => p.None? && active && (d.None? || Untouched(d, m))
    case Orphaned => p.None? && active && d.Some? && !Untouched(d, m)
    case DeletedUser => p.Some? && d.None? && active
    case Tombstoned => d.None? && m == Some(Tombstone)
    case Unchanged => p.Some? && d == p && active
    case Collision => p.Some? && d.Some? && m.None?
  }

  lemma DetailIsMeant(profile: map<string, Content>, pj: Project, key: string, x: Detail)
    requires key in AllKeys(profile, pj)
    ensures Decide(Get(profile, key), CellOf(pj, key)).detail == x <==> Meant(profile, pj, key, x)
  {
  }

  function KeysMeant(profile: map<string, Content>, refused: set<string>, pj: Project, x: Detail): set<string> {
    set key | key in AllKeys(profile, pj) && key !in refused && Meant(profile, pj, key, x)
  }

  /** Each detailed counter has counted its own keys among those done. */
  ghost predicate Counted(s: Stats, profile: map<string, Content>, refused: set<string>, pj: Project,
                          done: set<string>) {
    forall x :: s.details[x] == |KeysMeant(profile, refused, pj, x) * done|
  }

  lemma CountedNothing(profile: map<string, Content>, refused: set<string>, pj: Project)
    ensures Counted(Stats(0, 0, 0, 0, multiset{}), profile, refused, pj, {})
  {
    hide KeysMeant;
    assert forall x :: KeysMeant(profile, refused, pj, x) * {} == {};
  }

  lemma CountedRefused(s: Stats, s': Stats, profile: map<string, Content>, refused: set<string>, pj: Project,
                       done: set<string>, key: string)
    requires Counted(s, profile, refused, pj, done) && key in refused && s'.details == s.details
    ensures Counted(s', profile, refused, pj, done + {key})
  {
    forall x
      ensures KeysMeant(profile, refused, pj, x) * (done + {key}) == KeysMeant(profile, refused, pj, x) * done
    {
      assert key !in KeysMeant(profile, refused, pj, x);
    }
    hide KeysMeant;
  }

  lemma CountedOne(s: Stats, profile: map<string, Content>, refused: set<string>, pj: Project, done: set<string>,
                   key: string)
    requires Counted(s, profile, refused, pj, done) && key !in refused && key !in done && key in AllKeys(profile, pj)
    ensures Counted(Count(s, Decide(Get(profile, key), CellOf(pj, key))), profile, refused, pj, done + {key})
  {
    var d := Decide(Get(profile, key), CellOf(pj, key));
    hide Decide, KeysMeant, Meant, AllKeys;
    forall x
      ensures Count(s, d).details[x] == |KeysMeant(profile, refused, pj, x) * (done + {key})|
    {
      KeyIsMeant(profile, refused, pj, key, x);
      OneMore(KeysMeant(profile, refused, pj, x), done, key);
    }
  }

  lemma KeyIsMeant(profile: map<string, Content>, refused: set<string>, pj: Project, key: string, x: Detail)
    requires key !in refused && key in AllKeys(profile, pj)
    ensures key in KeysMeant(profile, refused, pj, x) <==> Decide(Get(profile, key), CellOf(pj, key)).detail == x
  {
    DetailIsMeant(profile, pj, key, x);
    hide Decide, Meant, AllKeys;
  }

  lemma OneMore(keys: set<string>, done: set<string>, key: string)
    requires key !in done
    ensures |keys * (done + {key})| == |keys * done| + if key in keys then 1 else 0
  {
    assert keys * (done + {key}) == keys * done + if key in keys then {key} else {};
  }

  lemma CountedAll(s: Stats, profile: map<string, Content>, refused: set<string>, pj: Project)
    requires Counted(s, profile, refused, pj, AllKeys(profile, pj))
    ensures forall x :: s.details[x] == |KeysMeant(profile, refused, pj, x)|
  {
    forall x
      ensures s.details[x] == |KeysMeant(profile, refused, pj, x)|
    {
      assert KeysMeant(profile, refused, pj, x) * AllKeys(profile, pj) == KeysMeant(profile, refused, pj, x);
    }
  }

  // ---------------------------------------------------------------- convergence

  /** With the profile and the user quiet, a second sync moves no file, a third moves
      nothing at all, and the second moves nothing at all either exactly when no file the
      user had brought back equals the profile's. */
  lemma SyncConverges(profile: map<string, Content>, refused: set<string>,
                      p0: Project, p1: Project, p2: Project, p3: Project)
    requires IsSync(profile, refused, p0, p1)
    requires IsSync(profile, refused, p1, p2)
    requires IsSync(profile, refused, p2, p3)
    ensures p2.files == p1.files
    ensures p3 == p2
    ensures p2 == p1 <==> !exists key :: key !in refused && ComesBackAsShipped(profile, p0, key)
  {
    forall key
      ensures CellOf(p2, key).file == CellOf(p1, key).file
      ensures CellOf(p3, key) == CellOf(p2, key)
      ensures CellOf(p2, key) != CellOf(p1, key) <==> key !in refused && ComesBackAsShipped(profile, p0, key)
    {
      var p := Get(profile, key);
      if key !in refused {
        DecideConverges(p, CellOf(p0, key));
      }
    }
    SameCells(p3, p2);
    SameFiles(p2, p1);
    if p2 != p1 && (forall key :: CellOf(p2, key) == CellOf(p1, key)) {
      SameCells(p2, p1);
    }
  }

  lemma SameFiles(a: Project, b: Project)
    requires forall key :: CellOf(a, key).file == CellOf(b, key).file
    ensures a.files == b.files
  {
    var b' := Project(b.files, a.entries);
    forall key
      ensures CellOf(a, key) == CellOf(b', key)
    {
      assert CellOf(a, key).file == CellOf(b, key).file;
    }
    SameCells(a, b');
  }

  /** A file the user deleted, then put back with the very content the profile ships. */
  predicate ComesBackAsShipped(profile: map<string, Content>, pj: Project, key: string) {
    key in pj.entries && pj.entries[key].Tombstone? && key in profile && key in pj.files
    && pj.files[key] == profile[key]
  }

  lemma DecideConverges(p: Option<Content>, c0: Cell)
    ensures var c1 := Decide(p, c0).cell; var c2 := Decide(p, c1).cell; var c3 := Decide(p, c2).cell;
      c2.file == c1.file && c3 == c2
      && (c2 != c1 <==> c0.entry == Some(Tombstone) && p.Some? && c0.file == p)
  {
  }

  // ---------------------------------------------------------------- runs

  /** What can happen to a project: the user writes or deletes a file, the upstream profile
      is replaced, or a sync runs. */
  datatype Step =
    | Write(key: string, content: Content)
    | Delete(key: string)
    | Upstream(profile: map<string, Content>)
    | Sync(refused: set<string>)

  /** `shipped` remembers every (key, content) pair the profile held at some sync so far. */
  datatype World = World(profile: map<string, Content>, pj: Project, shipped: iset<(string, Content)>)

  ghost predicate Next(w: World, step: Step, w': World) {
    match step
    case Write(key, content) => w' == w.(pj := w.pj.(files := w.pj.files[key := content]))
    case Delete(key) => w' == w.(pj := w.pj.(files := w.pj.files - {key}))
    case Upstream(profile) => w' == w.(profile := profile)
    case Sync(refused) =>
      && IsSync(w.profile, refused, w.pj, w'.pj)
      && w'.profile == w.profile
      && w'.shipped == w.shipped + iset key | key in w.profile :: (key, w.profile[key])
  }

  ghost predicate IsRun(ws: seq<World>, steps: seq<Step>) {
    && |ws| == |steps| + 1
    && forall i :: 0 <= i < |steps| ==> Next(ws[i], steps[i], ws[i + 1])
  }

  /** Every active entry records content the profile shipped for that key. */
  ghost predicate EntriesWereShipped(w: World) {
    forall key :: key in w.pj.entries && w.pj.entries[key].Active? ==>
      (key, w.pj.entries[key].hash) in w.shipped
  }

  lemma StepKeepsShipped(w: World, step: Step, w': World)
    requires EntriesWereShipped(w) && Next(w, step, w')
    ensures EntriesWereShipped(w')
  {
    if step.Sync? {
      forall key | key in w'.pj.entries && w'.pj.entries[key].Active?
        ensures (key, w'.pj.entries[key].hash) in w'.shipped
      {
        assert CellOf(w'.pj, key).entry == Some(w'.pj.entries[key]);
      }
    }
  }

  lemma {:induction false} RunKeepsShipped(ws: seq<World>, steps: seq<Step>, i: nat)
    requires IsRun(ws, steps) && EntriesWereShipped(ws[0]) && i <= |steps|
    ensures EntriesWereShipped(ws[i])
  {
    if i > 0 {
      RunKeepsShipped(ws, steps, i - 1);
      StepKeepsShipped(ws[i - 1], steps[i - 1], ws[i]);
    }
  }

  /** Over any run, a sync overwrites or deletes a file only when the manifest's active
      entry has exactly its content, and the profile shipped that content at an earlier
      sync: nothing a user wrote is lost. */
  lemma SyncNeverLosesUserContent(ws: seq<World>, steps: seq<Step>, i: nat, key: string)
    requires IsRun(ws, steps) && EntriesWereShipped(ws[0]) && i < |steps| && steps[i].Sync?
    requires key in ws[i].pj.files
    requires Get(ws[i + 1].pj.files, key) != Some(ws[i].pj.files[key])
    ensures Get(ws[i].pj.entries, key) == Some(Active(ws[i].pj.files[key]))
    ensures (key, ws[i].pj.files[key]) in ws[i].shipped
    ensures Get(ws[i].profile, key) == Get(ws[i + 1].pj.files, key)
  {
    RunKeepsShipped(ws, steps, i);
    assert CellOf(ws[i + 1].pj, key).file == Get(ws[i + 1].pj.files, key);
    assert Next(ws[i], steps[i], ws[i + 1]);
  }

  /** Recorded as deleted: no file, and a tombstone. */
  predicate Gone(pj: Project, key: string) {
    key !in pj.files && Get(pj.entries, key) == Some(Tombstone)
  }

  /** A sync that finds an active file missing records the deletion; from then on no step
      but the user's own write brings it back, whatever the profile does. */
  lemma {:induction false} DeletionIsFinal(ws: seq<World>, steps: seq<Step>, key: string, i: nat)
    requires IsRun(ws, steps) && i <= |steps|
    requires Gone(ws[0].pj, key)
    requires forall k :: 0 <= k < i && steps[k].Write? ==> steps[k].key != key
    ensures Gone(ws[i].pj, key)
  {
    if i > 0 {
      DeletionIsFinal(ws, steps, key, i - 1);
      var w, w' := ws[i - 1], ws[i];
      assert Next(w, steps[i - 1], w');
      if steps[i - 1].Sync? {
        assert CellOf(w.pj, key) == Cell(None, Some(Tombstone));
        assert CellOf(w'.pj, key) == Cell(None, Some(Tombstone));
      }
    }
  }

  /** When a sync leaves a key recorded as deleted that was not before: the user deleted an
      active file, or upstream dropped an unmodified one.  The second case means a file
      that upstream drops and ships again later is not delivered again. */
  lemma WhatGetsRecordedAsDeleted(w: World, refused: set<string>, w': World, key: string)
    requires Next(w, Sync(refused), w') && !Gone(w.pj, key)
    ensures Gone(w'.pj, key) <==>
      && key !in refused
      && key in w.pj.entries && w.pj.entries[key].Active?
      && (key !in w.pj.files || (key !in w.profile && w.pj.files[key] == w.pj.entries[key].hash))
  {
    assert CellOf(w'.pj, key) == Cell(Get(w'.pj.files, key), Get(w'.pj.entries, key));
    assert Gone(w'.pj, key) <==> CellOf(w'.pj, key) == Cell(None, Some(Tombstone));
  }
}
