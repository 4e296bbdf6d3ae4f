/** Every interleaving of planning and replanning calls. */
module PlannerRuns {
  import opened Wrappers
  import opened Text
  import opened Ledger
  import opened Backfill
  import opened Planner
  import opened PlanningCalls
  import opened Tiling
  import opened PlannerLaws

  /** A call that has read the ledger and thought, but not committed yet. */
  datatype Call =
    | Planning(chars: nat, plan: PlanTicket)
    | Replanning(seen: seq<Item>, layout: ReplanTicket)

  datatype World = World(project: Project, dir: Dir, calls: map<nat, Call>)

  /** What may happen next: a call arrives with what it drafted from whatever it read, be it a
      ledger long gone or files in the middle of another commit; a call commits; an episode is
      consumed downstream; the planning settings change. */
  datatype Action =
    | Begin(id: nat, call: Call)
    | Commit(id: nat)
    | Consume(index: nat)
    | Configure(chars: nat, max: nat)

  ghost function Settle(w: World, id: nat, r: Result<Committed, CommitError>): World {
    match r
    case Ok(c) => World(c.project, c.dir, w.calls - {id})
    case Err(_) => w.(calls := w.calls - {id})
  }

  ghost function CommitOf(disk: Disk, clean: string -> string, w: World, call: Call): Result<Committed, CommitError>
    requires Sound(disk, call)
  {
    match call
    case Planning(chars, t) => DraftedEnds(disk, t, chars); PlanCommit(disk, w.dir, clean, w.project, t)
    case Replanning(seen, t) => RedraftedIsReadable(disk, seen, t); ReplanCommit(disk, w.dir, clean, w.project, t)
  }

  lemma DraftedEnds(disk: Disk, t: PlanTicket, chars: nat)
    requires Drafted(disk, t.ref, chars, t)
    ensures |t.drafts| == |t.ends| && t.ends != []
  {
  }

  /** What a call holds was drafted from some ledger. */
  ghost predicate Sound(disk: Disk, call: Call) {
    match call
    case Planning(chars, t) => Drafted(disk, t.ref, chars, t)
    case Replanning(seen, t) => Redrafted(disk, seen, t)
  }

  ghost predicate Step(disk: Disk, clean: string -> string, w: World, a: Action, w': World) {
    match a
    case Begin(id, call) =>
      id !in w.calls && Sound(disk, call) && w' == w.(calls := w.calls[id := call])
    case Commit(id) =>
      id in w.calls && Sound(disk, w.calls[id]) && w' == Settle(w, id, CommitOf(disk, clean, w, w.calls[id]))
    case Consume(i) =>
      && i < |w.project.items| && w.project.items[i].Item? && w.project.items[i].entry.status == Some(Planned)
      && w' == w.(project := w.project.(items := MarkConsumed(w.project.items, i)))
    case Configure(chars, max) =>
      w' == w.(project := w.project.(windowChars := chars, maxEpisodes := max))
  }

  function MarkConsumed(items: seq<Item>, i: nat): seq<Item>
    requires i < |items| && items[i].Item?
  {
    items[i := Item(items[i].entry.(status := Some(Status.Consumed)))]
  }

  ghost predicate Good(disk: Disk, w: World) {
    Tiled(disk, w.dir, w.project) && forall id <- w.calls :: Sound(disk, w.calls[id])
  }

  /** How far planning has come, in characters of all sources read one after the other. */
  ghost function Progress(disk: Disk, w: World): int
    requires Good(disk, w)
  {
    var s := StartOf(disk, w.project).value;
    At(disk.sources, s.file, s.offset)
  }

  /** A replan that goes through drops no number with several files. */
  ghost predicate CleanStep(w: World, a: Action) {
    a.Commit? && a.id in w.calls && w.calls[a.id].Replanning? ==>
      var t := w.calls[a.id].layout;
      StillAsSeen(w.project.items, t) ==> ShrinksCleanly(w.dir, t.from, |t.pieces|)
  }

  ghost predicate PlanGoesThrough(disk: Disk, w: World, a: Action) {
    && a.Commit? && a.id in w.calls && w.calls[a.id].Planning?
    && StartOf(disk, w.project) == Some(w.calls[a.id].plan.ref)
  }

  // ---------------------------------------------------------------- one step

  lemma {:induction false} ConsumeKeepsSpans(items: seq<Item>, i: nat)
    requires i < |items| && GoodItem(items[i]) && items[i].entry.status == Some(Planned)
    ensures Spans(MarkConsumed(items, i)) == Spans(items)
    ensures LastAnchored(MarkConsumed(items, i)) == LastAnchored(items)
  {
    var after := MarkConsumed(items, i);
    if i < |items| - 1 {
      ConsumeKeepsSpans(items[..|items| - 1], i);
      assert after[..|after| - 1] == MarkConsumed(items[..|items| - 1], i);
    } else {
      assert after[..|after| - 1] == items[..|items| - 1];
    }
  }

  lemma ConsumeKeepsGood(items: seq<Item>, i: nat)
    requires i < |items| && GoodItems(items) && items[i].entry.status == Some(Planned)
    ensures GoodItems(MarkConsumed(items, i))
    ensures forall n :: Has(items, n) ==> Has(MarkConsumed(items, i), n)
  {
    var after := MarkConsumed(items, i);
    assert GoodItem(items[i]) && GoodItem(after[i]);
    assert forall j :: 0 <= j < |items| ==> NumOf(after[j]) == NumOf(items[j]);
    hide GoodItem;
    forall n | Has(items, n)
      ensures Has(after, n)
    {
      assert NumOf(after[First(items, n)]) == Some(n);
    }
  }

  lemma ConsumeKeepsTiled(disk: Disk, dir: Dir, p: Project, i: nat)
    requires Tiled(disk, dir, p) && i < |p.items| && p.items[i].Item? && p.items[i].entry.status == Some(Planned)
    ensures var q := p.(items := MarkConsumed(p.items, i)); Tiled(disk, dir, q) && StartOf(disk, q) == StartOf(disk, p)
  {
    assert GoodItem(p.items[i]);
    hide GoodItem, GoodItems, Spans, LastAnchored, Ordered, CoveredUpTo, MarkConsumed;
    ConsumeKeepsSpans(p.items, i);
    ConsumeKeepsGood(p.items, i);
  }

  /** The world after a planning call commits. */
  lemma PlanCommitKeepsGood(disk: Disk, clean: string -> string, w: World, a: Action, w': World)
    requires DistinctRels(disk.sources) && Good(disk, w) && Step(disk, clean, w, a, w')
    requires a.Commit? && w.calls[a.id].Planning?
    ensures Good(disk, w')
    ensures if PlanGoesThrough(disk, w, a) then Progress(disk, w) < Progress(disk, w')
            else w' == w.(calls := w.calls - {a.id})
  {
    var Planning(chars, t) := w.calls[a.id];
    hide Tiled, StartOf, At, Drafted, PlanCommit, EndOfBatch, Known, DistinctRels;
    DraftedEnds(disk, t, chars);
    TiledParts(disk, w.dir, w.project);
    PlanKeepsTiled(disk, w.dir, clean, w.project, t, chars);
  }

  lemma ReplanCommitKeepsGood(disk: Disk, clean: string -> string, w: World, a: Action, w': World)
    requires Good(disk, w) && Step(disk, clean, w, a, w')
    requires a.Commit? && w.calls[a.id].Replanning?
    ensures Good(disk, w') <==> CleanStep(w, a)
    ensures Good(disk, w') ==> Progress(disk, w) == Progress(disk, w')
  {
    var Replanning(seen, t) := w.calls[a.id];
    hide Tiled, StartOf, At, Redrafted, ReplanCommit, Known, StillAsSeen, Below, Spans, ShrinksCleanly;
    RedraftedIsReadable(disk, seen, t);
    TiledParts(disk, w.dir, w.project);
    ReplanKeepsTiled(disk, w.dir, clean, w.project, t, seen);
  }

  lemma BeginKeepsGood(disk: Disk, clean: string -> string, w: World, a: Action, w': World)
    requires Good(disk, w) && Step(disk, clean, w, a, w') && a.Begin?
    ensures Good(disk, w') && Progress(disk, w) == Progress(disk, w')
  {
    hide Tiled, Drafted, Redrafted, StartOf, At, Known;
    assert w'.project == w.project && w'.dir == w.dir;
  }

  lemma ConsumeKeepsGoodWorld(disk: Disk, clean: string -> string, w: World, a: Action, w': World)
    requires Good(disk, w) && Step(disk, clean, w, a, w') && a.Consume?
    ensures Good(disk, w') && Progress(disk, w) == Progress(disk, w')
  {
    hide Tiled, StartOf, At, Known;
    ConsumeKeepsTiled(disk, w.dir, w.project, a.index);
  }

  lemma ConfigureKeepsGood(disk: Disk, clean: string -> string, w: World, a: Action, w': World)
    requires Good(disk, w) && Step(disk, clean, w, a, w') && a.Configure?
    ensures Good(disk, w') && Progress(disk, w) == Progress(disk, w')
  {
    hide Sound, GoodItems, Spans, EffectiveStart, FilesListed, Known, LeftOverFindable;
  }

  /** A step keeps the ledger tiled exactly when it is no replan that drops a number with several
      files.  Then the effective start does not go back, and a planning call that goes through
      moves it on. */
  lemma StepKeepsGood(disk: Disk, clean: string -> string, w: World, a: Action, w': World)
    requires DistinctRels(disk.sources) && Good(disk, w) && Step(disk, clean, w, a, w')
    ensures Good(disk, w') <==> CleanStep(w, a)
    ensures Good(disk, w') ==>
      Progress(disk, w) + (if PlanGoesThrough(disk, w, a) then 1 else 0) <= Progress(disk, w')
  {
    match a
    case Begin(id, call) => BeginKeepsGood(disk, clean, w, a, w');
    case Commit(id) => CommitKeepsGood(disk, clean, w, a, w');
    case Consume(i) => ConsumeKeepsGoodWorld(disk, clean, w, a, w');
    case Configure(chars, max) => ConfigureKeepsGood(disk, clean, w, a, w');
  }

  lemma CommitKeepsGood(disk: Disk, clean: string -> string, w: World, a: Action, w': World)
    requires DistinctRels(disk.sources) && Good(disk, w) && Step(disk, clean, w, a, w') && a.Commit?
    ensures Good(disk, w') <==> CleanStep(w, a)
    ensures Good(disk, w') ==>
      Progress(disk, w) + (if PlanGoesThrough(disk, w, a) then 1 else 0) <= Progress(disk, w')
  {
    if w.calls[a.id].Planning? {
      PlanCommitKeepsGood(disk, clean, w, a, w');
      hide Tiled, StartOf, At, Settle, Sound;
    } else {
      ReplanCommitKeepsGood(disk, clean, w, a, w');
    }
  }

  // ---------------------------------------------------------------- whole runs

  ghost predicate Run(disk: Disk, clean: string -> string, worlds: seq<World>, actions: seq<Action>) {
    && |worlds| == |actions| + 1
    && forall i :: 0 <= i < |actions| ==> Step(disk, clean, worlds[i], actions[i], worlds[i + 1])
  }

  /** How many planning calls of the run went through. */
  ghost function Successes(disk: Disk, worlds: seq<World>, actions: seq<Action>): nat
    requires |worlds| == |actions| + 1
    decreases |actions|
  {
    if actions == [] then 0
    else
      var n := |actions| - 1;
      Successes(disk, worlds[..|worlds| - 1], actions[..n])
      + if PlanGoesThrough(disk, worlds[n], actions[n]) then 1 else 0
  }

  /** No replan of the run drops a number with several files. */
  ghost predicate CleanRun(worlds: seq<World>, actions: seq<Action>)
    requires |worlds| == |actions| + 1
  {
    forall i :: 0 <= i < |actions| ==> CleanStep(worlds[i], actions[i])
  }

  ghost predicate AllGood(disk: Disk, worlds: seq<World>) {
    forall i :: 0 <= i < |worlds| ==> Good(disk, worlds[i])
  }

  /** In a run from a tiled ledger every ledger is tiled if and only if no replan that goes through
      drops a number with several files. */
  lemma {:induction false} EveryRunTiles(disk: Disk, clean: string -> string, worlds: seq<World>, actions: seq<Action>)
    requires DistinctRels(disk.sources) && Run(disk, clean, worlds, actions) && Good(disk, worlds[0])
    ensures AllGood(disk, worlds) <==> CleanRun(worlds, actions)
    decreases |actions|
  {
    hide Good, Step, CleanStep;
    if actions != [] {
      var n := |actions| - 1;
      var before := worlds[..n + 1];
      assert before[0] == worlds[0] && forall i :: 0 <= i <= n ==> before[i] == worlds[i];
      EveryRunTiles(disk, clean, before, actions[..n]);
      CleanOneMore(worlds, actions);
      GoodOneMore(disk, worlds);
      hide CleanRun, Run;
      if AllGood(disk, before) {
        assert Good(disk, before[n]);
        StepOfRun(disk, clean, worlds, actions, n);
        StepKeepsGood(disk, clean, worlds[n], actions[n], worlds[n + 1]);
      }
    }
  }

  lemma StepOfRun(disk: Disk, clean: string -> string, worlds: seq<World>, actions: seq<Action>, i: nat)
    requires Run(disk, clean, worlds, actions) && i < |actions|
    ensures Step(disk, clean, worlds[i], actions[i], worlds[i + 1])
  {
  }

  /** Each successful planning call of such a run takes at least one more character. */
  lemma {:induction false} RunAdvances(disk: Disk, clean: string -> string, worlds: seq<World>, actions: seq<Action>)
    requires DistinctRels(disk.sources) && Run(disk, clean, worlds, actions) && AllGood(disk, worlds)
    ensures Progress(disk, worlds[0]) + Successes(disk, worlds, actions) <= Progress(disk, worlds[|worlds| - 1])
    decreases |actions|
  {
    hide Good, Step, Progress, PlanGoesThrough;
    if actions != [] {
      var n := |actions| - 1;
      var before := worlds[..|worlds| - 1];
      assert before[0] == worlds[0] && before[n] == worlds[n];
      assert forall i :: 0 <= i <= n ==> before[i] == worlds[i];
      RunAdvances(disk, clean, before, actions[..n]);
      assert Good(disk, worlds[n]) && Good(disk, worlds[n + 1]);
      StepKeepsGood(disk, clean, worlds[n], actions[n], worlds[n + 1]);
    }
  }

  lemma CleanOneMore(worlds: seq<World>, actions: seq<Action>)
    requires |worlds| == |actions| + 1 && actions != []
    ensures var n := |actions| - 1;
      CleanRun(worlds, actions) <==> CleanRun(worlds[..n + 1], actions[..n]) && CleanStep(worlds[n], actions[n])
  {
    hide CleanStep;
    var n := |actions| - 1;
    forall i | 0 <= i < n
      ensures worlds[..n + 1][i] == worlds[i] && actions[..n][i] == actions[i]
    {
    }
    if CleanRun(worlds[..n + 1], actions[..n]) && CleanStep(worlds[n], actions[n]) {
      forall i | 0 <= i < |actions|
        ensures CleanStep(worlds[i], actions[i])
      {
        if i < n { assert CleanStep(worlds[..n + 1][i], actions[..n][i]); }
      }
    }
  }

  lemma GoodOneMore(disk: Disk, worlds: seq<World>)
    requires |worlds| > 1
    ensures var n := |worlds| - 1;
      AllGood(disk, worlds) <==> AllGood(disk, worlds[..n]) && Good(disk, worlds[n])
  {
    hide Good;
    var n := |worlds| - 1;
    assert forall i :: 0 <= i < n ==> worlds[..n][i] == worlds[i];
  }

  /** While no replan drops a number with several files the effective start never goes back. */
  lemma StartNeverGoesBack(disk: Disk, clean: string -> string, worlds: seq<World>, actions: seq<Action>,
                           i: nat, j: nat)
    requires DistinctRels(disk.sources) && Run(disk, clean, worlds, actions) && Good(disk, worlds[0])
    requires i <= j < |worlds| && CleanRun(worlds, actions)
    ensures Good(disk, worlds[i]) && Good(disk, worlds[j])
    ensures Progress(disk, worlds[i]) + Successes(disk, worlds[i..j + 1], actions[i..j]) <= Progress(disk, worlds[j])
  {
    hide Good, Step, Progress, Successes, CleanStep;
    EveryRunTiles(disk, clean, worlds, actions);
    var part, did := worlds[i..j + 1], actions[i..j];
    forall k | 0 <= k < |did|
      ensures Step(disk, clean, part[k], did[k], part[k + 1])
    {
      assert part[k] == worlds[i + k] && part[k + 1] == worlds[i + k + 1] && did[k] == actions[i + k];
    }
    RunAdvances(disk, clean, part, did);
  }

  function TotalLength(sources: seq<Doc>): nat {
    Base(sources, |sources|)
  }

  lemma ProgressBounded(disk: Disk, w: World)
    requires Good(disk, w)
    ensures 0 <= Progress(disk, w) <= TotalLength(disk.sources)
  {
    var s := StartOf(disk, w.project).value;
    var d := IndexOf(disk.sources, s.file).value;
    BaseGrows(disk.sources, d, |disk.sources|);
  }

  /** No run contains more successful planning calls than there are characters left to plan. */
  lemma PlanningIsFinite(disk: Disk, clean: string -> string, worlds: seq<World>, actions: seq<Action>)
    requires DistinctRels(disk.sources) && Run(disk, clean, worlds, actions) && Good(disk, worlds[0])
    requires CleanRun(worlds, actions)
    ensures Successes(disk, worlds, actions) <= TotalLength(disk.sources) - Progress(disk, worlds[0])
  {
    EveryRunTiles(disk, clean, worlds, actions);
    RunAdvances(disk, clean, worlds, actions);
    hide Good, Progress, Step, Successes, CleanRun;
    ProgressBounded(disk, worlds[|worlds| - 1]);
  }

  /** Of two planning calls that read the same starting place, the later to commit is rejected,
      whatever happened in between and however long ago it was. */
  lemma SecondOfTwoIsRejected(disk: Disk, clean: string -> string, worlds: seq<World>, actions: seq<Action>,
                              i: nat, j: nat)
    requires DistinctRels(disk.sources) && Run(disk, clean, worlds, actions) && Good(disk, worlds[0])
    requires i < j < |actions| && PlanGoesThrough(disk, worlds[i], actions[i]) && CleanRun(worlds, actions)
    requires actions[j].Commit? && actions[j].id in worlds[j].calls && worlds[j].calls[actions[j].id].Planning?
    requires worlds[j].calls[actions[j].id].plan.ref == worlds[i].calls[actions[i].id].plan.ref
    ensures var w := worlds[j]; worlds[j + 1] == w.(calls := w.calls - {actions[j].id})
  {
    hide Good, Step, Successes, Progress, CleanRun;
    StartNeverGoesBack(disk, clean, worlds, actions, i, i);
    StartNeverGoesBack(disk, clean, worlds, actions, i + 1, j);
    StepKeepsGood(disk, clean, worlds[i], actions[i], worlds[i + 1]);
    SamePlaceSameProgress(disk, worlds[i], worlds[j]);
    PlanCommitKeepsGood(disk, clean, worlds[j], actions[j], worlds[j + 1]);
  }

  lemma SamePlaceSameProgress(disk: Disk, v: World, w: World)
    requires Good(disk, v) && Good(disk, w)
    ensures Progress(disk, v) != Progress(disk, w) ==> StartOf(disk, v.project) != StartOf(disk, w.project)
  {
  }

  // ---------------------------------------------------------------- the end of planning

  /** Planning reports the sources as used up exactly when every character that matters, in every
      source, lies in exactly one episode. */
  lemma UsedUpIffAllPlanned(disk: Disk, w: World)
    requires DistinctRels(disk.sources) && Good(disk, w)
    ensures Open(disk, StartOf(disk, w.project).value).Ok?
    ensures Open(disk, StartOf(disk, w.project).value).value.Exhausted? <==>
      forall d: nat, o: nat :: Solid(disk.sources, d, o) ==> PlannedOnce(disk, w.project, d, o)
  {
    var start := StartOf(disk, w.project).value;
    hide Open, StartOf, Spans, Tidy, OnlySpanAt;
    OpeningSkipsBlanks(disk, start);
    if Open(disk, start).value.Exhausted? {
      forall d: nat, o: nat | Solid(disk.sources, d, o)
        ensures PlannedOnce(disk, w.project, d, o)
      {
        ExactlyOneEpisode(disk, w.dir, w.project, d, o);
      }
    } else {
      var d, o := SomethingLeft(disk, start);
      forall i: nat
        ensures !OnlySpanAt(Spans(w.project.items), i, disk.sources[d].rel, o)
      {
        BeyondTheSpans(disk, w.project, start, i, d, o);
      }
    }
  }

  ghost predicate PlannedOnce(disk: Disk, p: Project, d: nat, o: nat)
    requires d < |disk.sources|
  {
    exists i: nat :: OnlySpanAt(Spans(p.items), i, disk.sources[d].rel, o)
  }

  lemma SomethingLeft(disk: Disk, start: Place) returns (d: nat, o: nat)
    requires DistinctRels(disk.sources)
    requires Known(disk.sources, start.file) && 0 <= start.offset <= Length(disk.sources, start.file)
    requires Open(disk, start).Ok? && Open(disk, start).value.Opening?
    ensures Solid(disk.sources, d, o)
    ensures At(disk.sources, start.file, start.offset) <= Base(disk.sources, d) + o
  {
    OpeningSkipsBlanks(disk, start);
    var Opening(_, file, from, text) := Open(disk, start).value;
    assert !Blank(text[from..]) by { assert text[0..] == text; assert PySlice(text, from, |text|) == text[from..]; }
    var i :| 0 <= i < |text[from..]| && !IsSpace(text[from..][i]);
    d, o := IndexOf(disk.sources, file).value, from + i;
  }

  lemma BeyondTheSpans(disk: Disk, p: Project, start: Place, i: nat, d: nat, o: nat)
    requires DistinctRels(disk.sources) && TiledTo(disk, p.items, start) && Solid(disk.sources, d, o)
    requires At(disk.sources, start.file, start.offset) <= Base(disk.sources, d) + o
    ensures !OnlySpanAt(Spans(p.items), i, disk.sources[d].rel, o)
  {
    IndexOfDistinct(disk.sources, d);
    hide Spans;
  }
}
