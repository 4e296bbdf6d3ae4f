/** Planning again and again without interference: that it ends, when it ends well, and for which
    ledgers it can end well at all. */
module Completion {
  import opened Wrappers
  import opened Boundaries
  import opened Ledger
  import opened Backfill
  import opened Reconcile
  import opened Planner
  import opened PlanningCalls
  import opened Tiling
  import opened PlannerLaws
  import opened PlannerRuns

  /** What the generator answers depends on the project it is asked about. */
  type Generator = Project -> seq<Option<seq<Draft>>>

  ghost predicate AllWellFormed(replies: seq<Option<seq<Draft>>>) {
    forall i :: 0 <= i < |replies| && replies[i].Some? ==> WellFormed(replies[i].value)
  }

  /** The schema asks for anchors of two characters. */
  ghost predicate Answers(generator: Generator) {
    forall p :: AllWellFormed(generator(p))
  }

  function WindowSize(p: Project): (r: nat)
    ensures r >= 1
  {
    Setting(p.windowChars, DEFAULT_PLANNING_WINDOW_CHARS)
  }

  // ---------------------------------------------------------------- the ledgers of a run

  function Extended(p: Project, t: PlanTicket): Project
    requires |t.drafts| == |t.ends| && t.ends != []
  {
    p.(items := Enlarged(p.items, t), cursor := RawCursor(Some(t.file), Some(EndOfBatch(t))))
  }

  lemma SameEnds(window: string, drafts: seq<Draft>, snap: bool, a: seq<nat>, b: seq<nat>)
    requires WellFormed(drafts) && Advancing(window, drafts, |drafts|)
    requires AreEnds(window, drafts, snap, a) && AreEnds(window, drafts, snap, b)
    ensures a == b
  {
    hide EndOf, LeavesBlank, Advancing;
  }

  lemma EndsExist(window: string, drafts: seq<Draft>, snap: bool) returns (ends: seq<nat>)
    requires WellFormed(drafts) && Advancing(window, drafts, |drafts|)
    ensures AreEnds(window, drafts, snap, ends)
  {
    var last := |drafts| - 1;
    var all := seq(|drafts|, i requires 0 <= i < |drafts| => EndOf(window, drafts[i]));
    ends := all[last := if snap && LeavesBlank(window, drafts) then |window| else EndOf(window, drafts[last])];
  }

  /** A ledger and its replies leave no choice of the ticket. */
  lemma OneTicket(disk: Disk, p: Project, replies: seq<Option<seq<Draft>>>, t: PlanTicket, u: PlanTicket)
    requires TicketOf(disk, p, replies, t) && TicketOf(disk, p, replies, u)
    ensures t == u
  {
    hide Open, Passes, Acceptable, AreEnds, Advancing;
    var max := Some(Setting(p.maxEpisodes, DEFAULT_PLANNING_MAX_EPISODES));
    var window := PySlice(t.text, t.start, t.start + WindowSize(p));
    var i :| FirstToPass(window, replies, false, max, i) && t.drafts == Truncated(replies[i].value, max);
    var j :| FirstToPass(window, replies, false, max, j) && u.drafts == Truncated(replies[j].value, max);
    assert i == j;
    AcceptableAdvances(window, t.drafts, false);
    SameEnds(window, t.drafts, t.final, t.ends, u.ends);
  }

  lemma FirstOfThem(window: string, replies: seq<Option<seq<Draft>>>, max: Option<nat>) returns (i: nat)
    requires AnyPasses(window, replies, false, max)
    ensures FirstToPass(window, replies, false, max, i)
  {
    hide Acceptable;
    i := 0;
    while !Passes(window, replies[i], false, max)
      invariant i < |replies| && forall j :: 0 <= j < i ==> !Passes(window, replies[j], false, max)
      decreases |replies| - i
    {
      i := i + 1;
    }
  }

  lemma TicketExists(disk: Disk, p: Project, replies: seq<Option<seq<Draft>>>)
    requires Answered(disk, p, replies)
    ensures exists t :: TicketOf(disk, p, replies, t)
  {
    hide Open, Acceptable, AreEnds, Advancing;
    var ref := EffectiveStart(disk.sources, p.items, p.cursor).value;
    OpenKeepsRef(disk, ref);
    var Opening(_, file, start, text) := Open(disk, ref).value;
    var max := Some(Setting(p.maxEpisodes, DEFAULT_PLANNING_MAX_EPISODES));
    var window, final := PySlice(text, start, start + WindowSize(p)), start + WindowSize(p) >= |text|;
    var i := FirstOfThem(window, replies, max);
    var drafts := Truncated(replies[i].value, max);
    AcceptableAdvances(window, drafts, false);
    var ends := EndsExist(window, drafts, final);
    assert FirstToPass(window, replies, false, max, i);
    assert TicketOf(disk, p, replies, PlanTicket(ref, file, start, text, final, drafts, ends));
  }

  ghost function TicketFor(disk: Disk, p: Project, replies: seq<Option<seq<Draft>>>): (t: PlanTicket)
    requires Answered(disk, p, replies)
    ensures TicketOf(disk, p, replies, t)
    ensures |t.drafts| == |t.ends| && t.ends != []
  {
    TicketExists(disk, p, replies);
    var t :| TicketOf(disk, p, replies, t);
    TicketHasEnds(disk, p, replies, t);
    t
  }

  lemma TicketHasEnds(disk: Disk, p: Project, replies: seq<Option<seq<Draft>>>, t: PlanTicket)
    requires TicketOf(disk, p, replies, t)
    ensures |t.drafts| == |t.ends| && t.ends != []
  {
    DraftedEnds(disk, t, WindowSize(p));
  }

  /** The ledger after one undisturbed planning call. */
  ghost function AfterPlan(disk: Disk, p: Project, replies: seq<Option<seq<Draft>>>): Project {
    if Answered(disk, p, replies) then Extended(p, TicketFor(disk, p, replies)) else p
  }

  /** The ledger after `n` calls. */
  ghost function Ledgers(disk: Disk, p: Project, generator: Generator, n: nat): Project {
    if n == 0 then p
    else
      var before := Ledgers(disk, p, generator, n - 1);
      AfterPlan(disk, before, generator(before))
  }

  /** Whenever a window opens in this run, the generator offers a reply that passes. */
  ghost predicate NeverStuck(disk: Disk, p: Project, generator: Generator) {
    forall n: nat :: OpensWindow(disk, Ledgers(disk, p, generator, n)) ==>
      Answered(disk, Ledgers(disk, p, generator, n), generator(Ledgers(disk, p, generator, n)))
  }

  lemma {:induction false} LedgersShift(disk: Disk, p: Project, generator: Generator, n: nat)
    ensures Ledgers(disk, AfterPlan(disk, p, generator(p)), generator, n) == Ledgers(disk, p, generator, n + 1)
  {
    hide AfterPlan;
    if n > 0 { LedgersShift(disk, p, generator, n - 1); }
  }

  /** Once a call leaves the ledger as it is, all later ones do. */
  lemma {:induction false} LedgersStay(disk: Disk, p: Project, generator: Generator, n: nat, m: nat)
    requires n <= m && !Answered(disk, Ledgers(disk, p, generator, n), generator(Ledgers(disk, p, generator, n)))
    ensures Ledgers(disk, p, generator, m) == Ledgers(disk, p, generator, n)
    decreases m
  {
    hide Answered;
    if n < m { LedgersStay(disk, p, generator, n, m - 1); }
  }

  // ---------------------------------------------------------------- the methods

  ghost function Left(disk: Disk, dir: Dir, p: Project): nat
    requires Tiled(disk, dir, p)
  {
    ProgressBounded(disk, World(p, dir, map[]));
    TotalLength(disk.sources) - Progress(disk, World(p, dir, map[]))
  }

  lemma LessLeft(disk: Disk, v: World, w: World, t: PlanTicket)
    requires Tiled(disk, v.dir, v.project) && Tiled(disk, w.dir, w.project) && t.ends != []
    requires StartOf(disk, v.project) == Some(t.ref) && Known(disk.sources, t.file) && Known(disk.sources, t.ref.file)
    requires StartOf(disk, w.project) == Some(Place(t.file, EndOfBatch(t)))
    requires At(disk.sources, t.ref.file, t.ref.offset) < At(disk.sources, t.file, EndOfBatch(t))
    ensures Left(disk, w.dir, w.project) < Left(disk, v.dir, v.project)
  {
    hide At, StartOf, Tiled;
  }

  lemma PlanTicketText(disk: Disk, t: PlanTicket, chars: nat)
    requires DistinctRels(disk.sources) && Drafted(disk, t.ref, chars, t)
    ensures Load(disk, t.file) == Some(t.text) && |t.drafts| == |t.ends| && t.ends != []
  {
    var d := IndexOf(disk.sources, t.ref.file);
    if d.Some? {
      var next := SkipBlank(disk.sources, d.value + 1);
      if next.Some? { IndexOfDistinct(disk.sources, next.value); }
    }
  }

  /** One whole planning call without interference, on a tiled ledger: it fails, without a trace,
      exactly when a window opens and no reply passes for it; it reports the sources as used up
      exactly when no window opens; otherwise it gets further. */
  method PlanOnce(ws: Workspace, replies: seq<Option<seq<Draft>>>) returns (r: Result<bool, DraftError>)
    requires DistinctRels(ws.disk.sources) && Tiled(ws.disk, ws.files.Contents(), ws.project)
    requires AllWellFormed(replies)
    modifies ws, ws.files
    ensures Tiled(ws.disk, ws.files.Contents(), ws.project)
    ensures r.Err? <==> OpensWindow(ws.disk, old(ws.project)) && !Answered(ws.disk, old(ws.project), replies)
    ensures r == Ok(false) <==> !OpensWindow(ws.disk, old(ws.project))
    ensures ws.project == AfterPlan(ws.disk, old(ws.project), replies)
    ensures r != Ok(true) ==> ws.project == old(ws.project) && ws.files.Contents() == old(ws.files.Contents())
    ensures r == Ok(true) ==>
      Left(ws.disk, ws.files.Contents(), ws.project) < old(Left(ws.disk, ws.files.Contents(), ws.project))
    ensures r == Ok(false) ==>
      forall d: nat, o: nat :: Solid(ws.disk.sources, d, o) ==> PlannedOnce(ws.disk, ws.project, d, o)
  {
    hide Tiled, Drafted, PlanCommit, Open, StartOf, DistinctRels, Solid, PlannedOnce, EndOfBatch, Known, Left, Answered,
      FullyPlanned, OpensWindow, AfterPlan, TicketOf;
    ghost var before := World(ws.project, ws.files.Contents(), map[]);
    TiledParts(ws.disk, before.dir, before.project);
    BackfillIsIdentity(ws.disk, before.dir, before.project);
    OpensOrNot(ws.disk, before.dir, before.project, replies);
    NoAnswerNoChange(ws.disk, before.project, replies);
    var ledger := BackfillLedger(ws.disk, ws.files.Contents(), ws.project);
    var drafted := DraftPlan(ws.disk, ledger, replies);
    if drafted.Err? { return Err(drafted.error); }
    if drafted.value.None? {
      UsedUpIffAllPlanned(ws.disk, before);
      ExhaustedIsNothing(ws.disk, before.project);
      return Ok(false);
    }
    var t := drafted.value.value;
    ghost var chars := Setting(ledger.windowChars, DEFAULT_PLANNING_WINDOW_CHARS);
    TicketIsDrafted(ws.disk, ledger, replies, t);
    PlanTicketText(ws.disk, t, chars);
    PlanKeepsTiled(ws.disk, before.dir, ws.clean, before.project, t, chars);
    var done := ws.CommitPlan(t);
    CommitExtends(ws.disk, before.dir, ws.clean, before.project, t);
    AfterPlanIs(ws.disk, before.project, replies, t);
    LessLeft(ws.disk, before, World(ws.project, ws.files.Contents(), map[]), t);
    return Ok(true);
  }

  lemma NoAnswerNoChange(disk: Disk, p: Project, replies: seq<Option<seq<Draft>>>)
    ensures !Answered(disk, p, replies) ==> AfterPlan(disk, p, replies) == p
  {
  }

  lemma TicketIsDrafted(disk: Disk, p: Project, replies: seq<Option<seq<Draft>>>, t: PlanTicket)
    requires TicketOf(disk, p, replies, t)
    ensures StartOf(disk, p) == Some(t.ref) && Drafted(disk, t.ref, WindowSize(p), t)
    ensures |t.drafts| == |t.ends| && t.ends != []
  {
    DraftedEnds(disk, t, WindowSize(p));
    hide Drafted;
    assert StartOf(disk, p).value == t.ref by { DraftedRef(disk, StartOf(disk, p).value, WindowSize(p), t); }
  }

  lemma DraftedRef(disk: Disk, ref: Place, chars: nat, t: PlanTicket)
    requires Drafted(disk, ref, chars, t)
    ensures t.ref == ref
  {
  }

  lemma CommitExtends(disk: Disk, dir: Dir, clean: string -> string, p: Project, t: PlanTicket)
    requires |t.drafts| == |t.ends| && t.ends != [] && Backfilled(disk, dir, p) == p
    ensures var r := PlanCommit(disk, dir, clean, p, t); r.Ok? ==> r.value.project == Extended(p, t)
  {
    hide Backfilled, Enlarged;
  }

  lemma AfterPlanIs(disk: Disk, p: Project, replies: seq<Option<seq<Draft>>>, t: PlanTicket)
    requires Answered(disk, p, replies) && TicketOf(disk, p, replies, t) && |t.drafts| == |t.ends| && t.ends != []
    ensures AfterPlan(disk, p, replies) == Extended(p, t)
  {
    hide Answered, TicketOf, Extended;
    OneTicket(disk, p, replies, t, TicketFor(disk, p, replies));
  }

  /** On a tiled ledger a window opens unless there is nothing to plan. */
  lemma OpensOrNot(disk: Disk, dir: Dir, p: Project, replies: seq<Option<seq<Draft>>>)
    requires DistinctRels(disk.sources) && Tiled(disk, dir, p)
    ensures OpensWindow(disk, p) <==> !FullyPlanned(disk, p)
    ensures Answered(disk, p, replies) ==> OpensWindow(disk, p)
  {
    hide Open, Tidy;
    OpeningSkipsBlanks(disk, StartOf(disk, p).value);
  }

  lemma ExhaustedIsNothing(disk: Disk, p: Project)
    requires StartOf(disk, p).Some? && FullyPlanned(disk, p)
    ensures Open(disk, StartOf(disk, p).value) == Ok(Exhausted)
  {
  }

  /** Planning again and again comes to an end, whatever the generator answers.  It ends well if
      and only if the generator offers a reply that passes whenever a window opens in its own
      run, and then every character that matters is in exactly one episode. */
  method PlanEverything(ws: Workspace, generator: Generator) returns (r: Result<(), DraftError>)
    requires DistinctRels(ws.disk.sources) && Tiled(ws.disk, ws.files.Contents(), ws.project) && Answers(generator)
    modifies ws, ws.files
    ensures Tiled(ws.disk, ws.files.Contents(), ws.project)
    ensures exists n: nat :: ws.project == Ledgers(ws.disk, old(ws.project), generator, n)
    ensures r.Ok? <==> NeverStuck(ws.disk, old(ws.project), generator)
    ensures r.Ok? <==> !OpensWindow(ws.disk, ws.project)
    ensures r.Err? ==> !Answered(ws.disk, ws.project, generator(ws.project))
    ensures r.Ok? ==>
      forall d: nat, o: nat :: Solid(ws.disk.sources, d, o) ==> PlannedOnce(ws.disk, ws.project, d, o)
  {
    hide Tiled, DistinctRels, Solid, PlannedOnce, Left, OpensWindow, Answered, AllWellFormed, NeverStuck, AfterPlan;
    ghost var first, n: nat := ws.project, 0;
    while true
      invariant Tiled(ws.disk, ws.files.Contents(), ws.project)
      invariant ws.project == Ledgers(ws.disk, first, generator, n)
      invariant AnsweredBefore(ws.disk, first, generator, n)
      decreases Left(ws.disk, ws.files.Contents(), ws.project)
    {
      ghost var before := ws.project;
      OpensOrNot(ws.disk, ws.files.Contents(), before, generator(before));
      var more := PlanOnce(ws, generator(ws.project));
      if more.Err? {
        StuckHere(ws.disk, first, generator, n);
        return Err(more.error);
      }
      if !more.value {
        NoneStuck(ws.disk, first, generator, n);
        return Ok(());
      }
      n := n + 1;
    }
  }

  ghost predicate AnsweredBefore(disk: Disk, p: Project, generator: Generator, n: nat) {
    forall m: nat :: m < n ==>
      Answered(disk, Ledgers(disk, p, generator, m), generator(Ledgers(disk, p, generator, m)))
  }

  lemma StuckHere(disk: Disk, p: Project, generator: Generator, n: nat)
    requires var q := Ledgers(disk, p, generator, n); OpensWindow(disk, q) && !Answered(disk, q, generator(q))
    ensures !NeverStuck(disk, p, generator)
  {
  }

  lemma NoneStuck(disk: Disk, p: Project, generator: Generator, n: nat)
    requires AnsweredBefore(disk, p, generator, n)
    requires var q := Ledgers(disk, p, generator, n); !OpensWindow(disk, q) && !Answered(disk, q, generator(q))
    ensures NeverStuck(disk, p, generator)
  {
    hide OpensWindow, Answered;
    forall m: nat | OpensWindow(disk, Ledgers(disk, p, generator, m))
      ensures Answered(disk, Ledgers(disk, p, generator, m), generator(Ledgers(disk, p, generator, m)))
    {
      if n <= m { LedgersStay(disk, p, generator, n, m); }
    }
  }
}
