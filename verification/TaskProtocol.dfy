/** One task from its dispatch until the worker has drained it: the coroutine `_process_task`, its
    shielded writes, cancel flips and cancellations that may fall anywhere
    (lib/generation_worker.py). */
module TaskProtocol {
  import opened Wrappers
  import opened TaskRows

  /** Where the coroutine waits. */
  datatype Pc =
    | NotStarted
    | Routing
    | Executing
    | AwaitWrite(write: Write)
    | AwaitCancel(raise: bool)
    | Ended(cancelled: bool)

  datatype Slot = Held | Popped | Drained

  /** `inner` is the write the coroutine waits for while it has not happened yet, `answer` its row
      count once it has.  `lateWrite` and `lateCancel` are shielded writes under way that nobody
      waits for any more.  The last fields remember what has happened. */
  datatype State = State(
    status: Status, pc: Pc, inner: Option<Write>, answer: Option<nat>, lateWrite: Option<Write>, lateCancel: bool,
    slot: Slot, flipped: bool, interrupted: bool, outcome: Option<bool>)

  datatype Action =
    | Begin
    | Routed
    | Executed(ok: bool)
    | WriteInner
    | WriteLate
    | CancelLate
    | Resume
    | Interrupt
    | Absorb
    | CancelFlip
    | Pop
    | Drain

  /** At dispatch the claimed row is running, or a cancel flip has already come. */
  predicate Initial(s: State) {
    && (s.status == Running || s.status == Cancelling)
    && s.pc == NotStarted && s.inner == None && s.answer == None && s.slot == Held
    && s.lateWrite == None && !s.lateCancel
    && s.flipped == (s.status == Cancelling) && !s.interrupted && s.outcome == None
  }

  function Awaiting(s: State, pc: Pc, w: Write): State {
    s.(pc := pc, inner := Some(w), answer := None)
  }

  function End(s: State, cancelled: bool): State {
    s.(pc := Ended(cancelled), inner := None, answer := None)
  }

  /** A shielded write goes on when the wait for it is interrupted. */
  function Orphan(s: State): State {
    if s.inner.None? then s
    else if s.inner.value == Cancellation then s.(lateCancel := true)
    else s.(lateWrite := s.inner)
  }

  /** An interruption of the execution may reach the coroutine or be absorbed below it: the
      execution then goes on, and absorbs any later one without a trace. */
  predicate Enabled(s: State, a: Action) {
    match a
    case Begin => s.pc == NotStarted
    case Routed => s.pc == Routing
    case Executed(_) => s.pc == Executing
    case WriteInner => s.inner.Some?
    case WriteLate => s.lateWrite.Some?
    case CancelLate => s.lateCancel
    case Resume => s.answer.Some? && (s.pc.AwaitWrite? || s.pc.AwaitCancel?)
    case Interrupt => !s.pc.Ended?
    case Absorb => s.pc == Executing && !s.interrupted
    case CancelFlip => s.status == Running
    case Pop => s.pc.Ended? && s.slot == Held
    case Drain => s.slot == Popped
  }

  function Next(s: State, a: Action): State
    requires Enabled(s, a)
  {
    match a
    case Begin => s.(pc := Routing)
    case Routed => s.(pc := Executing)
    case Executed(ok) =>
      var w := if ok then Success else Failure;
      Awaiting(s, AwaitWrite(w), w).(outcome := Some(ok))
    case WriteInner =>
      s.(status := Apply(s.inner.value, s.status), inner := None, answer := Some(Rows(s.inner.value, s.status)))
    case WriteLate => s.(status := Apply(s.lateWrite.value, s.status), lateWrite := None)
    case CancelLate => s.(status := Apply(Cancellation, s.status), lateCancel := false)
    case Resume =>
      if s.pc.AwaitCancel? then End(s, s.pc.raise)
      else if s.answer == Some(0) then Awaiting(s, AwaitCancel(false), Cancellation)
      else End(s, false)
    case Interrupt => Interrupted(s).(interrupted := true)
    case Absorb => s.(interrupted := true)
    case CancelFlip => s.(status := Apply(Flip, s.status), flipped := true)
    case Pop => s.(slot := Popped)
    case Drain =>
      s.(slot := Drained, status := if s.pc == Ended(true) then Apply(Cancellation, s.status) else s.status)
  }

  /** Where a CancelledError leads: out of the coroutine where nothing catches it, otherwise to
      the final cancellation and then out. */
  function Interrupted(s: State): State {
    match s.pc
    case Executing => Awaiting(s, AwaitCancel(true), Cancellation)
    case AwaitWrite(Success) => Awaiting(Orphan(s), AwaitCancel(true), Cancellation)
    case _ => End(Orphan(s), true)
  }

  // ---------------------------------------------------------------- what every state satisfies

  predicate Early(pc: Pc) {
    pc.NotStarted? || pc.Routing? || pc.Executing?
  }

  /** What the coroutine knows when it waits or has ended. */
  ghost predicate Knows(s: State) {
    && (Early(s.pc) ==>
          && s.inner.None? && s.answer.None? && s.lateWrite.None? && s.outcome.None?
          && (s.status == Running || s.status == Cancelling))
    && (s.pc.AwaitWrite? ==>
          && s.pc.write in {Success, Failure} && (s.inner.Some? <==> s.answer.None?)
          && (s.inner.Some? ==> s.inner.value == s.pc.write)
          && s.lateWrite.None? && (s.answer.Some? && s.answer.value != 0 ==> Terminal(s.status)))
    && (s.pc.AwaitCancel? ==>
          && (s.inner.Some? <==> s.answer.None?) && (s.inner.Some? ==> s.inner.value == Cancellation)
          && (s.answer.Some? ==> Terminal(s.status)))
    && (!s.pc.Ended? ==> !s.lateCancel)
    && (s.pc.Ended? ==> s.inner.None? && s.answer.None? && (!s.pc.cancelled ==> Terminal(s.status)))
  }

  /** A write that may be on its way, given how the execution went. */
  predicate Possible(w: Write, outcome: Option<bool>) {
    w == Cancellation || (w == Success && outcome == Some(true)) || (w == Failure && outcome == Some(false))
  }

  /** No status without a cause. */
  ghost predicate Explained(s: State) {
    && (s.status == Cancelling ==> s.flipped)
    && (s.flipped ==> s.status == Cancelling || s.status == Cancelled)
    && (s.status == Succeeded ==> s.outcome == Some(true))
    && (s.status == Failed ==> s.outcome == Some(false))
    && (s.pc.AwaitWrite? ==> Possible(s.pc.write, s.outcome))
    && (s.lateWrite.Some? ==> Possible(s.lateWrite.value, s.outcome))
  }

  /** Without a flip or an interruption nothing is cancelled. */
  ghost predicate Quiet(s: State) {
    !s.flipped && !s.interrupted ==>
      && s.lateWrite.None? && !s.lateCancel && s.status != Cancelled && !s.pc.AwaitCancel? && s.pc != Ended(true)
      && (s.inner.Some? ==> s.status == Running) && s.answer != Some(0)
  }

  ghost predicate Inv(s: State) {
    && Knows(s) && Explained(s) && Quiet(s)
    && s.status != Queued
    && (s.slot != Held ==> s.pc.Ended?)
    && (s.slot == Drained ==> Terminal(s.status))
  }

  lemma InitialInv(s: State)
    requires Initial(s)
    ensures Inv(s)
  {
  }

  lemma StepKeepsKnows(s: State, a: Action)
    requires Inv(s) && Enabled(s, a)
    ensures Knows(Next(s, a)) && Next(s, a).status != Queued
  {
    hide Quiet;
  }

  /** Steps that move the coroutine; the others are writes, the cancel flip, an absorbed
      interruption and the worker's drain. */
  predicate Moves(a: Action) {
    a.Begin? || a.Routed? || a.Executed? || a.Resume? || a.Interrupt?
  }

  lemma MoveKeepsExplained(s: State, a: Action)
    requires Inv(s) && Enabled(s, a) && Moves(a)
    ensures Explained(Next(s, a))
  {
    hide Quiet;
  }

  lemma WriteKeepsExplained(s: State, a: Action)
    requires Inv(s) && Enabled(s, a) && !Moves(a)
    ensures Explained(Next(s, a))
  {
    hide Quiet;
  }

  lemma StepKeepsExplained(s: State, a: Action)
    requires Inv(s) && Enabled(s, a)
    ensures Explained(Next(s, a))
  {
    hide Inv, Enabled, Next, Explained;
    if Moves(a) {
      MoveKeepsExplained(s, a);
    } else {
      WriteKeepsExplained(s, a);
    }
  }

  lemma StepKeepsQuiet(s: State, a: Action)
    requires Inv(s) && Enabled(s, a)
    ensures Quiet(Next(s, a))
  {
  }

  lemma StepKeepsInv(s: State, a: Action)
    requires Inv(s) && Enabled(s, a)
    ensures Inv(Next(s, a))
  {
    StepKeepsKnows(s, a);
    StepKeepsExplained(s, a);
    StepKeepsQuiet(s, a);
    hide Knows, Explained, Quiet;
    SlotStep(s, a);
  }

  lemma SlotStep(s: State, a: Action)
    requires Inv(s) && Enabled(s, a)
    ensures Next(s, a).slot != Held ==> Next(s, a).pc.Ended?
    ensures Next(s, a).slot == Drained ==> Terminal(Next(s, a).status)
  {
    hide Explained, Quiet;
  }

  // ---------------------------------------------------------------- runs

  ghost predicate Run(states: seq<State>, actions: seq<Action>) {
    && |states| == |actions| + 1 && Initial(states[0])
    && forall i :: 0 <= i < |actions| ==> Enabled(states[i], actions[i]) && states[i + 1] == Next(states[i], actions[i])
  }

  lemma {:induction false} RunKeepsInv(states: seq<State>, actions: seq<Action>, i: nat)
    requires Run(states, actions) && i < |states|
    ensures Inv(states[i])
    decreases i
  {
    if i == 0 {
      InitialInv(states[0]);
    } else {
      RunKeepsInv(states, actions, i - 1);
      hide Inv, Next, Enabled, Initial;
      StepKeepsInv(states[i - 1], actions[i - 1]);
    }
  }

  lemma {:induction false} FromThenOn(states: seq<State>, actions: seq<Action>, i: nat, j: nat)
    requires Run(states, actions) && i <= j < |states|
    ensures Terminal(states[i].status) ==> states[j].status == states[i].status
    ensures states[i].flipped ==> states[j].flipped
    decreases j
  {
    hide Initial, Next, Enabled;
    if i < j {
      FromThenOn(states, actions, i, j - 1);
      StepKeepsTerminal(states[j - 1], actions[j - 1]);
    }
  }

  lemma StepKeepsTerminal(s: State, a: Action)
    requires Enabled(s, a)
    ensures Terminal(s.status) ==> Next(s, a).status == s.status
    ensures s.flipped ==> Next(s, a).flipped
  {
  }

  /** Whatever flips and interruptions come, and wherever they fall: once the worker has drained
      a task its row is terminal for good. */
  lemma DrainedIsTerminal(states: seq<State>, actions: seq<Action>, i: nat, j: nat)
    requires Run(states, actions) && i <= j < |states| && states[i].slot == Drained
    ensures Terminal(states[i].status) && states[j].status == states[i].status
  {
    RunKeepsInv(states, actions, i);
    FromThenOn(states, actions, i, j);
  }

  /** After a cancel flip the task never succeeds or fails: it is being cancelled, and cancelled
      once drained. */
  lemma FlipMeansCancelled(states: seq<State>, actions: seq<Action>, i: nat, j: nat)
    requires Run(states, actions) && i < j < |states| && actions[i] == CancelFlip
    ensures states[j].status in {Cancelling, Cancelled}
    ensures states[j].slot == Drained ==> states[j].status == Cancelled
  {
    FromThenOn(states, actions, i + 1, j);
    RunKeepsInv(states, actions, j);
  }

  /** A task that nobody flips or interrupts ends as its execution ended, and a cancelled task has
      been flipped or interrupted. */
  lemma OutcomeHasItsCause(states: seq<State>, actions: seq<Action>, i: nat)
    requires Run(states, actions) && i < |states|
    ensures states[i].status == Cancelled ==> states[i].flipped || states[i].interrupted
    ensures states[i].status == Succeeded ==> states[i].outcome == Some(true) && !states[i].flipped
    ensures states[i].status == Failed ==> states[i].outcome == Some(false) && !states[i].flipped
    ensures states[i].slot == Drained && !states[i].flipped && !states[i].interrupted ==>
      states[i].status == if states[i].outcome == Some(true) then Succeeded else Failed
  {
    RunKeepsInv(states, actions, i);
  }

  /** A task whose coroutine returns normally is terminal by then; only one that raised
      CancelledError may depend on the drain. */
  lemma ReturnedIsTerminal(states: seq<State>, actions: seq<Action>, i: nat)
    requires Run(states, actions) && i < |states| && states[i].pc == Ended(false)
    ensures Terminal(states[i].status)
  {
    RunKeepsInv(states, actions, i);
  }

  /** Interrupted where it executes or waits for its success to be written. */
  predicate CatchesInterrupt(s: State) {
    s.pc == Executing || s.pc == AwaitWrite(Success)
  }

  /** The final cancellation is under way, or has taken place. */
  predicate BeingEnded(s: State) {
    (s.pc.AwaitCancel? && (s.inner == Some(Cancellation) || Terminal(s.status))) || (s.pc.Ended? && Terminal(s.status))
  }

  /** One interruption there is enough to end the task before the drain: unless another one follows, the
      coroutine does not end before its row is terminal. */
  lemma {:induction false} OneInterruptionEnds(states: seq<State>, actions: seq<Action>, i: nat, j: nat)
    requires Run(states, actions) && i < j < |states| && actions[i] == Interrupt && CatchesInterrupt(states[i])
    requires forall k :: i < k < j ==> actions[k] != Interrupt
    ensures BeingEnded(states[j])
    decreases j
  {
    RunKeepsInv(states, actions, j - 1);
    if i < j - 1 { OneInterruptionEnds(states, actions, i, j - 1); }
    hide Quiet, Explained, Initial;
    EndingGoesOn(states[j - 1], actions[j - 1]);
  }

  lemma EndingGoesOn(s: State, a: Action)
    requires Inv(s) && Enabled(s, a)
    requires if a == Interrupt then CatchesInterrupt(s) else BeingEnded(s)
    ensures BeingEnded(Next(s, a))
  {
    hide Quiet, Explained;
  }

  /** The database has been asked for the write, and it has not happened yet. */
  predicate UnderWay(s: State, w: Write) {
    s.inner == Some(w) || s.lateWrite == Some(w) || (s.lateCancel && w == Cancellation)
  }

  /** In this step the write happens. */
  predicate Happens(s: State, a: Action, w: Write)
    requires Enabled(s, a)
  {
    (a.WriteInner? || a.WriteLate? || a.CancelLate?) && UnderWay(s, w) && Next(s, a).status == Apply(w, s.status)
  }

  lemma ShieldedStep(s: State, a: Action, w: Write)
    requires Inv(s) && Enabled(s, a) && UnderWay(s, w)
    ensures UnderWay(Next(s, a), w) || Happens(s, a, w)
  {
    hide Quiet, Explained;
  }

  /** No interruption loses a shielded write: one that is no longer under way has happened. */
  lemma {:induction false} ShieldedWritesHappen(states: seq<State>, actions: seq<Action>, i: nat, j: nat, w: Write)
    requires Run(states, actions) && i <= j < |states| && UnderWay(states[i], w)
    ensures UnderWay(states[j], w) || exists k :: i <= k < j && Happens(states[k], actions[k], w)
    decreases j
  {
    hide Inv, Next, Enabled, Initial, UnderWay, Happens;
    if i < j {
      ShieldedWritesHappen(states, actions, i, j - 1, w);
      if UnderWay(states[j - 1], w) {
        RunKeepsInv(states, actions, j - 1);
        ShieldedStep(states[j - 1], actions[j - 1], w);
      }
    }
  }

  /** What others may do at any moment: flip a running row, and interrupt a coroutine that has not
      ended.  An interruption itself changes no row, and it ends the coroutine exactly where it is
      not caught. */
  lemma OthersAtAnyMoment(states: seq<State>, actions: seq<Action>, i: nat)
    requires Run(states, actions) && i < |states|
    ensures var s := states[i];
      && (s.status == Running ==> Enabled(s, CancelFlip) && Next(s, CancelFlip).status == Cancelling)
      && (!s.pc.Ended? ==>
            && Enabled(s, Interrupt) && Next(s, Interrupt).status == s.status
            && (Next(s, Interrupt).pc == Ended(true) <==> !CatchesInterrupt(s)))
  {
    RunKeepsInv(states, actions, i);
    hide Quiet, Explained;
  }

  /** Between being taken out of its slot and being looked at by the drain, an interrupted task
      may still count as running: the last write of the drain is needed. */
  lemma PoppedMayStillRun()
    ensures exists states: seq<State>, actions: seq<Action> ::
      Run(states, actions) && states[|actions|].slot == Popped && states[|actions|].status == Running
  {
    var s0 := State(Running, NotStarted, None, None, None, false, Held, false, false, None);
    var s1 := Next(s0, Interrupt);
    var s2 := Next(s1, Pop);
    var states, actions := [s0, s1, s2], [Interrupt, Pop];
    assert Initial(s0);
    assert Run(states, actions);
    assert states[|actions|] == s2;
  }

  // ---------------------------------------------------------------- every run ends

  function Weight(pc: Pc): nat {
    match pc
    case NotStarted => 24
    case Routing => 20
    case Executing => 16
    case AwaitWrite(_) => 12
    case AwaitCancel(_) => 8
    case Ended(_) => 0
  }

  function SlotRank(slot: Slot): nat {
    match slot case Held => 2 case Popped => 1 case Drained => 0
  }

  function InnerRank(inner: Option<Write>): nat {
    if inner.Some? then 1 else 0
  }

  function RowRank(status: Status): nat {
    if status == Running then 1 else 0
  }

  function QuietRank(interrupted: bool): nat {
    if interrupted then 0 else 1
  }

  function LateRank(s: State): nat {
    (if s.lateWrite.Some? then 1 else 0) + (if s.lateCancel then 1 else 0)
  }

  function Rank(s: State): nat {
    Weight(s.pc) + LateRank(s) + InnerRank(s.inner) + SlotRank(s.slot) + RowRank(s.status) + QuietRank(s.interrupted)
  }

  lemma MoveLowersWeight(s: State, a: Action)
    requires Inv(s) && Enabled(s, a) && Moves(a)
    ensures Weight(Next(s, a).pc) + 4 <= Weight(s.pc)
    ensures Next(s, a).slot == s.slot && Next(s, a).status == s.status && (s.interrupted ==> Next(s, a).interrupted)
  {
    hide Quiet, Explained, Knows;
  }

  lemma MoveLeavesFewWrites(s: State, a: Action)
    requires Inv(s) && Enabled(s, a) && Moves(a)
    ensures LateRank(Next(s, a)) + InnerRank(Next(s, a).inner) <= LateRank(s) + InnerRank(s.inner) + 1
  {
    hide Quiet, Explained;
  }

  lemma MoveLowersRank(s: State, a: Action)
    requires Inv(s) && Enabled(s, a) && Moves(a)
    ensures Rank(Next(s, a)) < Rank(s)
  {
    MoveLowersWeight(s, a);
    MoveLeavesFewWrites(s, a);
    hide Inv, Enabled, Next, Weight, LateRank, InnerRank, SlotRank, RowRank;
  }

  lemma WriteLowersRank(s: State, a: Action)
    requires Inv(s) && Enabled(s, a) && !Moves(a)
    ensures Rank(Next(s, a)) < Rank(s)
  {
    hide Quiet, Explained, Weight;
  }

  lemma StepLowersRank(s: State, a: Action)
    requires Inv(s) && Enabled(s, a)
    ensures Rank(Next(s, a)) < Rank(s)
  {
    hide Inv, Enabled, Next, Rank;
    if Moves(a) {
      MoveLowersRank(s, a);
    } else {
      WriteLowersRank(s, a);
    }
  }

  /** No run has more than 28 steps. */
  lemma {:induction false} RunsAreFinite(states: seq<State>, actions: seq<Action>, i: nat)
    requires Run(states, actions) && i < |states|
    ensures i + Rank(states[i]) <= 28
    decreases i
  {
    hide Inv, Next, Enabled, Rank, Initial;
    if i == 0 {
      InitialRank(states[0]);
    } else {
      RunsAreFinite(states, actions, i - 1);
      RunKeepsInv(states, actions, i - 1);
      StepLowersRank(states[i - 1], actions[i - 1]);
    }
  }

  lemma InitialRank(s: State)
    requires Initial(s)
    ensures Rank(s) <= 28
  {
  }

  /** A run that cannot go on has drained its task, and no write is left under way. */
  lemma StuckIsDrained(s: State)
    requires Inv(s) && forall a: Action :: !a.Interrupt? && !a.Absorb? && !a.CancelFlip? ==> !Enabled(s, a)
    ensures s.slot == Drained && Terminal(s.status) && s.lateWrite.None? && !s.lateCancel
  {
    assert !Enabled(s, Begin) && !Enabled(s, Routed) && !Enabled(s, Executed(true));
    assert !Enabled(s, WriteInner) && !Enabled(s, Resume);
    assert !Enabled(s, WriteLate) && !Enabled(s, CancelLate);
    assert !Enabled(s, Pop) && !Enabled(s, Drain);
  }
}
