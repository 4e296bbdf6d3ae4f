/** The status column of a task and its guarded updates (lib/db/repositories/task_repo.py). */
module TaskRows {

  datatype Status = Queued | Running | Cancelling | Succeeded | Failed | Cancelled

  predicate Terminal(s: Status) {
    s in {Succeeded, Failed, Cancelled}
  }

  /** The guarded updates: success, failure, the cancel flip and the return to the queue only from
      running; the claim, the failure passed on to a waiting task and the withdrawal of one only
      from queued; the final cancellation from anything that is not terminal. */
  datatype Write = Success | Failure | Cancellation | Flip | Requeue | Claim | Cascade | Withdraw

  predicate Allowed(w: Write, s: Status) {
    match w
    case Cancellation => s in {Queued, Cancelling, Running}
    case Claim => s == Queued
    case Cascade => s == Queued
    case Withdraw => s == Queued
    case _ => s == Running
  }

  function Target(w: Write): Status {
    match w
    case Success => Succeeded
    case Failure => Failed
    case Cancellation => Cancelled
    case Flip => Cancelling
    case Requeue => Queued
    case Claim => Running
    case Cascade => Failed
    case Withdraw => Cancelled
  }

  /** The status after the update. */
  function Apply(w: Write, s: Status): Status {
    if Allowed(w, s) then Target(w) else s
  }

  /** How many rows it changed. */
  function Rows(w: Write, s: Status): nat {
    if Allowed(w, s) then 1 else 0
  }

  /** All the ways in which a guarded update changes a status. */
  lemma Transitions(s: Status, t: Status)
    ensures s != t ==>
      ((exists w: Write :: Apply(w, s) == t) <==>
         || (s == Queued && t in {Running, Failed, Cancelled})
         || (s == Running && t in {Succeeded, Failed, Cancelling, Cancelled, Queued})
         || (s == Cancelling && t == Cancelled))
  {
    assert Apply(Claim, s) == t || Apply(Cascade, s) == t || Apply(Withdraw, s) == t || Apply(Success, s) == t
      || Apply(Failure, s) == t || Apply(Flip, s) == t || Apply(Cancellation, s) == t || Apply(Requeue, s) == t
      || forall w: Write :: Apply(w, s) != t;
  }

  function ApplyAll(writes: seq<Write>, s: Status): Status {
    if writes == [] then s else Apply(writes[|writes| - 1], ApplyAll(writes[..|writes| - 1], s))
  }

  /** Whatever is written in whatever order: a terminal status stays, a cancel flip can only end in
      a cancellation, and the last-resort cancellation always leaves a terminal status. */
  lemma {:induction false} WritesKeep(writes: seq<Write>, s: Status)
    ensures Terminal(s) ==> ApplyAll(writes, s) == s
    ensures s in {Cancelling, Cancelled} ==> ApplyAll(writes, s) in {Cancelling, Cancelled}
    ensures Terminal(Apply(Cancellation, ApplyAll(writes, s)))
  {
    if writes != [] { WritesKeep(writes[..|writes| - 1], s); }
  }
}
