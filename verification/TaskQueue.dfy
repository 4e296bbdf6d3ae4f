/** The queue of tasks in the database: claiming the next one, and failing a task together with
    the queued tasks that wait for it (lib/db/repositories/task_repo.py). */
module TaskQueue {
  import opened Wrappers
  import opened TaskRows

  /** A task may depend on another one, named by its id. */
  datatype Row = Row(id: string, media: string, provider: Option<string>, dependency: Option<string>, status: Status)

  ghost predicate DistinctIds(rows: seq<Row>) {
    forall i, j :: 0 <= i < j < |rows| ==> rows[i].id != rows[j].id
  }

  // ---------------------------------------------------------------- claiming

  predicate HasSucceeded(rows: seq<Row>, id: string) {
    exists j :: 0 <= j < |rows| && rows[j].id == id && rows[j].status == Succeeded
  }

  /** It depends on nothing, or on a task that has succeeded. */
  predicate Ready(rows: seq<Row>, row: Row) {
    row.dependency.None? || HasSucceeded(rows, row.dependency.value)
  }

  predicate Claimable(rows: seq<Row>, row: Row, media: string, full: set<string>) {
    && row.status == Queued && row.media == media
    && (row.provider.None? || row.provider.value !in full)
    && Ready(rows, row)
  }

  /** The first claimable row, in the order of queueing: it is queued for this lane, not with a
      blacklisted provider, and comes no later than any such row that depends on nothing. */
  function NextClaim(rows: seq<Row>, media: string, full: set<string>): (r: Option<nat>)
    ensures r.Some? ==>
      && r.value < |rows| && rows[r.value].status == Queued && rows[r.value].media == media
      && (rows[r.value].provider.Some? ==> rows[r.value].provider.value !in full)
    ensures forall i ::
      && 0 <= i < |rows| && rows[i].status == Queued && rows[i].media == media && rows[i].dependency.None?
      && (rows[i].provider.Some? ==> rows[i].provider.value !in full) ==>
        r.Some? && r.value <= i
    ensures r.Some? ==> r.value < |rows| && Claimable(rows, rows[r.value], media, full)
    ensures r.Some? ==> forall i :: 0 <= i < r.value ==> !Claimable(rows, rows[i], media, full)
    ensures r.None? ==> forall i :: 0 <= i < |rows| ==> !Claimable(rows, rows[i], media, full)
  {
    NextFrom(rows, media, full, 0)
  }

  function NextFrom(rows: seq<Row>, media: string, full: set<string>, k: nat): (r: Option<nat>)
    ensures r.Some? ==> k <= r.value < |rows| && Claimable(rows, rows[r.value], media, full)
    ensures r.Some? ==> forall i :: k <= i < r.value ==> !Claimable(rows, rows[i], media, full)
    ensures r.None? ==> forall i :: k <= i < |rows| ==> !Claimable(rows, rows[i], media, full)
    decreases |rows| - k
  {
    if k >= |rows| then None
    else if Claimable(rows, rows[k], media, full) then Some(k)
    else NextFrom(rows, media, full, k + 1)
  }

  function Waiting(rows: seq<Row>): nat {
    if rows == [] then 0 else Waiting(rows[..|rows| - 1]) + if rows[|rows| - 1].status == Queued then 1 else 0
  }

  lemma {:induction false} WaitingUpdate(rows: seq<Row>, k: nat, row: Row)
    requires k < |rows|
    ensures Waiting(rows[k := row]) ==
      Waiting(rows) - (if rows[k].status == Queued then 1 else 0) + (if row.status == Queued then 1 else 0)
  {
    var n := |rows| - 1;
    if k < n {
      WaitingUpdate(rows[..n], k, row);
      assert rows[k := row][..n] == rows[..n][k := row];
    } else {
      assert rows[k := row][..n] == rows[..n];
    }
  }

  // ---------------------------------------------------------------- waiting in vain

  /** The queued row waits for the task `id`, over at most `n` queued tasks in between. */
  ghost predicate BlockedIn(rows: seq<Row>, k: nat, id: string, n: nat)
    requires k < |rows|
    decreases n, 0
  {
    && rows[k].status == Queued && rows[k].dependency.Some?
    && (rows[k].dependency.value == id || (n > 0 && Relays(rows, rows[k].dependency.value, id, n - 1)))
  }

  ghost predicate Relays(rows: seq<Row>, dependency: string, id: string, n: nat)
    decreases n, 1
  {
    exists j: nat :: j < |rows| && rows[j].id == dependency && BlockedIn(rows, j, id, n)
  }

  /** The queued row waits for the task, directly or over other queued tasks. */
  ghost predicate Blocked(rows: seq<Row>, k: nat, id: string)
    requires k < |rows|
  {
    exists n: nat :: BlockedIn(rows, k, id, n)
  }

  lemma BlockedStep(rows: seq<Row>, k: nat, j: nat, id: string)
    requires k < |rows| && j < |rows| && rows[k].status == Queued
    requires rows[k].dependency == Some(rows[j].id) && Blocked(rows, j, id)
    ensures Blocked(rows, k, id)
  {
    var n: nat :| BlockedIn(rows, j, id, n);
    assert Relays(rows, rows[j].id, id, n);
    assert BlockedIn(rows, k, id, n + 1);
  }

  lemma BlockedDirectly(rows: seq<Row>, k: nat, id: string)
    requires k < |rows| && rows[k].status == Queued && rows[k].dependency == Some(id)
    ensures Blocked(rows, k, id)
  {
    assert BlockedIn(rows, k, id, 0);
  }

  /** Who waits for a task that itself waits for another waits for that one too. */
  lemma {:induction false} BlockedThrough(rows: seq<Row>, k: nat, i: nat, id: string, n: nat)
    requires k < |rows| && i < |rows| && BlockedIn(rows, k, rows[i].id, n) && Blocked(rows, i, id)
    ensures Blocked(rows, k, id)
    decreases n
  {
    if rows[k].dependency.value == rows[i].id {
      BlockedStep(rows, k, i, id);
    } else {
      var j: nat :| j < |rows| && rows[j].id == rows[k].dependency.value && BlockedIn(rows, j, rows[i].id, n - 1);
      BlockedThrough(rows, j, i, id, n - 1);
      BlockedStep(rows, k, j, id);
    }
  }

  /** The same tasks, some of them no longer queued. */
  ghost predicate FewerQueued(a: seq<Row>, b: seq<Row>) {
    && |a| == |b|
    && forall i :: 0 <= i < |a| ==>
         b[i] == a[i].(status := b[i].status) && (b[i].status == Queued ==> a[i].status == Queued)
  }

  lemma {:induction false} FewerBlocked(a: seq<Row>, b: seq<Row>, k: nat, id: string, n: nat)
    requires FewerQueued(a, b) && k < |a| && BlockedIn(b, k, id, n)
    ensures Blocked(a, k, id)
    decreases n
  {
    assert b[k] == a[k].(status := b[k].status);
    if b[k].dependency.value == id {
      BlockedDirectly(a, k, id);
    } else {
      var j: nat :| j < |b| && b[j].id == b[k].dependency.value && BlockedIn(b, j, id, n - 1);
      assert b[j] == a[j].(status := b[j].status);
      FewerBlocked(a, b, j, id, n - 1);
      BlockedStep(a, k, j, id);
    }
  }

  /** A row whose dependency has succeeded waits for nobody that has not. */
  lemma ReadyIsNotBlocked(rows: seq<Row>, k: nat, id: string)
    requires DistinctIds(rows) && k < |rows| && Ready(rows, rows[k]) && !HasSucceeded(rows, id)
    ensures !Blocked(rows, k, id)
  {
    if n: nat :| BlockedIn(rows, k, id, n) {
      var j: nat :| j < |rows| && rows[j].id == rows[k].dependency.value && rows[j].status == Succeeded;
      QueuedRelay(rows, rows[k].dependency.value, id, n, j);
    }
  }

  /** A task in between is queued, so it is not the one that has succeeded. */
  lemma QueuedRelay(rows: seq<Row>, dependency: string, id: string, n: nat, j: nat)
    requires DistinctIds(rows) && j < |rows| && rows[j].id == dependency && rows[j].status == Succeeded
    ensures n > 0 ==> !Relays(rows, dependency, id, n - 1)
  {
  }

  // ---------------------------------------------------------------- the cascade

  function Fail(row: Row): Row {
    row.(status := Failed)
  }

  /** Every queued task that waits for `id` has failed. */
  ghost function Cascaded(rows: seq<Row>, id: string): (r: seq<Row>)
    ensures |r| == |rows|
    ensures forall k: nat :: k < |rows| ==> r[k] == if Blocked(rows, k, id) then Fail(rows[k]) else rows[k]
  {
    seq(|rows|, k requires 0 <= k < |rows| => if Blocked(rows, k, id) then Fail(rows[k]) else rows[k])
  }

  /** Handled: one of these rows, or waiting for one of them. */
  ghost predicate Via(rows: seq<Row>, done: seq<nat>, k: nat)
    requires k < |rows|
  {
    k in done || exists i :: 0 <= i < |done| && done[i] < |rows| && Blocked(rows, k, rows[done[i]].id)
  }

  ghost predicate FailedVia(start: seq<Row>, now: seq<Row>, done: seq<nat>) {
    && |now| == |start|
    && forall k: nat :: k < |start| ==> now[k] == if Via(start, done, k) then Fail(start[k]) else start[k]
  }

  /** The queued rows that depend on `id` directly, in the order of queueing. */
  function Dependents(rows: seq<Row>, id: string): (r: seq<nat>)
    ensures forall k: nat :: k in r <==> k < |rows| && rows[k].status == Queued && rows[k].dependency == Some(id)
  {
    if rows == [] then []
    else
      var n := |rows| - 1;
      var before := Dependents(rows[..n], id);
      assert forall k: nat :: k < n ==> rows[..n][k] == rows[k];
      before + if rows[n].status == Queued && rows[n].dependency == Some(id) then [n] else []
  }

  class Database {
    var rows: seq<Row>

    constructor (rows: seq<Row>)
      ensures this.rows == rows
    {
      this.rows := rows;
    }

    /** Claims the next task, if there is one. */
    method ClaimNext(media: string, full: set<string>) returns (k: Option<nat>)
      modifies this
      ensures k == NextClaim(old(rows), media, full)
      ensures rows == if k.Some? then old(rows)[k.value := old(rows)[k.value].(status := Running)] else old(rows)
    {
      k := NextClaim(rows, media, full);
      if k.Some? { rows := rows[k.value := rows[k.value].(status := Running)]; }
    }

    /** One guarded update of one row; the number of rows it changed. */
    method Update(k: nat, w: Write) returns (count: nat)
      requires k < |rows|
      modifies this
      ensures rows == old(rows)[k := old(rows)[k].(status := Apply(w, old(rows)[k].status))]
      ensures count == Rows(w, old(rows)[k].status)
    {
      count := Rows(w, rows[k].status);
      rows := rows[k := rows[k].(status := Apply(w, rows[k].status))];
    }

    /** A running task fails, and with it every queued task that waits for it. */
    method MarkFailed(k: nat) returns (count: nat)
      requires k < |rows|
      modifies this
      ensures count == Rows(Failure, old(rows)[k].status)
      ensures rows == if count == 0 then old(rows) else Cascaded(old(rows)[k := Fail(old(rows)[k])], old(rows)[k].id)
    {
      count := Update(k, Failure);
      if count == 0 {
        assert old(rows)[k := old(rows)[k]] == old(rows);
        return;
      }
      CascadeFailedQueued(rows[k].id);
    }

    /** `_cascade_failed_queued`: the direct dependents one after the other, each followed by its
        own dependents. */
    method CascadeFailedQueued(id: string)
      modifies this
      ensures rows == Cascaded(old(rows), id)
      decreases Waiting(rows)
    {
      ghost var start := rows;
      var dependents := Dependents(rows, id);
      hide Dependents, Via, FailedVia, Waiting, Blocked;
      NothingVia(start);
      for m := 0 to |dependents|
        invariant FailedVia(start, rows, dependents[..m]) && |rows| == |start|
        invariant Waiting(rows) <= Waiting(start)
      {
        var k := dependents[m];
        assert k in dependents;
        assert dependents[..m + 1] == dependents[..m] + [k];
        if rows[k].status == Queued {
          ghost var now := rows;
          WaitingUpdate(rows, k, Fail(rows[k]));
          rows := rows[k := Fail(rows[k])];
          ghost var failed := rows;
          CascadeFailedQueued(rows[k].id);
          CascadeWaits(failed, failed[k].id);
          OneMoreVia(start, now, dependents[..m], k, id);
        } else {
          AlreadyVia(start, rows, dependents[..m], k, id);
        }
      }
      assert dependents[..|dependents|] == dependents;
      AllVia(start, rows, dependents, id);
    }
  }

  lemma NothingVia(rows: seq<Row>)
    ensures FailedVia(rows, rows, [])
  {
  }

  lemma {:induction false} FewerWaiting(a: seq<Row>, b: seq<Row>)
    requires FewerQueued(a, b)
    ensures Waiting(b) <= Waiting(a)
  {
    if a != [] { FewerWaiting(a[..|a| - 1], b[..|b| - 1]); }
  }

  lemma CascadeWaits(rows: seq<Row>, id: string)
    ensures FewerQueued(rows, Cascaded(rows, id)) && Waiting(Cascaded(rows, id)) <= Waiting(rows)
  {
    hide Blocked, Waiting;
    FewerWaiting(rows, Cascaded(rows, id));
  }

  /** Failing one more dependent with its own dependents. */
  lemma OneMoreVia(start: seq<Row>, now: seq<Row>, done: seq<nat>, k: nat, id: string)
    requires FailedVia(start, now, done) && k < |start| && now[k].status == Queued
    ensures FailedVia(start, Cascaded(now[k := Fail(now[k])], now[k].id), done + [k])
  {
    var failed := now[k := Fail(now[k])];
    var end := Cascaded(failed, now[k].id);
    ViaAppend(start, done, k);
    ViaIsFewer(start, now, done);
    forall x: nat | x < |start|
      ensures end[x] == if Via(start, done + [k], x) then Fail(start[x]) else start[x]
    {
      if Blocked(failed, x, now[k].id) {
        var n: nat :| BlockedIn(failed, x, now[k].id, n);
        FewerBlocked(start, failed, x, now[k].id, n);
      } else if Blocked(start, x, start[k].id) {
        var n: nat :| BlockedIn(start, x, start[k].id, n);
        StillBlocked(start, now, done, k, x, n);
      }
      hide Blocked, Via;
    }
  }

  lemma ViaAppend(rows: seq<Row>, done: seq<nat>, k: nat)
    requires k < |rows|
    ensures forall x: nat :: x < |rows| ==>
      (Via(rows, done + [k], x) <==> Via(rows, done, x) || x == k || Blocked(rows, x, rows[k].id))
  {
    hide Blocked;
    var all := done + [k];
    assert forall i :: 0 <= i < |done| ==> all[i] == done[i];
    assert all[|done|] == k;
  }

  lemma ViaIsFewer(start: seq<Row>, now: seq<Row>, done: seq<nat>)
    requires FailedVia(start, now, done)
    ensures FewerQueued(start, now)
  {
    hide Via;
  }

  /** Who waited for the task at the start has been handled, or still waits for it. */
  lemma {:induction false} StillBlocked(start: seq<Row>, now: seq<Row>, done: seq<nat>, k: nat, x: nat, n: nat)
    requires FailedVia(start, now, done) && k < |start| && x < |start| && BlockedIn(start, x, start[k].id, n)
    ensures Via(start, done, x) || x == k || Blocked(now[k := Fail(now[k])], x, start[k].id)
    decreases n
  {
    var failed := now[k := Fail(now[k])];
    ViaIsFewer(start, now, done);
    if !Via(start, done, x) && x != k {
      assert failed[x] == start[x];
      if start[x].dependency.value == start[k].id {
        BlockedDirectly(failed, x, start[k].id);
      } else {
        var j: nat :| j < |start| && start[j].id == start[x].dependency.value
          && BlockedIn(start, j, start[k].id, n - 1);
        StillBlocked(start, now, done, k, j, n - 1);
        if Via(start, done, j) {
          ViaThrough(start, done, j, x);
        } else {
          BlockedStep(failed, x, j, start[k].id);
        }
      }
    }
  }

  /** Who waits for a handled task is handled. */
  lemma ViaThrough(rows: seq<Row>, done: seq<nat>, j: nat, x: nat)
    requires j < |rows| && x < |rows| && rows[x].status == Queued && rows[x].dependency == Some(rows[j].id)
    requires Via(rows, done, j)
    ensures Via(rows, done, x)
  {
    if j in done {
      var i :| 0 <= i < |done| && done[i] == j;
      BlockedDirectly(rows, x, rows[j].id);
    } else {
      var i :| 0 <= i < |done| && done[i] < |rows| && Blocked(rows, j, rows[done[i]].id);
      BlockedStep(rows, x, j, rows[done[i]].id);
    }
  }

  lemma AlreadyVia(start: seq<Row>, now: seq<Row>, done: seq<nat>, k: nat, id: string)
    requires FailedVia(start, now, done) && k < |start| && start[k].status == Queued && now[k].status != Queued
    ensures FailedVia(start, now, done + [k])
  {
    assert Via(start, done, k);
    ViaAppend(start, done, k);
    forall x: nat | x < |start| && Blocked(start, x, start[k].id)
      ensures Via(start, done, x)
    {
      var n: nat :| BlockedIn(start, x, start[k].id, n);
      ViaFar(start, done, k, x, n);
    }
    hide Via, Blocked;
  }

  lemma {:induction false} ViaFar(rows: seq<Row>, done: seq<nat>, k: nat, x: nat, n: nat)
    requires k < |rows| && x < |rows| && Via(rows, done, k) && BlockedIn(rows, x, rows[k].id, n)
    ensures Via(rows, done, x)
    decreases n
  {
    if rows[x].dependency.value == rows[k].id {
      ViaThrough(rows, done, k, x);
    } else {
      var j: nat :| j < |rows| && rows[j].id == rows[x].dependency.value && BlockedIn(rows, j, rows[k].id, n - 1);
      ViaFar(rows, done, k, j, n - 1);
      ViaThrough(rows, done, j, x);
    }
  }

  /** With all direct dependents handled, exactly the blocked rows are. */
  lemma AllVia(start: seq<Row>, now: seq<Row>, dependents: seq<nat>, id: string)
    requires dependents == Dependents(start, id) && FailedVia(start, now, dependents)
    ensures now == Cascaded(start, id)
  {
    forall k: nat | k < |start|
      ensures Via(start, dependents, k) <==> Blocked(start, k, id)
    {
      ViaIffBlocked(start, dependents, id, k);
    }
    hide Via, Blocked;
  }

  lemma ViaIffBlocked(rows: seq<Row>, dependents: seq<nat>, id: string, k: nat)
    requires dependents == Dependents(rows, id) && k < |rows|
    ensures Via(rows, dependents, k) <==> Blocked(rows, k, id)
  {
    hide Dependents;
    if Blocked(rows, k, id) {
      var n: nat :| BlockedIn(rows, k, id, n);
      BlockedIsVia(rows, dependents, id, k, n);
    } else if Via(rows, dependents, k) {
      if k in dependents {
        BlockedDirectly(rows, k, id);
      } else {
        var i :| 0 <= i < |dependents| && dependents[i] < |rows| && Blocked(rows, k, rows[dependents[i]].id);
        assert dependents[i] in dependents;
        BlockedDirectly(rows, dependents[i], id);
        var n: nat :| BlockedIn(rows, k, rows[dependents[i]].id, n);
        BlockedThrough(rows, k, dependents[i], id, n);
      }
    }
  }

  lemma {:induction false} BlockedIsVia(rows: seq<Row>, dependents: seq<nat>, id: string, k: nat, n: nat)
    requires dependents == Dependents(rows, id) && k < |rows| && BlockedIn(rows, k, id, n)
    ensures Via(rows, dependents, k)
    decreases n
  {
    if rows[k].dependency.value != id {
      var j: nat :| j < |rows| && rows[j].id == rows[k].dependency.value && BlockedIn(rows, j, id, n - 1);
      BlockedIsVia(rows, dependents, id, j, n - 1);
      ViaThrough(rows, dependents, j, k);
    }
  }
}
