/** Claiming queued tasks into free slots (`_claim_tasks`), for a queue that nobody else changes
    except by cancel flips. */
module ClaimLoop {
  import opened Wrappers
  import opened TaskRows
  import opened SlotTable
  import opened TaskQueue

  /** The rows in the order they were queued, the occupied slots, the next asyncio task. */
  datatype Desk = Desk(rows: seq<Row>, slots: Slots, next: nat)

  /** What became of a claimed task: refused because its provider has no such lane, put back
      because the lane is full, or given a slot. */
  datatype Kind = Refused | PutBack | Placed

  datatype Event = Event(index: nat, kind: Kind, provider: string, flipped: bool)

  /** What a claim loop depends on: the limits, how a task is routed to a provider, and the tasks
      that a cancel flip catches between their claim and the worker's next write. */
  datatype Context = Context(limits: Limits, route: string -> string, flips: set<string>)

  // ---------------------------------------------------------------- one claim

  function KindOf(slots: Slots, limits: Limits, provider: string, media: string): Kind {
    var cap := limits.Get(provider, media);
    if cap <= 0 then Refused
    else if !HasRoom(slots, provider, media, cap) then PutBack
    else Placed
  }

  /** The row's status after the claim, a cancel flip if one comes, and the worker's write. */
  function StatusAfter(kind: Kind, flipped: bool): Status {
    var claimed := if flipped then Apply(Flip, Running) else Running;
    match kind
    case Refused => Apply(Failure, claimed)
    case PutBack => Apply(Requeue, claimed)
    case Placed => claimed
  }

  function EventFor(desk: Desk, ctx: Context, k: nat): Event
    requires k < |desk.rows|
  {
    var row := desk.rows[k];
    Event(k, KindOf(desk.slots, ctx.limits, ctx.route(row.id), row.media), ctx.route(row.id), row.id in ctx.flips)
  }

  /** The rows after one event: a task that fails takes those that wait for it along. */
  ghost function RowsNow(rows: seq<Row>, e: Event): (r: seq<Row>)
    requires e.index < |rows|
    ensures |r| == |rows|
  {
    var claimed := rows[e.index := rows[e.index].(status := StatusAfter(e.kind, e.flipped))];
    if FailsTask(e) then Cascaded(claimed, rows[e.index].id) else claimed
  }

  predicate FailsTask(e: Event) {
    e.kind == Refused && !e.flipped
  }

  ghost function Happen(desk: Desk, e: Event): Desk
    requires e.index < |desk.rows|
  {
    var row := desk.rows[e.index];
    var rows := RowsNow(desk.rows, e);
    if e.kind == Placed then
      Desk(rows, Registered(desk.slots, Key(e.provider, row.media), row.id, Occupant(desk.next, false)), desk.next + 1)
    else desk.(rows := rows)
  }

  /** One lane: claim until nothing is claimable or a task had to be put back. */
  ghost function Lane(desk: Desk, ctx: Context, media: string): (r: (Desk, seq<Event>))
    decreases Waiting(desk.rows)
  {
    match NextClaim(desk.rows, media, PoolFull(desk.slots, ctx.limits, media))
    case None => (desk, [])
    case Some(k) =>
      var e := EventFor(desk, ctx, k);
      var after := Happen(desk, e);
      if e.kind == PutBack then (after, [e])
      else
        HappenTakesOne(desk, e);
        var (end, rest) := Lane(after, ctx, media);
        (end, [e] + rest)
  }

  lemma HappenTakesOne(desk: Desk, e: Event)
    requires e.index < |desk.rows| && desk.rows[e.index].status == Queued && e.kind != PutBack
    ensures Waiting(Happen(desk, e).rows) < Waiting(desk.rows)
  {
    var row := desk.rows[e.index].(status := StatusAfter(e.kind, e.flipped));
    WaitingUpdate(desk.rows, e.index, row);
    CascadeWaits(desk.rows[e.index := row], row.id);
    hide Waiting, Cascaded;
  }

  // ---------------------------------------------------------------- what a lane does

  predicate Mentions(log: seq<Event>, k: nat) {
    exists i :: 0 <= i < |log| && log[i].index == k
  }

  ghost predicate DistinctIndices(log: seq<Event>) {
    forall i, j :: 0 <= i < j < |log| ==> log[i].index != log[j].index
  }

  /** The event is about a task that was waiting and ready. */
  predicate FromQueue(rows: seq<Row>, e: Event) {
    e.index < |rows| && rows[e.index].status == Queued && Ready(rows, rows[e.index])
  }

  ghost predicate AllFromQueue(rows: seq<Row>, log: seq<Event>) {
    forall i :: 0 <= i < |log| ==> FromQueue(rows, log[i])
  }

  ghost predicate OfMedia(rows: seq<Row>, media: string, log: seq<Event>) {
    forall i :: 0 <= i < |log| ==> log[i].index < |rows| && rows[log[i].index].media == media
  }

  /** The row waited for the task that the event failed. */
  ghost predicate Stops(rows: seq<Row>, e: Event, k: nat)
    requires k < |rows|
  {
    FailsTask(e) && e.index < |rows| && Blocked(rows, k, rows[e.index].id)
  }

  ghost predicate Stopped(rows: seq<Row>, log: seq<Event>, k: nat)
    requires k < |rows|
  {
    exists i :: 0 <= i < |log| && Stops(rows, log[i], k)
  }

  /** What the rows become: each claimed one as its event says; of the others, those that waited
      for a task that failed have failed too, and the rest are as they were. */
  ghost predicate RowsAfter(before: seq<Row>, after: seq<Row>, log: seq<Event>) {
    && |after| == |before|
    && (forall i :: 0 <= i < |log| ==>
          && log[i].index < |before|
          && after[log[i].index] == before[log[i].index].(status := StatusAfter(log[i].kind, log[i].flipped)))
    && forall k: nat :: k < |before| && !Mentions(log, k) ==>
         after[k] == if Stopped(before, log, k) then Fail(before[k]) else before[k]
  }

  ghost predicate LaneDid(before: seq<Row>, end: seq<Row>, media: string, log: seq<Event>) {
    && DistinctIndices(log)
    && AllFromQueue(before, log) && OfMedia(before, media, log)
    && (forall i :: 0 <= i < |log| - 1 ==> log[i].kind != PutBack)
    && RowsAfter(before, end, log)
  }

  /** Each waiting task of the lane is claimed at most once, every claimed task meets exactly one
      fate, and its row says which; only the last one can have been put back.  The tasks that
      waited for a refused one have failed with it, and no other row has changed. */
  lemma {:induction false} LaneOutcome(desk: Desk, ctx: Context, media: string)
    requires DistinctIds(desk.rows)
    ensures LaneDid(desk.rows, Lane(desk, ctx, media).0.rows, media, Lane(desk, ctx, media).1)
    decreases Waiting(desk.rows)
  {
    hide NextClaim, PoolFull, LaneDid, FromQueue, EventFor, Happen, Waiting, DistinctIds;
    var next := NextClaim(desk.rows, media, PoolFull(desk.slots, ctx.limits, media));
    if next.None? {
      LaneStopsHere(desk, ctx, media);
    } else {
      hide Lane;
      EventFromQueue(desk, ctx, media, next.value);
      var e := EventFor(desk, ctx, next.value);
      var after := Happen(desk, e);
      if e.kind == PutBack {
        LaneEnds(desk, ctx, media, next.value);
        NothingMore(after.rows, media);
        OneMoreEvent(desk, e, after, media, after.rows, []);
        assert [e] + [] == [e];
      } else {
        HappenTakesOne(desk, e);
        LaneGoesOn(desk, ctx, media, next.value);
        HappenKeepsIds(desk, e);
        LaneOutcome(after, ctx, media);
        OneMoreEvent(desk, e, after, media, Lane(after, ctx, media).0.rows, Lane(after, ctx, media).1);
      }
    }
  }

  lemma LaneStopsHere(desk: Desk, ctx: Context, media: string)
    requires NextClaim(desk.rows, media, PoolFull(desk.slots, ctx.limits, media)).None?
    ensures Lane(desk, ctx, media) == (desk, []) && LaneDid(desk.rows, desk.rows, media, [])
  {
  }

  lemma EventFromQueue(desk: Desk, ctx: Context, media: string, k: nat)
    requires NextClaim(desk.rows, media, PoolFull(desk.slots, ctx.limits, media)) == Some(k)
    ensures EventFor(desk, ctx, k).index == k && FromQueue(desk.rows, EventFor(desk, ctx, k))
    ensures desk.rows[k].status == Queued && desk.rows[k].media == media
  {
    hide PoolFull, Ready;
  }

  lemma NothingMore(rows: seq<Row>, media: string)
    ensures LaneDid(rows, rows, media, [])
  {
  }

  /** Nothing about a row but its status ever changes. */
  ghost predicate SameTasks(a: seq<Row>, b: seq<Row>) {
    |a| == |b| && forall i :: 0 <= i < |a| ==> b[i] == a[i].(status := b[i].status)
  }

  lemma HappenKeepsIds(desk: Desk, e: Event)
    requires e.index < |desk.rows|
    ensures SameTasks(desk.rows, Happen(desk, e).rows)
    ensures DistinctIds(desk.rows) ==> DistinctIds(Happen(desk, e).rows)
  {
    hide Blocked;
    var now := Happen(desk, e).rows;
    forall i | 0 <= i < |now|
      ensures now[i] == desk.rows[i].(status := now[i].status)
    {
    }
  }

  /** One event alone: the claimed row, those that waited for it, and nothing else. */
  lemma OneEvent(rows: seq<Row>, e: Event)
    requires e.index < |rows|
    ensures RowsAfter(rows, RowsNow(rows, e), [e])
    ensures DistinctIds(rows) && FromQueue(rows, e) && e.kind != PutBack ==> RowsNow(rows, e)[e.index].status != Queued
  {
    var claimed := rows[e.index := rows[e.index].(status := StatusAfter(e.kind, e.flipped))];
    var id := rows[e.index].id;
    if FailsTask(e) {
      var i := e.index;
      assert claimed == rows[i := Fail(rows[i])];
      assert !Blocked(claimed, i, id) by { hide Relays; }
      forall k: nat | k < |rows| && k != i
        ensures Blocked(claimed, k, id) <==> Blocked(rows, k, id)
      {
        PastTheFailed(rows, i, k);
      }
    }
    forall k: nat | k < |rows| && !Mentions([e], k)
      ensures RowsNow(rows, e)[k] == if Stopped(rows, [e], k) then Fail(rows[k]) else rows[k]
    {
      assert [e][0].index != k;
      assert Stopped(rows, [e], k) <==> Stops(rows, e, k) by { assert [e][0] == e; }
    }
  }

  /** Taking the failed task itself out of the queue frees nobody who waits for it. */
  lemma PastTheFailed(rows: seq<Row>, i: nat, k: nat)
    requires i < |rows| && k < |rows| && k != i
    ensures Blocked(rows[i := Fail(rows[i])], k, rows[i].id) <==> Blocked(rows, k, rows[i].id)
  {
    var failed := rows[i := Fail(rows[i])];
    if Blocked(failed, k, rows[i].id) {
      var n: nat :| BlockedIn(failed, k, rows[i].id, n);
      FewerBlocked(rows, failed, k, rows[i].id, n);
    } else if Blocked(rows, k, rows[i].id) {
      var n: nat :| BlockedIn(rows, k, rows[i].id, n);
      StillPast(rows, i, k, n);
    }
  }

  lemma {:induction false} StillPast(rows: seq<Row>, i: nat, k: nat, n: nat)
    requires i < |rows| && k < |rows| && k != i && BlockedIn(rows, k, rows[i].id, n)
    ensures Blocked(rows[i := Fail(rows[i])], k, rows[i].id)
    decreases n
  {
    var failed := rows[i := Fail(rows[i])];
    if rows[k].dependency.value == rows[i].id {
      BlockedDirectly(failed, k, rows[i].id);
    } else {
      var j: nat :| j < |rows| && rows[j].id == rows[k].dependency.value && BlockedIn(rows, j, rows[i].id, n - 1);
      StillPast(rows, i, j, n - 1);
      BlockedStep(failed, k, j, rows[i].id);
    }
  }

  // ---------------------------------------------------------------- one log after another

  /** A log only takes rows out of the queue, and none of its rows comes to succeed. */
  lemma LogKeeps(before: seq<Row>, mid: seq<Row>, log: seq<Event>)
    requires RowsAfter(before, mid, log) && AllFromQueue(before, log)
    ensures FewerQueued(before, mid)
    ensures forall i :: 0 <= i < |before| && mid[i].status == Succeeded ==> before[i].status == Succeeded
  {
    hide Stopped, Ready;
    forall i | 0 <= i < |before|
      ensures mid[i] == before[i].(status := mid[i].status)
      ensures mid[i].status == Queued ==> before[i].status == Queued
      ensures mid[i].status == Succeeded ==> before[i].status == Succeeded
    {
      if Mentions(log, i) {
        var j :| 0 <= j < |log| && log[j].index == i;
        assert FromQueue(before, log[j]);
      }
    }
  }

  lemma LaterFromQueue(before: seq<Row>, mid: seq<Row>, log: seq<Event>, e: Event)
    requires RowsAfter(before, mid, log) && AllFromQueue(before, log) && FromQueue(mid, e)
    ensures FromQueue(before, e)
    ensures !Mentions(log, e.index) ==> mid[e.index] == before[e.index]
    ensures DistinctIds(before) ==> !HasSucceeded(before, before[e.index].id)
  {
    LogKeeps(before, mid, log);
    hide RowsAfter, AllFromQueue;
    var row := mid[e.index];
    if row.dependency.Some? {
      var j: nat :| j < |mid| && mid[j].id == row.dependency.value && mid[j].status == Succeeded;
      assert before[j].id == row.dependency.value && before[j].status == Succeeded;
    }
    if !Mentions(log, e.index) { Unmentioned(before, mid, log, e.index); }
  }

  lemma Unmentioned(before: seq<Row>, mid: seq<Row>, log: seq<Event>, k: nat)
    requires RowsAfter(before, mid, log) && k < |before| && !Mentions(log, k) && mid[k].status == Queued
    ensures mid[k] == before[k] && !Stopped(before, log, k)
  {
  }

  /** Who waits for a task before the log, is not claimed in it and does not fail in it, still
      waits for that task afterwards. */
  lemma {:induction false} StillWaits(before: seq<Row>, mid: seq<Row>, log: seq<Event>, k: nat, id: string, n: nat)
    requires DistinctIds(before) && RowsAfter(before, mid, log) && AllFromQueue(before, log)
    requires k < |before| && !Mentions(log, k) && !Stopped(before, log, k)
    requires !HasSucceeded(before, id) && BlockedIn(before, k, id, n)
    ensures k < |mid| && Blocked(mid, k, id)
    decreases n
  {
    LogKeeps(before, mid, log);
    assert mid[k] == before[k];
    if before[k].dependency.value == id {
      BlockedDirectly(mid, k, id);
    } else {
      var j: nat :| j < |before| && before[j].id == before[k].dependency.value && BlockedIn(before, j, id, n - 1);
      hide RowsAfter;
      NotClaimed(before, log, j, id);
      NotStopped(before, log, k, j);
      StillWaits(before, mid, log, j, id, n - 1);
      assert mid[j].id == before[j].id;
      BlockedStep(mid, k, j, id);
    }
  }

  /** A task that waits is not claimed. */
  lemma NotClaimed(rows: seq<Row>, log: seq<Event>, j: nat, id: string)
    requires DistinctIds(rows) && AllFromQueue(rows, log)
    requires j < |rows| && Blocked(rows, j, id) && !HasSucceeded(rows, id)
    ensures !Mentions(log, j)
  {
    forall i | 0 <= i < |log|
      ensures log[i].index != j
    {
      assert FromQueue(rows, log[i]);
      hide Blocked, DistinctIds;
      if log[i].index == j { ReadyIsNotBlocked(rows, j, id); }
    }
  }

  /** If the one it waits for fails, it fails too. */
  lemma NotStopped(rows: seq<Row>, log: seq<Event>, k: nat, j: nat)
    requires k < |rows| && j < |rows| && rows[k].status == Queued && rows[k].dependency == Some(rows[j].id)
    requires !Stopped(rows, log, k)
    ensures !Stopped(rows, log, j)
  {
    forall i | 0 <= i < |log|
      ensures !Stops(rows, log[i], j)
    {
      hide Blocked;
      assert !Stops(rows, log[i], k);
      if Stops(rows, log[i], j) { BlockedStep(rows, k, j, rows[log[i].index].id); }
    }
  }

  ghost predicate Apart(log: seq<Event>, more: seq<Event>) {
    forall i, j :: 0 <= i < |log| && 0 <= j < |more| ==> log[i].index != more[j].index
  }

  lemma MentionsJoined(log: seq<Event>, more: seq<Event>, k: nat)
    ensures Mentions(log + more, k) <==> Mentions(log, k) || Mentions(more, k)
  {
    var all := log + more;
    assert forall i :: 0 <= i < |log| ==> all[i] == log[i];
    assert forall i :: 0 <= i < |more| ==> all[|log| + i] == more[i];
  }

  lemma StoppedJoined(rows: seq<Row>, log: seq<Event>, more: seq<Event>, k: nat)
    requires k < |rows|
    ensures Stopped(rows, log + more, k) <==> Stopped(rows, log, k) || Stopped(rows, more, k)
  {
    hide Stops;
    var all := log + more;
    assert forall i :: 0 <= i < |log| ==> all[i] == log[i];
    assert forall i :: 0 <= i < |more| ==> all[|log| + i] == more[i];
  }

  /** Of the rows no log mentions, the later log fails those that waited for its failures before
      the earlier log. */
  lemma StoppedLater(before: seq<Row>, mid: seq<Row>, log: seq<Event>, more: seq<Event>, k: nat)
    requires DistinctIds(before) && RowsAfter(before, mid, log) && AllFromQueue(before, log)
    requires |mid| == |before| && AllFromQueue(mid, more) && Apart(log, more)
    requires k < |before| && !Mentions(log, k) && !Stopped(before, log, k)
    ensures Stopped(mid, more, k) <==> Stopped(before, more, k)
  {
    LogKeeps(before, mid, log);
    forall i | 0 <= i < |more|
      ensures Stops(mid, more[i], k) <==> Stops(before, more[i], k)
    {
      assert FromQueue(mid, more[i]);
      var x := more[i].index;
      LaterFromQueue(before, mid, log, more[i]);
      assert mid[x].id == before[x].id;
      hide RowsAfter, FromQueue;
      if Stops(mid, more[i], k) {
        var n: nat :| BlockedIn(mid, k, mid[x].id, n);
        FewerBlocked(before, mid, k, mid[x].id, n);
      } else if Stops(before, more[i], k) {
        var n: nat :| BlockedIn(before, k, before[x].id, n);
        StillWaits(before, mid, log, k, before[x].id, n);
      }
    }
    hide Stops;
  }

  /** A row that was claimed is spared by later failures. */
  lemma ClaimedIsSpared(before: seq<Row>, mid: seq<Row>, log: seq<Event>, more: seq<Event>, i: nat)
    requires DistinctIds(before) && RowsAfter(before, mid, log) && AllFromQueue(before, log) && i < |log|
    requires |mid| == |before| && AllFromQueue(mid, more)
    requires log[i].index < |mid|
    ensures !Stopped(mid, more, log[i].index)
  {
    var x := log[i].index;
    LogKeeps(before, mid, log);
    assert FromQueue(before, log[i]);
    forall j | 0 <= j < |more|
      ensures !Stops(mid, more[j], x)
    {
      assert FromQueue(mid, more[j]);
      LaterFromQueue(before, mid, log, more[j]);
      var id := mid[more[j].index].id;
      assert id == before[more[j].index].id;
      hide RowsAfter, FromQueue, DistinctIds;
      ReadyIsNotBlocked(before, x, id);
      if Blocked(mid, x, id) {
        var n: nat :| BlockedIn(mid, x, id, n);
        FewerBlocked(before, mid, x, id, n);
      }
    }
  }

  lemma JoinLogs(before: seq<Row>, mid: seq<Row>, end: seq<Row>, log: seq<Event>, more: seq<Event>)
    requires DistinctIds(before) && DistinctIndices(log) && DistinctIndices(more) && Apart(log, more)
    requires AllFromQueue(before, log) && AllFromQueue(mid, more)
    requires RowsAfter(before, mid, log) && RowsAfter(mid, end, more)
    ensures DistinctIndices(log + more) && AllFromQueue(before, log + more) && RowsAfter(before, end, log + more)
  {
    var all := log + more;
    assert forall i :: 0 <= i < |log| ==> all[i] == log[i];
    assert forall i :: |log| <= i < |all| ==> all[i] == more[i - |log|];
    forall i | 0 <= i < |all|
      ensures FromQueue(before, all[i])
      ensures end[all[i].index] == before[all[i].index].(status := StatusAfter(all[i].kind, all[i].flipped))
    {
      if i < |log| {
        ClaimedIsSpared(before, mid, log, more, i);
        assert FromQueue(before, log[i]);
        assert !Mentions(more, log[i].index);
      } else {
        var e := more[i - |log|];
        assert FromQueue(mid, e);
        LaterFromQueue(before, mid, log, e);
        assert !Mentions(log, e.index);
      }
    }
    forall k: nat | k < |before| && !Mentions(all, k)
      ensures end[k] == if Stopped(before, all, k) then Fail(before[k]) else before[k]
    {
      MentionsJoined(log, more, k);
      StoppedJoined(before, log, more, k);
      if Stopped(before, log, k) {
        FailedIsSpared(mid, more, k);
      } else {
        StoppedLater(before, mid, log, more, k);
      }
    }
  }

  lemma FailedIsSpared(rows: seq<Row>, log: seq<Event>, k: nat)
    requires k < |rows| && rows[k].status != Queued
    ensures !Stopped(rows, log, k)
  {
    hide Relays;
  }

  lemma OneMoreEvent(desk: Desk, e: Event, after: Desk, media: string, end: seq<Row>, rest: seq<Event>)
    requires e.index < |desk.rows| && FromQueue(desk.rows, e) && desk.rows[e.index].media == media
    requires DistinctIds(desk.rows) && after == Happen(desk, e)
    requires LaneDid(after.rows, end, media, rest) && (e.kind == PutBack ==> rest == [])
    ensures LaneDid(desk.rows, end, media, [e] + rest)
  {
    var log := [e];
    OneEvent(desk.rows, e);
    HappenKeepsIds(desk, e);
    assert AllFromQueue(desk.rows, log) && DistinctIndices(log);
    forall j | 0 <= j < |rest|
      ensures rest[j].index != e.index
    {
      assert FromQueue(after.rows, rest[j]);
    }
    var all := [e] + rest;
    assert forall i :: 0 < i < |all| ==> all[i] == rest[i - 1];
    hide RowsAfter, DistinctIds, FromQueue, Happen, RowsNow;
    assert Apart(log, rest);
    JoinLogs(desk.rows, after.rows, end, log, rest);
  }

  lemma LaneEnds(desk: Desk, ctx: Context, media: string, k: nat)
    requires NextClaim(desk.rows, media, PoolFull(desk.slots, ctx.limits, media)) == Some(k)
    requires EventFor(desk, ctx, k).kind == PutBack
    ensures Lane(desk, ctx, media) == (Happen(desk, EventFor(desk, ctx, k)), [EventFor(desk, ctx, k)])
  {
  }

  lemma LaneGoesOn(desk: Desk, ctx: Context, media: string, k: nat)
    requires NextClaim(desk.rows, media, PoolFull(desk.slots, ctx.limits, media)) == Some(k)
    requires EventFor(desk, ctx, k).kind != PutBack
    ensures var e := EventFor(desk, ctx, k);
      var rest := Lane(Happen(desk, e), ctx, media);
      Lane(desk, ctx, media) == (rest.0, [e] + rest.1)
  {
  }

  // ---------------------------------------------------------------- room

  /** A lane's occupancy grows, but never past its limit. */
  ghost predicate WithinLimits(before: Slots, after: Slots, limits: Limits) {
    forall provider, media :: WithinLimit(before, after, limits, provider, media)
  }

  ghost predicate WithinLimit(before: Slots, after: Slots, limits: Limits, provider: string, media: string) {
    Occupied(after, provider, media) <= Occupied(before, provider, media)
    || Occupied(after, provider, media) <= limits.Get(provider, media)
  }

  /** A task gets a slot only while there is room in its lane. */
  lemma HappenWithinLimits(desk: Desk, ctx: Context, k: nat)
    requires k < |desk.rows|
    ensures WithinLimits(desk.slots, Happen(desk, EventFor(desk, ctx, k)).slots, ctx.limits)
    ensures EventFor(desk, ctx, k).kind == Placed ==>
      var provider, media := ctx.route(desk.rows[k].id), desk.rows[k].media;
      Occupied(desk.slots, provider, media) < ctx.limits.Get(provider, media)
  {
    var e, row := EventFor(desk, ctx, k), desk.rows[k];
    var key := Key(e.provider, row.media);
    var after := Happen(desk, e).slots;
    forall provider, media
      ensures WithinLimit(desk.slots, after, ctx.limits, provider, media)
    {
      if e.kind == Placed {
        hide Occupied, Registered, Holds;
        var o := Occupant(desk.next, false);
        if Key(provider, media) == key {
          GrowsByOne(desk.slots, key, row.id, o);
        } else {
          RegisterElsewhere(desk.slots, key, row.id, o, provider, media);
        }
      }
    }
  }

  lemma GrowsByOne(slots: Slots, key: Key, id: string, o: Occupant)
    ensures Occupied(Registered(slots, key, id, o), key.provider, key.media)
      <= Occupied(slots, key.provider, key.media) + 1
  {
    AddThenRemove(Bucket(slots, key), id, o);
  }

  /** A whole lane keeps every occupancy within its limit. */
  lemma {:induction false} LaneWithinLimits(desk: Desk, ctx: Context, media: string)
    ensures WithinLimits(desk.slots, Lane(desk, ctx, media).0.slots, ctx.limits)
    decreases Waiting(desk.rows)
  {
    var next := NextClaim(desk.rows, media, PoolFull(desk.slots, ctx.limits, media));
    if next.Some? {
      var e := EventFor(desk, ctx, next.value);
      HappenWithinLimits(desk, ctx, next.value);
      if e.kind != PutBack {
        HappenTakesOne(desk, e);
        LaneGoesOn(desk, ctx, media, next.value);
        hide Lane, Happen, NextClaim, PoolFull, EventFor, WithinLimits;
        LaneWithinLimits(Happen(desk, e), ctx, media);
        LimitsChain(desk.slots, Happen(desk, e).slots, Lane(Happen(desk, e), ctx, media).0.slots, ctx.limits);
      }
    }
  }

  lemma LimitsChain(a: Slots, b: Slots, c: Slots, limits: Limits)
    requires WithinLimits(a, b, limits) && WithinLimits(b, c, limits)
    ensures WithinLimits(a, c, limits)
  {
    forall provider, media
      ensures WithinLimit(a, c, limits, provider, media)
    {
      assert WithinLimit(a, b, limits, provider, media) && WithinLimit(b, c, limits, provider, media);
    }
  }

  // ---------------------------------------------------------------- nothing left waiting

  ghost predicate NothingClaimable(desk: Desk, ctx: Context, media: string) {
    var full := PoolFull(desk.slots, ctx.limits, media);
    forall k :: 0 <= k < |desk.rows| ==> !Claimable(desk.rows, desk.rows[k], media, full)
  }

  predicate EndsWithPutBack(log: seq<Event>) {
    log != [] && log[|log| - 1].kind == PutBack
  }

  /** A lane stops only when a task had to be put back or nothing more can be claimed. */
  lemma {:induction false} LaneIsExhausted(desk: Desk, ctx: Context, media: string)
    ensures EndsWithPutBack(Lane(desk, ctx, media).1) || NothingClaimable(Lane(desk, ctx, media).0, ctx, media)
    decreases Waiting(desk.rows)
  {
    var next := NextClaim(desk.rows, media, PoolFull(desk.slots, ctx.limits, media));
    if next.Some? {
      var e := EventFor(desk, ctx, next.value);
      EventFromQueue(desk, ctx, media, next.value);
      hide Lane, Happen, NextClaim, PoolFull, EventFor, NothingClaimable;
      if e.kind == PutBack {
        LaneEnds(desk, ctx, media, next.value);
      } else {
        HappenTakesOne(desk, e);
        LaneGoesOn(desk, ctx, media, next.value);
        LaneIsExhausted(Happen(desk, e), ctx, media);
      }
    }
  }

  // ---------------------------------------------------------------- all lanes

  /** Lane after lane. */
  ghost function Lanes(desk: Desk, ctx: Context, medias: seq<string>): (Desk, seq<Event>) {
    if medias == [] then (desk, [])
    else
      var (mid, log) := Lanes(desk, ctx, medias[..|medias| - 1]);
      var (end, more) := Lane(mid, ctx, medias[|medias| - 1]);
      (end, log + more)
  }

  ghost predicate DistinctMedias(medias: seq<string>) {
    forall i, j :: 0 <= i < j < |medias| ==> medias[i] != medias[j]
  }

  ghost predicate LanesDid(before: seq<Row>, end: seq<Row>, medias: seq<string>, log: seq<Event>) {
    && DistinctIndices(log)
    && AllFromQueue(before, log) && OfMedias(before, medias, log)
    && RowsAfter(before, end, log)
  }

  ghost predicate OfMedias(rows: seq<Row>, medias: seq<string>, log: seq<Event>) {
    forall i :: 0 <= i < |log| ==> log[i].index < |rows| && rows[log[i].index].media in medias
  }

  /** One call claims each waiting task at most once over all lanes and keeps every occupancy within
      its limit; the tasks that waited for a refused one have failed with it, in whatever lane
      they are, and no other row has changed. */
  lemma {:induction false} LanesOutcome(desk: Desk, ctx: Context, medias: seq<string>)
    requires DistinctMedias(medias) && DistinctIds(desk.rows)
    ensures LanesDid(desk.rows, Lanes(desk, ctx, medias).0.rows, medias, Lanes(desk, ctx, medias).1)
    ensures WithinLimits(desk.slots, Lanes(desk, ctx, medias).0.slots, ctx.limits)
  {
    hide Lane, WithinLimits, LanesDid, LaneDid, DistinctIds;
    if medias == [] {
      NoLanes(desk.rows);
      SameLimits(desk.slots, ctx.limits);
    } else {
      var butLast, media := medias[..|medias| - 1], medias[|medias| - 1];
      var (mid, log) := Lanes(desk, ctx, butLast);
      var (end, more) := Lane(mid, ctx, media);
      LanesOutcome(desk, ctx, butLast);
      LanesKeepIds(desk.rows, mid.rows, butLast, log);
      LaneOutcome(mid, ctx, media);
      LaneWithinLimits(mid, ctx, media);
      LimitsChain(desk.slots, mid.slots, end.slots, ctx.limits);
      OneMoreLane(desk.rows, mid.rows, end.rows, medias, log, more);
    }
  }

  lemma NoLanes(rows: seq<Row>)
    ensures LanesDid(rows, rows, [], [])
  {
  }

  lemma SameLimits(slots: Slots, limits: Limits)
    ensures WithinLimits(slots, slots, limits)
  {
  }

  lemma LanesKeepIds(before: seq<Row>, mid: seq<Row>, medias: seq<string>, log: seq<Event>)
    requires LanesDid(before, mid, medias, log) && DistinctIds(before)
    ensures DistinctIds(mid)
  {
    LogKeeps(before, mid, log);
    hide RowsAfter, AllFromQueue;
  }

  lemma OneMoreLane(before: seq<Row>, mid: seq<Row>, end: seq<Row>, medias: seq<string>, log: seq<Event>,
                    more: seq<Event>)
    requires medias != [] && DistinctMedias(medias) && DistinctIds(before)
    requires LanesDid(before, mid, medias[..|medias| - 1], log) && LaneDid(mid, end, medias[|medias| - 1], more)
    ensures LanesDid(before, end, medias, log + more)
  {
    var butLast, media := medias[..|medias| - 1], medias[|medias| - 1];
    assert medias == butLast + [media] && media !in butLast;
    LogKeeps(before, mid, log);
    hide RowsAfter, AllFromQueue, DistinctIds;
    forall i, j | 0 <= i < |log| && 0 <= j < |more|
      ensures log[i].index != more[j].index
    {
      assert mid[more[j].index].media == before[more[j].index].media;
    }
    assert Apart(log, more);
    JoinLogs(before, mid, end, log, more);
    var all := log + more;
    forall i | 0 <= i < |all|
      ensures all[i].index < |before| && before[all[i].index].media in medias
    {
      if i < |log| {
        assert all[i] == log[i];
      } else {
        assert all[i] == more[i - |log|];
        assert mid[all[i].index].media == before[all[i].index].media;
      }
    }
  }

  // ---------------------------------------------------------------- who holds a slot afterwards

  ghost predicate GotSlot(rows: seq<Row>, log: seq<Event>, key: Key, id: string) {
    exists i :: 0 <= i < |log| && Gets(rows, log[i], key, id)
  }

  predicate Gets(rows: seq<Row>, e: Event, key: Key, id: string) {
    e.kind == Placed && e.index < |rows| && rows[e.index].id == id && key == Key(e.provider, rows[e.index].media)
  }

  /** The slots held after a lane are those held before and those of the placed tasks. */
  lemma {:induction false} LaneSlots(desk: Desk, ctx: Context, media: string, key: Key, id: string)
    ensures var (end, log) := Lane(desk, ctx, media);
      Holds(end.slots, key, id) <==> Holds(desk.slots, key, id) || GotSlot(desk.rows, log, key, id)
    decreases Waiting(desk.rows)
  {
    var next := NextClaim(desk.rows, media, PoolFull(desk.slots, ctx.limits, media));
    if next.Some? {
      var e := EventFor(desk, ctx, next.value);
      var after := Happen(desk, e);
      HappenSlots(desk, e, key, id);
      hide NextClaim, PoolFull, Lane, Holds, KindOf, Gets;
      if e.kind == PutBack {
        LaneEnds(desk, ctx, media, next.value);
        GotOneMore(desk.rows, e, [], key, id);
      } else {
        HappenTakesOne(desk, e);
        LaneGoesOn(desk, ctx, media, next.value);
        LaneSlots(after, ctx, media, key, id);
        SameRowsGet(desk.rows, after.rows, Lane(after, ctx, media).1, key, id);
        GotOneMore(desk.rows, e, Lane(after, ctx, media).1, key, id);
      }
    }
  }

  lemma HappenSlots(desk: Desk, e: Event, key: Key, id: string)
    requires e.index < |desk.rows|
    ensures SameTasks(desk.rows, Happen(desk, e).rows)
    ensures Holds(Happen(desk, e).slots, key, id) <==> Holds(desk.slots, key, id) || Gets(desk.rows, e, key, id)
  {
    HappenKeepsIds(desk, e);
    hide RowsNow;
  }

  lemma GotOneMore(rows: seq<Row>, e: Event, rest: seq<Event>, key: Key, id: string)
    ensures GotSlot(rows, [e] + rest, key, id) <==> Gets(rows, e, key, id) || GotSlot(rows, rest, key, id)
  {
    var log := [e] + rest;
    assert log[0] == e;
    assert forall i :: 0 < i < |log| ==> log[i] == rest[i - 1];
    if i :| 0 <= i < |rest| && Gets(rows, rest[i], key, id) { assert log[i + 1] == rest[i]; }
  }

  lemma SameRowsGet(a: seq<Row>, b: seq<Row>, log: seq<Event>, key: Key, id: string)
    requires SameTasks(a, b)
    ensures GotSlot(a, log, key, id) <==> GotSlot(b, log, key, id)
  {
    forall e
      ensures Gets(a, e, key, id) <==> Gets(b, e, key, id)
    {
    }
  }

  /** The fate of each claimed task, as row and slots show it: failed, queued again, or running
      with a slot in its lane.  If a cancel flip comes between the claim and the write, the row
      stays at `cancelling`; unless the task got a slot, nothing in this process will finish it. */
  lemma ClaimedFate(desk: Desk, ctx: Context, media: string, i: nat, key: Key)
    requires DistinctIds(desk.rows) && i < |Lane(desk, ctx, media).1|
    ensures var (end, log) := Lane(desk, ctx, media);
      var e := log[i];
      && e.index < |desk.rows| == |end.rows|
      && end.rows[e.index].status ==
         (if e.flipped then Cancelling
          else match e.kind case Refused => Failed case PutBack => Queued case Placed => Running)
      && var id := desk.rows[e.index].id;
        Holds(end.slots, key, id) <==>
          Holds(desk.slots, key, id) || (e.kind == Placed && key == Key(e.provider, media))
  {
    hide Lane, Holds, Stopped, GotSlot, Ready, DistinctIds;
    var (end, log) := Lane(desk, ctx, media);
    LaneOutcome(desk, ctx, media);
    var e := log[i];
    assert FromQueue(desk.rows, e) && desk.rows[e.index].media == media;
    LaneSlots(desk, ctx, media, key, desk.rows[e.index].id);
    OnlyOwnEvent(desk.rows, media, log, i, key);
  }

  lemma OnlyOwnEvent(rows: seq<Row>, media: string, log: seq<Event>, i: nat, key: Key)
    requires DistinctIds(rows) && DistinctIndices(log) && i < |log|
    requires OfMedia(rows, media, log)
    requires log[i].index < |rows|
    ensures GotSlot(rows, log, key, rows[log[i].index].id) <==>
      log[i].kind == Placed && key == Key(log[i].provider, media)
  {
    var id := rows[log[i].index].id;
    if j :| 0 <= j < |log| && Gets(rows, log[j], key, id) {
      assert log[j].index == log[i].index;
    }
    if log[i].kind == Placed && key == Key(log[i].provider, media) { assert Gets(rows, log[i], key, id); }
  }

  // ---------------------------------------------------------------- runs of the worker

  /** What may happen to the slots while the limits stay: a whole claim call on whatever the queue
      holds by then, or a task is promoted, released or drained. */
  datatype Move =
    | ClaimCall(rows: seq<Row>, next: nat, route: string -> string, flips: set<string>)
    | Promote(key: Key, id: string)
    | Release(key: Key, id: string)
    | Drain(done: set<nat>)

  ghost function Moved(slots: Slots, limits: Limits, m: Move): Slots {
    match m
    case ClaimCall(rows, next, route, flips) =>
      Lanes(Desk(rows, slots, next), Context(limits, route, flips), MEDIA_TYPES).0.slots
    case Promote(key, id) => Promoted(slots, key, id)
    case Release(key, id) => Released(slots, key, id)
    case Drain(done) => Drained(slots, done)
  }

  ghost function MovedAll(slots: Slots, limits: Limits, moves: seq<Move>): Slots {
    if moves == [] then slots else Moved(MovedAll(slots, limits, moves[..|moves| - 1]), limits, moves[|moves| - 1])
  }

  lemma MoveWithinLimits(slots: Slots, limits: Limits, m: Move)
    ensures WithinLimits(slots, Moved(slots, limits, m), limits)
  {
    match m
    case ClaimCall(rows, next, route, flips) =>
      hide Lanes, WithinLimits;
      LanesWithinLimits(Desk(rows, slots, next), Context(limits, route, flips), MEDIA_TYPES);
    case Promote(key, id) =>
      hide Promoted, Occupied;
      forall provider, media { PromotedOccupies(slots, key, id, provider, media); }
    case Release(key, id) =>
      hide Released, Occupied;
      forall provider, media { ReleasedOccupies(slots, key, id, provider, media); }
    case Drain(done) =>
      hide Drained, Occupied;
      forall provider, media { DrainedOccupies(slots, done, provider, media); }
  }

  lemma {:induction false} LanesWithinLimits(desk: Desk, ctx: Context, medias: seq<string>)
    ensures WithinLimits(desk.slots, Lanes(desk, ctx, medias).0.slots, ctx.limits)
  {
    hide Lane, WithinLimits;
    if medias == [] {
      SameLimits(desk.slots, ctx.limits);
    } else {
      var mid := Lanes(desk, ctx, medias[..|medias| - 1]).0;
      LanesWithinLimits(desk, ctx, medias[..|medias| - 1]);
      LaneWithinLimits(mid, ctx, medias[|medias| - 1]);
      LimitsChain(desk.slots, mid.slots, Lane(mid, ctx, medias[|medias| - 1]).0.slots, ctx.limits);
    }
  }

  /** Over any run with fixed limits no lane ever holds more than its limit, or than it held at
      the start if that was more. */
  lemma {:induction false} EveryRunWithinLimits(slots: Slots, limits: Limits, moves: seq<Move>)
    ensures WithinLimits(slots, MovedAll(slots, limits, moves), limits)
  {
    hide Moved, WithinLimits;
    if moves == [] {
      SameLimits(slots, limits);
    } else {
      var before := MovedAll(slots, limits, moves[..|moves| - 1]);
      EveryRunWithinLimits(slots, limits, moves[..|moves| - 1]);
      MoveWithinLimits(before, limits, moves[|moves| - 1]);
      LimitsChain(slots, before, MovedAll(slots, limits, moves), limits);
    }
  }

  // ---------------------------------------------------------------- reloading the limits

  /** What a reload means for the next claim: a listed provider without the lane, or with none of
      it, has its tasks refused however many run there; one whose new limit its running tasks
      already reach is skipped until some of them end; the rest take tasks again. */
  lemma ReloadDecides(slots: Slots, limits: Limits, lanes: map<string, map<string, int>>, provider: string,
                      media: string)
    ensures var now := limits.(lanes := lanes);
      var closed := provider in lanes && (media !in lanes[provider] || lanes[provider][media] <= 0);
      var open := provider in lanes && media in lanes[provider] && lanes[provider][media] > 0;
      && (closed ==> KindOf(slots, now, provider, media) == Refused && provider !in PoolFull(slots, now, media))
      && (open ==>
            (provider in PoolFull(slots, now, media) <==> Occupied(slots, provider, media) >= lanes[provider][media]))
      && (open && provider !in PoolFull(slots, now, media) ==> KindOf(slots, now, provider, media) == Placed)
      && (provider !in lanes ==>
            (KindOf(slots, now, provider, media) == Refused <==>
               media !in limits.defaults || limits.defaults[media] <= 0))
      && (provider !in lanes && media in limits.defaults && limits.defaults[media] > 0 ==>
            (KindOf(slots, now, provider, media) == Placed <==>
               Occupied(slots, provider, media) < limits.defaults[media]))
  {
    BlacklistIsComplete(slots, limits.(lanes := lanes), media, provider);
    hide PoolFull;
  }

  // ---------------------------------------------------------------- the method

  predicate DidSomething(log: seq<Event>) {
    exists i :: 0 <= i < |log| && log[i].kind != PutBack
  }

  lemma DidAppend(log: seq<Event>, more: seq<Event>)
    ensures DidSomething(log + more) <==> DidSomething(log) || DidSomething(more)
    ensures !DidSomething([])
  {
    var all := log + more;
    assert forall i :: 0 <= i < |log| ==> all[i] == log[i];
    assert forall i :: 0 <= i < |more| ==> all[|log| + i] == more[i];
  }

  lemma DidOne(e: Event)
    ensures DidSomething([e]) <==> e.kind != PutBack
  {
    assert [e][0] == e;
  }

  const MEDIA_TYPES := ["image", "video", "audio"]

  class Worker {
    const table: Table
    const capacity: CapacityTable
    const db: Database
    var next: nat

    ghost function Contents(): Desk
      reads this, table, db
    {
      Desk(db.rows, table.slots, next)
    }

    constructor (table: Table, capacity: CapacityTable, db: Database)
      ensures this.table == table && this.capacity == capacity && this.db == db && next == 0
    {
      this.table, this.capacity, this.db, this.next := table, capacity, db, 0;
    }

    /** `reload_limits`: only the numbers change; a load that fails changes nothing.  Rows and
        slots stay as they are, also those of providers that are gone. */
    method ReloadLimits(loaded: Option<map<string, map<string, int>>>)
      modifies capacity
      ensures Contents() == old(Contents())
      ensures loaded.None? ==> capacity.limits == old(capacity.limits)
      ensures loaded.Some? ==> capacity.limits == old(capacity.limits).(lanes := loaded.value)
    {
      if loaded.Some? { capacity.Replace(loaded.value); }
    }

    /** `_claim_tasks`; the log is what was done. */
    method ClaimTasks(route: string -> string, flips: set<string>) returns (claimedAny: bool, log: seq<Event>)
      requires table.Valid()
      modifies this, table, db
      ensures table.Valid()
      ensures (Contents(), log) == Lanes(old(Contents()), Context(capacity.limits, route, flips), MEDIA_TYPES)
      ensures claimedAny <==> DidSomething(log)
    {
      hide Lane, DidSomething;
      ghost var ctx := Context(capacity.limits, route, flips);
      claimedAny, log := false, [];
      DidAppend([], []);
      for m := 0 to |MEDIA_TYPES|
        invariant table.Valid() && capacity.limits == ctx.limits
        invariant (Contents(), log) == Lanes(old(Contents()), ctx, MEDIA_TYPES[..m])
        invariant claimedAny <==> DidSomething(log)
      {
        assert MEDIA_TYPES[..m + 1][..m] == MEDIA_TYPES[..m];
        var any, more := ClaimLane(MEDIA_TYPES[m], route, flips);
        DidAppend(log, more);
        log := log + more;
        claimedAny := claimedAny || any;
      }
      assert MEDIA_TYPES[..|MEDIA_TYPES|] == MEDIA_TYPES;
    }

    method ClaimLane(media: string, route: string -> string, flips: set<string>) returns (any: bool, log: seq<Event>)
      requires table.Valid()
      modifies this, table, db
      ensures table.Valid()
      ensures (Contents(), log) == Lane(old(Contents()), Context(capacity.limits, route, flips), media)
      ensures any <==> DidSomething(log)
    {
      ghost var ctx := Context(capacity.limits, route, flips);
      ghost var start := Contents();
      any, log := false, [];
      hide Lane, Waiting, NextClaim, GoesOn, Happen, PoolFull, EventFor, DidSomething, FromQueue, NoEmptyBucket;
      NothingDone(start, ctx, media);
      DidAppend([], []);
      while true
        invariant table.Valid() && capacity.limits == ctx.limits
        invariant GoesOn(start, Contents(), ctx, media, log)
        invariant any <==> DidSomething(log)
        decreases Waiting(db.rows)
      {
        ghost var desk := Contents();
        ghost var next := NextClaim(db.rows, media, PoolFull(table.slots, ctx.limits, media));
        var claimed := ClaimOne(media, route, flips);
        if claimed.None? {
          LaneStops(start, desk, ctx, media, log);
          return;
        }
        DidAppend(log, [claimed.value]);
        DidOne(claimed.value);
        EventFromQueue(desk, ctx, media, next.value);
        if claimed.value.kind == PutBack {
          LaneBreaks(start, desk, ctx, media, log, next.value);
          log := log + [claimed.value];
          return;
        }
        HappenTakesOne(desk, claimed.value);
        StillGoesOn(start, desk, ctx, media, log, next.value);
        any := true;
        log := log + [claimed.value];
      }
    }

    /** One round of the claim loop: recompute the blacklist, claim, route, decide. */
    method ClaimOne(media: string, route: string -> string, flips: set<string>) returns (r: Option<Event>)
      requires table.Valid()
      modifies this, table, db
      ensures table.Valid()
      ensures var desk, ctx := old(Contents()), Context(capacity.limits, route, flips);
        match NextClaim(desk.rows, media, PoolFull(desk.slots, ctx.limits, media))
        case None => r.None? && Contents() == desk
        case Some(k) => r == Some(EventFor(desk, ctx, k)) && Contents() == Happen(desk, r.value)
    {
      ghost var desk, ctx := Contents(), Context(capacity.limits, route, flips);
      hide NextClaim, Happen, PoolFull, EventFor, KindOf, Registered, StatusAfter, HasRoom, Resolved, RowsNow,
        NoEmptyBucket;
      var full := table.PoolFullProviders(capacity.limits, media);
      var k := db.ClaimNext(media, full);
      if k.None? { return None; }
      var row := db.rows[k.value];
      var e := Event(k.value, Placed, route(row.id), row.id in flips);
      var kind := Resolve(k.value, e.provider, media, e.flipped);
      e := e.(kind := kind);
      KindIs(desk, ctx, media, k.value, e);
      RowsNowIs(desk.rows, e, db.rows);
      HappenIs(desk, e);
      return Some(e);
    }

    /** A claimed task is refused, put back or placed; a cancel flip may come first. */
    method Resolve(k: nat, provider: string, media: string, flipped: bool) returns (kind: Kind)
      requires table.Valid() && k < |db.rows| && db.rows[k].status == Running
      modifies this, table, db
      ensures table.Valid()
      ensures kind == KindOf(old(table.slots), capacity.limits, provider, media)
      ensures db.rows == Resolved(old(db.rows), k, kind, flipped)
      ensures kind == Placed ==>
        && table.slots ==
           Registered(old(table.slots), Key(provider, media), old(db.rows)[k].id, Occupant(old(next), false))
        && next == old(next) + 1
      ensures kind != Placed ==> table.slots == old(table.slots) && next == old(next)
    {
      hide Registered, HasRoom, NoEmptyBucket, Cascaded;
      var row := db.rows[k];
      if flipped {
        var n := db.Update(k, Flip);
      }
      var cap := capacity.limits.Get(provider, media);
      if cap <= 0 {
        var n := db.MarkFailed(k);
        return Refused;
      }
      if !HasRoom(table.slots, provider, media, cap) {
        var n := db.Update(k, Requeue);
        return PutBack;
      }
      table.Register(provider, media, row.id, next, false);
      next := next + 1;
      return Placed;
    }
  }

  ghost function Resolved(claimed: seq<Row>, k: nat, kind: Kind, flipped: bool): seq<Row>
    requires k < |claimed|
  {
    var rows := claimed[k := claimed[k].(status := StatusAfter(kind, flipped))];
    if kind == Refused && !flipped then Cascaded(rows, claimed[k].id) else rows
  }

  lemma RowsNowIs(rows: seq<Row>, e: Event, now: seq<Row>)
    requires e.index < |rows|
    requires now == Resolved(rows[e.index := rows[e.index].(status := Running)], e.index, e.kind, e.flipped)
    ensures now == RowsNow(rows, e)
  {
    hide Cascaded, StatusAfter;
    var claimed := rows[e.index := rows[e.index].(status := Running)];
    var status := StatusAfter(e.kind, e.flipped);
    assert claimed[e.index := claimed[e.index].(status := status)] == rows[e.index := rows[e.index].(status := status)];
  }

  /** What is done so far and what is still to do make up the whole lane. */
  ghost predicate GoesOn(start: Desk, now: Desk, ctx: Context, media: string, log: seq<Event>) {
    Lane(start, ctx, media) == (Lane(now, ctx, media).0, log + Lane(now, ctx, media).1)
  }

  lemma NothingDone(start: Desk, ctx: Context, media: string)
    ensures GoesOn(start, start, ctx, media, [])
  {
    assert [] + Lane(start, ctx, media).1 == Lane(start, ctx, media).1;
  }

  lemma HappenIs(desk: Desk, e: Event)
    requires e.index < |desk.rows|
    ensures var row := desk.rows[e.index];
      var rows, key := RowsNow(desk.rows, e), Key(e.provider, row.media);
      Happen(desk, e) ==
      if e.kind == Placed then
        Desk(rows, Registered(desk.slots, key, row.id, Occupant(desk.next, false)), desk.next + 1)
      else desk.(rows := rows)
  {
  }

  lemma LaneStops(start: Desk, desk: Desk, ctx: Context, media: string, log: seq<Event>)
    requires NextClaim(desk.rows, media, PoolFull(desk.slots, ctx.limits, media)).None?
    requires GoesOn(start, desk, ctx, media, log)
    ensures Lane(start, ctx, media) == (desk, log)
  {
    assert log + [] == log;
  }

  lemma LaneBreaks(start: Desk, desk: Desk, ctx: Context, media: string, log: seq<Event>, k: nat)
    requires NextClaim(desk.rows, media, PoolFull(desk.slots, ctx.limits, media)) == Some(k)
    requires EventFor(desk, ctx, k).kind == PutBack && GoesOn(start, desk, ctx, media, log)
    ensures var e := EventFor(desk, ctx, k); Lane(start, ctx, media) == (Happen(desk, e), log + [e])
  {
    LaneEnds(desk, ctx, media, k);
  }

  lemma StillGoesOn(start: Desk, desk: Desk, ctx: Context, media: string, log: seq<Event>, k: nat)
    requires NextClaim(desk.rows, media, PoolFull(desk.slots, ctx.limits, media)) == Some(k)
    requires EventFor(desk, ctx, k).kind != PutBack && GoesOn(start, desk, ctx, media, log)
    ensures var e := EventFor(desk, ctx, k); GoesOn(start, Happen(desk, e), ctx, media, log + [e])
  {
    LaneGoesOn(desk, ctx, media, k);
    var e := EventFor(desk, ctx, k);
    var rest := Lane(Happen(desk, e), ctx, media).1;
    assert log + ([e] + rest) == (log + [e]) + rest;
  }

  lemma KindIs(desk: Desk, ctx: Context, media: string, k: nat, e: Event)
    requires k < |desk.rows| && desk.rows[k].media == media
    requires e.index == k && e.provider == ctx.route(desk.rows[k].id) && e.flipped == (desk.rows[k].id in ctx.flips)
    requires var cap := ctx.limits.Get(e.provider, media);
      e.kind == if cap <= 0 then Refused else if !HasRoom(desk.slots, e.provider, media, cap) then PutBack else Placed
    ensures e == EventFor(desk, ctx, k)
  {
  }
}
