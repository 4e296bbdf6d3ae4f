/** Whom a lane claims, in which order, and whom it passes over, in terms of occupancies, limits and
    dependencies alone. */
module ClaimLaws {
  import opened Wrappers
  import opened TaskRows
  import opened SlotTable
  import opened TaskQueue
  import opened ClaimLoop

  // ---------------------------------------------------------------- who may be claimed

  /** The provider has a positive limit in the lane, and has reached it. */
  predicate AtLimit(slots: Slots, limits: Limits, provider: string, media: string) {
    0 < limits.Get(provider, media) <= Occupied(slots, provider, media)
  }

  /** What the task depends on, if anything, has succeeded. */
  ghost predicate DependencyMet(rows: seq<Row>, k: nat)
    requires k < |rows|
  {
    rows[k].dependency.Some? ==>
      exists j :: 0 <= j < |rows| && rows[j].id == rows[k].dependency.value && rows[j].status == Succeeded
  }

  /** The provider stored with the task, if any, has not reached its limit. */
  predicate ProviderOpen(desk: Desk, limits: Limits, media: string, k: nat)
    requires k < |desk.rows|
  {
    desk.rows[k].provider.Some? ==> !AtLimit(desk.slots, limits, desk.rows[k].provider.value, media)
  }

  ghost predicate Eligible(desk: Desk, limits: Limits, media: string, k: nat) {
    && k < |desk.rows| && desk.rows[k].status == Queued && desk.rows[k].media == media
    && DependencyMet(desk.rows, k) && ProviderOpen(desk, limits, media, k)
  }

  ghost predicate FirstEligible(desk: Desk, limits: Limits, media: string, k: nat) {
    Eligible(desk, limits, media, k) && forall i: nat :: i < k ==> !Eligible(desk, limits, media, i)
  }

  lemma EligibleIsClaimable(desk: Desk, limits: Limits, media: string, k: nat)
    requires k < |desk.rows|
    ensures Eligible(desk, limits, media, k) <==>
      Claimable(desk.rows, desk.rows[k], media, PoolFull(desk.slots, limits, media))
  {
    if desk.rows[k].provider.Some? { BlacklistIsComplete(desk.slots, limits, media, desk.rows[k].provider.value); }
    hide PoolFull, Occupied;
  }

  lemma NextIsFirstEligible(desk: Desk, limits: Limits, media: string)
    ensures var next := NextClaim(desk.rows, media, PoolFull(desk.slots, limits, media));
      && (next.Some? ==> FirstEligible(desk, limits, media, next.value))
      && (next.None? ==> forall k: nat :: !Eligible(desk, limits, media, k))
  {
    hide PoolFull, Claimable, Eligible;
    forall k: nat | k < |desk.rows| { EligibleIsClaimable(desk, limits, media, k); }
    forall k: nat | k >= |desk.rows|
      ensures !Eligible(desk, limits, media, k)
    {
      EligibleIsThere(desk, limits, media, k);
    }
  }

  lemma EligibleIsThere(desk: Desk, limits: Limits, media: string, k: nat)
    ensures Eligible(desk, limits, media, k) ==> k < |desk.rows|
  {
  }

  // ---------------------------------------------------------------- a lane, event by event

  /** The desk after some events. */
  ghost function Replay(desk: Desk, log: seq<Event>): Desk
    decreases log
  {
    if log == [] || log[0].index >= |desk.rows| then desk else Replay(Happen(desk, log[0]), log[1..])
  }

  /** What an event says about the desk on which it happens: the first eligible task was claimed, sent
      to the provider that it is routed to, and refused without a lane there, put back if the
      lane is full, and placed otherwise. */
  ghost predicate FairEvent(desk: Desk, ctx: Context, media: string, e: Event) {
    && FirstEligible(desk, ctx.limits, media, e.index)
    && e.provider == ctx.route(desk.rows[e.index].id)
    && (e.flipped <==> desk.rows[e.index].id in ctx.flips)
    && (e.kind == Refused <==> ctx.limits.Get(e.provider, media) <= 0)
    && (e.kind == PutBack <==> AtLimit(desk.slots, ctx.limits, e.provider, media))
  }

  lemma EventIsFair(desk: Desk, ctx: Context, media: string, k: nat)
    requires NextClaim(desk.rows, media, PoolFull(desk.slots, ctx.limits, media)) == Some(k)
    ensures FairEvent(desk, ctx, media, EventFor(desk, ctx, k))
  {
    NextIsFirstEligible(desk, ctx.limits, media);
    hide PoolFull, NextClaim, DependencyMet, ProviderOpen, Occupied;
  }

  /** Every event of a lane is fair on the desk that the events before it have left. */
  lemma {:induction false} LaneIsFair(desk: Desk, ctx: Context, media: string, i: nat)
    requires i < |Lane(desk, ctx, media).1|
    ensures var log := Lane(desk, ctx, media).1; FairEvent(Replay(desk, log[..i]), ctx, media, log[i])
    decreases i
  {
    hide Lane, Happen, NextClaim, PoolFull, EventFor, FairEvent, Replay;
    var next := NextClaim(desk.rows, media, PoolFull(desk.slots, ctx.limits, media));
    assert next.Some? by { LaneNeedsTask(desk, ctx, media); }
    var e := EventFor(desk, ctx, next.value);
    EventFromQueue(desk, ctx, media, next.value);
    EventIsFair(desk, ctx, media, next.value);
    var log := Lane(desk, ctx, media).1;
    if e.kind == PutBack {
      LaneEnds(desk, ctx, media, next.value);
    } else {
      LaneGoesOn(desk, ctx, media, next.value);
    }
    if i > 0 {
      LaneIsFair(Happen(desk, e), ctx, media, i - 1);
      assert log[..i][1..] == log[1..][..i - 1] && log[1..] == Lane(Happen(desk, e), ctx, media).1;
      ReplayStep(desk, log[..i]);
    } else {
      assert log[..0] == [] && log[0] == e;
      ReplayNothing(desk);
    }
  }

  lemma ReplayStep(desk: Desk, log: seq<Event>)
    requires log != [] && log[0].index < |desk.rows|
    ensures Replay(desk, log) == Replay(Happen(desk, log[0]), log[1..])
  {
    hide Happen;
  }

  lemma ReplayNothing(desk: Desk)
    ensures Replay(desk, []) == desk
  {
  }

  lemma LaneNeedsTask(desk: Desk, ctx: Context, media: string)
    ensures Lane(desk, ctx, media).1 != [] ==>
      NextClaim(desk.rows, media, PoolFull(desk.slots, ctx.limits, media)).Some?
  {
  }

  /** No task is claimed whose stored provider has reached its limit; so a task that was put back has
      no stored provider, or is sent to another one. */
  lemma FullProvidersAreSkipped(desk: Desk, ctx: Context, media: string, i: nat)
    requires i < |Lane(desk, ctx, media).1|
    ensures var log := Lane(desk, ctx, media).1;
      var now, e := Replay(desk, log[..i]), log[i];
      && e.index < |now.rows|
      && var stored := now.rows[e.index].provider;
        && (stored.Some? ==> !AtLimit(now.slots, ctx.limits, stored.value, media))
        && (e.kind == PutBack ==> stored != Some(e.provider))
  {
    LaneIsFair(desk, ctx, media, i);
    hide Lane, Replay, DependencyMet, AtLimit;
  }

  /** Nothing that may be claimed is left when a lane ends without putting a task back: who is still
      queued in it waits for a dependency, or its stored provider has reached its limit.  A task
      without a stored provider waits only for its dependency. */
  lemma {:induction false} LaneLeavesNobody(desk: Desk, ctx: Context, media: string, k: nat)
    requires !EndsWithPutBack(Lane(desk, ctx, media).1)
    ensures var end := Lane(desk, ctx, media).0;
      k < |end.rows| && end.rows[k].status == Queued && end.rows[k].media == media ==>
        || !DependencyMet(end.rows, k)
        || (end.rows[k].provider.Some? && AtLimit(end.slots, ctx.limits, end.rows[k].provider.value, media))
  {
    LaneIsExhausted(desk, ctx, media);
    var end := Lane(desk, ctx, media).0;
    hide Lane;
    if k < |end.rows| { EligibleIsClaimable(end, ctx.limits, media, k); }
    hide Claimable, PoolFull, DependencyMet, AtLimit;
  }

  // ---------------------------------------------------------------- who stays queued

  lemma MoreOccupants(slots: Slots, key: Key, id: string, o: Occupant, provider: string, media: string)
    ensures Occupied(Registered(slots, key, id, o), provider, media) >= Occupied(slots, provider, media)
  {
    var bucket := Bucket(slots, key);
    FewerKeys(bucket, bucket[id := o]);
  }

  /** Tasks stay what they are, and no slot is freed. */
  lemma {:induction false} ReplayFillsUp(desk: Desk, log: seq<Event>, k: nat, provider: string, media: string)
    requires k < |desk.rows|
    ensures var now := Replay(desk, log);
      && |now.rows| == |desk.rows| && now.rows[k].provider == desk.rows[k].provider
      && Occupied(now.slots, provider, media) >= Occupied(desk.slots, provider, media)
    decreases log
  {
    if log != [] && log[0].index < |desk.rows| {
      var e := log[0];
      HappenKeepsIds(desk, e);
      if e.kind == Placed {
        MoreOccupants(desk.slots, Key(e.provider, desk.rows[e.index].media), desk.rows[e.index].id,
                      Occupant(desk.next, false), provider, media);
      }
      assert Occupied(Happen(desk, e).slots, provider, media) >= Occupied(desk.slots, provider, media) by {
        hide Registered, Occupied, RowsNow;
      }
      assert Happen(desk, e).rows[k].provider == desk.rows[k].provider;
      hide Happen, Occupied;
      ReplayFillsUp(Happen(desk, e), log[1..], k, provider, media);
    }
  }

  /** A task whose stored provider has reached its limit when a lane begins, or whose dependency has
      not been met, is not claimed in it: unless it fails with another one, it stays as it is. */
  lemma PassedOver(desk: Desk, ctx: Context, media: string, k: nat)
    requires DistinctIds(desk.rows) && k < |desk.rows|
    requires !DependencyMet(desk.rows, k) || !ProviderOpen(desk, ctx.limits, media, k)
    ensures var (end, log) := Lane(desk, ctx, media);
      && |end.rows| == |desk.rows|
      && end.rows[k] == if Stopped(desk.rows, log, k) then Fail(desk.rows[k]) else desk.rows[k]
  {
    var (end, log) := Lane(desk, ctx, media);
    LaneOutcome(desk, ctx, media);
    forall i | 0 <= i < |log|
      ensures log[i].index != k
    {
      if log[i].index == k {
        assert FromQueue(desk.rows, log[i]);
        LaneIsFair(desk, ctx, media, i);
        if desk.rows[k].provider.Some? {
          ReplayFillsUp(desk, log[..i], k, desk.rows[k].provider.value, media);
        }
        assert false;
      }
    }
    hide Lane, Stopped, DependencyMet, ProviderOpen;
  }

  // ---------------------------------------------------------------- all lanes of a call

  /** A lane leaves the desk that its events make. */
  lemma {:induction false} ReplayIsLane(desk: Desk, ctx: Context, media: string)
    ensures Replay(desk, Lane(desk, ctx, media).1) == Lane(desk, ctx, media).0
    decreases Waiting(desk.rows)
  {
    var next := NextClaim(desk.rows, media, PoolFull(desk.slots, ctx.limits, media));
    if next.Some? {
      var e := EventFor(desk, ctx, next.value);
      EventFromQueue(desk, ctx, media, next.value);
      if e.kind == PutBack {
        LaneEnds(desk, ctx, media, next.value);
        assert [e][1..] == [] && Replay(Happen(desk, e), []) == Happen(desk, e);
      } else {
        HappenTakesOne(desk, e);
        LaneGoesOn(desk, ctx, media, next.value);
        ReplayIsLane(Happen(desk, e), ctx, media);
        var rest := Lane(Happen(desk, e), ctx, media).1;
        assert ([e] + rest)[1..] == rest;
      }
      hide Lane, Happen, NextClaim, PoolFull, EventFor;
    }
  }

  /** A later lane makes no task of another lane eligible. */
  lemma NobodyBecomesEligible(desk: Desk, ctx: Context, other: string, media: string, k: nat)
    requires DistinctIds(desk.rows) && other != media
    ensures Eligible(Lane(desk, ctx, other).0, ctx.limits, media, k) ==> Eligible(desk, ctx.limits, media, k)
  {
    hide Lane, Replay, Occupied, RowsAfter, AllFromQueue, DistinctIds, Eligible;
    var (end, log) := Lane(desk, ctx, other);
    LaneOutcome(desk, ctx, other);
    LogKeeps(desk.rows, end.rows, log);
    ReplayIsLane(desk, ctx, other);
    if k < |desk.rows| && desk.rows[k].provider.Some? {
      ReplayFillsUp(desk, log, k, desk.rows[k].provider.value, media);
    }
    EligibleBefore(desk, end, ctx.limits, media, k);
  }

  lemma EligibleBefore(desk: Desk, end: Desk, limits: Limits, media: string, k: nat)
    requires FewerQueued(desk.rows, end.rows)
    requires forall i :: 0 <= i < |desk.rows| && end.rows[i].status == Succeeded ==> desk.rows[i].status == Succeeded
    requires k < |desk.rows| && desk.rows[k].provider.Some? ==>
      var p := desk.rows[k].provider.value; Occupied(end.slots, p, media) >= Occupied(desk.slots, p, media)
    ensures Eligible(end, limits, media, k) ==> Eligible(desk, limits, media, k)
  {
    hide Occupied;
  }

  ghost predicate PutBackIn(rows: seq<Row>, media: string, log: seq<Event>) {
    exists i :: 0 <= i < |log| && log[i].kind == PutBack && log[i].index < |rows| && rows[log[i].index].media == media
  }

  /** After one call, a lane from which no task was put back has nobody left who could be claimed. */
  lemma {:induction false} LanesLeaveNobody(desk: Desk, ctx: Context, medias: seq<string>, media: string, k: nat)
    requires DistinctMedias(medias) && DistinctIds(desk.rows) && media in medias
    ensures var (end, log) := Lanes(desk, ctx, medias);
      PutBackIn(desk.rows, media, log) || !Eligible(end, ctx.limits, media, k)
  {
    var butLast, last := medias[..|medias| - 1], medias[|medias| - 1];
    var (mid, log) := Lanes(desk, ctx, butLast);
    var (end, more) := Lane(mid, ctx, last);
    LanesOutcome(desk, ctx, butLast);
    LanesKeepIds(desk.rows, mid.rows, butLast, log);
    LogKeeps(desk.rows, mid.rows, log);
    hide Lane, RowsAfter, AllFromQueue, Eligible;
    if media == last {
      LastLaneLeavesNobody(desk.rows, mid, ctx, media, log, k);
    } else {
      assert medias == butLast + [last];
      LanesLeaveNobody(desk, ctx, butLast, media, k);
      NobodyBecomesEligible(mid, ctx, last, media, k);
      if PutBackIn(desk.rows, media, log) { PutBackStays(desk.rows, media, log, more); }
    }
  }

  lemma PutBackStays(rows: seq<Row>, media: string, log: seq<Event>, more: seq<Event>)
    requires PutBackIn(rows, media, log)
    ensures PutBackIn(rows, media, log + more)
  {
    var i :| 0 <= i < |log| && log[i].kind == PutBack && log[i].index < |rows| && rows[log[i].index].media == media;
    assert (log + more)[i] == log[i];
  }

  lemma LastLaneLeavesNobody(before: seq<Row>, mid: Desk, ctx: Context, media: string, log: seq<Event>, k: nat)
    requires DistinctIds(mid.rows) && FewerQueued(before, mid.rows)
    ensures var (end, more) := Lane(mid, ctx, media);
      PutBackIn(before, media, log + more) || !Eligible(end, ctx.limits, media, k)
  {
    var (end, more) := Lane(mid, ctx, media);
    if EndsWithPutBack(more) {
      LaneOutcome(mid, ctx, media);
      var n := |more| - 1;
      assert mid.rows[more[n].index].media == media && before[more[n].index].media == media;
      assert (log + more)[|log| + n] == more[n];
    } else {
      LaneLeavesNobody(mid, ctx, media, k);
      hide Lane;
    }
  }

  /** After `_claim_tasks` this is so for images, videos and speech. */
  lemma CallLeavesNobody(desk: Desk, ctx: Context, media: string, k: nat)
    requires DistinctIds(desk.rows) && media in {"image", "video", "audio"}
    ensures var (end, log) := Lanes(desk, ctx, MEDIA_TYPES);
      PutBackIn(desk.rows, media, log) || !Eligible(end, ctx.limits, media, k)
  {
    assert MEDIA_TYPES[0] == "image" && MEDIA_TYPES[1] == "video" && MEDIA_TYPES[2] == "audio";
    hide Lanes, Eligible, PutBackIn;
    LanesLeaveNobody(desk, ctx, MEDIA_TYPES, media, k);
  }
}
