/** The sliding-window rate limiter (lib/gemini_shared.py).

    A model's log is a pruned queue of grant times.  The full history of grants is kept
    beside it as a ghost, and everything is stated about that history.  Callers hold the
    lock for one whole pass, so any interleaving of callers is a sequence of passes. */
module RateLimiter {

  const WINDOW := 60.0
  const SLACK := 0.1

  // ---------------------------------------------------------------- histories

  /** At most `limit` grants fit in a closed window: the grant `limit` places later is
      more than a window away. */
  ghost predicate Spaced(grants: seq<real>, limit: nat) {
    forall i, j :: 0 <= i && j == i + limit && j < |grants| ==> grants[j] - grants[i] > WINDOW
  }

  ghost predicate Ascending(grants: seq<real>) {
    forall i, j :: 0 <= i < j < |grants| ==> grants[i] <= grants[j]
  }

  /** Consecutive grants keep the requested gap, or are more than a window apart. */
  ghost predicate Gapped(grants: seq<real>, gap: real) {
    forall i, j :: 0 <= i && j == i + 1 && j < |grants| ==>
      grants[j] - grants[i] >= gap || grants[j] - grants[i] > WINDOW
  }

  /** How many grants fall in the closed window [from, from + 60]. */
  function GrantsIn(grants: seq<real>, from: real): nat {
    if grants == [] then 0
    else GrantsIn(grants[..|grants| - 1], from)
         + (if from <= grants[|grants| - 1] <= from + WINDOW then 1 else 0)
  }

  /** The grants that are at most a window old at time `now`. */
  function Recent(grants: seq<real>, now: real): seq<real> {
    if grants == [] then []
    else Recent(grants[..|grants| - 1], now)
         + (if now - grants[|grants| - 1] <= WINDOW then [grants[|grants| - 1]] else [])
  }

  lemma {:induction false} GrantsInSplit(grants: seq<real>, k: nat, from: real)
    requires k <= |grants|
    ensures GrantsIn(grants, from) == GrantsIn(grants[..k], from) + GrantsIn(grants[k..], from)
  {
    if k == |grants| {
      assert grants[..k] == grants;
    } else {
      var butLast := grants[..|grants| - 1];
      GrantsInSplit(butLast, k, from);
      assert butLast[..k] == grants[..k];
      assert butLast[k..] == grants[k..][..|grants[k..]| - 1];
    }
  }

  lemma {:induction false} GrantsInBounds(grants: seq<real>, from: real)
    ensures GrantsIn(grants, from) <= |grants|
    ensures (forall i :: 0 <= i < |grants| ==> grants[i] < from) ==> GrantsIn(grants, from) == 0
    ensures (forall i :: 0 <= i < |grants| ==> from <= grants[i] <= from + WINDOW) ==>
      GrantsIn(grants, from) == |grants|
  {
    if grants != [] {
      GrantsInBounds(grants[..|grants| - 1], from);
    }
  }

  /** The spacing of a history is the same fact as the rate bound on every closed window. */
  lemma SpacedIffWindowBound(grants: seq<real>, limit: nat)
    requires Ascending(grants) && limit > 0
    ensures Spaced(grants, limit) <==> forall from :: GrantsIn(grants, from) <= limit
  {
    if Spaced(grants, limit) {
      forall from
        ensures GrantsIn(grants, from) <= limit
      {
        SpacedBoundsWindow(grants, limit, from);
      }
    } else {
      var i, j :| 0 <= i && j == i + limit && j < |grants| && grants[j] - grants[i] <= WINDOW;
      CrowdedWindow(grants, i, j);
    }
  }

  lemma CrowdedWindow(grants: seq<real>, i: nat, j: nat)
    requires Ascending(grants) && i <= j < |grants| && grants[j] - grants[i] <= WINDOW
    ensures GrantsIn(grants, grants[i]) > j - i
  {
    hide GrantsIn;
    var from := grants[i];
    var inside := grants[i..][..j + 1 - i];
    forall k | 0 <= k < |inside|
      ensures from <= inside[k] <= from + WINDOW
    {
      assert inside[k] == grants[i + k] && grants[i + k] <= grants[j];
    }
    hide Ascending;
    GrantsInSplit(grants, i, from);
    GrantsInSplit(grants[i..], j + 1 - i, from);
    GrantsInBounds(inside, from);
  }

  lemma {:induction false} SpacedBoundsWindow(grants: seq<real>, limit: nat, from: real)
    requires Ascending(grants) && limit > 0 && Spaced(grants, limit)
    ensures GrantsIn(grants, from) <= limit
  {
    if |grants| <= limit {
      GrantsInBounds(grants, from);
    } else {
      var last := grants[|grants| - 1];
      if from <= last <= from + WINDOW {
        var k := |grants| - limit;
        assert grants[k - 1 + limit] - grants[k - 1] > WINDOW;
        GrantsInSplit(grants, k, from);
        GrantsInBounds(grants[..k], from);
        GrantsInBounds(grants[k..], from);
      } else {
        SpacedBoundsWindow(grants[..|grants| - 1], limit, from);
      }
    }
  }

  // ---------------------------------------------------------------- one pass

  /** What a log must be at time `now`, given everything ever granted. */
  ghost predicate Faithful(log: seq<real>, grants: seq<real>, limit: nat, gap: real, now: real) {
    && |log| <= |grants| && log == grants[|grants| - |log|..]
    && (forall i :: 0 <= i < |grants| - |log| ==> now - grants[i] > WINDOW)
    && |log| <= limit
    && Ascending(grants) && (grants != [] ==> grants[|grants| - 1] <= now)
    && Spaced(grants, limit) && Gapped(grants, gap)
  }

  function Prune(log: seq<real>, now: real): seq<real> {
    if log != [] && now - log[0] > WINDOW then Prune(log[1..], now) else log
  }

  lemma {:induction false} PruneIsSuffix(log: seq<real>, now: real)
    ensures |Prune(log, now)| <= |log| && Prune(log, now) == log[|log| - |Prune(log, now)|..]
    ensures forall i :: 0 <= i < |log| - |Prune(log, now)| ==> now - log[i] > WINDOW
    ensures Prune(log, now) != [] ==> now - Prune(log, now)[0] <= WINDOW
  {
    if log != [] && now - log[0] > WINDOW {
      PruneIsSuffix(log[1..], now);
      var p := Prune(log[1..], now);
      forall i | 0 <= i < |log| - |p|
        ensures now - log[i] > WINDOW
      {
        if i > 0 { assert log[i] == log[1..][i - 1]; }
      }
    }
  }

  lemma {:induction false} RecentOfSorted(grants: seq<real>, k: nat, now: real)
    requires k <= |grants|
    requires forall i :: 0 <= i < k ==> now - grants[i] > WINDOW
    requires forall i :: k <= i < |grants| ==> now - grants[i] <= WINDOW
    ensures Recent(grants, now) == grants[k..]
  {
    if grants != [] {
      var butLast := grants[..|grants| - 1];
      if k == |grants| {
        RecentOfSorted(butLast, k - 1, now);
      } else {
        RecentOfSorted(butLast, k, now);
        assert grants[k..] == butLast[k..] + [grants[|grants| - 1]];
      }
    }
  }

  /** Clean-up keeps a log faithful, and leaves exactly the history of the last window. */
  lemma PruneKeepsRecent(log: seq<real>, grants: seq<real>, limit: nat, gap: real, before: real, now: real)
    requires Faithful(log, grants, limit, gap, before) && before <= now
    ensures Faithful(Prune(log, now), grants, limit, gap, now)
    ensures Prune(log, now) == Recent(grants, now)
  {
    PruneIsSuffix(log, now);
    hide Spaced, Gapped;
    var p := Prune(log, now);
    var k := |grants| - |p|;
    assert p == grants[k..];
    forall i | 0 <= i < k
      ensures now - grants[i] > WINDOW
    {
      var m := |grants| - |log|;
      if m <= i { assert grants[i] == log[i - m]; }
    }
    forall i | k <= i < |grants|
      ensures now - grants[i] <= WINDOW
    {
      assert p[0] == grants[k];
    }
    RecentOfSorted(grants, k, now);
  }

  lemma AppendAscending(grants: seq<real>, granted: real)
    requires Ascending(grants) && (grants != [] ==> grants[|grants| - 1] <= granted)
    ensures Ascending(grants + [granted])
  {
  }

  lemma AppendSpaced(grants: seq<real>, limit: nat, granted: real)
    requires Spaced(grants, limit) && limit > 0
    requires |grants| >= limit ==> granted - grants[|grants| - limit] > WINDOW
    ensures Spaced(grants + [granted], limit)
  {
  }

  lemma AppendGapped(grants: seq<real>, gap: real, granted: real)
    requires Gapped(grants, gap)
    requires grants != [] ==>
      granted - grants[|grants| - 1] >= gap || granted - grants[|grants| - 1] > WINDOW
    ensures Gapped(grants + [granted], gap)
  {
  }

  /** Appending a grant to a freshly pruned log with room keeps every promise. */
  lemma GrantKeepsFaithful(log: seq<real>, grants: seq<real>, limit: nat, gap: real,
                           now: real, gapRead: real, granted: real)
    requires Faithful(log, grants, limit, gap, now)
    requires |log| < limit && now <= gapRead <= granted
    requires log != [] ==> gapRead - log[|log| - 1] >= gap
    ensures Faithful(log + [granted], grants + [granted], limit, gap, granted)
  {
    hide Spaced, Ascending, Gapped;
    if |grants| >= limit { assert now - grants[|grants| - limit] > WINDOW; }
    if log != [] { assert log[|log| - 1] == grants[|grants| - 1]; }
    AppendAscending(grants, granted);
    AppendSpaced(grants, limit, granted);
    AppendGapped(grants, gap, granted);
    StillSuffix(log, grants, granted);
    var m := |grants| - |log|;
    assert forall i :: 0 <= i < m ==> (grants + [granted])[i] == grants[i];
  }

  lemma StillSuffix(log: seq<real>, grants: seq<real>, granted: real)
    requires |log| <= |grants| && log == grants[|grants| - |log|..]
    ensures var g := grants + [granted]; log + [granted] == g[|g| - |log + [granted]|..]
  {
  }

  /** Seconds an asynchronous pass asks its caller to wait; 0 when it may grant. */
  function WaitNeeded(log: seq<real>, limit: nat, gap: real, now: real): real
    requires |log| >= limit ==> log != []
  {
    var forGap := if log != [] && now - log[|log| - 1] < gap then gap - (now - log[|log| - 1]) else 0.0;
    if |log| >= limit then
      var forRoom := WINDOW - (now - log[0]) + SLACK;
      if forGap >= forRoom then forGap else forRoom
    else forGap
  }

  /** The wait is the longer of the two rests. */
  lemma WaitIs(log: seq<real>, limit: nat, gap: real, now: real)
    requires limit > 0 && (log != [] ==> now - log[0] <= WINDOW)
    ensures var a, b := RestOfGap(log, gap, now), RestOfWindow(log, limit, now);
      && WaitNeeded(log, limit, gap, now) == (if a >= b then a else b)
      && (WaitNeeded(log, limit, gap, now) == 0.0 && |log| < limit <==> Free(log, limit, gap, now))
  {
  }

  /** A pass grants exactly when there is room and the gap has passed; otherwise the wait
      is positive, so the "yield briefly" branch is never reached. */
  lemma PassGrantsOrWaits(log: seq<real>, limit: nat, gap: real, now: real)
    requires limit > 0 && (log != [] ==> now - log[0] <= WINDOW)
    ensures WaitNeeded(log, limit, gap, now) >= 0.0
    ensures (WaitNeeded(log, limit, gap, now) == 0.0 && |log| < limit) <==>
            (|log| < limit && (log == [] || now - log[|log| - 1] >= gap))
    ensures WaitNeeded(log, limit, gap, now) == 0.0 ==> |log| < limit
  {
  }

  /** After sleeping the computed wait, with no other grant in between, the next
      asynchronous pass grants. */
  lemma WaitSuffices(log: seq<real>, grants: seq<real>, limit: nat, gap: real, now: real, later: real)
    requires limit > 0 && Faithful(log, grants, limit, gap, now)
    requires log != [] ==> now - log[0] <= WINDOW
    requires later >= now + WaitNeeded(log, limit, gap, now)
    ensures |Prune(log, later)| < limit
    ensures WaitNeeded(Prune(log, later), limit, gap, later) == 0.0
  {
    PassGrantsOrWaits(log, limit, gap, now);
    PruneIsSuffix(log, later);
    var p := Prune(log, later);
    if |log| >= limit {
      assert later - log[0] > WINDOW;
      assert |p| < |log|;
    }
    if p != [] { assert p[|p| - 1] == log[|log| - 1]; }
  }

  // ---------------------------------------------------------------- all runs

  /** The clock readings one pass makes: at the top, for the gap, and for the grant.  An
      asynchronous pass uses one reading for all three. */
  datatype Pass = Pass(now: real, gapRead: real, grantRead: real)

  function Serve(log: seq<real>, limit: nat, gap: real, p: Pass): (result: (seq<real>, bool)) {
    var kept := Prune(log, p.now);
    if |kept| < limit && (kept == [] || p.gapRead - kept[|kept| - 1] >= gap) then
      (kept + [p.grantRead], true)
    else
      (kept, false)
  }

  ghost predicate Monotone(passes: seq<Pass>) {
    && (forall i :: 0 <= i < |passes| ==> passes[i].now <= passes[i].gapRead <= passes[i].grantRead)
    && (forall i, j :: 0 <= i < j < |passes| ==> passes[i].grantRead <= passes[j].now)
  }

  /** The log and the full history after a run of passes, starting from nothing. */
  function Served(passes: seq<Pass>, limit: nat, gap: real): (seq<real>, seq<real>) {
    if passes == [] then ([], [])
    else
      var p := passes[|passes| - 1];
      var (log, grants) := Served(passes[..|passes| - 1], limit, gap);
      var (log', granted) := Serve(log, limit, gap, p);
      (log', if granted then grants + [p.grantRead] else grants)
  }

  lemma ServeKeepsFaithful(log: seq<real>, grants: seq<real>, limit: nat, gap: real, before: real, p: Pass)
    requires Faithful(log, grants, limit, gap, before)
    requires before <= p.now <= p.gapRead <= p.grantRead
    ensures var (log', granted) := Serve(log, limit, gap, p);
      Faithful(log', if granted then grants + [p.grantRead] else grants, limit, gap, p.grantRead)
  {
    hide Faithful;
    PruneKeepsRecent(log, grants, limit, gap, before, p.now);
    if Serve(log, limit, gap, p).1 {
      GrantKeepsFaithful(Prune(log, p.now), grants, limit, gap, p.now, p.gapRead, p.grantRead);
    } else {
      AgeFaithful(Prune(log, p.now), grants, limit, gap, p.now, p.grantRead);
    }
  }

  lemma AgeFaithful(log: seq<real>, grants: seq<real>, limit: nat, gap: real, now: real, later: real)
    requires Faithful(log, grants, limit, gap, now) && now <= later
    ensures Faithful(log, grants, limit, gap, later)
  {
  }

  lemma {:induction false} RunIsFaithful(passes: seq<Pass>, limit: nat, gap: real) returns (now: real)
    requires Monotone(passes) && limit > 0
    ensures Faithful(Served(passes, limit, gap).0, Served(passes, limit, gap).1, limit, gap, now)
    ensures passes != [] ==> now == passes[|passes| - 1].grantRead
  {
    if passes == [] {
      now := 0.0;
    } else {
      hide Faithful;
      var butLast := passes[..|passes| - 1];
      var p := passes[|passes| - 1];
      var before := RunIsFaithful(butLast, limit, gap);
      var (log, grants) := Served(butLast, limit, gap);
      if butLast == [] { AgeEmpty(limit, gap, before, p.now); before := p.now; }
      ServeKeepsFaithful(log, grants, limit, gap, before, p);
      now := p.grantRead;
    }
  }

  lemma AgeEmpty(limit: nat, gap: real, before: real, now: real)
    ensures Faithful([], [], limit, gap, now)
  {
  }

  /** Under a monotone clock, whatever the interleaving of callers, no closed 60-second
      window holds more than `limit` grants, and grants keep the gap when it is at most 60. */
  lemma EveryRunKeepsTheRate(passes: seq<Pass>, limit: nat, gap: real, from: real)
    requires Monotone(passes) && limit > 0
    ensures GrantsIn(Served(passes, limit, gap).1, from) <= limit
    ensures gap <= WINDOW ==>
      var grants := Served(passes, limit, gap).1;
      forall i, j :: 0 <= i && j == i + 1 && j < |grants| ==> grants[j] - grants[i] >= gap
  {
    var now := RunIsFaithful(passes, limit, gap);
    SpacedBoundsWindow(Served(passes, limit, gap).1, limit, from);
  }

  /** Two callers, the second of them later than the window but before the gap has passed. */
  function EarlyPair(gap: real): seq<Pass> {
    var t := (WINDOW + gap) / 2.0;
    [Pass(0.0, 0.0, 0.0), Pass(t, t, t)]
  }

  /** A gap above the window is forgotten: once the last grant leaves the log, the next
      pass grants at once, at every limit and every gap above 60. */
  lemma LongGapIsForgotten(gap: real, limit: nat)
    requires gap > WINDOW && limit > 0
    ensures Monotone(EarlyPair(gap))
    ensures var grants := Served(EarlyPair(gap), limit, gap).1;
      |grants| == 2 && grants[1] - grants[0] < gap
  {
    var t := (WINDOW + gap) / 2.0;
    var passes := EarlyPair(gap);
    assert passes[..1] == [Pass(0.0, 0.0, 0.0)] && passes[..1][..0] == [];
    assert [] + [0.0] == [0.0] && [] + [t] == [t] && [0.0] + [t] == [0.0, t];
    assert Serve([], limit, gap, passes[0]) == ([0.0], true);
    assert Served(passes[..1], limit, gap) == ([0.0], [0.0]);
    assert Prune([0.0], t) == [];
    assert Serve([0.0], limit, gap, passes[1]) == ([t], true);
  }

  /** The asynchronous pass decides as `Serve` does, and its wait is long enough. */
  lemma AttemptMatchesServe(log0: seq<real>, grants: seq<real>, limit: nat, gap: real, now: real)
    requires limit > 0 && Faithful(Prune(log0, now), grants, limit, gap, now)
    ensures var log := Prune(log0, now);
      var wait := WaitNeeded(log, limit, gap, now);
      if wait == 0.0 && |log| < limit then
        Serve(log0, limit, gap, Pass(now, now, now)) == (log + [now], true)
        && (log != [] ==> now - log[|log| - 1] >= gap)
      else
        Serve(log0, limit, gap, Pass(now, now, now)) == (log, false) && wait > 0.0
        && forall later :: later >= now + wait ==> Serve(log, limit, gap, Pass(later, later, later)).1
  {
    var log := Prune(log0, now);
    PruneIsSuffix(log0, now);
    PassGrantsOrWaits(log, limit, gap, now);
    var wait := WaitNeeded(log, limit, gap, now);
    forall later | later >= now + wait
      ensures Serve(log, limit, gap, Pass(later, later, later)).1
    {
      hide Faithful;
      WaitSuffices(log, grants, limit, gap, now, later);
      PruneIsSuffix(log, later);
      PassGrantsOrWaits(Prune(log, later), limit, gap, later);
    }
  }

  /** The last grant is more recent than the gap allows. */
  ghost predicate TooSoon(log: seq<real>, now: real, gap: real) {
    log != [] && now - log[|log| - 1] < gap
  }

  /** What a sleeping turn gains: fewer live grants, or no gap left to wait for. */
  ghost predicate Progress(log0: seq<real>, start: real, log: seq<real>, now: real, gap: real) {
    || |Prune(log, now)| < |Prune(log0, start)|
    || (|Prune(log, now)| == |Prune(log0, start)| && TooSoon(log0, start, gap) && !TooSoon(log, now, gap))
  }

  /** There is room among the grants of the last window, and the gap has passed. */
  ghost predicate Free(recent: seq<real>, limit: nat, gap: real, gapRead: real) {
    |recent| < limit && (recent == [] || gapRead - recent[|recent| - 1] >= gap)
  }

  /** What is left of the gap after the last grant. */
  ghost function RestOfGap(recent: seq<real>, gap: real, gapRead: real): real {
    if recent != [] && gapRead - recent[|recent| - 1] < gap then recent[|recent| - 1] + gap - gapRead else 0.0
  }

  /** What is left until the oldest grant of a full window is 60.1 seconds old. */
  ghost function RestOfWindow(recent: seq<real>, limit: nat, now: real): real {
    if recent != [] && |recent| >= limit then recent[0] + 60.1 - now else 0.0
  }

  /** The wait is no longer than needed: while the last grant is in the window, no pass made before
      the wait is over, but for the slack, grants; and with a gap of at most 60 it is in the
      window until then. */
  lemma WaitIsNeeded(log: seq<real>, grants: seq<real>, limit: nat, gap: real, now: real, later: real)
    requires limit > 0 && Faithful(log, grants, limit, gap, now) && log == Recent(grants, now)
    requires now <= later && later + SLACK < now + WaitNeeded(log, limit, gap, now)
    ensures log != []
    ensures later - log[|log| - 1] <= WINDOW ==> !Free(Recent(grants, later), limit, gap, later)
    ensures gap <= WINDOW ==> later - log[|log| - 1] <= WINDOW
  {
    InOrder(log, grants, limit, gap, now);
    hide Faithful, Recent;
    PruneKeepsRecent(log, grants, limit, gap, now, later);
    PruneIsSuffix(log, later);
    var p := Prune(log, later);
    if p != [] { assert p[|p| - 1] == log[|log| - 1]; }
    if later - log[|log| - 1] <= WINDOW && p == [] { assert false; }
  }

  lemma InOrder(log: seq<real>, grants: seq<real>, limit: nat, gap: real, now: real)
    requires Faithful(log, grants, limit, gap, now)
    ensures log != [] ==> log[0] <= log[|log| - 1]
  {
    hide Spaced, Gapped;
    if log != [] { assert grants[|grants| - |log|] <= grants[|grants| - 1]; }
  }

  lemma LogStaysInWindow(log: seq<real>, now: real)
    ensures Prune(log, now) != [] ==> now - Prune(log, now)[0] <= WINDOW
  {
    PruneIsSuffix(log, now);
  }

  lemma GapSleepProgresses(log0: seq<real>, start: real, now: real, t: real, later: real, gap: real)
    requires start <= now <= t <= later
    requires Prune(log0, now) != []
    requires var log := Prune(log0, now); t - log[|log| - 1] < gap <= later - log[|log| - 1]
    ensures Progress(log0, start, Prune(log0, now), later, gap)
  {
    PruneIsSuffix(log0, now);
    PruneStep(log0, start, later);
    PruneStep(log0, now, later);
  }

  lemma RoomSleepProgresses(log0: seq<real>, start: real, now: real, later: real, gap: real)
    requires start <= now <= later
    requires Prune(log0, now) != [] && later - Prune(log0, now)[0] > WINDOW
    ensures Progress(log0, start, Prune(log0, now), later, gap)
  {
    var log := Prune(log0, now);
    PruneStep(log0, start, now);
    PruneIsSuffix(log, later);
  }

  // ---------------------------------------------------------------- the class

  /** A clock that never goes back; `Sleep` may oversleep. */
  class Clock {
    var time: real
    ghost var asked: seq<real>  // what the sleepers have asked for

    constructor ()
    {
      time, asked := 0.0, [];
    }

    method Read() returns (t: real)
      modifies this`time
      ensures t == time && time >= old(time)
    {
      var drift: real := *;
      if drift > 0.0 { time := time + drift; }
      t := time;
    }

    method Sleep(seconds: real)
      modifies this
      ensures time >= old(time) && time >= old(time) + seconds
      ensures asked == old(asked) + [seconds]
    {
      asked := asked + [seconds];
      var over: real := *;
      if seconds > 0.0 { time := time + seconds; }
      if over > 0.0 { time := time + over; }
    }
  }

  datatype Attempt = Unlimited | Granted(at: real) | WaitFor(seconds: real)

  class RateLimiter {
    const limits: map<string, int>
    const requestGap: real
    var requestLogs: map<string, seq<real>>
    ghost var history: map<string, seq<real>>  // every grant ever made, by model

    predicate Limited(model: string) {
      model in limits && limits[model] > 0
    }

    function Log(model: string): seq<real>
      reads this
    {
      if model in requestLogs then requestLogs[model] else []
    }

    ghost function History(model: string): seq<real>
      reads this
    {
      if model in history then history[model] else []
    }

    ghost predicate Valid(now: real)
      reads this
    {
      forall model :: Limited(model) ==>
        Faithful(Log(model), History(model), limits[model], requestGap, now)
    }

    constructor (limits: map<string, int>, requestGap: real)
      ensures this.limits == limits && this.requestGap == requestGap
      ensures forall now :: Valid(now)
      ensures forall model :: History(model) == []
    {
      this.limits, this.requestGap := limits, requestGap;
      requestLogs, history := map[], map[];
    }

    /** Drops what is over a window old from a model's log. */
    method CleanUp(model: string, now: real, ghost before: real)
      requires Limited(model) && Valid(before) && before <= now
      modifies this`requestLogs
      ensures Valid(now)
      ensures Log(model) == Recent(History(model), now) == Prune(old(Log(model)), now)
      ensures forall m :: m != model ==> Log(m) == old(Log(m))
    {
      hide Faithful;
      var log := Log(model);
      while log != [] && now - log[0] > WINDOW
        invariant Prune(log, now) == Prune(old(Log(model)), now)
      {
        log := log[1..];
      }
      Age(before, now);
      label aged:
      requestLogs := requestLogs[model := log];
      PruneKeepsRecent(old(Log(model)), History(model), limits[model], requestGap, before, now);
      forall m | Limited(m) && m != model
        ensures Faithful(Log(m), History(m), limits[m], requestGap, now)
      {
        assert Log(m) == old@aged(Log(m)) && History(m) == old@aged(History(m));
      }
    }

    /** Appends a grant to a model's log and history. */
    method Append(model: string, granted: real, ghost now: real, ghost gapRead: real)
      requires Limited(model) && Valid(now) && now <= gapRead <= granted
      requires |Log(model)| < limits[model]
      requires Log(model) != [] ==> gapRead - Log(model)[|Log(model)| - 1] >= requestGap
      modifies this
      ensures Valid(granted)
      ensures Log(model) == old(Log(model)) + [granted]
      ensures History(model) == old(History(model)) + [granted]
      ensures forall m :: m != model ==> Log(m) == old(Log(m)) && History(m) == old(History(m))
    {
      hide Faithful;
      GrantKeepsFaithful(Log(model), History(model), limits[model], requestGap, now, gapRead, granted);
      Age(now, granted);
      label aged:
      history := history[model := History(model) + [granted]];
      requestLogs := requestLogs[model := Log(model) + [granted]];
      forall m | Limited(m) && m != model
        ensures Faithful(Log(m), History(m), limits[m], requestGap, granted)
      {
        assert Log(m) == old@aged(Log(m)) && History(m) == old@aged(History(m));
      }
    }

    /** One locked pass of the asynchronous caller. */
    method TryAcquire(model: string, clock: Clock) returns (r: Attempt)
      requires Valid(clock.time)
      modifies this, clock
      ensures Valid(clock.time) && clock.time >= old(clock.time)
      ensures !Limited(model) <==> r.Unlimited?
      ensures r.Unlimited? ==> unchanged(this)
      ensures Limited(model) ==>
        (Log(model), r.Granted?) ==
        Serve(old(Log(model)), limits[model], requestGap, Pass(clock.time, clock.time, clock.time))
      ensures r.Granted? ==> History(model) == old(History(model)) + [r.at] && r.at == clock.time
      ensures !r.Granted? ==> History(model) == old(History(model))
      ensures Limited(model) ==>
        (r.Granted? <==> Free(Recent(old(History(model)), clock.time), limits[model], requestGap, clock.time))
      ensures r.WaitFor? ==> r.seconds > 0.0
      ensures r.WaitFor? ==>
        var recent := Recent(old(History(model)), clock.time);
        var a, b := RestOfGap(recent, requestGap, clock.time), RestOfWindow(recent, limits[model], clock.time);
        r.seconds == if a >= b then a else b
      ensures r.WaitFor? ==> forall later :: later >= clock.time + r.seconds ==>
        Serve(Log(model), limits[model], requestGap, Pass(later, later, later)).1
      ensures forall m :: m != model ==> Log(m) == old(Log(m)) && History(m) == old(History(m))
    {
      hide Faithful, Prune, Recent, Serve, WaitNeeded;
      if !Limited(model) { return Unlimited; }
      ghost var before := clock.time;
      var limit := limits[model];
      var now := clock.Read();
      CleanUp(model, now, before);
      var log := Log(model);
      AttemptMatchesServe(old(Log(model)), History(model), limit, requestGap, now);
      LogStaysInWindow(old(Log(model)), now);
      var wait := WaitNeeded(log, limit, requestGap, now);
      WaitIs(log, limit, requestGap, now);
      if wait == 0.0 && |log| < limit {
        Append(model, now, now, now);
        return Granted(now);
      }
      return WaitFor(wait);
    }

    /** One turn of the blocking caller's loop: it grants exactly when there is room and the gap has
        passed, otherwise it sleeps for exactly the rest of the gap or, if the gap has passed, of
        the window, and makes progress. */
    method BlockingPass(model: string, clock: Clock) returns (granted: bool, ghost now: real, ghost gapRead: real)
      requires Limited(model) && Valid(clock.time)
      modifies this, clock
      ensures Valid(clock.time) && old(clock.time) <= now <= gapRead <= clock.time
      ensures granted <==> Free(Recent(old(History(model)), now), limits[model], requestGap, gapRead)
      ensures var recent := Recent(old(History(model)), now);
        clock.asked == old(clock.asked)
          + if granted then []
            else if RestOfGap(recent, requestGap, gapRead) > 0.0 then [RestOfGap(recent, requestGap, gapRead)]
            else [RestOfWindow(recent, limits[model], now)]
      ensures History(model) == old(History(model)) + if granted then [clock.time] else []
      ensures granted || Progress(old(Log(model)), old(clock.time), Log(model), clock.time, requestGap)
      ensures forall m :: m != model ==> Log(m) == old(Log(m)) && History(m) == old(History(m))
    {
      hide Faithful, Prune, Recent, Progress;
      ghost var start := clock.time;
      ghost var log0 := Log(model);
      var limit := limits[model];
      var top := clock.Read();
      now, gapRead := top, top;
      CleanUp(model, top, start);
      var log := Log(model);
      LogStaysInWindow(log0, top);
      if log != [] {
        var last := log[|log| - 1];
        var t := clock.Read();
        gapRead := t;
        Age(top, t);
        var gap := t - last;
        if gap < requestGap {
          clock.Sleep(requestGap - gap);
          Age(t, clock.time);
          GapSleepProgresses(log0, start, top, t, clock.time, requestGap);
          return false, now, gapRead;
        }
      }
      if |log| < limit {
        var t := clock.Read();
        Append(model, t, gapRead, gapRead);
        return true, now, gapRead;
      }
      var wait := WINDOW - (top - log[0]) + SLACK;
      if wait > 0.0 { clock.Sleep(wait); }
      Age(gapRead, clock.time);
      RoomSleepProgresses(log0, start, top, clock.time, requestGap);
      return false, now, gapRead;
    }

    /** The blocking caller: holds the lock until it has a grant, and always gets one; it does so
        without sleeping exactly when there is room and the gap has passed at its first readings. */
    method Acquire(model: string, clock: Clock) returns (ghost now: real, ghost gapRead: real)
      requires Valid(clock.time)
      modifies this, clock
      ensures Valid(clock.time) && clock.time >= old(clock.time)
      ensures !Limited(model) ==> unchanged(this) && unchanged(clock)
      ensures Limited(model) ==> History(model) == old(History(model)) + [clock.time]
      ensures Limited(model) ==> old(clock.time) <= now <= gapRead <= clock.time
      ensures Limited(model) ==>
        (clock.asked == old(clock.asked) <==>
           Free(Recent(old(History(model)), now), limits[model], requestGap, gapRead))
      ensures forall m :: m != model ==> Log(m) == old(Log(m)) && History(m) == old(History(m))
    {
      hide Faithful, Prune, Recent;
      now, gapRead := clock.time, clock.time;
      if !Limited(model) { return; }
      var granted := false;
      ghost var first := true;
      while !granted
        invariant Valid(clock.time) && old(clock.time) <= now <= gapRead <= clock.time
        invariant History(model) == old(History(model)) + if granted then [clock.time] else []
        invariant first ==> !granted && clock.asked == old(clock.asked)
        invariant !first && Free(Recent(old(History(model)), now), limits[model], requestGap, gapRead) ==>
          granted && clock.asked == old(clock.asked)
        invariant !first && !Free(Recent(old(History(model)), now), limits[model], requestGap, gapRead) ==>
          |clock.asked| > |old(clock.asked)|
        invariant forall m :: m != model ==> Log(m) == old(Log(m)) && History(m) == old(History(m))
        decreases !granted, |Prune(Log(model), clock.time)|, TooSoon(Log(model), clock.time, requestGap)
      {
        ghost var top, gapTop;
        granted, top, gapTop := BlockingPass(model, clock);
        if first { first, now, gapRead := false, top, gapTop; }
      }
    }

    lemma Age(now: real, later: real)
      requires Valid(now) && now <= later
      ensures Valid(later)
    {
      hide Faithful;
      forall m | Limited(m)
        ensures Faithful(Log(m), History(m), limits[m], requestGap, later)
      {
        AgeFaithful(Log(m), History(m), limits[m], requestGap, now, later);
      }
    }
  }

  /** Pruning later prunes more, and pruning first does not matter. */
  lemma {:induction false} PruneStep(log: seq<real>, now: real, later: real)
    requires now <= later
    ensures Prune(Prune(log, now), later) == Prune(log, later)
    ensures |Prune(log, later)| <= |Prune(log, now)|
  {
    if log != [] && now - log[0] > WINDOW {
      PruneStep(log[1..], now, later);
    } else {
      PruneIsSuffix(log, later);
    }
  }
}
