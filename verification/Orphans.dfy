/** The scan for tasks a former worker process left behind (`_handle_orphan_tasks_on_start`). */
module Orphans {
  import opened Wrappers
  import opened TaskRows

  /** A row as the scan read it; "" stands for a field that is missing or empty. */
  datatype Orphan = Orphan(id: string, status: Status, media: string, kind: string, provider: string, job: string)

  /** The tasks that have left the queue, by id. */
  type RowMap = map<string, Status>

  type Buckets = map<string, seq<Orphan>>

  /** A guarded write by somebody else: a cancel flip, a task still running here, or a cancellation
      passed on to the tasks that depend on another one. */
  datatype Outside = Outside(id: string, write: Write)

  /** What others write while the scan waits: before it turns to an orphan, and between a failure
      that hit no row and the cancellation that follows it. */
  datatype Meanwhile = Meanwhile(before: seq<Outside>, between: seq<Outside>)

  const NON_RESUMABLE_VIDEO_PROVIDERS := {"grok", "vidu"}

  function Updated(rows: RowMap, id: string, w: Write): RowMap {
    if id in rows then rows[id := Apply(w, rows[id])] else rows
  }

  function WriteMany(rows: RowMap, writes: seq<Outside>): RowMap {
    if writes == [] then rows
    else
      var last := writes[|writes| - 1];
      Updated(WriteMany(rows, writes[..|writes| - 1]), last.id, last.write)
  }

  function MediaOf(o: Orphan): string {
    if o.media != "" then o.media
    else if o.kind == "video" || o.kind == "reference_video" then "video"
    else if o.kind == "tts" then "audio"
    else "image"
  }

  function ProviderOf(o: Orphan, route: Orphan -> string): string {
    if o.provider != "" then o.provider else route(o)
  }

  /** What the scan decides for an orphan. */
  datatype Fate = Skipped | Cancel | Drop | Resume(provider: string)

  function FateOf(o: Orphan, active: set<string>, route: Orphan -> string): Fate {
    if o.id in active then Skipped
    else if o.status == Cancelling then Cancel
    else if MediaOf(o) == "image" || MediaOf(o) == "audio" then Drop
    else if ProviderOf(o, route) in NON_RESUMABLE_VIDEO_PROVIDERS || o.job == "" then Drop
    else Resume(ProviderOf(o, route))
  }

  predicate Hits(rows: RowMap, id: string) {
    id in rows && Rows(Failure, rows[id]) > 0
  }

  /** The scan's writes: the last-resort cancellation follows a failure that hit no row. */
  function Decide(rows: RowMap, id: string, fate: Fate, between: seq<Outside>): RowMap {
    match fate
    case Cancel => Updated(rows, id, Cancellation)
    case Drop =>
      if Hits(rows, id) then Updated(rows, id, Failure) else Updated(WriteMany(rows, between), id, Cancellation)
    case _ => rows
  }

  function Filed(buckets: Buckets, o: Orphan, fate: Fate): Buckets {
    match fate
    case Resume(p) => buckets[p := (if p in buckets then buckets[p] else []) + [o.(provider := p)]]
    case _ => buckets
  }

  /** After `k` orphans, with the others' writes before each of them. */
  function Scanned(rows: RowMap, orphans: seq<Orphan>, active: set<string>, route: Orphan -> string,
                   outside: seq<Meanwhile>, k: nat): (RowMap, Buckets)
    requires k <= |orphans| == |outside|
  {
    if k == 0 then (rows, map[])
    else
      var (r, b) := Scanned(rows, orphans, active, route, outside, k - 1);
      var o := orphans[k - 1];
      var fate := FateOf(o, active, route);
      (Decide(WriteMany(r, outside[k - 1].before), o.id, fate, outside[k - 1].between), Filed(b, o, fate))
  }

  /** The orphans that go to a provider's bucket, in the order they were found. */
  function ToResume(orphans: seq<Orphan>, active: set<string>, route: Orphan -> string, p: string): seq<Orphan> {
    if orphans == [] then []
    else
      var last := orphans[|orphans| - 1];
      ToResume(orphans[..|orphans| - 1], active, route, p)
      + if FateOf(last, active, route) == Resume(p) then [last.(provider := p)] else []
  }

  // ---------------------------------------------------------------- writes by others

  ghost predicate Tame(writes: seq<Outside>) {
    forall j :: 0 <= j < |writes| ==> writes[j].write != Requeue
  }

  ghost predicate NoRequeue(outside: seq<Meanwhile>) {
    forall i :: 0 <= i < |outside| ==> Tame(outside[i].before) && Tame(outside[i].between)
  }

  lemma {:induction false} OthersKeep(rows: RowMap, writes: seq<Outside>, id: string)
    ensures id in WriteMany(rows, writes) <==> id in rows
    ensures Tame(writes) && id in rows && rows[id] != Queued ==> WriteMany(rows, writes)[id] != Queued
    ensures id in rows && Terminal(rows[id]) ==> WriteMany(rows, writes)[id] == rows[id]
  {
    if writes != [] {
      OthersKeep(rows, writes[..|writes| - 1], id);
    }
  }

  lemma DecideKeeps(rows: RowMap, id: string, fate: Fate, between: seq<Outside>, other: string)
    ensures var r := Decide(rows, id, fate, between);
      && (other in r <==> other in rows)
      && (Tame(between) && other in rows && rows[other] != Queued ==> r[other] != Queued)
      && (other in rows && Terminal(rows[other]) ==> r[other] == rows[other])
  {
    OthersKeep(rows, between, other);
  }

  lemma DecideEnds(rows: RowMap, id: string, fate: Fate, between: seq<Outside>)
    requires id in rows && (fate == Cancel || fate == Drop)
    ensures id in Decide(rows, id, fate, between) && Terminal(Decide(rows, id, fate, between)[id])
  {
    OthersKeep(rows, between, id);
    if fate == Drop && Hits(rows, id) {
      assert Decide(rows, id, fate, between)[id] == Failed;
    } else {
      var last := if fate == Drop then WriteMany(rows, between) else rows;
      assert Decide(rows, id, fate, between)[id] == Apply(Cancellation, last[id]);
      assert Terminal(Apply(Cancellation, last[id]));
    }
  }

  // ---------------------------------------------------------------- the laws

  ghost predicate DistinctIds(orphans: seq<Orphan>) {
    forall i, j :: 0 <= i < j < |orphans| ==> orphans[i].id != orphans[j].id
  }

  /** Rows stay, none goes back to the queue, and one that is terminal stays as it is. */
  lemma {:induction false} ScanKeeps(rows: RowMap, orphans: seq<Orphan>, active: set<string>, route: Orphan -> string,
                                     outside: seq<Meanwhile>, k: nat, id: string)
    requires k <= |orphans| == |outside| && NoRequeue(outside)
    ensures var r := Scanned(rows, orphans, active, route, outside, k).0;
      && (id in r <==> id in rows)
      && (id in rows && rows[id] != Queued ==> r[id] != Queued)
      && (id in rows && Terminal(rows[id]) ==> r[id] == rows[id])
  {
    if k > 0 {
      ScanKeeps(rows, orphans, active, route, outside, k - 1, id);
      var r := Scanned(rows, orphans, active, route, outside, k - 1).0;
      hide Decide, FateOf, WriteMany;
      OthersKeep(r, outside[k - 1].before, id);
      DecideKeeps(WriteMany(r, outside[k - 1].before), orphans[k - 1].id, FateOf(orphans[k - 1], active, route),
                  outside[k - 1].between, id);
    }
  }

  /** Once handled, an orphan the scan ended is terminal for good. */
  lemma {:induction false} EndedStays(rows: RowMap, orphans: seq<Orphan>, active: set<string>, route: Orphan -> string,
                                      outside: seq<Meanwhile>, i: nat, k: nat)
    requires i < k <= |orphans| == |outside| && NoRequeue(outside) && orphans[i].id in rows
    requires FateOf(orphans[i], active, route) == Cancel || FateOf(orphans[i], active, route) == Drop
    ensures var r := Scanned(rows, orphans, active, route, outside, k).0;
      orphans[i].id in r && Terminal(r[orphans[i].id])
    decreases k
  {
    var id := orphans[i].id;
    var r := Scanned(rows, orphans, active, route, outside, k - 1).0;
    ScanKeeps(rows, orphans, active, route, outside, k - 1, id);
    var now, between := WriteMany(r, outside[k - 1].before), outside[k - 1].between;
    OthersKeep(r, outside[k - 1].before, id);
    hide Decide, FateOf, WriteMany;
    if i == k - 1 {
      DecideEnds(now, id, FateOf(orphans[i], active, route), between);
    } else {
      EndedStays(rows, orphans, active, route, outside, i, k - 1);
      DecideKeeps(now, orphans[k - 1].id, FateOf(orphans[k - 1], active, route), between, id);
    }
  }

  /** The buckets hold exactly the orphans to resume, each under its provider, in order. */
  lemma {:induction false} BucketsExact(rows: RowMap, orphans: seq<Orphan>, active: set<string>,
                                        route: Orphan -> string, outside: seq<Meanwhile>, k: nat, p: string)
    requires k <= |orphans| == |outside|
    ensures var b := Scanned(rows, orphans, active, route, outside, k).1;
      var due := ToResume(orphans[..k], active, route, p);
      && (p in b <==> due != [])
      && (p in b ==> b[p] == due)
  {
    if k > 0 {
      BucketsExact(rows, orphans, active, route, outside, k - 1, p);
      assert orphans[..k][..k - 1] == orphans[..k - 1];
      hide FateOf;
    }
  }

  /** A bucketed orphan can be resumed: it is still running as far as the scan saw, is no image and
      no speech, has a job, and its provider can take a job up again. */
  lemma {:induction false} ResumableOnly(orphans: seq<Orphan>, active: set<string>, route: Orphan -> string,
                                         p: string, j: nat)
    requires j < |ToResume(orphans, active, route, p)|
    ensures var o := ToResume(orphans, active, route, p)[j];
      && o.id !in active && o.status != Cancelling && MediaOf(o) !in {"image", "audio"}
      && o.job != "" && o.provider == p && p !in NON_RESUMABLE_VIDEO_PROVIDERS
  {
    var before := ToResume(orphans[..|orphans| - 1], active, route, p);
    if j < |before| {
      ResumableOnly(orphans[..|orphans| - 1], active, route, p, j);
    }
  }

  predicate Among(list: seq<Orphan>, id: string) {
    exists j :: 0 <= j < |list| && list[j].id == id
  }

  /** An orphan is in a provider's bucket exactly when that is its fate, and no id is there twice. */
  lemma {:induction false} ListedOnce(orphans: seq<Orphan>, active: set<string>, route: Orphan -> string,
                                      p: string, id: string)
    requires DistinctIds(orphans)
    ensures var due := ToResume(orphans, active, route, p);
      && DistinctIds(due)
      && (Among(due, id) <==>
          exists i :: 0 <= i < |orphans| && orphans[i].id == id && FateOf(orphans[i], active, route) == Resume(p))
  {
    if orphans != [] {
      var butLast, last := orphans[..|orphans| - 1], orphans[|orphans| - 1];
      hide FateOf;
      ListedOnce(butLast, active, route, p, id);
      ListedOnce(butLast, active, route, p, last.id);
      var before, due := ToResume(butLast, active, route, p), ToResume(orphans, active, route, p);
      assert orphans == butLast + [last];
      assert !Among(before, last.id);
      assert forall j :: 0 <= j < |before| ==> due[j] == before[j];
      if FateOf(last, active, route) == Resume(p) { assert due[|before|].id == last.id; }
    }
  }

  /** Every orphan ends as exactly one of: left to the task still running here, terminal, or once
      in its own provider's bucket; and none is queued again, whatever others write meanwhile. */
  lemma EachOrphanHasOneFate(rows: RowMap, orphans: seq<Orphan>, active: set<string>, route: Orphan -> string,
                             outside: seq<Meanwhile>, i: nat)
    requires i < |orphans| == |outside| && NoRequeue(outside) && DistinctIds(orphans)
    requires orphans[i].id in rows && rows[orphans[i].id] != Queued
    ensures var (r, b) := Scanned(rows, orphans, active, route, outside, |orphans|);
      var (o, fate) := (orphans[i], FateOf(orphans[i], active, route));
      && o.id in r && r[o.id] != Queued
      && (fate == Skipped <==> o.id in active)
      && (fate == Cancel || fate == Drop ==> Terminal(r[o.id]))
      && (forall p :: p in b && Among(b[p], o.id) <==> fate == Resume(p))
      && (forall p :: p in b ==> DistinctIds(b[p]))
  {
    var o, fate := orphans[i], FateOf(orphans[i], active, route);
    ScanKeeps(rows, orphans, active, route, outside, |orphans|, o.id);
    if fate == Cancel || fate == Drop { EndedStays(rows, orphans, active, route, outside, i, |orphans|); }
    var b := Scanned(rows, orphans, active, route, outside, |orphans|).1;
    hide Scanned, FateOf, Among, ToResume;
    assert orphans[..|orphans|] == orphans;
    forall p
      ensures p in b && Among(b[p], o.id) <==> fate == Resume(p)
      ensures p in b ==> DistinctIds(b[p])
    {
      BucketsExact(rows, orphans, active, route, outside, |orphans|, p);
      ListedOnce(orphans, active, route, p, o.id);
      NothingAmong(o.id);
    }
  }

  lemma NothingAmong(id: string)
    ensures !Among([], id)
  {
  }

  /** The writes of others that have taken place after `k` orphans, in order. */
  function TookPlace(rows: RowMap, orphans: seq<Orphan>, active: set<string>, route: Orphan -> string,
                     outside: seq<Meanwhile>, k: nat): seq<Outside>
    requires k <= |orphans| == |outside|
  {
    if k == 0 then []
    else
      var r := WriteMany(Scanned(rows, orphans, active, route, outside, k - 1).0, outside[k - 1].before);
      var o := orphans[k - 1];
      TookPlace(rows, orphans, active, route, outside, k - 1) + outside[k - 1].before
      + if FateOf(o, active, route) == Drop && !Hits(r, o.id) then outside[k - 1].between else []
  }

  /** An orphan the scan does not end, like any other row, is changed only by others. */
  lemma {:induction false} UntouchedByScan(rows: RowMap, orphans: seq<Orphan>, active: set<string>,
                                           route: Orphan -> string, outside: seq<Meanwhile>, k: nat, id: string)
    requires k <= |orphans| == |outside|
    requires forall j :: 0 <= j < |orphans| && orphans[j].id == id ==>
      FateOf(orphans[j], active, route).Skipped? || FateOf(orphans[j], active, route).Resume?
    ensures Get(Scanned(rows, orphans, active, route, outside, k).0, id)
      == Get(WriteMany(rows, TookPlace(rows, orphans, active, route, outside, k)), id)
  {
    if k > 0 {
      UntouchedByScan(rows, orphans, active, route, outside, k - 1, id);
      var r := Scanned(rows, orphans, active, route, outside, k - 1).0;
      var took := TookPlace(rows, orphans, active, route, outside, k - 1);
      var o, before, between := orphans[k - 1], outside[k - 1].before, outside[k - 1].between;
      hide FateOf, WriteMany, Scanned;
      WritesAppend(rows, took, before);
      SameRowSameWrites(r, WriteMany(rows, took), before, id);
      DecideElsewhere(WriteMany(r, before), o.id, FateOf(o, active, route), between, id);
      WritesAppend(rows, took + before, between);
      SameRowSameWrites(WriteMany(r, before), WriteMany(rows, took + before), between, id);
      ScannedStep(rows, orphans, active, route, outside, k);
      assert (took + before) + [] == took + before;
    } else {
      NoWrites(rows);
    }
  }

  lemma NoWrites(rows: RowMap)
    ensures WriteMany(rows, []) == rows
  {
  }

  lemma ScannedStep(rows: RowMap, orphans: seq<Orphan>, active: set<string>, route: Orphan -> string,
                    outside: seq<Meanwhile>, k: nat)
    requires 0 < k <= |orphans| == |outside|
    ensures var r := WriteMany(Scanned(rows, orphans, active, route, outside, k - 1).0, outside[k - 1].before);
      var o := orphans[k - 1];
      Scanned(rows, orphans, active, route, outside, k).0
        == Decide(r, o.id, FateOf(o, active, route), outside[k - 1].between)
  {
    hide Decide, FateOf, WriteMany;
  }

  /** Other rows see only the writes of others that take place. */
  lemma DecideElsewhere(rows: RowMap, id: string, fate: Fate, between: seq<Outside>, other: string)
    ensures fate == Skipped || fate.Resume? || other != id ==>
      Get(Decide(rows, id, fate, between), other)
        == Get(if fate == Drop && !Hits(rows, id) then WriteMany(rows, between) else rows, other)
  {
  }

  lemma {:induction false} WritesAppend(rows: RowMap, a: seq<Outside>, b: seq<Outside>)
    ensures WriteMany(rows, a + b) == WriteMany(WriteMany(rows, a), b)
  {
    if b == [] {
      assert a + b == a;
    } else {
      WritesAppend(rows, a, b[..|b| - 1]);
      assert (a + b)[..|a + b| - 1] == a + b[..|b| - 1];
    }
  }

  lemma {:induction false} SameRowSameWrites(a: RowMap, b: RowMap, writes: seq<Outside>, id: string)
    requires Get(a, id) == Get(b, id)
    ensures Get(WriteMany(a, writes), id) == Get(WriteMany(b, writes), id)
  {
    if writes != [] { SameRowSameWrites(a, b, writes[..|writes| - 1], id); }
  }

  // ---------------------------------------------------------------- who is resumed, who is not

  /** By its media type, or by its kind when it has none: neither image nor speech. */
  predicate IsVideo(o: Orphan) {
    if o.media != "" then o.media != "image" && o.media != "audio" else o.kind in {"video", "reference_video"}
  }

  /** The provider it was given to, or else the one it would be given to now. */
  predicate BelongsTo(o: Orphan, route: Orphan -> string, p: string) {
    if o.provider != "" then p == o.provider else p == route(o)
  }

  /** It is nobody's task here, was not being cancelled, and is a video with a job at a provider that
      can take it up again. */
  predicate CanGoOn(o: Orphan, active: set<string>, route: Orphan -> string, p: string) {
    && o.id !in active && o.status != Cancelling && IsVideo(o) && o.job != ""
    && BelongsTo(o, route, p) && p != "grok" && p != "vidu"
  }

  lemma FateMeans(o: Orphan, active: set<string>, route: Orphan -> string)
    ensures forall p :: FateOf(o, active, route) == Resume(p) <==> CanGoOn(o, active, route, p)
    ensures FateOf(o, active, route) == Skipped <==> o.id in active
    ensures FateOf(o, active, route) == Cancel <==> o.id !in active && o.status == Cancelling
  {
  }

  /** An orphan is in a provider's bucket if and only if it can go on there, and it is there as it was
      found, with that provider. */
  lemma BucketedIffItCanGoOn(rows: RowMap, orphans: seq<Orphan>, active: set<string>, route: Orphan -> string,
                             outside: seq<Meanwhile>, i: nat, p: string)
    requires i < |orphans| == |outside| && DistinctIds(orphans)
    ensures var b := Scanned(rows, orphans, active, route, outside, |orphans|).1;
      && (p in b && Among(b[p], orphans[i].id) <==> CanGoOn(orphans[i], active, route, p))
      && (CanGoOn(orphans[i], active, route, p) ==> p in b && orphans[i].(provider := p) in b[p])
  {
    BucketsExact(rows, orphans, active, route, outside, |orphans|, p);
    assert orphans[..|orphans|] == orphans;
    ListedOnce(orphans, active, route, p, orphans[i].id);
    FateMeans(orphans[i], active, route);
    hide Scanned, FateOf, ToResume, CanGoOn;
    NothingAmong(orphans[i].id);
    assert forall j :: 0 <= j < |orphans| && orphans[j].id == orphans[i].id ==> j == i;
    if CanGoOn(orphans[i], active, route, p) { ListedAsFound(orphans, active, route, p, i); }
  }

  lemma {:induction false} ListedAsFound(orphans: seq<Orphan>, active: set<string>, route: Orphan -> string, p: string,
                                         i: nat)
    requires i < |orphans| && FateOf(orphans[i], active, route) == Resume(p)
    ensures orphans[i].(provider := p) in ToResume(orphans, active, route, p)
  {
    hide FateOf;
    if i < |orphans| - 1 { ListedAsFound(orphans[..|orphans| - 1], active, route, p, i); }
  }

  /** A bucket keeps the order in which its orphans were found. */
  lemma {:induction false} ListedInOrder(orphans: seq<Orphan>, active: set<string>, route: Orphan -> string, p: string,
                                         a: nat, b: nat) returns (i: nat, j: nat)
    requires a < b < |ToResume(orphans, active, route, p)|
    ensures i < j < |orphans|
    ensures var due := ToResume(orphans, active, route, p);
      due[a] == orphans[i].(provider := p) && due[b] == orphans[j].(provider := p)
  {
    hide FateOf;
    var n := |orphans| - 1;
    var before := ToResume(orphans[..n], active, route, p);
    if b < |before| {
      i, j := ListedInOrder(orphans[..n], active, route, p, a, b);
    } else {
      i := ListedFrom(orphans[..n], active, route, p, a);
      j := n;
    }
  }

  lemma {:induction false} ListedFrom(orphans: seq<Orphan>, active: set<string>, route: Orphan -> string, p: string,
                                      a: nat) returns (i: nat)
    requires a < |ToResume(orphans, active, route, p)|
    ensures i < |orphans| && ToResume(orphans, active, route, p)[a] == orphans[i].(provider := p)
  {
    hide FateOf;
    var n := |orphans| - 1;
    if a < |ToResume(orphans[..n], active, route, p)| {
      i := ListedFrom(orphans[..n], active, route, p, a);
    } else {
      i := n;
    }
  }

  /** Nobody else writes while the scan runs. */
  ghost predicate Undisturbed(outside: seq<Meanwhile>) {
    forall k :: 0 <= k < |outside| ==> outside[k] == Meanwhile([], [])
  }

  /** How an orphan's row ends then. */
  function EndOfOrphan(o: Orphan, active: set<string>, route: Orphan -> string): Status {
    if o.id in active then o.status
    else if o.status == Cancelling then Cancelled
    else if CanGoOn(o, active, route, if o.provider != "" then o.provider else route(o)) then Running
    else Failed
  }

  lemma DecidedEnd(rows: RowMap, o: Orphan, active: set<string>, route: Orphan -> string)
    requires o.id in rows && rows[o.id] == o.status && o.status in {Running, Cancelling}
    ensures Get(Decide(rows, o.id, FateOf(o, active, route), []), o.id) == Some(EndOfOrphan(o, active, route))
  {
  }

  /** With nobody else writing, an orphan that is not this process's own ends cancelled if it was being
      cancelled, stays running if it can go on, and ends failed otherwise. */
  lemma {:induction false} UndisturbedEnds(rows: RowMap, orphans: seq<Orphan>, active: set<string>,
                                           route: Orphan -> string, outside: seq<Meanwhile>, i: nat, k: nat)
    requires i < |orphans| == |outside| && k <= |orphans| && DistinctIds(orphans) && Undisturbed(outside)
    requires orphans[i].id in rows && rows[orphans[i].id] == orphans[i].status
    requires orphans[i].status in {Running, Cancelling}
    ensures Get(Scanned(rows, orphans, active, route, outside, k).0, orphans[i].id) ==
      Some(if k <= i then orphans[i].status else EndOfOrphan(orphans[i], active, route))
    decreases k
  {
    if k > 0 {
      hide FateOf, Decide, WriteMany, Scanned, EndOfOrphan;
      UndisturbedEnds(rows, orphans, active, route, outside, i, k - 1);
      var r, o := Scanned(rows, orphans, active, route, outside, k - 1).0, orphans[k - 1];
      NoWrites(r);
      ScannedStep(rows, orphans, active, route, outside, k);
      if k - 1 == i {
        DecidedEnd(r, o, active, route);
      } else {
        DecideElsewhere(r, o.id, FateOf(o, active, route), [], orphans[i].id);
      }
    } else {
      NothingScanned(rows, orphans, active, route, outside);
    }
  }

  lemma NothingScanned(rows: RowMap, orphans: seq<Orphan>, active: set<string>, route: Orphan -> string,
                       outside: seq<Meanwhile>)
    requires |orphans| == |outside|
    ensures Scanned(rows, orphans, active, route, outside, 0) == (rows, map[])
  {
  }

  // ---------------------------------------------------------------- the method

  class Database {
    var rows: RowMap

    /** A guarded update; the number of rows it changed. */
    method Update(id: string, w: Write) returns (count: nat)
      modifies this
      ensures rows == Updated(old(rows), id, w)
      ensures count == if id in old(rows) then Rows(w, old(rows)[id]) else 0
    {
      if id !in rows { return 0; }
      count := Rows(w, rows[id]);
      rows := rows[id := Apply(w, rows[id])];
    }

    /** What others write while the scan waits. */
    method Interleave(writes: seq<Outside>)
      modifies this
      ensures rows == WriteMany(old(rows), writes)
    {
      for j := 0 to |writes|
        invariant rows == WriteMany(old(rows), writes[..j])
      {
        assert writes[..j + 1][..j] == writes[..j];
        var n := Update(writes[j].id, writes[j].write);
      }
      assert writes[..|writes|] == writes;
    }

    method HandleOrphans(orphans: seq<Orphan>, active: set<string>, route: Orphan -> string, outside: seq<Meanwhile>)
      returns (resumable: Buckets)
      requires |outside| == |orphans|
      modifies this
      ensures (rows, resumable) == Scanned(old(rows), orphans, active, route, outside, |orphans|)
    {
      resumable := map[];
      for k := 0 to |orphans|
        invariant (rows, resumable) == Scanned(old(rows), orphans, active, route, outside, k)
      {
        var task := orphans[k];
        ghost var before := resumable;
        Interleave(outside[k].before);
        if task.id in active { continue; }
        if task.status == Cancelling {
          var n := Update(task.id, Cancellation);
          continue;
        }
        var media := MediaOf(task);
        if media == "image" || media == "audio" {
          FailOrCancel(task.id, outside[k].between);
          continue;
        }
        var provider := ProviderOf(task, route);
        if provider in NON_RESUMABLE_VIDEO_PROVIDERS {
          FailOrCancel(task.id, outside[k].between);
          continue;
        }
        if task.job == "" {
          FailOrCancel(task.id, outside[k].between);
          continue;
        }
        if provider !in resumable { resumable := resumable[provider := []]; }
        resumable := resumable[provider := resumable[provider] + [task.(provider := provider)]];
        assert resumable == Filed(before, task, Resume(provider));
      }
    }

    /** Fails the row, or cancels it if it is not running any more: either way it ends terminal,
        and other rows see only what others write in between. */
    method FailOrCancel(id: string, between: seq<Outside>)
      modifies this
      ensures rows == Decide(old(rows), id, Drop, between)
      ensures id in old(rows) ==> id in rows && Terminal(rows[id])
      ensures forall other :: other != id ==>
        Get(rows, other) == Get(if Hits(old(rows), id) then old(rows) else WriteMany(old(rows), between), other)
    {
      ghost var before := rows;
      var n := Update(id, Failure);
      if n == 0 {
        assert rows == before;
        Interleave(between);
        n := Update(id, Cancellation);
      }
      if id in before { DecideEnds(before, id, Drop, between); }
      forall other { DecideElsewhere(before, id, Drop, between, other); }
    }
  }
}
