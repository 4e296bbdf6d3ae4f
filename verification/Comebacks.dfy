/** When a ledger still tiles its text after a backfill has brought numbers back from files that
    were left behind. */
module Comebacks {
  import opened Wrappers
  import opened Text
  import opened Ledger
  import opened Backfill
  import opened BackfillLaws
  import opened ReplanScope
  import opened Reconcile
  import opened Planner
  import opened PlanningCalls
  import opened Tiling
  import opened PlannerLaws
  import opened SecondNames

  // ---------------------------------------------------------------- what a backfill appends

  /** The numbers that have a file but no entry. */
  function Newcomers(items: seq<Item>, fileNums: seq<nat>): seq<nat> {
    if fileNums == [] then []
    else
      var n := fileNums[|fileNums| - 1];
      Newcomers(items, fileNums[..|fileNums| - 1]) + if Has(items, n) then [] else [n]
  }

  function OrphansOf(nums: seq<nat>): (r: seq<Item>)
    ensures |r| == |nums| && forall i :: 0 <= i < |r| ==> r[i] == Orphan(nums[i])
  {
    seq(|nums|, i requires 0 <= i < |nums| => Orphan(nums[i]))
  }

  lemma {:induction false} AddedAreNewcomers(items: seq<Item>, fileNums: seq<nat>)
    ensures AddOrphans(items, fileNums) == items + OrphansOf(Newcomers(items, fileNums))
  {
    if fileNums == [] {
      assert items + [] == items;
    } else {
      var butLast, n := fileNums[..|fileNums| - 1], fileNums[|fileNums| - 1];
      AddedAreNewcomers(items, butLast);
      var before := Newcomers(items, butLast);
      if !Has(items, n) {
        assert OrphansOf(before + [n]) == OrphansOf(before) + [Orphan(n)];
        assert items + (OrphansOf(before) + [Orphan(n)]) == (items + OrphansOf(before)) + [Orphan(n)];
      } else {
        assert before + [] == before;
      }
    }
  }

  lemma {:induction false} NewcomersExact(items: seq<Item>, fileNums: seq<nat>)
    requires Ascending(fileNums)
    ensures Ascending(Newcomers(items, fileNums))
    ensures forall n: nat :: n in Newcomers(items, fileNums) <==> n in fileNums && !Has(items, n)
  {
    if fileNums != [] {
      var butLast, n := fileNums[..|fileNums| - 1], fileNums[|fileNums| - 1];
      assert fileNums == butLast + [n];
      hide Has;
      NewcomersExact(items, butLast);
      var before := Newcomers(items, butLast);
      forall i | 0 <= i < |before|
        ensures before[i] < n
      {
        assert before[i] in before && before[i] in butLast;
      }
      if !Has(items, n) { AppendAscends(before, n); }
    }
  }

  /** The files that will come back, in the order of their numbers. */
  ghost function Returning(dir: Dir, items: seq<Item>): seq<nat> {
    Newcomers(items, SortedNums(dir.episodes.Keys))
  }

  /** Only numbers beyond the end of the ledger come back. */
  ghost predicate ReturnAtEnd(dir: Dir, items: seq<Item>) {
    forall n: nat, i :: n in dir.episodes && !Has(items, n) && 0 <= i < |items| ==> Num(items[i]) < n
  }

  lemma ReturningExact(dir: Dir, items: seq<Item>)
    requires ReturnAtEnd(dir, items)
    ensures Ascending(Returning(dir, items))
    ensures forall n: nat :: n in Returning(dir, items) <==> n in dir.episodes && !Has(items, n)
    ensures forall k, i :: 0 <= k < |Returning(dir, items)| && 0 <= i < |items| ==>
      Num(items[i]) < Returning(dir, items)[k]
  {
    SortedNumsExact(dir.episodes.Keys);
    hide SortedNums, Has, Num, Newcomers;
    NewcomersExact(items, SortedNums(dir.episodes.Keys));
    var nums := Returning(dir, items);
    forall k, i | 0 <= k < |nums| && 0 <= i < |items|
      ensures Num(items[i]) < nums[k]
    {
      assert nums[k] in nums;
    }
  }

  lemma AppendedIsSorted(items: seq<Item>, nums: seq<nat>)
    requires GoodItems(items) && Ascending(nums)
    requires forall k, i :: 0 <= k < |nums| && 0 <= i < |items| ==> Num(items[i]) < nums[k]
    ensures SortIfPossible(items + OrphansOf(nums)) == items + OrphansOf(nums)
  {
    var all := items + OrphansOf(nums);
    NumIsValue(items);
    hide NumOf, Num, Sort;
    forall i | 0 <= i < |all|
      ensures NumOf(all[i]) == Some(if i < |items| then Num(items[i]) else nums[i - |items|])
    {
      if i >= |items| { OrphanNumber(nums[i - |items|]); }
    }
    SortOfSorted(all);
  }

  lemma OpenedAppends(dir: Dir, p: Project)
    requires GoodItems(p.items) && ReturnAtEnd(dir, p.items)
    ensures Opened(dir, p) == p.items + OrphansOf(Returning(dir, p.items))
  {
    hide GoodItems, ReturnAtEnd, AddOrphans, Newcomers, SortedNums, SortIfPossible, Ascending;
    ReturningExact(dir, p.items);
    AddedAreNewcomers(p.items, SortedNums(dir.episodes.Keys));
    AppendedIsSorted(p.items, Returning(dir, p.items));
  }

  lemma HasConcat(items: seq<Item>, nums: seq<nat>, n: int)
    ensures Has(items + OrphansOf(nums), n) <==> Has(items, n) || n in nums
  {
    var all := items + OrphansOf(nums);
    hide NumOf;
    forall k | 0 <= k < |nums|
      ensures NumOf(all[|items| + k]) == Some(nums[k] as int)
    {
      OrphanNumber(nums[k]);
    }
    if Has(items, n) { assert all[First(items, n)] == items[First(items, n)]; }
    if n in nums {
      var k :| 0 <= k < |nums| && nums[k] == n;
      assert NumOf(all[|items| + k]) == Some(n);
    }
    assert forall i :: 0 <= i < |items| ==> all[i] == items[i];
  }

  lemma OrphanNumber(n: nat)
    ensures NumOf(Orphan(n)) == Some(n as int)
  {
  }

  lemma NumbersAppend(items: seq<Item>, nums: seq<nat>)
    requires Ascending(nums)
    requires forall n, k :: n in Numbers(items) && 0 <= k < |nums| ==> n < nums[k]
    ensures Numbers(items + OrphansOf(nums)) == Numbers(items) + nums
  {
    var all, known := items + OrphansOf(nums), Numbers(items);
    NumbersExact(items);
    NumbersExact(all);
    hide Numbers, Has, OrphansOf;
    var both := known + nums;
    forall i, j | 0 <= i < j < |both|
      ensures both[i] < both[j]
    {
      if i < |known| <= j { assert known[i] in known; }
    }
    forall n
      ensures n in Numbers(all) <==> n in both
    {
      HasConcat(items, nums, n);
    }
    AscendingUnique(Numbers(all), both);
  }

  // ---------------------------------------------------------------- where the files come back

  /** The scan when it turns to the `k`-th returning number. */
  ghost function ScanTo(disk: Disk, dir: Dir, p: Project, k: nat): (r: Scan)
    requires k <= |Returning(dir, p.items)|
    ensures Fits(disk, r)
  {
    var start := Scan(Opened(dir, p), seq(|disk.sources|, _ => 0), None, None);
    Walk(disk, dir, start, Numbers(p.items) + Returning(dir, p.items)[..k])
  }

  /** Where that number's text is found, if anywhere. */
  ghost function FoundAt(disk: Disk, dir: Dir, p: Project, k: nat): (r: Option<Hit>)
    requires k < |Returning(dir, p.items)|
    ensures r.Some? ==> r.value.doc < |disk.sources|
  {
    Anchor(disk, dir, ScanTo(disk, dir, p, k), Returning(dir, p.items)[k])
  }

  /** The entry that a returning number gets. */
  function Located(disk: Disk, dir: Dir, n: nat, hit: Option<Hit>): Item
    requires hit.Some? ==> hit.value.doc < |disk.sources|
  {
    var e := Orphan(n).entry;
    match hit
    case None => Item(e.(range := NoRange, status := Some(Unanchored)))
    case Some(Hit(d, start)) =>
      Item(e.(range := Full(disk.sources[d].rel, start, start + |FileText(dir, n)|),
              status := Some(if HasDownstream(disk, n, e) then Consumed else Planned)))
  }

  ghost function Brought(disk: Disk, dir: Dir, p: Project, k: nat): Item
    requires k < |Returning(dir, p.items)|
  {
    Located(disk, dir, Returning(dir, p.items)[k], FoundAt(disk, dir, p, k))
  }

  ghost function BroughtTo(disk: Disk, dir: Dir, p: Project, k: nat): (r: seq<Item>)
    requires k <= |Returning(dir, p.items)|
    ensures |r| == k && forall j :: 0 <= j < k ==> r[j] == Brought(disk, dir, p, j)
  {
    seq(k, j requires 0 <= j < k => Brought(disk, dir, p, j))
  }

  /** The scanned list then: the old entries, those that are back, and those still to be located. */
  ghost function ListAt(disk: Disk, dir: Dir, p: Project, k: nat): seq<Item>
    requires k <= |Returning(dir, p.items)|
  {
    p.items + BroughtTo(disk, dir, p, k) + OrphansOf(Returning(dir, p.items)[k..])
  }

  lemma BroughtNumber(disk: Disk, dir: Dir, p: Project, k: nat)
    requires k < |Returning(dir, p.items)|
    ensures NumOf(Brought(disk, dir, p, k)) == Some(Returning(dir, p.items)[k] as int)
  {
    hide Returning, FoundAt;
  }

  lemma FirstOfReturning(disk: Disk, dir: Dir, p: Project, k: nat)
    requires GoodItems(p.items) && ReturnAtEnd(dir, p.items) && k < |Returning(dir, p.items)|
    ensures var all, n := ListAt(disk, dir, p, k), Returning(dir, p.items)[k];
      && Has(all, n) && First(all, n) == |p.items| + k && all[|p.items| + k] == Orphan(n)
  {
    var all, nums := ListAt(disk, dir, p, k), Returning(dir, p.items);
    ReturningExact(dir, p.items);
    NumIsValue(p.items);
    hide Returning, Num, Brought, GoodItems;
    forall j | 0 <= j < |p.items| + k
      ensures NumOf(all[j]) != Some(nums[k] as int)
    {
      if j < |p.items| {
        assert all[j] == p.items[j];
      } else {
        BroughtNumber(disk, dir, p, j - |p.items|);
        assert all[j] == Brought(disk, dir, p, j - |p.items|);
      }
    }
    FirstIs(all, nums[k], |p.items| + k);
  }

  lemma ListStep(disk: Disk, dir: Dir, p: Project, k: nat)
    requires k < |Returning(dir, p.items)|
    ensures var all := ListAt(disk, dir, p, k);
      && |p.items| + k < |all|
      && ListAt(disk, dir, p, k + 1) == all[|p.items| + k := Brought(disk, dir, p, k)]
  {
    hide Returning, Brought;
  }

  lemma {:induction false} ScannedList(disk: Disk, dir: Dir, p: Project, k: nat)
    requires GoodItems(p.items) && ReturnAtEnd(dir, p.items) && k <= |Returning(dir, p.items)|
    ensures ScanTo(disk, dir, p, k).items == ListAt(disk, dir, p, k)
  {
    hide Returning, Opened, ScanTo, ListAt, GoodItems, ReturnAtEnd, Visit, Brought;
    if k == 0 {
      ListBefore(disk, dir, p);
    } else {
      ScannedList(disk, dir, p, k - 1);
      ScanStep(disk, dir, p, k - 1);
      FirstOfReturning(disk, dir, p, k - 1);
      VisitBrings(disk, dir, p, k - 1);
      ListStep(disk, dir, p, k - 1);
    }
  }

  lemma ScanStep(disk: Disk, dir: Dir, p: Project, k: nat)
    requires k < |Returning(dir, p.items)|
    ensures ScanTo(disk, dir, p, k + 1) == Visit(disk, dir, ScanTo(disk, dir, p, k), Returning(dir, p.items)[k])
  {
    var nums := Returning(dir, p.items);
    var start := Scan(Opened(dir, p), seq(|disk.sources|, _ => 0), None, None);
    var shorter, now := Numbers(p.items) + nums[..k], Numbers(p.items) + nums[..k + 1];
    assert now[..|now| - 1] == shorter && now[|now| - 1] == nums[k];
    hide Returning, Opened, Numbers, Visit, Walk;
    WalkStep(disk, dir, start, now);
  }

  lemma ListBefore(disk: Disk, dir: Dir, p: Project)
    requires GoodItems(p.items) && ReturnAtEnd(dir, p.items)
    ensures ScanTo(disk, dir, p, 0).items == ListAt(disk, dir, p, 0)
  {
    var nums := Returning(dir, p.items);
    OpenedAppends(dir, p);
    OldAreSettled(dir, p);
    hide Returning, Opened, Walk, Numbers, GoodItems, ReturnAtEnd, Settled, Brought;
    assert nums[0..] == nums && Numbers(p.items) + nums[..0] == Numbers(p.items);
    WalkOfSettled(disk, dir, Scan(Opened(dir, p), seq(|disk.sources|, _ => 0), None, None), Numbers(p.items));
    assert p.items + BroughtTo(disk, dir, p, 0) == p.items;
  }

  lemma VisitBrings(disk: Disk, dir: Dir, p: Project, k: nat)
    requires k < |Returning(dir, p.items)|
    requires var all, n := ScanTo(disk, dir, p, k).items, Returning(dir, p.items)[k];
      && Has(all, n) && First(all, n) == |p.items| + k && all[|p.items| + k] == Orphan(n)
    ensures var scan := ScanTo(disk, dir, p, k);
      |p.items| + k < |scan.items| &&
      Visit(disk, dir, scan, Returning(dir, p.items)[k]).items
        == scan.items[|p.items| + k := Brought(disk, dir, p, k)]
  {
    hide Returning, ScanTo, Visit, Located, Anchor;
    VisitLocatesOrphan(disk, dir, ScanTo(disk, dir, p, k), Returning(dir, p.items)[k]);
  }

  lemma VisitLocatesOrphan(disk: Disk, dir: Dir, scan: Scan, n: nat)
    requires Fits(disk, scan) && Has(scan.items, n) && scan.items[First(scan.items, n)] == Orphan(n)
    ensures Visit(disk, dir, scan, n).items ==
      scan.items[First(scan.items, n) := Located(disk, dir, n, Anchor(disk, dir, scan, n))]
  {
    hide Anchor, FileText, HasDownstream, Has, First;
  }

  lemma OldAreSettled(dir: Dir, p: Project)
    requires GoodItems(p.items) && Opened(dir, p) == p.items + OrphansOf(Returning(dir, p.items))
    ensures forall i :: 0 <= i < |Numbers(p.items)| ==> Settled(Opened(dir, p), Numbers(p.items)[i])
  {
    NumbersExact(p.items);
    var all := Opened(dir, p);
    hide Opened, Returning;
    forall n | n in Numbers(p.items)
      ensures Settled(all, n)
    {
      assert all[First(p.items, n)] == p.items[First(p.items, n)];
      FirstIs(all, n, First(p.items, n));
      assert GoodItem(p.items[First(p.items, n)]);
    }
  }

  lemma PendingOrphan(items: seq<Item>, i: nat)
    requires i < |items| && NumOf(items[i]).Some? && items[i].entry.status.None?
    requires First(items, NumOf(items[i]).value) == i
    ensures Pending(items)
  {
    assert PendingAt(items, i);
  }

  /** The backfilled list: the old entries, and after them those that are back. */
  lemma BackfilledList(disk: Disk, dir: Dir, p: Project)
    requires GoodItems(p.items) && ReturnAtEnd(dir, p.items) && p.cursor != Null
    ensures Backfilled(disk, dir, p) == p.(items := p.items + BroughtTo(disk, dir, p, |Returning(dir, p.items)|))
  {
    hide Opened, Returning, ReturnAtEnd, GoodItems, Pending, Brought;
    OpenedAppends(dir, p);
    if Returning(dir, p.items) == [] {
      NothingPends(p.items);
      assert Opened(dir, p) == p.items;
      assert p.items + BroughtTo(disk, dir, p, 0) == p.items;
    } else {
      SomeReturn(disk, dir, p);
    }
  }

  lemma SomeReturn(disk: Disk, dir: Dir, p: Project)
    requires GoodItems(p.items) && ReturnAtEnd(dir, p.items) && Returning(dir, p.items) != []
    ensures Pending(Opened(dir, p))
    ensures Scanned(disk, dir, Opened(dir, p)).items ==
      p.items + BroughtTo(disk, dir, p, |Returning(dir, p.items)|)
  {
    hide Opened, Returning, ReturnAtEnd, GoodItems, Walk, Pending, Brought, ScanTo, Scanned, ListAt;
    var nums := Returning(dir, p.items);
    OpenedAppends(dir, p);
    FirstOfReturning(disk, dir, p, 0);
    ListEnds(disk, dir, p);
    OrphanNumber(nums[0]);
    PendingOrphan(Opened(dir, p), |p.items|);
    ScannedList(disk, dir, p, |nums|);
    ScanIsWhole(disk, dir, p);
  }

  lemma ListEnds(disk: Disk, dir: Dir, p: Project)
    ensures var nums := Returning(dir, p.items);
      && ListAt(disk, dir, p, 0) == p.items + OrphansOf(nums)
      && ListAt(disk, dir, p, |nums|) == p.items + BroughtTo(disk, dir, p, |nums|)
  {
    hide Returning, Brought;
    var nums := Returning(dir, p.items);
    assert nums[0..] == nums && nums[|nums|..] == [];
  }

  lemma ScanIsWhole(disk: Disk, dir: Dir, p: Project)
    requires GoodItems(p.items) && ReturnAtEnd(dir, p.items)
    ensures Scanned(disk, dir, Opened(dir, p)) == ScanTo(disk, dir, p, |Returning(dir, p.items)|)
  {
    var nums := Returning(dir, p.items);
    OpenedAppends(dir, p);
    ReturningExact(dir, p.items);
    NumbersExact(p.items);
    NumIsValue(p.items);
    hide Opened, Returning, Numbers, Walk, GoodItems, ReturnAtEnd, Num, NumOf;
    forall n, k | n in Numbers(p.items) && 0 <= k < |nums|
      ensures n < nums[k]
    {
      assert Num(p.items[First(p.items, n)]) == n;
    }
    NumbersAppend(p.items, nums);
    assert nums[..|nums|] == nums;
  }

  lemma BroughtIsGood(disk: Disk, dir: Dir, n: nat, hit: Option<Hit>)
    requires hit.Some? ==> hit.value.doc < |disk.sources|
    requires n > 0
    ensures var item := Located(disk, dir, n, hit);
      && GoodItem(item) && Num(item) == n && (HasSpan(item) <==> hit.Some?)
      && (hit.Some? ==>
            var Hit(d, start) := hit.value;
            SpanOf(item) == Span(disk.sources[d].rel, start, start + |FileText(dir, n)|))
  {
  }

  lemma ListIsGood(disk: Disk, dir: Dir, p: Project, k: nat)
    requires GoodItems(p.items) && p.items != [] && ReturnAtEnd(dir, p.items) && k <= |Returning(dir, p.items)|
    ensures GoodItems(p.items + BroughtTo(disk, dir, p, k))
  {
    var nums, all := Returning(dir, p.items), p.items + BroughtTo(disk, dir, p, k);
    ReturningExact(dir, p.items);
    GoodParts(p.items, 0);
    assert GoodItem(p.items[0]) && Num(p.items[0]) > 0;
    hide Returning, ReturnAtEnd, Located, FoundAt, GoodItem, Num;
    forall i | 0 <= i < |all|
      ensures GoodItem(all[i]) && Num(all[i]) == if i < |p.items| then Num(p.items[i]) else nums[i - |p.items|]
    {
      if i >= |p.items| {
        var j := i - |p.items|;
        assert Num(p.items[0]) < nums[j];
        BroughtIsGood(disk, dir, nums[j], FoundAt(disk, dir, p, j));
      }
    }
  }

  // ---------------------------------------------------------------- one more stretch

  ghost predicate OnlyBlanks(sources: seq<Doc>, lo: int, hi: int) {
    forall d: nat, o: nat :: Solid(sources, d, o) ==> !(lo <= Base(sources, d) + o < hi)
  }

  /** The stretches are in order, end by `e`, and leave out nothing before it. */
  ghost predicate Tight(sources: seq<Doc>, spans: seq<Span>, e: int) {
    Ordered(sources, spans, 0, e) && CoveredUpTo(sources, spans, e)
  }

  ghost predicate EndsAt(sources: seq<Doc>, spans: seq<Span>, e: int) {
    spans != [] && var last := spans[|spans| - 1]; ValidSpan(sources, last) && Hi(sources, last) == e
  }

  /** One more stretch continues a tiling exactly when only blanks lie between. */
  lemma OneMoreStretch(sources: seq<Doc>, spans: seq<Span>, b: Span, e: int)
    requires DistinctRels(sources) && EndsAt(sources, spans, e) && ValidSpan(sources, b)
    ensures Tight(sources, spans + [b], Hi(sources, b)) <==>
      Tight(sources, spans, e) && e <= Lo(sources, b) && OnlyBlanks(sources, e, Lo(sources, b))
  {
    hide Base, IsSpace, DistinctRels, Tight;
    if Tight(sources, spans, e) && e <= Lo(sources, b) && OnlyBlanks(sources, e, Lo(sources, b)) {
      StretchContinues(sources, spans, b, e);
    }
    if Tight(sources, spans + [b], Hi(sources, b)) { StretchContinued(sources, spans, b, e); }
  }

  lemma StretchContinues(sources: seq<Doc>, spans: seq<Span>, b: Span, e: int)
    requires DistinctRels(sources) && EndsAt(sources, spans, e) && ValidSpan(sources, b)
    requires Tight(sources, spans, e) && e <= Lo(sources, b) && OnlyBlanks(sources, e, Lo(sources, b))
    ensures Tight(sources, spans + [b], Hi(sources, b))
  {
    var lo, hi := Lo(sources, b), Hi(sources, b);
    assert 0 <= e by { LoBeforeHi(sources, spans[|spans| - 1]); }
    LoBeforeHi(sources, b);
    assert Ordered(sources, [b], e, hi);
    hide Base, IsSpace, DistinctRels, Covers, Ordered;
    OrderedAppend(sources, spans, [b], 0, e, hi);
    forall d: nat, o: nat | Solid(sources, d, o) && Base(sources, d) + o < hi
      ensures Covers(spans + [b], sources[d].rel, o)
    {
      CoversConcat(spans, [b], sources[d].rel, o);
      if Base(sources, d) + o >= e {
        SameSource(sources, b.file, b.start, b.end, d, o);
        CoversItself(b, o);
      }
    }
  }

  lemma CoversItself(b: Span, o: int)
    requires b.start <= o < b.end
    ensures Covers([b], b.file, o)
  {
    assert ReplanScope.Holds([b][0], b.file, o);
  }

  /** A character that a stretch holds lies between its ends. */
  lemma HeldBetween(sources: seq<Doc>, b: Span, d: nat, o: nat)
    requires DistinctRels(sources) && ValidSpan(sources, b) && d < |sources|
    requires ReplanScope.Holds(b, sources[d].rel, o)
    ensures Lo(sources, b) <= Base(sources, d) + o < Hi(sources, b)
  {
    IndexOfDistinct(sources, d);
  }

  lemma StretchContinued(sources: seq<Doc>, spans: seq<Span>, b: Span, e: int)
    requires DistinctRels(sources) && EndsAt(sources, spans, e) && ValidSpan(sources, b)
    requires Tight(sources, spans + [b], Hi(sources, b))
    ensures Tight(sources, spans, e) && e <= Lo(sources, b) && OnlyBlanks(sources, e, Lo(sources, b))
  {
    var all, lo := spans + [b], Lo(sources, b);
    assert all[|spans|] == b && all[|spans| - 1] == spans[|spans| - 1];
    assert forall i :: 0 <= i < |spans| ==> all[i] == spans[i];
    EndsOrdered(sources, spans, b, e);
    hide Base, IsSpace, DistinctRels, Lo, Hi, ValidSpan;
    LoBeforeHi(sources, b);
    forall d: nat, o: nat | Solid(sources, d, o) && Base(sources, d) + o < lo
      ensures Base(sources, d) + o < e && Covers(spans, sources[d].rel, o)
    {
      assert Covers(all, sources[d].rel, o);
      var i :| 0 <= i < |all| && ReplanScope.Holds(all[i], sources[d].rel, o);
      HeldBetween(sources, all[i], d, o);
    }
  }

  lemma EndsOrdered(sources: seq<Doc>, spans: seq<Span>, b: Span, e: int)
    requires EndsAt(sources, spans, e) && ValidSpan(sources, b)
    requires Ordered(sources, spans + [b], 0, Hi(sources, b))
    ensures Ordered(sources, spans, 0, e) && e <= Lo(sources, b)
  {
    var all, last := spans + [b], |spans| - 1;
    hide Lo, Hi, ValidSpan;
    assert all[|spans|] == b && all[last] == spans[last];
    assert forall i :: 0 <= i < |spans| ==> all[i] == spans[i];
    LoBeforeHi(sources, spans[last]);
    forall i | 0 <= i < |spans|
      ensures ValidSpan(sources, spans[i]) && 0 <= Lo(sources, spans[i]) && Hi(sources, spans[i]) <= e
    {
      assert ValidSpan(sources, all[i]);
      if i < last { assert Hi(sources, all[i]) <= Lo(sources, all[last]); }
    }
    forall i, j | 0 <= i < j < |spans|
      ensures Hi(sources, spans[i]) <= Lo(sources, spans[j])
    {
      assert Hi(sources, all[i]) <= Lo(sources, all[j]);
    }
  }

  // ---------------------------------------------------------------- one number after the other

  /** The position where the stretches end once `k` numbers are back. */
  ghost function EndAfter(disk: Disk, dir: Dir, p: Project, from: int, k: nat): int
    requires k <= |Returning(dir, p.items)|
  {
    if k == 0 then from
    else
      match FoundAt(disk, dir, p, k - 1)
      case None => EndAfter(disk, dir, p, from, k - 1)
      case Some(Hit(d, start)) => Base(disk.sources, d) + start + |FileText(dir, Returning(dir, p.items)[k - 1])|
  }

  /** The number's text occurs nowhere, or is found where only blanks separate it from the end. */
  ghost predicate InPlace(disk: Disk, dir: Dir, p: Project, from: int, k: nat)
    requires k < |Returning(dir, p.items)|
  {
    FoundAt(disk, dir, p, k).Some? ==>
      var Hit(d, start) := FoundAt(disk, dir, p, k).value;
      var e := EndAfter(disk, dir, p, from, k);
      e <= Base(disk.sources, d) + start && OnlyBlanks(disk.sources, e, Base(disk.sources, d) + start)
  }

  /** Where the stretches of a ledger end. */
  ghost function EndOfSpans(sources: seq<Doc>, spans: seq<Span>): int {
    if spans != [] && ValidSpan(sources, spans[|spans| - 1]) then Hi(sources, spans[|spans| - 1]) else 0
  }

  /** Every returning text occurs nowhere or is found in place. */
  ghost predicate AllInPlace(disk: Disk, dir: Dir, p: Project) {
    forall k :: 0 <= k < |Returning(dir, p.items)| ==>
      InPlace(disk, dir, p, EndOfSpans(disk.sources, Spans(p.items)), k)
  }

  ghost function SpansAfter(disk: Disk, dir: Dir, p: Project, k: nat): seq<Span>
    requires k <= |Returning(dir, p.items)|
  {
    Spans(p.items + BroughtTo(disk, dir, p, k))
  }

  lemma SpansStep(disk: Disk, dir: Dir, p: Project, k: nat)
    requires k < |Returning(dir, p.items)|
    ensures var item := Brought(disk, dir, p, k);
      SpansAfter(disk, dir, p, k + 1) == SpansAfter(disk, dir, p, k) + if HasSpan(item) then [SpanOf(item)] else []
  {
    hide Brought, Returning, HasSpan, SpanOf;
    var before, after := p.items + BroughtTo(disk, dir, p, k), p.items + BroughtTo(disk, dir, p, k + 1);
    assert BroughtTo(disk, dir, p, k + 1)[..k] == BroughtTo(disk, dir, p, k);
    assert after[..|after| - 1] == before && after[|after| - 1] == Brought(disk, dir, p, k);
  }

  /** What is found is a stretch of real text. */
  lemma FoundIsValid(disk: Disk, dir: Dir, p: Project, k: nat)
    requires DistinctRels(disk.sources) && k < |Returning(dir, p.items)| && FoundAt(disk, dir, p, k).Some?
    ensures var Hit(d, start) := FoundAt(disk, dir, p, k).value;
      var b := Span(disk.sources[d].rel, start, start + |FileText(dir, Returning(dir, p.items)[k])|);
      && ValidSpan(disk.sources, b) && Lo(disk.sources, b) == Base(disk.sources, d) + start
      && Hi(disk.sources, b) == Base(disk.sources, d) + start + |FileText(dir, Returning(dir, p.items)[k])|
  {
    var scan, n := ScanTo(disk, dir, p, k), Returning(dir, p.items)[k];
    var Hit(d, start) := FoundAt(disk, dir, p, k).value;
    hide ScanTo, Returning, FindInSources;
    FindInSourcesExact(disk.sources, scan.cursors, scan.lastDoc, FileText(dir, n));
    IndexOfDistinct(disk.sources, d);
  }

  /** One more number back: the stretches stay tight exactly when it is in place. */
  lemma TightStep(disk: Disk, dir: Dir, p: Project, from: int, k: nat)
    requires DistinctRels(disk.sources) && k < |Returning(dir, p.items)| && Returning(dir, p.items)[k] > 0
    requires EndsAt(disk.sources, SpansAfter(disk, dir, p, k), EndAfter(disk, dir, p, from, k))
    ensures EndsAt(disk.sources, SpansAfter(disk, dir, p, k + 1), EndAfter(disk, dir, p, from, k + 1))
    ensures Tight(disk.sources, SpansAfter(disk, dir, p, k + 1), EndAfter(disk, dir, p, from, k + 1)) <==>
      && Tight(disk.sources, SpansAfter(disk, dir, p, k), EndAfter(disk, dir, p, from, k))
      && InPlace(disk, dir, p, from, k)
  {
    hide SpansAfter, Tight, OnlyBlanks, Returning, FoundAt, Located, GoodItem, Num, Base, ValidSpan, Lo, Hi, HasSpan,
      SpanOf, EndAfter, DistinctRels, FileText;
    var spans, e := SpansAfter(disk, dir, p, k), EndAfter(disk, dir, p, from, k);
    EndStep(disk, dir, p, from, k);
    SpansStep(disk, dir, p, k);
    BroughtIsGood(disk, dir, Returning(dir, p.items)[k], FoundAt(disk, dir, p, k));
    match FoundAt(disk, dir, p, k)
    case None =>
      assert spans + [] == spans;
    case Some(Hit(d, start)) =>
      var b := Span(disk.sources[d].rel, start, start + |FileText(dir, Returning(dir, p.items)[k])|);
      FoundIsValid(disk, dir, p, k);
      OneMoreStretch(disk.sources, spans, b, e);
      EndsWithLast(disk.sources, spans, b);
  }

  lemma EndsWithLast(sources: seq<Doc>, spans: seq<Span>, b: Span)
    requires ValidSpan(sources, b)
    ensures EndsAt(sources, spans + [b], Hi(sources, b))
  {
    hide ValidSpan, Hi;
    var all := spans + [b];
    assert all[|all| - 1] == b;
  }

  lemma EndStep(disk: Disk, dir: Dir, p: Project, from: int, k: nat)
    requires k < |Returning(dir, p.items)|
    ensures EndAfter(disk, dir, p, from, k + 1) ==
      match FoundAt(disk, dir, p, k)
      case None => EndAfter(disk, dir, p, from, k)
      case Some(Hit(d, start)) => Base(disk.sources, d) + start + |FileText(dir, Returning(dir, p.items)[k])|
  {
    hide Returning, FoundAt, FileText, Base;
  }

  lemma BeforeReturns(disk: Disk, dir: Dir, p: Project, from: int)
    ensures SpansAfter(disk, dir, p, 0) == Spans(p.items) && EndAfter(disk, dir, p, from, 0) == from
  {
    hide Returning, Brought, Spans;
    assert p.items + BroughtTo(disk, dir, p, 0) == p.items;
  }

  lemma {:induction false} TightTo(disk: Disk, dir: Dir, p: Project, from: int, k: nat)
    requires DistinctRels(disk.sources) && GoodItems(p.items) && p.items != [] && ReturnAtEnd(dir, p.items)
    requires k <= |Returning(dir, p.items)|
    requires EndsAt(disk.sources, Spans(p.items), from) && Tight(disk.sources, Spans(p.items), from)
    ensures EndsAt(disk.sources, SpansAfter(disk, dir, p, k), EndAfter(disk, dir, p, from, k))
    ensures Tight(disk.sources, SpansAfter(disk, dir, p, k), EndAfter(disk, dir, p, from, k)) <==>
      forall j :: 0 <= j < k ==> InPlace(disk, dir, p, from, j)
  {
    hide Tight, InPlace, EndsAt, SpansAfter, EndAfter, Returning, DistinctRels, GoodItems, ReturnAtEnd, Spans;
    if k == 0 {
      BeforeReturns(disk, dir, p, from);
    } else {
      TightTo(disk, dir, p, from, k - 1);
      ReturnsPositive(dir, p.items, k - 1);
      TightStep(disk, dir, p, from, k - 1);
    }
  }

  lemma ReturnsPositive(dir: Dir, items: seq<Item>, k: nat)
    requires GoodItems(items) && items != [] && ReturnAtEnd(dir, items) && k < |Returning(dir, items)|
    ensures Returning(dir, items)[k] > 0
  {
    ReturningExact(dir, items);
    assert GoodItem(items[0]) && Num(items[0]) < Returning(dir, items)[k];
  }

  // ---------------------------------------------------------------- where planning goes on

  function EndPlace(spans: seq<Span>): Place
    requires spans != []
  {
    Place(spans[|spans| - 1].file, spans[|spans| - 1].end)
  }

  lemma StartAfterSpans(sources: seq<Doc>, items: seq<Item>, cursor: RawCursor)
    requires GoodItems(items) && Spans(items) != []
    ensures EffectiveStart(sources, items, cursor) ==
      Some(match Usable(cursor)
           case Some(c) => Later(sources, EndPlace(Spans(items)), c)
           case None => EndPlace(Spans(items)))
  {
    LastAnchoredIsLastSpan(items);
  }

  /** When the ledger grows at its end, planning goes on from the new end or, as before, from a
      cursor that lies no earlier. */
  lemma LaterOfLater(sources: seq<Doc>, lp: Place, lq: Place, cur: Place)
    requires DistinctRels(sources) && Known(sources, lp.file) && Known(sources, lq.file) && cur.offset >= 0
    requires 0 <= lq.offset <= Length(sources, lq.file) && NoEarlier(sources, lq, lp)
    ensures var was, now := Later(sources, lp, cur), Later(sources, lq, cur);
      || now == lq
      || (now == was && Known(sources, was.file)
          && At(sources, was.file, was.offset) >= At(sources, lq.file, lq.offset))
  {
    var i := IndexOf(sources, lq.file).value;
    assert sources[i].rel == lq.file && sources[IndexOf(sources, lp.file).value].rel == lp.file;
    if Known(sources, cur.file) && IndexOf(sources, cur.file).value > i {
      BaseGrows(sources, i, IndexOf(sources, cur.file).value);
    }
  }

  lemma OrderedToEnd(sources: seq<Doc>, spans: seq<Span>, hi: int, e: int)
    requires Ordered(sources, spans, 0, hi) && EndsAt(sources, spans, e)
    ensures Ordered(sources, spans, 0, e) && e <= hi
  {
    var last := |spans| - 1;
    hide ValidSpan, Lo, Hi;
    LoBeforeHi(sources, spans[last]);
    forall i | 0 <= i < |spans|
      ensures Hi(sources, spans[i]) <= e
    {
      if i < last { assert Hi(sources, spans[i]) <= Lo(sources, spans[last]); }
    }
  }

  /** The end of ordered stretches comes no earlier than the end of any of them. */
  lemma EndIsLatest(sources: seq<Doc>, spans: seq<Span>, m: nat, hi: int)
    requires DistinctRels(sources) && m < |spans| && Ordered(sources, spans, 0, hi)
    ensures NoEarlier(sources, EndPlace(spans), Place(spans[m].file, spans[m].end))
  {
    var a, b := spans[m], spans[|spans| - 1];
    assert ValidSpan(sources, a) && ValidSpan(sources, b);
    if m < |spans| - 1 {
      assert Hi(sources, a) <= Lo(sources, b);
      var i, j := IndexOf(sources, a.file).value, IndexOf(sources, b.file).value;
      if j < i { BaseGrows(sources, j, i); }
    }
  }

  lemma TiledToEnd(disk: Disk, items: seq<Item>, s: Place, e: int)
    requires TiledTo(disk, items, s) && EndsAt(disk.sources, Spans(items), e)
    ensures Tight(disk.sources, Spans(items), e) && e <= At(disk.sources, s.file, s.offset)
  {
    hide Spans, EndsAt;
    OrderedToEnd(disk.sources, Spans(items), At(disk.sources, s.file, s.offset), e);
  }

  lemma TightReaches(disk: Disk, items: seq<Item>, e: int)
    requires Tight(disk.sources, Spans(items), e) && EndsAt(disk.sources, Spans(items), e)
    ensures TiledTo(disk, items, EndPlace(Spans(items)))
  {
    hide Spans;
  }

  lemma TightBeyond(disk: Disk, items: seq<Item>, all: seq<Item>, more: seq<Span>, s: Place, e: int)
    requires TiledTo(disk, items, s) && Tight(disk.sources, Spans(all), e) && Spans(all) == Spans(items) + more
    requires At(disk.sources, s.file, s.offset) >= e
    ensures TiledTo(disk, all, s)
  {
    var spans, hi := Spans(items), At(disk.sources, s.file, s.offset);
    hide Spans, Covers, Solid, At;
    forall d: nat, o: nat | Solid(disk.sources, d, o) && Base(disk.sources, d) + o < hi
      ensures d < |disk.sources| && Covers(Spans(all), disk.sources[d].rel, o)
    {
      SolidInside(disk.sources, d, o);
      CoversConcat(spans, more, disk.sources[d].rel, o);
    }
  }

  lemma SolidInside(sources: seq<Doc>, d: nat, o: nat)
    requires Solid(sources, d, o)
    ensures d < |sources|
  {
  }

  /** The grown ledger is tiled to where planning goes on exactly when its stretches are tight. */
  lemma TiledIffTight(disk: Disk, items: seq<Item>, all: seq<Item>, more: seq<Span>, cursor: RawCursor, e: int)
    requires DistinctRels(disk.sources) && GoodItems(items) && GoodItems(all)
    requires Spans(items) != [] && Spans(all) == Spans(items) + more && EndsAt(disk.sources, Spans(all), e)
    requires var s := EffectiveStart(disk.sources, items, cursor); s.Some? && TiledTo(disk, items, s.value)
    ensures var s := EffectiveStart(disk.sources, all, cursor);
      s.Some? && (TiledTo(disk, all, s.value) <==> Tight(disk.sources, Spans(all), e))
  {
    StartAfterSpans(disk.sources, items, cursor);
    StartAfterSpans(disk.sources, all, cursor);
    var was, now := EffectiveStart(disk.sources, items, cursor).value, EffectiveStart(disk.sources, all, cursor).value;
    hide Spans, GoodItems, EffectiveStart, Tight, TiledTo, DistinctRels, Later, Known, At;
    if TiledTo(disk, all, now) { TiledToEnd(disk, all, now, e); }
    if Tight(disk.sources, Spans(all), e) {
      TightReaches(disk, all, e);
      if Usable(cursor).Some? {
        GrownEnd(disk.sources, Spans(items), more, e);
        LaterOfLater(disk.sources, EndPlace(Spans(items)), EndPlace(Spans(all)), Usable(cursor).value);
        PositionOfEnd(disk.sources, Spans(all), e);
        if now != EndPlace(Spans(all)) { TightBeyond(disk, items, all, more, was, e); }
      }
    }
  }

  lemma PositionOfEnd(sources: seq<Doc>, spans: seq<Span>, e: int)
    requires EndsAt(sources, spans, e)
    ensures var s := EndPlace(spans);
      Known(sources, s.file) && 0 <= s.offset <= Length(sources, s.file) && At(sources, s.file, s.offset) == e
  {
  }

  lemma GrownEnd(sources: seq<Doc>, spans: seq<Span>, more: seq<Span>, e: int)
    requires DistinctRels(sources) && spans != [] && EndsAt(sources, spans + more, e)
    requires Tight(sources, spans + more, e)
    ensures NoEarlier(sources, EndPlace(spans + more), EndPlace(spans))
    ensures Known(sources, EndPlace(spans).file)
    ensures var s := EndPlace(spans + more);
      Known(sources, s.file) && 0 <= s.offset <= Length(sources, s.file)
  {
    var all, m := spans + more, |spans| - 1;
    assert all[m] == spans[m];
    EndIsLatest(sources, all, m, e);
    PositionOfEnd(sources, all, e);
  }

  // ---------------------------------------------------------------- the laws

  /** A ledger that tiles the text before its effective start still does so after a backfill that
      appends numbers, exactly when every returning text occurs nowhere or is found in place. */
  lemma BackfillTilesExactly(disk: Disk, dir: Dir, p: Project)
    requires DistinctRels(disk.sources) && GoodItems(p.items) && p.cursor != Null && ReturnAtEnd(dir, p.items)
    requires StartOf(disk, p).Some? && TiledTo(disk, p.items, StartOf(disk, p).value) && Spans(p.items) != []
    ensures var q := Backfilled(disk, dir, p);
      && StartOf(disk, q).Some?
      && (TiledTo(disk, q.items, StartOf(disk, q).value) <==> AllInPlace(disk, dir, p))
  {
    hide Returning, ReturnAtEnd, GoodItems, Spans, TiledTo, Backfilled, EffectiveStart, Tight, EndsAt, InPlace,
      EndAfter, DistinctRels, BroughtTo, EndOfSpans;
    var n, from := |Returning(dir, p.items)|, EndOfSpans(disk.sources, Spans(p.items));
    SpansHaveItems(p.items);
    EndsThere(disk, p.items, StartOf(disk, p).value);
    BackfilledList(disk, dir, p);
    ListIsGood(disk, dir, p, n);
    TiledToEnd(disk, p.items, StartOf(disk, p).value, from);
    TightTo(disk, dir, p, from, n);
    var brought := BroughtTo(disk, dir, p, n);
    SpansConcat(p.items, brought);
    TiledIffTight(disk, p.items, p.items + brought, Spans(brought), p.cursor, EndAfter(disk, dir, p, from, n));
  }

  lemma SpansHaveItems(items: seq<Item>)
    requires Spans(items) != []
    ensures items != []
  {
  }

  lemma EndsThere(disk: Disk, items: seq<Item>, s: Place)
    requires TiledTo(disk, items, s) && Spans(items) != []
    ensures EndsAt(disk.sources, Spans(items), EndOfSpans(disk.sources, Spans(items)))
  {
    hide Spans, CoveredUpTo;
    assert ValidSpan(disk.sources, Spans(items)[|Spans(items)| - 1]);
  }

  /** After a replan that goes through, the numbers that come back lie beyond the new layout. */
  lemma ReplanReturnsAtEnd(dir: Dir, left: Dir, items: seq<Item>, from: int, pieces: seq<Piece>, all: seq<Item>)
    requires GoodItems(items) && FilesListed(dir, items) && GoodItems(all)
    requires all == items[..Below(items, from)] + NewEntries(pieces, from, items[Below(items, from)..])
    requires forall n: nat :: n in left.episodes && !Has(all, n) ==> n in dir.episodes
    ensures ReturnAtEnd(left, all)
  {
    var k := Below(items, from);
    hide Below, NewEntries, Has, GoodItems, Num, NumOf;
    BelowExact(items, from);
    NumIsValue(all);
    NewNumbers(pieces, from, items[k..]);
    forall n: nat, i | n in left.episodes && !Has(all, n) && 0 <= i < |all|
      ensures Num(all[i]) < n
    {
      RelaidHas(items, from, pieces, n);
      if i >= k { assert all[i] == NewEntries(pieces, from, items[k..])[i - k]; }
    }
  }

  /** After a replan the ledger tiles its text; it still does so after the next backfill if and only
      if every text left behind occurs nowhere or comes back in place. */
  lemma NextBackfillTiles(disk: Disk, dir: Dir, clean: string -> string, p: Project, t: ReplanTicket, seen: seq<Item>)
    requires DistinctRels(disk.sources) && Tiled(disk, dir, p) && Redrafted(disk, seen, t) && StillAsSeen(p.items, t)
    ensures ReplanCommit(disk, dir, clean, p, t).Ok?
    ensures var c := ReplanCommit(disk, dir, clean, p, t).value;
      var q := Backfilled(disk, c.dir, c.project);
      && StartOf(disk, q).Some?
      && (TiledTo(disk, q.items, StartOf(disk, q).value) <==> AllInPlace(disk, c.dir, c.project))
  {
    hide Tiled, StartOf, TiledTo, Redrafted, StillAsSeen, Below, NewEntries, Spans, GoodItems, FilesListed, Backfilled,
      ReturnAtEnd, AllInPlace, ReconciledDir, Covers, AllSliceable, ShrinksCleanly, ReplanCommit, DistinctRels, Num,
      Has, GapFree, Runs, Recuts, PieceSpans, HasSpan, Relaid, Affected;
    TiledParts(disk, dir, p);
    RedraftedIsReadable(disk, seen, t);
    ReplanKeepsTiled(disk, dir, clean, p, t, seen);
    var c := ReplanCommit(disk, dir, clean, p, t).value;
    var start, all := StartOf(disk, p).value, c.project.items;
    RelaidLedger(disk, p.items, t, seen, start);
    RelaidTiles(disk, p.items, Below(p.items, t.from), t.pieces, all, start);
    CursorSet(disk, dir, p);
    CommittedDir(disk, dir, clean, p, t, c);
    forall n: nat | n in c.dir.episodes && !Has(all, n)
      ensures n in dir.episodes
    {
      ReconcileLeaves(disk, clean, all, dir, n);
    }
    ReplanReturnsAtEnd(dir, c.dir, p.items, t.from, t.pieces, all);
    BackfillTilesExactly(disk, c.dir, c.project);
  }
}
