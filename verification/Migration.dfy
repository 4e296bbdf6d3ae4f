/** Projects that were split before there was a ledger: the ledger a backfill builds for them is
    tiled, so that planning may go on from it. */
module Migration {
  import opened Wrappers
  import opened Text
  import opened Ledger
  import opened Backfill
  import opened BackfillLaws
  import opened RoundTrip
  import opened ReplanScope
  import opened Planner
  import opened Tiling
  import opened PlannerLaws

  // ---------------------------------------------------------------- one entry for each number

  ghost predicate OneEach(items: seq<Item>) {
    && AllReadable(items)
    && forall i, j :: 0 <= i < j < |items| ==> NumOf(items[i]) != NumOf(items[j])
  }

  lemma {:induction false} AtMostOne(items: seq<Item>, n: int)
    requires OneEach(items)
    ensures |WithNum(items, n)| <= 1 && (!Has(items, n) ==> WithNum(items, n) == [])
  {
    if items != [] {
      var butLast, last := items[..|items| - 1], items[|items| - 1];
      assert items == butLast + [last];
      hide WithNum, NumOf;
      AtMostOne(butLast, n);
      WithNumAppend(butLast, last, n);
    }
  }

  lemma {:induction false} CountedOnce(items: seq<Item>, i: nat)
    requires i < |items| && NumOf(items[i]).Some?
    ensures |WithNum(items, NumOf(items[i]).value)| >= 1
  {
    var butLast, last := items[..|items| - 1], items[|items| - 1];
    assert items == butLast + [last];
    hide NumOf;
    if i < |butLast| { CountedOnce(butLast, i); }
  }

  lemma {:induction false} CountedTwice(items: seq<Item>, i: nat, j: nat)
    requires i < j < |items| && NumOf(items[i]).Some? && NumOf(items[i]) == NumOf(items[j])
    ensures |WithNum(items, NumOf(items[i]).value)| >= 2
  {
    var butLast, last := items[..|items| - 1], items[|items| - 1];
    assert items == butLast + [last];
    hide NumOf;
    if j < |butLast| {
      CountedTwice(butLast, i, j);
    } else {
      CountedOnce(butLast, i);
    }
  }

  lemma {:induction false} OrphansAddOnce(items: seq<Item>, fileNums: seq<nat>)
    requires OneEach(items) && Ascending(fileNums)
    ensures OneEach(AddOrphans(items, fileNums))
  {
    if fileNums != [] {
      var butLast, n := fileNums[..|fileNums| - 1], fileNums[|fileNums| - 1];
      assert fileNums == butLast + [n];
      OrphansAddOnce(items, butLast);
      AddOrphansNumber(items, butLast, n);
      var before := AddOrphans(items, butLast);
      assert n !in butLast;
      assert NumOf(Orphan(n)) == Some(n as int);
      hide NumOf, AddOrphans;
      if !Has(items, n) { assert forall i :: 0 <= i < |before| ==> NumOf(before[i]) != Some(n as int); }
    }
  }

  lemma SortedOnce(items: seq<Item>)
    requires OneEach(items)
    ensures Rising(Sort(items))
  {
    SortSorts(items);
    var r := Sort(items);
    hide Sort, NumOf, WithNum;
    forall i, j | 0 <= i < j < |r|
      ensures NumOf(r[i]) != NumOf(r[j])
    {
      if NumOf(r[i]) == NumOf(r[j]) {
        CountedTwice(r, i, j);
        SortIsStable(items, NumOf(r[i]).value);
        AtMostOne(items, NumOf(r[i]).value);
      }
    }
  }

  /** The list a backfill opens is strictly ascending. */
  lemma OpenedRises(dir: Dir, p: Project)
    requires OneEach(p.items)
    ensures AllReadable(Opened(dir, p)) && Rising(Opened(dir, p))
  {
    var fileNums := SortedNums(dir.episodes.Keys);
    SortedNumsExact(dir.episodes.Keys);
    OrphansAddOnce(p.items, fileNums);
    SortedOnce(AddOrphans(p.items, fileNums));
    hide AddOrphans, SortedNums, Sort, NumOf, Rising, Ascending;
  }

  /** Entries in strict order of their numbers stand where the list of numbers has them. */
  lemma InNumberOrder(items: seq<Item>, nums: seq<nat>)
    requires AllReadable(items) && Rising(items) && Numbers(items) == nums
    ensures |items| == |nums|
    ensures forall k :: 0 <= k < |nums| ==>
      Num(items[k]) == nums[k] && Has(items, nums[k]) && First(items, nums[k]) == k
  {
    var own := seq(|items|, k requires 0 <= k < |items| => Num(items[k]));
    NumbersExact(items);
    assert forall k :: 0 <= k < |items| ==> NumOf(items[k]) == Some(own[k]);
    hide Numbers, Num, NumOf;
    forall n
      ensures n in own <==> n in Numbers(items)
    {
      assert n in own ==> exists k :: 0 <= k < |items| && own[k] == n && NumOf(items[k]) == Some(n);
      assert Has(items, n) ==> own[First(items, n)] == n;
    }
    AscendingUnique(own, Numbers(items));
    forall k | 0 <= k < |nums|
      ensures Num(items[k]) == nums[k] && Has(items, nums[k]) && First(items, nums[k]) == k
    {
      assert own[k] == nums[k];
      FirstIs(items, nums[k], k);
    }
  }

  // ---------------------------------------------------------------- a split as spans

  function SpanOfSlice(sources: seq<Doc>, s: Slice): Span
    requires Within(sources, s)
  {
    Span(sources[s.doc].rel, s.start, s.end)
  }

  function SlicesAsSpans(sources: seq<Doc>, slices: seq<Slice>): (r: seq<Span>)
    requires forall k :: 0 <= k < |slices| ==> Within(sources, slices[k])
    ensures |r| == |slices| && forall k :: 0 <= k < |r| ==> r[k] == SpanOfSlice(sources, slices[k])
  {
    seq(|slices|, k requires 0 <= k < |slices| => SpanOfSlice(sources, slices[k]))
  }

  /** The position where a slice ends. */
  function EndPosition(sources: seq<Doc>, s: Slice): nat
    requires Within(sources, s)
  {
    Base(sources, s.doc) + s.end
  }

  lemma {:induction false} EmptySourcesTakeNoPlace(sources: seq<Doc>, a: nat, b: nat)
    requires a <= b <= |sources| && forall d :: a <= d < b ==> sources[d].text == ""
    ensures Base(sources, a) == Base(sources, b)
  {
    if a < b { EmptySourcesTakeNoPlace(sources, a, b - 1); }
  }

  /** A slice starts at the position where the one before it ended. */
  lemma StartsWhereItEnded(sources: seq<Doc>, prev: Option<Slice>, s: Slice)
    requires Continues(sources, prev, s)
    ensures Base(sources, s.doc) + s.start == if prev.Some? then EndPosition(sources, prev.value) else 0
  {
    if prev.None? {
      EmptySourcesTakeNoPlace(sources, 0, s.doc);
    } else if prev.value.doc != s.doc {
      EmptySourcesTakeNoPlace(sources, prev.value.doc + 1, s.doc);
    }
  }

  lemma OneSliceTiles(sources: seq<Doc>, s: Slice)
    requires DistinctRels(sources) && Within(sources, s)
    ensures var lo, span := Base(sources, s.doc) + s.start, SpanOfSlice(sources, s);
      && Known(sources, span.file) && At(sources, span.file, span.end) == EndPosition(sources, s)
      && Length(sources, span.file) == |sources[s.doc].text|
      && Ordered(sources, [span], lo, EndPosition(sources, s))
      && forall d: nat, o: nat ::
           Solid(sources, d, o) && lo <= Base(sources, d) + o < EndPosition(sources, s) ==>
             ReplanScope.Holds(span, sources[d].rel, o)
  {
    var span := SpanOfSlice(sources, s);
    IndexOfDistinct(sources, s.doc);
    hide IndexOf, Base, DistinctRels;
    forall d: nat, o: nat |
      Solid(sources, d, o) && Base(sources, s.doc) + s.start <= Base(sources, d) + o < EndPosition(sources, s)
      ensures ReplanScope.Holds(span, sources[d].rel, o)
    {
      SameSource(sources, span.file, s.start, s.end, d, o);
    }
  }

  ghost predicate TilesTo(sources: seq<Doc>, slices: seq<Slice>, hi: int) {
    && (forall k :: 0 <= k < |slices| ==> Within(sources, slices[k]))
    && Ordered(sources, SlicesAsSpans(sources, slices), 0, hi)
    && CoveredUpTo(sources, SlicesAsSpans(sources, slices), hi)
  }

  /** A split leaves nothing out and takes nothing twice. */
  lemma {:induction false} SplitTiles(sources: seq<Doc>, slices: seq<Slice>)
    requires DistinctRels(sources) && IsSplit(sources, slices) && slices != []
    ensures Within(sources, slices[|slices| - 1])
    ensures TilesTo(sources, slices, EndPosition(sources, slices[|slices| - 1]))
  {
    hide IsSplit, TilesTo, Continues, EndPosition, Within, DistinctRels;
    var k := |slices| - 1;
    var before := slices[..k];
    SplitPrefix(sources, slices, k);
    if k == 0 {
      NothingTiles(sources);
      assert before == [];
      TileOn(sources, slices, None, 0);
    } else {
      assert before[|before| - 1] == slices[k - 1];
      SplitTiles(sources, before);
      TileOn(sources, slices, Some(slices[k - 1]), EndPosition(sources, slices[k - 1]));
    }
  }

  lemma SplitPrefix(sources: seq<Doc>, slices: seq<Slice>, k: nat)
    requires IsSplit(sources, slices) && k < |slices|
    ensures IsSplit(sources, slices[..k])
    ensures Continues(sources, Before(slices, k), slices[k])
    ensures Within(sources, slices[k]) && (k > 0 ==> Within(sources, slices[k - 1]))
  {
    assert Continues(sources, Before(slices, k), slices[k]);
    var before := slices[..k];
    hide Continues;
    forall i | 0 <= i < k
      ensures Continues(sources, Before(before, i), before[i])
    {
      assert before[i] == slices[i] && Before(before, i) == Before(slices, i);
    }
  }

  lemma NothingTiles(sources: seq<Doc>)
    ensures TilesTo(sources, [], 0)
  {
  }

  lemma TileOn(sources: seq<Doc>, slices: seq<Slice>, prev: Option<Slice>, mid: nat)
    requires DistinctRels(sources) && slices != [] && Continues(sources, prev, slices[|slices| - 1])
    requires prev.Some? ==> mid == EndPosition(sources, prev.value)
    requires prev.None? ==> mid == 0
    requires TilesTo(sources, slices[..|slices| - 1], mid)
    ensures Within(sources, slices[|slices| - 1])
    ensures TilesTo(sources, slices, EndPosition(sources, slices[|slices| - 1]))
  {
    var k := |slices| - 1;
    var hi := EndPosition(sources, slices[k]);
    var spans, span := SlicesAsSpans(sources, slices[..k]), SpanOfSlice(sources, slices[k]);
    StartsWhereItEnded(sources, prev, slices[k]);
    OneSliceTiles(sources, slices[k]);
    assert mid <= hi;
    forall i | 0 <= i < |slices|
      ensures Within(sources, slices[i])
    {
      if i < k { assert slices[i] == slices[..k][i]; }
    }
    assert SlicesAsSpans(sources, slices) == spans + [span];
    hide Ordered, Continues, SlicesAsSpans, Base, Solid, DistinctRels, EndPosition, SpanOfSlice, CoveredUpTo, Within;
    OrderedAppend(sources, spans, [span], 0, mid, hi);
    CoverageJoins(sources, spans, span, mid, hi);
  }

  lemma CoverageJoins(sources: seq<Doc>, spans: seq<Span>, span: Span, mid: int, hi: int)
    requires CoveredUpTo(sources, spans, mid)
    requires forall d: nat, o: nat :: Solid(sources, d, o) && mid <= Base(sources, d) + o < hi ==>
      ReplanScope.Holds(span, sources[d].rel, o)
    ensures CoveredUpTo(sources, spans + [span], hi)
  {
    hide Base, IsSpace, Covers;
    forall d: nat, o: nat | Solid(sources, d, o) && Base(sources, d) + o < hi
      ensures Covers(spans + [span], sources[d].rel, o)
    {
      CoversConcat(spans, [span], sources[d].rel, o);
      if Base(sources, d) + o >= mid { CoversOne(span, sources[d].rel, o); }
    }
  }

  lemma CoversOne(span: Span, file: string, o: int)
    requires ReplanScope.Holds(span, file, o)
    ensures Covers([span], file, o)
  {
    assert ReplanScope.Holds([span][0], file, o);
  }

  // ---------------------------------------------------------------- the migrated ledger

  function EndOfSlice(sources: seq<Doc>, s: Slice): Place
    requires Within(sources, s)
  {
    Place(sources[s.doc].rel, s.end)
  }

  lemma RecoveredItem(disk: Disk, items: seq<Item>, k: nat, n: nat, s: Slice)
    requires Recovered(disk, items, n, s) && First(items, n) == k && n > 0
    ensures k < |items| && GoodItem(items[k]) && HasSpan(items[k]) && Within(disk.sources, s)
    ensures SpanOf(items[k]) == SpanOfSlice(disk.sources, s)
  {
  }

  /** Entries that record the slices make a good ledger, with the slices as its stretches. */
  lemma RecoveredIsGood(disk: Disk, items: seq<Item>, slices: seq<Slice>, nums: seq<nat>)
    requires AllReadable(items) && Rising(items) && Numbers(items) == nums && |slices| == |nums|
    requires forall k :: 0 <= k < |nums| ==> nums[k] > 0 && Recovered(disk, items, nums[k], slices[k])
    ensures GoodItems(items)
    ensures forall k :: 0 <= k < |slices| ==> Within(disk.sources, slices[k])
    ensures Spans(items) == SlicesAsSpans(disk.sources, slices)
  {
    InNumberOrder(items, nums);
    hide Num, NumOf, HasSpan, GoodItem, SpanOf, SpanOfSlice, Within, Recovered, Has, First, Numbers, AllReadable, Spans;
    forall k | 0 <= k < |items|
      ensures GoodItem(items[k]) && HasSpan(items[k]) && Within(disk.sources, slices[k])
      ensures SpanOf(items[k]) == SpanOfSlice(disk.sources, slices[k])
    {
      RecoveredItem(disk, items, k, nums[k], slices[k]);
    }
    SpansOfAnchored(items);
    hide SpansOf, SlicesAsSpans;
    assert SpansOf(items) == SlicesAsSpans(disk.sources, slices);
  }

  lemma WrittenParts(disk: Disk, dir: Dir, slices: seq<Slice>, nums: seq<nat>)
    requires Written(disk, dir, slices, nums) && nums != [] && nums[0] > 0
    ensures |slices| == |nums| && IsSplit(disk.sources, slices)
    ensures forall k :: 0 <= k < |nums| ==> nums[k] > 0
    ensures forall n: nat :: n in dir.episodes ==> n in nums
  {
    hide IsSplit, FileText;
    assert forall k :: 0 < k < |nums| ==> nums[0] < nums[k];
  }

  lemma BackfilledRises(disk: Disk, dir: Dir, p: Project)
    requires OneEach(p.items)
    ensures var q := Backfilled(disk, dir, p).items; AllReadable(q) && Rising(q)
  {
    OpenedRises(dir, p);
    var start := Opened(dir, p);
    var q := Backfilled(disk, dir, p).items;
    WalkKeepsNums(disk, dir, Scan(start, seq(|disk.sources|, _ => 0), None, None), Numbers(start));
    assert SameNums(start, q);
    hide Backfilled, Opened, NumOf;
  }

  /** What the backfill of a split leaves. */
  lemma MigratedLedger(disk: Disk, dir: Dir, slices: seq<Slice>, nums: seq<nat>, p: Project)
    requires Written(disk, dir, slices, nums) && nums != [] && nums[0] > 0
    requires Prepared(disk.sources, slices, p, nums) && OneEach(p.items)
    ensures var q := Backfilled(disk, dir, p);
      && GoodItems(q.items) && FilesListed(dir, q.items) && q.cursor != Null
      && |slices| == |nums| && (forall k :: 0 <= k < |slices| ==> Within(disk.sources, slices[k]))
      && Spans(q.items) == SlicesAsSpans(disk.sources, slices)
  {
    var q := Backfilled(disk, dir, p);
    SplitThenBackfill(disk, dir, slices, nums, p);
    BackfilledRises(disk, dir, p);
    WrittenParts(disk, dir, slices, nums);
    NumbersExact(q.items);
    hide Recovered, Backfilled, Prepared, OneEach, IsSplit, Written, Numbers, Rising, AllReadable, Spans,
      SlicesAsSpans, Has, GoodItems, Within;
    RecoveredIsGood(disk, q.items, slices, nums);
  }

  /** `s` is a place in a source, and between the end of the last slice and `s` there are only
      blanks. */
  ghost predicate SkipsNothing(sources: seq<Doc>, last: Slice, s: Place)
    requires Within(sources, last)
  {
    && Known(sources, s.file) && 0 <= s.offset <= Length(sources, s.file)
    && forall d: nat, o: nat :: Solid(sources, d, o) && Base(sources, d) + o < At(sources, s.file, s.offset) ==>
         Base(sources, d) + o < EndPosition(sources, last)
  }

  /** Where planning goes on after the backfill, as known before it: from the end of the last slice or
      from a later cursor, be it one that was set or the one that will be derived. */
  function StartAfterSplit(disk: Disk, dir: Dir, cursor: RawCursor, last: Slice): Place
    requires Within(disk.sources, last)
  {
    LaterThanLast(disk.sources, last, if cursor == Null then AsCursor(CursorAfterSplit(disk, dir, last)) else cursor)
  }

  function LaterThanLast(sources: seq<Doc>, last: Slice, cursor: RawCursor): Place
    requires Within(sources, last)
  {
    match Usable(cursor)
    case Some(c) => Later(sources, EndOfSlice(sources, last), c)
    case None => EndOfSlice(sources, last)
  }

  /** Planning goes on from the end of the last slice or from a later cursor. */
  lemma StartsAfterLast(sources: seq<Doc>, items: seq<Item>, cursor: RawCursor, last: Slice)
    requires DistinctRels(sources) && GoodItems(items) && Spans(items) != [] && Within(sources, last)
    requires Spans(items)[|Spans(items)| - 1] == SpanOfSlice(sources, last)
    ensures EffectiveStart(sources, items, cursor) == Some(LaterThanLast(sources, last, cursor))
    ensures var s := EffectiveStart(sources, items, cursor).value;
      Known(sources, s.file) && s.offset >= 0 ==> At(sources, s.file, s.offset) >= EndPosition(sources, last)
  {
    LastAnchoredIsLastSpan(items);
    IndexOfDistinct(sources, last.doc);
    var l, s := EndOfSlice(sources, last), EffectiveStart(sources, items, cursor).value;
    if Usable(cursor).Some? {
      assert s == Later(sources, l, Usable(cursor).value);
      hide LastAnchored, Spans, GoodItems, EffectiveStart;
      if IndexOf(sources, s.file).Some? && IndexOf(sources, s.file).value > last.doc {
        BaseGrows(sources, last.doc, IndexOf(sources, s.file).value);
      }
    }
  }

  lemma HeldLiesBefore(sources: seq<Doc>, spans: seq<Span>, hi: int, d: nat, o: nat)
    requires DistinctRels(sources) && Ordered(sources, spans, 0, hi) && d < |sources|
    requires Covers(spans, sources[d].rel, o)
    ensures Base(sources, d) + o < hi
  {
    IndexOfDistinct(sources, d);
    var i :| 0 <= i < |spans| && ReplanScope.Holds(spans[i], sources[d].rel, o);
    hide IndexOf, Base, DistinctRels, Covers;
    assert Hi(sources, spans[i]) <= hi;
  }

  /** Tiles that end at the last slice reach as far as only blanks follow, and no further. */
  lemma TiledAsFarAs(disk: Disk, items: seq<Item>, last: Slice, s: Place)
    requires DistinctRels(disk.sources) && Within(disk.sources, last)
    requires Ordered(disk.sources, Spans(items), 0, EndPosition(disk.sources, last))
    requires CoveredUpTo(disk.sources, Spans(items), EndPosition(disk.sources, last))
    requires Known(disk.sources, s.file) && s.offset >= 0 ==>
      At(disk.sources, s.file, s.offset) >= EndPosition(disk.sources, last)
    ensures TiledTo(disk, items, s) <==> SkipsNothing(disk.sources, last, s)
  {
    var sources, spans, hi := disk.sources, Spans(items), EndPosition(disk.sources, last);
    hide Spans, Base, At, IsSpace, Covers, DistinctRels, EndPosition, Length, Lo, Hi, ValidSpan;
    if Known(sources, s.file) && 0 <= s.offset <= Length(sources, s.file) {
      if TiledTo(disk, items, s) {
        forall d: nat, o: nat | Solid(sources, d, o) && Base(sources, d) + o < At(sources, s.file, s.offset)
          ensures Base(sources, d) + o < hi
        {
          HeldLiesBefore(sources, spans, hi, d, o);
        }
      }
    }
  }

  lemma SkipsNothingAtEnd(sources: seq<Doc>, last: Slice)
    requires DistinctRels(sources) && Within(sources, last)
    ensures SkipsNothing(sources, last, EndOfSlice(sources, last))
  {
    IndexOfDistinct(sources, last.doc);
  }

  lemma TiledFromSlices(disk: Disk, dir: Dir, slices: seq<Slice>, q: Project)
    requires DistinctRels(disk.sources) && slices != [] && Within(disk.sources, slices[|slices| - 1])
    requires TilesTo(disk.sources, slices, EndPosition(disk.sources, slices[|slices| - 1]))
    requires Spans(q.items) == SlicesAsSpans(disk.sources, slices)
    requires GoodItems(q.items) && FilesListed(dir, q.items) && q.cursor != Null
    ensures var last := slices[|slices| - 1];
      && StartOf(disk, q) == Some(StartAfterSplit(disk, dir, q.cursor, last))
      && (Tiled(disk, dir, q) <==> SkipsNothing(disk.sources, last, StartAfterSplit(disk, dir, q.cursor, last)))
  {
    var last := slices[|slices| - 1];
    assert Tidy(disk, dir, q);
    hide GoodItems, FilesListed, Spans, DistinctRels, Within, SkipsNothing, TiledTo, Ordered, CoveredUpTo, EndPosition,
      EffectiveStart, At, Base, SpanOfSlice, Known, Tidy, SlicesAsSpans, Later, Usable;
    StartsAfterLast(disk.sources, q.items, q.cursor, last);
    TiledAsFarAs(disk, q.items, last, StartOf(disk, q).value);
  }

  /** A project split before there was a ledger, with at most one entry for each file, bare or pointing
      at its slice: the backfilled ledger is tiled exactly when the place from which planning
      will go on skips nothing but blanks. */
  lemma SplitIsTiled(disk: Disk, dir: Dir, slices: seq<Slice>, nums: seq<nat>, p: Project)
    requires DistinctRels(disk.sources) && Written(disk, dir, slices, nums) && nums != [] && nums[0] > 0
    requires Prepared(disk.sources, slices, p, nums) && OneEach(p.items)
    ensures slices != [] && Within(disk.sources, slices[|slices| - 1])
    ensures var q, last := Backfilled(disk, dir, p), slices[|slices| - 1];
      var start := StartAfterSplit(disk, dir, p.cursor, last);
      && StartOf(disk, q) == Some(start)
      && (Tiled(disk, dir, q) <==> SkipsNothing(disk.sources, last, start))
  {
    var q := Backfilled(disk, dir, p);
    MigratedLedger(disk, dir, slices, nums, p);
    SplitThenBackfill(disk, dir, slices, nums, p);
    WrittenParts(disk, dir, slices, nums);
    hide *;
    SplitTiles(disk.sources, slices);
    TiledFromSlices(disk, dir, slices, q);
    SameStartAfterSplit(disk, dir, p.cursor, q.cursor, slices[|slices| - 1]);
  }

  lemma SameStartAfterSplit(disk: Disk, dir: Dir, before: RawCursor, after: RawCursor, last: Slice)
    requires Within(disk.sources, last) && after != Null
    requires after == if before == Null then AsCursor(CursorAfterSplit(disk, dir, last)) else before
    ensures StartAfterSplit(disk, dir, after, last) == StartAfterSplit(disk, dir, before, last)
  {
  }

  /** In particular it is tiled when the cursor is to be derived and the left-over text, if there is
      any, is what follows the last slice. */
  lemma PlainSplitIsTiled(disk: Disk, dir: Dir, slices: seq<Slice>, nums: seq<nat>, p: Project)
    requires DistinctRels(disk.sources) && Written(disk, dir, slices, nums) && nums != [] && nums[0] > 0
    requires Prepared(disk.sources, slices, p, nums) && OneEach(p.items) && p.cursor == Null
    requires slices != [] && LeftOverFits(disk, dir, slices[|slices| - 1])
    ensures Tiled(disk, dir, Backfilled(disk, dir, p))
  {
    SplitIsTiled(disk, dir, slices, nums, p);
    hide Backfilled, Written, Prepared, OneEach, Tiled, SkipsNothing, DistinctRels;
    FittingLeftOver(disk, dir, slices[|slices| - 1]);
    SkipsNothingAtEnd(disk.sources, slices[|slices| - 1]);
  }
}
