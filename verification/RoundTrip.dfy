/** Splitting the sources into episode files and backfilling the bare ledger gives the split back. */
module RoundTrip {
  import opened Wrappers
  import opened Text
  import opened Ledger
  import opened Backfill
  import opened BackfillLaws

  datatype Slice = Slice(doc: nat, start: nat, end: nat)

  predicate Within(sources: seq<Doc>, s: Slice) {
    s.doc < |sources| && s.start < s.end <= |sources[s.doc].text|
  }

  function Cut(sources: seq<Doc>, s: Slice): string
    requires Within(sources, s)
  {
    sources[s.doc].text[s.start..s.end]
  }

  /** `s` continues the split after `prev`: in the same source, or at the head of the next
      source that is not empty once this one is used up. */
  ghost predicate Continues(sources: seq<Doc>, prev: Option<Slice>, s: Slice) {
    && Within(sources, s)
    && (prev.Some? ==> Within(sources, prev.value))
    && if prev.Some? && prev.value.doc == s.doc then s.start == prev.value.end
       else
         && s.start == 0
         && (prev.Some? ==> prev.value.doc < s.doc && prev.value.end == |sources[prev.value.doc].text|)
         && forall d :: (if prev.Some? then prev.value.doc + 1 else 0) <= d < s.doc ==> sources[d].text == ""
  }

  function Before(slices: seq<Slice>, k: nat): Option<Slice>
    requires k <= |slices|
  {
    if k == 0 then None else Some(slices[k - 1])
  }

  /** Consecutive non-empty slices from the head of the first source: a split of all sources, or
      of as much as has been cut so far. */
  ghost predicate IsSplit(sources: seq<Doc>, slices: seq<Slice>) {
    forall k :: 0 <= k < |slices| ==> Continues(sources, Before(slices, k), slices[k])
  }

  /** Every file holds its slice, and there are no other episode files. */
  ghost predicate Written(disk: Disk, dir: Dir, slices: seq<Slice>, nums: seq<nat>) {
    && |slices| == |nums| && Ascending(nums)
    && IsSplit(disk.sources, slices)
    && (forall n: nat :: n in dir.episodes <==> Listed(nums, n))
    && forall k :: 0 <= k < |nums| ==>
         Within(disk.sources, slices[k]) && FileText(dir, nums[k]) == Cut(disk.sources, slices[k])
  }

  /** The entry has no status yet, or it has one and points at the slice. */
  predicate FitsSlice(sources: seq<Doc>, e: Entry, s: Slice) {
    e.status.None? ||
    (Within(sources, s) && e.status != Some(Unanchored) && IndexOf(sources, sources[s.doc].rel) == Some(s.doc)
     && e.range == Full(sources[s.doc].rel, s.start, s.end))
  }

  /** Entries, if any, carry only numbers that have a file, and fit its slice. */
  ghost predicate Prepared(sources: seq<Doc>, slices: seq<Slice>, p: Project, nums: seq<nat>) {
    forall n :: Has(p.items, n) ==>
      exists j :: 0 <= j < |nums| && j < |slices| && nums[j] == n
        && FitsSlice(sources, p.items[First(p.items, n)].entry, slices[j])
  }

  ghost predicate Listed(nums: seq<nat>, n: int) {
    exists j :: 0 <= j < |nums| && nums[j] == n
  }

  // ---------------------------------------------------------------- searching

  /** Where the cursors stand after a slice: sources before it used up, its own at its end,
      later ones at their heads. */
  ghost predicate CursorsAfter(sources: seq<Doc>, prev: Option<Slice>, cursors: seq<nat>) {
    && |cursors| == |sources|
    && (prev.Some? ==> Within(sources, prev.value))
    && forall d :: 0 <= d < |sources| ==>
         if prev.None? || d > prev.value.doc then cursors[d] == 0
         else if d == prev.value.doc then cursors[d] == prev.value.end
         else cursors[d] == |sources[d].text|
  }

  /** The cursors after the last slice. */
  function CursorsOf(sources: seq<Doc>, last: Slice): seq<nat>
    requires Within(sources, last)
  {
    seq(|sources|, d requires 0 <= d < |sources| =>
      if d > last.doc then 0 else if d == last.doc then last.end else |sources[d].text|)
  }

  /** Where the left-over text says that planning goes on, if it says so: from those cursors, and not
      before the end of the last slice in the same source; otherwise that end. */
  function CursorAfterSplit(disk: Disk, dir: Dir, last: Slice): (string, nat)
    requires Within(disk.sources, last)
  {
    var rel := disk.sources[last.doc].rel;
    if dir.remaining.None? || dir.remaining.value == "" then (rel, last.end)
    else
      match FindInSources(disk.sources, CursorsOf(disk.sources, last), Some(last.doc), dir.remaining.value)
      case None => (rel, last.end)
      case Some(Hit(d, start)) =>
        if disk.sources[d].rel == rel && start < last.end then (rel, last.end) else (disk.sources[d].rel, start)
  }

  lemma {:induction false} SearchFirstHit(sources: seq<Doc>, starts: seq<nat>, order: seq<nat>, needle: string,
                                          doc: nat)
    requires |starts| == |sources| && doc in order && doc < |sources|
    requires Find(sources[doc].text, needle, starts[doc]) >= 0
    requires forall i :: 0 <= i < |order| && order[i] != doc ==>
      (order[i] < doc ==> Find(sources[order[i]].text, needle, starts[order[i]]) == -1)
    requires forall i, j :: 0 <= i < j < |order| && order[j] == doc ==> order[i] < doc
    ensures SearchFrom(sources, starts, order, needle)
      == Some(Hit(doc, Find(sources[doc].text, needle, starts[doc])))
  {
    if order[0] != doc {
      var rest := order[1..];
      var j :| 0 <= j < |order| && order[j] == doc;
      assert rest[j - 1] == doc;
      assert order[0] < doc;
      SearchFirstHit(sources, starts, rest, needle, doc);
    }
  }

  lemma {:induction false} WithoutAscends(s: seq<nat>, x: nat)
    requires StrictlyAscending(s)
    ensures StrictlyAscending(Without(s, x))
  {
    if s != [] {
      WithoutAscends(s[1..], x);
      WithoutExact(s[1..], x);
      var rest := Without(s[1..], x);
      forall i | 0 <= i < |rest|
        ensures s[0] < rest[i]
      {
        assert rest[i] in rest;
        var k :| 0 <= k < |s[1..]| && s[1..][k] == rest[i];
        assert s[k + 1] == rest[i];
      }
    }
  }

  /** The next slice's text is found exactly where it was cut, repeats or not. */
  lemma NextSliceFound(sources: seq<Doc>, prev: Option<Slice>, s: Slice, cursors: seq<nat>)
    requires CursorsAfter(sources, prev, cursors) && Continues(sources, prev, s)
    ensures FindInSources(sources, cursors, if prev.Some? then Some(prev.value.doc) else None, Cut(sources, s))
      == Some(Hit(s.doc, s.start))
  {
    var needle := Cut(sources, s);
    var preferred := if prev.Some? then Some(prev.value.doc) else None;
    var order := SearchOrder(|sources|, preferred);
    FindHere(sources[s.doc].text, s.start, s.end);
    assert cursors[s.doc] == s.start;
    if prev.Some? && prev.value.doc == s.doc {
      assert order[0] == s.doc;
    } else {
      forall d | 0 <= d < s.doc
        ensures Find(sources[d].text, needle, cursors[d]) == -1
      {
        assert cursors[d] >= |sources[d].text|;
      }
      SearchOrderCovers(|sources|, preferred);
      if prev.None? {
        SearchFirstHit(sources, cursors, order, needle, s.doc);
      } else {
        var p := prev.value.doc;
        var others := Without(UpTo(|sources|), p);
        WithoutExact(UpTo(|sources|), p);
        WithoutAscends(UpTo(|sources|), p);
        assert UpTo(|sources|)[s.doc] == s.doc;
        SearchFirstHit(sources, cursors, others, needle, s.doc);
        assert order[0] == p && order[1..] == others;
      }
    }
  }

  lemma CursorsAdvance(sources: seq<Doc>, prev: Option<Slice>, s: Slice, cursors: seq<nat>)
    requires CursorsAfter(sources, prev, cursors) && Continues(sources, prev, s)
    ensures CursorsAfter(sources, Some(s), cursors[s.doc := s.end])
  {
  }

  // ---------------------------------------------------------------- the walk

  /** The first entry with the number records the slice exactly. */
  ghost predicate Recovered(disk: Disk, items: seq<Item>, n: int, s: Slice) {
    && Within(disk.sources, s) && Has(items, n)
    && var e := items[First(items, n)].entry;
       e.range == Full(disk.sources[s.doc].rel, s.start, s.end) && e.status.Some? && e.status != Some(Unanchored)
  }

  ghost predicate WalkedTo(disk: Disk, slices: seq<Slice>, nums: seq<nat>, k: nat, scan: Scan)
    requires k <= |slices| == |nums|
  {
    && CursorsAfter(disk.sources, Before(slices, k), scan.cursors)
    && scan.lastDoc == (if k == 0 then None else Some(slices[k - 1].doc))
    && scan.lastEnd ==
       (if k == 0 then None else Some((disk.sources[slices[k - 1].doc].rel, slices[k - 1].end as int)))
    && ItemsTo(disk, slices, nums, k, scan.items)
  }

  ghost predicate ItemsTo(disk: Disk, slices: seq<Slice>, nums: seq<nat>, k: nat, items: seq<Item>)
    requires k <= |slices| == |nums|
  {
    && (forall j :: 0 <= j < k ==> Recovered(disk, items, nums[j], slices[j]))
    && (forall j :: k <= j < |nums| ==>
          Has(items, nums[j]) && FitsSlice(disk.sources, items[First(items, nums[j])].entry, slices[j]))
  }

  lemma ItemsStep(disk: Disk, slices: seq<Slice>, nums: seq<nat>, k: nat, items: seq<Item>, x: Item)
    requires k < |slices| == |nums| && Ascending(nums)
    requires ItemsTo(disk, slices, nums, k, items) && NumOf(x) == Some(nums[k])
    requires Within(disk.sources, slices[k])
    requires x.entry.range == Full(disk.sources[slices[k].doc].rel, slices[k].start, slices[k].end)
    requires x.entry.status.Some? && x.entry.status != Some(Unanchored)
    ensures ItemsTo(disk, slices, nums, k + 1, items[First(items, nums[k]) := x])
  {
    var r := items[First(items, nums[k]) := x];
    forall j | 0 <= j < |nums|
      ensures j < k + 1 ==> Recovered(disk, r, nums[j], slices[j])
      ensures k + 1 <= j ==> Has(r, nums[j]) && FitsSlice(disk.sources, r[First(r, nums[j])].entry, slices[j])
    {
      OtherFirstsStay(items, nums[k], nums[j], x);
      assert j != k ==> nums[j] != nums[k];
      hide Has, First;
    }
  }

  /** Visiting the next number anchors its first entry at the slice. */
  lemma VisitAnchors(disk: Disk, dir: Dir, prev: Option<Slice>, s: Slice, scan: Scan, n: nat)
    requires Fits(disk, scan) && CursorsAfter(disk.sources, prev, scan.cursors)
    requires Continues(disk.sources, prev, s)
    requires scan.lastDoc == if prev.Some? then Some(prev.value.doc) else None
    requires Has(scan.items, n) && scan.items[First(scan.items, n)].entry.status.None?
    requires FileText(dir, n) == Cut(disk.sources, s)
    ensures var i := First(scan.items, n);
      var e := scan.items[i].entry;
      var status := Some(if HasDownstream(disk, n, e) then Consumed else Planned);
      var rel := disk.sources[s.doc].rel;
      Visit(disk, dir, scan, n) ==
        Scan(scan.items[i := Item(e.(range := Full(rel, s.start, s.end), status := status))],
             scan.cursors[s.doc := s.end], Some(s.doc), Some((rel, s.end as int)))
  {
    NextSliceFound(disk.sources, prev, s, scan.cursors);
  }

  /** An entry that points at the next slice already only moves the cursors, and just as far. */
  lemma VisitFollows(disk: Disk, dir: Dir, prev: Option<Slice>, s: Slice, scan: Scan, n: nat)
    requires Fits(disk, scan) && CursorsAfter(disk.sources, prev, scan.cursors)
    requires Continues(disk.sources, prev, s) && Has(scan.items, n)
    requires var e := scan.items[First(scan.items, n)].entry; e.status.Some? && FitsSlice(disk.sources, e, s)
    ensures var rel := disk.sources[s.doc].rel;
      Visit(disk, dir, scan, n) ==
        Scan(scan.items, scan.cursors[s.doc := s.end], Some(s.doc), Some((rel, s.end as int)))
  {
    assert scan.cursors[s.doc] == s.start;
  }

  /** Changing the first entry with one number leaves the first entries with others alone. */
  lemma OtherFirstsStay(items: seq<Item>, n: int, m: int, x: Item)
    requires Has(items, n) && NumOf(x) == Some(n)
    ensures var r := items[First(items, n) := x];
      && Has(r, n) && First(r, n) == First(items, n)
      && (m != n && Has(items, m) ==>
            Has(r, m) && First(r, m) == First(items, m) != First(items, n))
  {
    SameNumsSameFirst(items, items[First(items, n) := x]);
  }

  /** Either way the first entry of the number points at the slice afterwards. */
  lemma VisitRecords(disk: Disk, dir: Dir, prev: Option<Slice>, s: Slice, scan: Scan, n: nat) returns (x: Item)
    requires Fits(disk, scan) && CursorsAfter(disk.sources, prev, scan.cursors)
    requires Continues(disk.sources, prev, s)
    requires scan.lastDoc == if prev.Some? then Some(prev.value.doc) else None
    requires Has(scan.items, n) && FitsSlice(disk.sources, scan.items[First(scan.items, n)].entry, s)
    requires FileText(dir, n) == Cut(disk.sources, s)
    ensures var rel := disk.sources[s.doc].rel;
      && Visit(disk, dir, scan, n) ==
           Scan(scan.items[First(scan.items, n) := x], scan.cursors[s.doc := s.end], Some(s.doc),
                Some((rel, s.end as int)))
      && NumOf(x) == Some(n as int) && x.entry.range == Full(rel, s.start, s.end)
      && x.entry.status.Some? && x.entry.status != Some(Unanchored)
  {
    hide Visit, CursorsAfter, Continues, Cut, FileText, Has, HasDownstream;
    var i := First(scan.items, n);
    if scan.items[i].entry.status.None? {
      VisitAnchors(disk, dir, prev, s, scan, n);
    } else {
      VisitFollows(disk, dir, prev, s, scan, n);
      assert scan.items[i := scan.items[i]] == scan.items;
      SettledFits(disk.sources, scan.items[i].entry, s);
    }
    x := Visit(disk, dir, scan, n).items[i];
  }

  lemma WalkedStep(disk: Disk, dir: Dir, slices: seq<Slice>, nums: seq<nat>, k: nat, scan: Scan)
    requires Written(disk, dir, slices, nums) && k < |nums| && Fits(disk, scan)
    requires WalkedTo(disk, slices, nums, k, scan)
    ensures WalkedTo(disk, slices, nums, k + 1, Visit(disk, dir, scan, nums[k]))
  {
    var s, prev, n := slices[k], Before(slices, k), nums[k];
    assert Continues(disk.sources, prev, s);
    CursorsAdvance(disk.sources, prev, s, scan.cursors);
    hide Visit, CursorsAfter, Continues, Cut, FileText, IsSplit, Has, First, FitsSlice;
    var x := VisitRecords(disk, dir, prev, s, scan, n);
    hide ItemsTo;
    ItemsStep(disk, slices, nums, k, scan.items, x);
  }

  lemma SettledFits(sources: seq<Doc>, e: Entry, s: Slice)
    requires FitsSlice(sources, e, s) && Within(sources, s)
    ensures e.status.Some? ==> e.status != Some(Unanchored) && e.range == Full(sources[s.doc].rel, s.start, s.end)
  {
  }

  lemma {:induction false} WalkedAll(disk: Disk, dir: Dir, slices: seq<Slice>, nums: seq<nat>, scan: Scan, k: nat)
    requires Written(disk, dir, slices, nums) && k <= |nums| == |slices| && Fits(disk, scan)
    requires WalkedTo(disk, slices, nums, 0, scan)
    ensures WalkedTo(disk, slices, nums, k, Walk(disk, dir, scan, nums[..k]))
  {
    hide WalkedTo, Written, Visit, Walk, Fits;
    if k == 0 {
      WalkNothing(disk, dir, scan);
    } else {
      WalkedAll(disk, dir, slices, nums, scan, k - 1);
      WalkedStep(disk, dir, slices, nums, k - 1, Walk(disk, dir, scan, nums[..k - 1]));
      assert nums[..k][..k - 1] == nums[..k - 1];
      WalkStep(disk, dir, scan, nums[..k]);
    }
  }

  // ---------------------------------------------------------------- the round trip

  /** The first entry with the number, once orphans are added, still fits its slice. */
  lemma AddedStillFits(sources: seq<Doc>, slices: seq<Slice>, p: Project, fileNums: seq<nat>, nums: seq<nat>, j: nat)
    requires Prepared(sources, slices, p, nums) && forall m: nat :: m in fileNums <==> Listed(nums, m)
    requires j < |nums| == |slices| && Ascending(nums)
    ensures var added := AddOrphans(p.items, fileNums);
      Has(added, nums[j]) && FitsSlice(sources, added[First(added, nums[j])].entry, slices[j])
  {
    hide AddOrphans, FitsSlice;
    AddOrphansCovers(p.items, fileNums);
    var added, n := AddOrphans(p.items, fileNums), nums[j];
    assert Listed(nums, n);
    if Has(p.items, n) {
      FirstIs(added, n, First(p.items, n));
      var i :| 0 <= i < |nums| && nums[i] == n && FitsSlice(sources, p.items[First(p.items, n)].entry, slices[i]);
      assert i == j;
    } else {
      FirstIsBeyond(p.items, added, n);
      BareFits(sources, added[First(added, n)].entry, slices[j]);
    }
  }

  lemma BareFits(sources: seq<Doc>, e: Entry, s: Slice)
    requires e.status.None?
    ensures FitsSlice(sources, e, s)
  {
  }

  /** The first entry with each of these numbers is there and fits its slice. */
  ghost predicate AllFit(sources: seq<Doc>, slices: seq<Slice>, items: seq<Item>, nums: seq<nat>) {
    forall j :: 0 <= j < |nums| && j < |slices| ==>
      Has(items, nums[j]) && FitsSlice(sources, items[First(items, nums[j])].entry, slices[j])
  }

  lemma AddedNumbers(sources: seq<Doc>, slices: seq<Slice>, p: Project, fileNums: seq<nat>, nums: seq<nat>, n: int)
    requires Prepared(sources, slices, p, nums) && forall m: nat :: m in fileNums <==> Listed(nums, m)
    ensures Has(AddOrphans(p.items, fileNums), n) <==> Listed(nums, n)
  {
    hide AddOrphans, FitsSlice;
    AddOrphansCovers(p.items, fileNums);
  }

  lemma OpenedNumbers(sources: seq<Doc>, slices: seq<Slice>, dir: Dir, p: Project, nums: seq<nat>)
    requires Ascending(nums) && Prepared(sources, slices, p, nums) && |slices| == |nums|
    requires forall n: nat :: n in dir.episodes <==> Listed(nums, n)
    ensures Numbers(Opened(dir, p)) == nums
    ensures AllFit(sources, slices, Opened(dir, p), nums)
  {
    var fileNums := SortedNums(dir.episodes.Keys);
    SortedNumsExact(dir.episodes.Keys);
    var added := AddOrphans(p.items, fileNums);
    var items := Opened(dir, p);
    assert items == SortIfPossible(added);
    hide Opened, Prepared, Ascending, Has, First, AddOrphans, SortedNums, FitsSlice;
    forall n
      ensures Has(items, n) <==> Listed(nums, n)
    {
      AddedNumbers(sources, slices, p, fileNums, nums, n);
      SortIfPossibleKeepsFirst(added, n);
    }
    forall j | 0 <= j < |nums|
      ensures Has(items, nums[j]) && FitsSlice(sources, items[First(items, nums[j])].entry, slices[j])
    {
      AddedStillFits(sources, slices, p, fileNums, nums, j);
      SortIfPossibleKeepsFirst(added, nums[j]);
    }
    NumbersExact(items);
    forall n
      ensures n in Numbers(items) <==> n in nums
    {
      assert Listed(nums, n) <==> n in nums;
    }
    AscendingUnique(Numbers(items), nums);
  }

  /** Backfilling recovers every slice at its exact place, even when slices repeat text, whether none,
      some or all of the entries point at their slices already.  A cursor that was set stays;
      otherwise it is put where the left-over text
      says, or else at the end of the last slice. */
  lemma SplitThenBackfill(disk: Disk, dir: Dir, slices: seq<Slice>, nums: seq<nat>, p: Project)
    requires Written(disk, dir, slices, nums) && nums != [] && Prepared(disk.sources, slices, p, nums)
    ensures var q := Backfilled(disk, dir, p);
      && Numbers(q.items) == nums
      && (forall k :: 0 <= k < |nums| ==> Recovered(disk, q.items, nums[k], slices[k]))
      && q.cursor != Null && (p.cursor != Null ==> q.cursor == p.cursor)
    ensures var last := slices[|slices| - 1];
      && Within(disk.sources, last)
      && (p.cursor == Null ==> Backfilled(disk, dir, p).cursor == AsCursor(CursorAfterSplit(disk, dir, last)))
  {
    hide Written, Prepared, WalkedTo, Opened, Scanned, Recovered, Numbers, Fits, Within, DeriveCursor, CursorAfterSplit;
    var scan := Scanned(disk, dir, Opened(dir, p));
    ScanOfSplit(disk, dir, slices, nums, p);
    NothingPendsNothingMoves(disk, dir, Opened(dir, p));
    WalkedEnd(disk, dir, slices, nums, scan);
  }

  function AsCursor(place: (string, nat)): RawCursor {
    RawCursor(Some(place.0), Some(place.1))
  }

  lemma NothingPendsNothingMoves(disk: Disk, dir: Dir, items: seq<Item>)
    ensures !Pending(items) ==> Scanned(disk, dir, items).items == items
  {
    if !Pending(items) {
      PendingIffUnsettled(items);
      hide Pending, Settled, Walk;
      WalkOfSettled(disk, dir, Scan(items, seq(|disk.sources|, _ => 0), None, None), Numbers(items));
    }
  }

  lemma ScanOfSplit(disk: Disk, dir: Dir, slices: seq<Slice>, nums: seq<nat>, p: Project)
    requires Written(disk, dir, slices, nums) && nums != [] && Prepared(disk.sources, slices, p, nums)
    ensures |slices| == |nums|
    ensures var scan := Scanned(disk, dir, Opened(dir, p));
      Numbers(scan.items) == nums && WalkedTo(disk, slices, nums, |nums|, scan)
  {
    OpenedNumbers(disk.sources, slices, dir, p, nums);
    hide Opened, Prepared, AllFit, Written;
    ScanOfItems(disk, dir, slices, nums, Opened(dir, p));
  }

  lemma ScanOfItems(disk: Disk, dir: Dir, slices: seq<Slice>, nums: seq<nat>, items: seq<Item>)
    requires Written(disk, dir, slices, nums) && AllFit(disk.sources, slices, items, nums) && Numbers(items) == nums
    ensures |slices| == |nums|
    ensures var scan := Scanned(disk, dir, items);
      Numbers(scan.items) == nums && WalkedTo(disk, slices, nums, |nums|, scan)
  {
    assert |slices| == |nums|;
    hide Written, AllFit, WalkedTo, Visit, Walk, Numbers;
    var zero := Scan(items, seq(|disk.sources|, _ => 0), None, None);
    StartOfWalk(disk, slices, nums, zero);
    WalkedAll(disk, dir, slices, nums, zero, |nums|);
    assert nums[..|nums|] == nums;
    WalkKeepsNums(disk, dir, zero, nums);
    SameNumsSameFirst(items, Scanned(disk, dir, items).items);
  }

  lemma StartOfWalk(disk: Disk, slices: seq<Slice>, nums: seq<nat>, zero: Scan)
    requires |slices| == |nums|
    requires zero == Scan(zero.items, seq(|disk.sources|, _ => 0), None, None)
    requires AllFit(disk.sources, slices, zero.items, nums)
    ensures WalkedTo(disk, slices, nums, 0, zero)
  {
  }

  /** What a finished walk says. */
  lemma WalkedEnd(disk: Disk, dir: Dir, slices: seq<Slice>, nums: seq<nat>, scan: Scan)
    requires |slices| == |nums| > 0 && Fits(disk, scan) && WalkedTo(disk, slices, nums, |nums|, scan)
    ensures forall k :: 0 <= k < |nums| ==> Recovered(disk, scan.items, nums[k], slices[k])
    ensures DeriveCursor(disk, dir, scan) != Null
    ensures var last := slices[|slices| - 1];
      && Within(disk.sources, last)
      && DeriveCursor(disk, dir, scan) == AsCursor(CursorAfterSplit(disk, dir, last))
  {
    LastCursor(disk, dir, slices[|slices| - 1], scan);
  }

  /** No left-over file, an empty one, or what follows the last slice in its source. */
  ghost predicate LeftOverFits(disk: Disk, dir: Dir, last: Slice) {
    Within(disk.sources, last) && dir.remaining.Some? ==>
      dir.remaining.value == "" || dir.remaining.value == disk.sources[last.doc].text[last.end..]
  }

  lemma LastCursor(disk: Disk, dir: Dir, last: Slice, scan: Scan)
    requires Fits(disk, scan) && Within(disk.sources, last) && CursorsAfter(disk.sources, Some(last), scan.cursors)
    requires scan.lastDoc == Some(last.doc)
    requires scan.lastEnd == Some((disk.sources[last.doc].rel, last.end as int))
    ensures DeriveCursor(disk, dir, scan) == AsCursor(CursorAfterSplit(disk, dir, last))
  {
    assert scan.cursors == CursorsOf(disk.sources, last);
  }

  /** Left-over text that fits leaves planning at the end of the last slice. */
  lemma FittingLeftOver(disk: Disk, dir: Dir, last: Slice)
    requires Within(disk.sources, last) && LeftOverFits(disk, dir, last)
    ensures CursorAfterSplit(disk, dir, last) == (disk.sources[last.doc].rel, last.end)
  {
    if dir.remaining.Some? && dir.remaining.value != "" {
      var text := disk.sources[last.doc].text;
      assert text[last.end..] == text[last.end..|text|];
      FindHere(text, last.end, |text|);
      assert SearchOrder(|disk.sources|, Some(last.doc))[0] == last.doc;
    }
  }
}
