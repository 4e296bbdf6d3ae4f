/** What backfilling leaves alone, and that running it again changes nothing. */
module BackfillLaws {
  import opened Wrappers
  import opened Text
  import opened Ledger
  import opened Backfill

  /** The first entry with this number has a status. */
  ghost predicate Settled(items: seq<Item>, n: int) {
    Has(items, n) ==> items[First(items, n)].entry.status.Some?
  }

  /** The first entry with this number points at the end of some range. */
  ghost predicate PointsAtEnd(items: seq<Item>, n: int) {
    Has(items, n) && var range := items[First(items, n)].entry.range;
      range.RawRange? && range.file.Some? && range.end.Some?
  }

  lemma PendingIffUnsettled(items: seq<Item>)
    ensures Pending(items) <==> exists n :: !Settled(items, n)
  {
    if i :| 0 <= i < |items| && PendingAt(items, i) {
      assert !Settled(items, NumOf(items[i]).value);
    }
    if n :| !Settled(items, n) {
      assert PendingAt(items, First(items, n));
    }
  }

  // ---------------------------------------------------------------- one visit

  /** A visit settles its number and touches no entry that has a status. */
  lemma VisitSettles(disk: Disk, dir: Dir, scan: Scan, num: int)
    requires Fits(disk, scan)
    ensures var r := Visit(disk, dir, scan, num).items;
      && (forall i :: 0 <= i < |r| && (scan.items[i].Foreign? || scan.items[i].entry.status.Some?) ==>
            r[i] == scan.items[i])
      && (Has(scan.items, num) ==> r[First(scan.items, num)].entry.status.Some?)
      && (Settled(scan.items, num) ==> r == scan.items)
  {
    if Anchor(disk, dir, scan, num).Some? {
      FindInSourcesExact(disk.sources, scan.cursors, scan.lastDoc, FileText(dir, num));
    }
  }

  lemma VisitKeepsSettled(disk: Disk, dir: Dir, scan: Scan, num: int, n: int)
    requires Fits(disk, scan)
    ensures var r := Visit(disk, dir, scan, num).items;
      && (Settled(scan.items, n) ==> Settled(r, n))
      && Settled(r, num)
  {
    VisitSettles(disk, dir, scan, num);
    VisitKeepsNums(disk, dir, scan, num);
    hide Visit;
    SameNumsSameFirst(scan.items, Visit(disk, dir, scan, num).items);
  }

  /** A visit ends with no known end exactly when there was none and this number gives none. */
  lemma VisitEnd(disk: Disk, dir: Dir, scan: Scan, num: int)
    requires Fits(disk, scan) && Has(scan.items, num)
    ensures var r := Visit(disk, dir, scan, num);
      r.lastEnd.None? <==> scan.lastEnd.None? && !PointsAtEnd(r.items, num)
  {
    var r := Visit(disk, dir, scan, num);
    VisitKeepsNums(disk, dir, scan, num);
    SameNumsSameFirst(scan.items, r.items);
    if Anchor(disk, dir, scan, num).Some? {
      FindInSourcesExact(disk.sources, scan.cursors, scan.lastDoc, FileText(dir, num));
    }
  }

  lemma VisitElsewhere(disk: Disk, dir: Dir, scan: Scan, num: int, n: int)
    requires Fits(disk, scan) && n != num
    ensures PointsAtEnd(Visit(disk, dir, scan, num).items, n) <==> PointsAtEnd(scan.items, n)
  {
    VisitKeepsNums(disk, dir, scan, num);
    SameNumsSameFirst(scan.items, Visit(disk, dir, scan, num).items);
  }

  // ---------------------------------------------------------------- a walk

  lemma {:induction false} WalkSettles(disk: Disk, dir: Dir, scan: Scan, nums: seq<int>, n: int)
    requires Fits(disk, scan)
    ensures var r := Walk(disk, dir, scan, nums).items;
      && (n in nums || Settled(scan.items, n) ==> Settled(r, n))
      && (forall i :: 0 <= i < |r| && (scan.items[i].Foreign? || scan.items[i].entry.status.Some?) ==>
            r[i] == scan.items[i])
  {
    if nums != [] {
      var butLast, num := nums[..|nums| - 1], nums[|nums| - 1];
      assert nums == butLast + [num];
      WalkSettles(disk, dir, scan, butLast, n);
      VisitSettles(disk, dir, Walk(disk, dir, scan, butLast), num);
      VisitKeepsSettled(disk, dir, Walk(disk, dir, scan, butLast), num, n);
      hide Visit, Settled;
    }
  }

  /** A walk over settled entries changes no item. */
  lemma {:induction false} WalkOfSettled(disk: Disk, dir: Dir, scan: Scan, nums: seq<int>)
    requires Fits(disk, scan) && forall i :: 0 <= i < |nums| ==> Settled(scan.items, nums[i])
    ensures Walk(disk, dir, scan, nums).items == scan.items
  {
    if nums != [] {
      hide Visit;
      WalkOfSettled(disk, dir, scan, nums[..|nums| - 1]);
      VisitSettles(disk, dir, Walk(disk, dir, scan, nums[..|nums| - 1]), nums[|nums| - 1]);
    }
  }

  lemma {:induction false} WalkEnd(disk: Disk, dir: Dir, scan: Scan, nums: seq<int>)
    requires Fits(disk, scan) && Ascending(nums)
    requires forall n :: n in nums ==> Has(scan.items, n)
    ensures var r := Walk(disk, dir, scan, nums);
      r.lastEnd.None? <==> scan.lastEnd.None? && forall n :: n in nums ==> !PointsAtEnd(r.items, n)
  {
    if nums != [] {
      var butLast, num := nums[..|nums| - 1], nums[|nums| - 1];
      assert nums == butLast + [num];
      var mid := Walk(disk, dir, scan, butLast);
      WalkEnd(disk, dir, scan, butLast);
      WalkKeepsNums(disk, dir, scan, butLast);
      SameNumsSameFirst(scan.items, mid.items);
      assert num in nums;
      VisitEnd(disk, dir, mid, num);
      forall n | n in butLast
        ensures PointsAtEnd(Visit(disk, dir, mid, num).items, n) <==> PointsAtEnd(mid.items, n)
      {
        VisitElsewhere(disk, dir, mid, num, n);
      }
      hide Visit, PointsAtEnd;
    }
  }

  // ---------------------------------------------------------------- the laws

  lemma ScannedSettles(disk: Disk, dir: Dir, items: seq<Item>, n: int)
    ensures Settled(Scanned(disk, dir, items).items, n)
    ensures SameNums(items, Scanned(disk, dir, items).items)
    ensures forall i :: 0 <= i < |items| && (items[i].Foreign? || items[i].entry.status.Some?) ==>
      Scanned(disk, dir, items).items[i] == items[i]
  {
    var scan := Scan(items, seq(|disk.sources|, _ => 0), None, None);
    NumbersExact(items);
    WalkKeepsNums(disk, dir, scan, Numbers(items));
    SameNumsSameFirst(items, Walk(disk, dir, scan, Numbers(items)).items);
    WalkSettles(disk, dir, scan, Numbers(items), n);
  }

  lemma ScannedAllSettled(disk: Disk, dir: Dir, items: seq<Item>)
    ensures forall n :: Settled(Scanned(disk, dir, items).items, n)
    ensures SameNums(items, Scanned(disk, dir, items).items)
  {
    ScannedSettles(disk, dir, items, 0);
    forall n
      ensures Settled(Scanned(disk, dir, items).items, n)
    {
      ScannedSettles(disk, dir, items, n);
    }
  }

  /** With no end known, the derived cursor depends only on whether the left-over text occurs,
      and a null cursor means no end was known and it does not occur. */
  lemma NullCursorStaysNull(disk: Disk, dir: Dir, a: Scan, b: Scan)
    requires Fits(disk, a) && Fits(disk, b) && DeriveCursor(disk, dir, a) == Null
    ensures a.lastEnd.None?
    ensures b.lastEnd.None? ==> DeriveCursor(disk, dir, b) == Null
  {
    if dir.remaining.Some? && dir.remaining.value != "" {
      FindInSourcesExact(disk.sources, a.cursors, a.lastDoc, dir.remaining.value);
      FindInSourcesExact(disk.sources, b.cursors, b.lastDoc, dir.remaining.value);
    }
  }

  /** Re-scanning scanned items finds an end exactly when the first scan did. */
  lemma RescanEnd(disk: Disk, dir: Dir, items: seq<Item>)
    ensures var scan := Scanned(disk, dir, items);
      var again := Scanned(disk, dir, scan.items);
      again.items == scan.items && (again.lastEnd.None? <==> scan.lastEnd.None?)
  {
    var scan := Scanned(disk, dir, items);
    var zero := Scan(items, seq(|disk.sources|, _ => 0), None, None);
    var zero' := zero.(items := scan.items);
    ScannedAllSettled(disk, dir, items);
    SameNumsSameFirst(items, scan.items);
    NumbersExact(items);
    NumbersExact(scan.items);
    hide Settled, Visit, Walk, PointsAtEnd;
    WalkOfSettled(disk, dir, zero', Numbers(scan.items));
    WalkEnd(disk, dir, zero, Numbers(items));
    WalkEnd(disk, dir, zero', Numbers(scan.items));
  }

  lemma AddOrphansCovers(items: seq<Item>, fileNums: seq<nat>)
    ensures forall n: nat :: n in fileNums ==> Has(AddOrphans(items, fileNums), n)
    ensures forall n :: Has(items, n) ==> Has(AddOrphans(items, fileNums), n)
    ensures forall n :: Has(AddOrphans(items, fileNums), n) ==> Has(items, n) || n in fileNums
    ensures forall n :: Has(items, n) ==> First(AddOrphans(items, fileNums), n) == First(items, n)
    ensures forall i :: |items| <= i < |AddOrphans(items, fileNums)| ==>
      AddOrphans(items, fileNums)[i].Item? && AddOrphans(items, fileNums)[i].entry.status.None?
    ensures |items| <= |AddOrphans(items, fileNums)| && items == AddOrphans(items, fileNums)[..|items|]
  {
    hide Has, First, AddOrphans;
    AddOrphansTail(items, fileNums);
    forall n { AddOrphansNumber(items, fileNums, n); }
    forall n: nat | n in fileNums
      ensures Has(AddOrphans(items, fileNums), n)
    {
      AddOrphansNumber(items, fileNums, n);
    }
  }

  lemma {:induction false} AddOrphansNumber(items: seq<Item>, fileNums: seq<nat>, n: int)
    ensures Has(AddOrphans(items, fileNums), n) <==> Has(items, n) || n in fileNums
    ensures Has(items, n) ==> First(AddOrphans(items, fileNums), n) == First(items, n)
  {
    if fileNums != [] {
      var butLast, num := fileNums[..|fileNums| - 1], fileNums[|fileNums| - 1];
      assert fileNums == butLast + [num];
      hide Has, First;
      AddOrphansNumber(items, butLast, n);
      HasAppend(AddOrphans(items, butLast), Orphan(num), n);
    }
  }

  lemma {:induction false} AddOrphansTail(items: seq<Item>, fileNums: seq<nat>)
    ensures var added := AddOrphans(items, fileNums);
      && |items| <= |added| && items == added[..|items|]
      && forall i :: |items| <= i < |added| ==> added[i].Item? && added[i].entry.status.None?
  {
    if fileNums != [] {
      hide Has;
      AddOrphansTail(items, fileNums[..|fileNums| - 1]);
    }
  }

  lemma {:induction false} NoOrphans(items: seq<Item>, fileNums: seq<nat>)
    requires forall n: nat :: n in fileNums ==> Has(items, n)
    ensures AddOrphans(items, fileNums) == items
  {
    if fileNums != [] {
      var butLast, num := fileNums[..|fileNums| - 1], fileNums[|fileNums| - 1];
      assert fileNums == butLast + [num];
      NoOrphans(items, butLast);
    }
  }

  /** What a backfill opens is opened already: no orphan is left, and it is sorted if it can be. */
  lemma OpenedTwice(dir: Dir, p: Project, items: seq<Item>)
    requires SameNums(Opened(dir, p), items)
    ensures Opened(dir, p.(items := items)) == items
  {
    var fileNums := SortedNums(dir.episodes.Keys);
    var added := AddOrphans(p.items, fileNums);
    AddOrphansCovers(p.items, fileNums);
    forall n: nat | n in fileNums
      ensures Has(items, n)
    {
      SortIfPossibleKeepsFirst(added, n);
      SameNumsSameFirst(Opened(dir, p), items);
    }
    NoOrphans(items, fileNums);
    SortLength(added);
    SortIfPossibleTwice(added, items);
  }

  /** Running backfill on its own output, on the same files, changes nothing: entries, their
      order and the cursor, with duplicate numbers, orphan files and foreign items included. */
  lemma BackfillIdempotent(disk: Disk, dir: Dir, p: Project)
    ensures var q := Backfilled(disk, dir, p); Backfilled(disk, dir, q) == q
  {
    var q := Backfilled(disk, dir, p);
    var items := Opened(dir, p);
    var scan := Scanned(disk, dir, items);
    ScannedAllSettled(disk, dir, items);
    OpenedTwice(dir, p, items);
    OpenedTwice(dir, p, scan.items);
    assert q.items == items || q.items == scan.items;
    assert Opened(dir, q) == q.items by {
      assert Opened(dir, q) == Opened(dir, p.(items := q.items));
    }
    PendingIffUnsettled(items);
    PendingIffUnsettled(scan.items);
    RescanEnd(disk, dir, items);
    if q.cursor == Null {
      NullCursorStaysNull(disk, dir, scan, Scanned(disk, dir, scan.items));
    }
  }

  /** An entry that already has a status, a foreign item, and a cursor already set survive any
      backfill as they are. */
  lemma BackfillProtects(disk: Disk, dir: Dir, p: Project, x: Item)
    requires x.Foreign? || x.entry.status.Some?
    ensures multiset(p.items)[x] <= multiset(Backfilled(disk, dir, p).items)[x]
    ensures p.cursor != Null ==> Backfilled(disk, dir, p).cursor == p.cursor
  {
    var fileNums := SortedNums(dir.episodes.Keys);
    var added := AddOrphans(p.items, fileNums);
    AddOrphansCovers(p.items, fileNums);
    assert added == p.items + added[|p.items|..];
    var items := Opened(dir, p);
    assert multiset(items) == multiset(added) by {
      if AllReadable(added) { SortSorts(added); }
    }
    ScannedSettles(disk, dir, items, 0);
    CountSurvives(items, Scanned(disk, dir, items).items, x);
  }

  lemma {:induction false} CountSurvives(a: seq<Item>, b: seq<Item>, x: Item)
    requires |a| == |b| && forall i :: 0 <= i < |a| && a[i] == x ==> b[i] == x
    ensures multiset(a)[x] <= multiset(b)[x]
  {
    if a != [] {
      var a', b' := a[..|a| - 1], b[..|b| - 1];
      CountSurvives(a', b', x);
      assert a == a' + [a[|a| - 1]] && b == b' + [b[|b| - 1]];
    }
  }

  // ---------------------------------------------------------------- what anchoring means

  ghost predicate IsPlaceOf(disk: Disk, text: string, d: nat, start: nat) {
    d < |disk.sources| && OccursAt(disk.sources[d].text, text, start)
  }

  /** There is a script, under the path the entry names or the usual one, or a first draft of it. */
  ghost predicate UsedDownstream(disk: Disk, n: int, script: Option<Script>) {
    (exists path :: path in disk.scripts && (path == Canonical(n) || Some(path) == script)) || n in disk.drafts
  }

  /** The entry points at a true occurrence of its file's text, consumed or planned according to
      what exists downstream; or it is unanchored, because there is no such occurrence at all. */
  ghost predicate Located(disk: Disk, dir: Dir, n: int, before: Entry, after: Entry) {
    var text := FileText(dir, n);
    if text != "" && OccursSomewhere(disk.sources, text) then
      exists d: nat, start: nat :: IsPlaceOf(disk, text, d, start) && after ==
        before.(range := Full(disk.sources[d].rel, start, start + |text|),
                status := Some(if UsedDownstream(disk, n, before.script) then Consumed else Planned))
    else after == before.(range := NoRange, status := Some(Unanchored))
  }

  lemma VisitLocates(disk: Disk, dir: Dir, scan: Scan, n: int)
    requires Fits(disk, scan) && Has(scan.items, n) && scan.items[First(scan.items, n)].entry.status.None?
    ensures var i := First(scan.items, n);
      var r := Visit(disk, dir, scan, n).items;
      r[i].Item? && Located(disk, dir, n, scan.items[i].entry, r[i].entry)
  {
    var text := FileText(dir, n);
    if text != "" {
      FindInSourcesExact(disk.sources, scan.cursors, scan.lastDoc, text);
      var hit := Anchor(disk, dir, scan, n);
      if hit.Some? { assert IsPlaceOf(disk, text, hit.value.doc, hit.value.start); }
    }
  }

  /** A walk over other numbers leaves the first entry with this one alone. */
  lemma {:induction false} WalkSpares(disk: Disk, dir: Dir, scan: Scan, nums: seq<int>, n: int)
    requires Fits(disk, scan) && Has(scan.items, n) && forall k :: 0 <= k < |nums| ==> nums[k] != n
    ensures Walk(disk, dir, scan, nums).items[First(scan.items, n)] == scan.items[First(scan.items, n)]
  {
    if nums != [] {
      var butLast, num := nums[..|nums| - 1], nums[|nums| - 1];
      WalkSpares(disk, dir, scan, butLast, n);
      WalkKeepsNums(disk, dir, scan, butLast);
      SameNumsSameFirst(scan.items, Walk(disk, dir, scan, butLast).items);
      hide Walk;
      VisitSpares(disk, dir, Walk(disk, dir, scan, butLast), num, n);
    }
  }

  lemma VisitSpares(disk: Disk, dir: Dir, scan: Scan, num: int, n: int)
    requires Fits(disk, scan) && Has(scan.items, n) && num != n
    ensures Visit(disk, dir, scan, num).items[First(scan.items, n)] == scan.items[First(scan.items, n)]
  {
  }

  lemma {:induction false} WalkLocates(disk: Disk, dir: Dir, scan: Scan, nums: seq<int>, n: int, k: nat)
    requires Fits(disk, scan) && Has(scan.items, n) && scan.items[First(scan.items, n)].entry.status.None?
    requires Ascending(nums) && k < |nums| && nums[k] == n
    ensures var i := First(scan.items, n);
      var r := Walk(disk, dir, scan, nums).items;
      r[i].Item? && Located(disk, dir, n, scan.items[i].entry, r[i].entry)
  {
    var butLast, num := nums[..|nums| - 1], nums[|nums| - 1];
    var mid := Walk(disk, dir, scan, butLast);
    WalkKeepsNums(disk, dir, scan, butLast);
    SameNumsSameFirst(scan.items, mid.items);
    hide Visit, Walk, Located;
    WalkStep(disk, dir, scan, nums);
    if k == |nums| - 1 {
      WalkSpares(disk, dir, scan, butLast, n);
      VisitLocates(disk, dir, mid, n);
    } else {
      WalkLocates(disk, dir, scan, butLast, n, k);
      VisitSpares(disk, dir, mid, num, n);
    }
  }

  /** Every entry without a status is located by a backfill, whatever else is in the ledger and
      wherever the cursors stand when its turn comes. */
  lemma AnchoringIsSound(disk: Disk, dir: Dir, p: Project, n: int)
    requires Has(Opened(dir, p), n) && Opened(dir, p)[First(Opened(dir, p), n)].entry.status.None?
    ensures var items, q := Opened(dir, p), Backfilled(disk, dir, p).items;
      var i := First(items, n);
      Has(q, n) && First(q, n) == i && i < |q| && Located(disk, dir, n, items[i].entry, q[i].entry)
  {
    var items := Opened(dir, p);
    var zero := Scan(items, seq(|disk.sources|, _ => 0), None, None);
    assert Pending(items) by { assert PendingAt(items, First(items, n)); }
    NumbersExact(items);
    var nums := Numbers(items);
    assert n in nums;
    var k :| 0 <= k < |nums| && nums[k] == n;
    hide Opened, Pending, Walk, Visit, Located, Numbers, Has, First;
    WalkLocates(disk, dir, zero, nums, n, k);
    WalkKeepsNums(disk, dir, zero, nums);
    SameNumsSameFirst(items, Walk(disk, dir, zero, nums).items);
  }

  /** Backfilling adds numbers for exactly the episode files without an entry. */
  lemma BackfillNumbers(disk: Disk, dir: Dir, p: Project, n: int)
    ensures Has(Backfilled(disk, dir, p).items, n) <==> Has(p.items, n) || (n >= 0 && n in dir.episodes)
    ensures Has(Opened(dir, p), n) <==> Has(p.items, n) || (n >= 0 && n in dir.episodes)
  {
    var fileNums := SortedNums(dir.episodes.Keys);
    var added := AddOrphans(p.items, fileNums);
    SortedNumsExact(dir.episodes.Keys);
    AddOrphansCovers(p.items, fileNums);
    SortIfPossibleKeepsFirst(added, n);
    ScannedAllSettled(disk, dir, Opened(dir, p));
    SameNumsSameFirst(Opened(dir, p), Scanned(disk, dir, Opened(dir, p)).items);
  }

  /** A file without an entry gets one that is still to be located, with no title and the usual path
      of its script. */
  lemma NewcomerIsPending(dir: Dir, p: Project, n: nat)
    requires n in dir.episodes && !Has(p.items, n)
    ensures Has(Opened(dir, p), n)
    ensures Opened(dir, p)[First(Opened(dir, p), n)] == Item(Entry(Int(n), "", "", Some(Canonical(n)), NoRange, None))
  {
    var fileNums := SortedNums(dir.episodes.Keys);
    var added := AddOrphans(p.items, fileNums);
    SortedNumsExact(dir.episodes.Keys);
    AddOrphansCovers(p.items, fileNums);
    AddedIsBlank(p.items, fileNums, n);
    hide SortedNums, AddOrphans;
    SortIfPossibleKeepsFirst(added, n);
  }

  lemma {:induction false} AddedIsBlank(items: seq<Item>, fileNums: seq<nat>, n: nat)
    requires !Has(items, n) && n in fileNums
    ensures Has(AddOrphans(items, fileNums), n)
    ensures AddOrphans(items, fileNums)[First(AddOrphans(items, fileNums), n)] ==
      Item(Entry(Int(n), "", "", Some(Canonical(n)), NoRange, None))
  {
    var butLast, num := fileNums[..|fileNums| - 1], fileNums[|fileNums| - 1];
    assert fileNums == butLast + [num];
    var before := AddOrphans(items, butLast);
    AddOrphansNumber(items, butLast, n);
    HasAppend(before, Orphan(num), n);
    if n in butLast {
      AddedIsBlank(items, butLast, n);
    } else {
      assert AddOrphans(items, fileNums) == before + [Orphan(num)];
    }
  }

  lemma FirstIsBeyond(items: seq<Item>, added: seq<Item>, n: int)
    requires |items| <= |added| && items == added[..|items|] && !Has(items, n) && Has(added, n)
    ensures First(added, n) >= |items|
  {
    forall i | 0 <= i < |items|
      ensures NumOf(added[i]) != Some(n)
    {
      assert items[i] == added[i];
    }
  }
}
