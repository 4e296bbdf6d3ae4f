/** What the commits of `plan` and `replan` keep: every ledger they leave tiles the text before
    the place where planning goes on. */
module PlannerLaws {
  import opened Wrappers
  import opened Text
  import opened Boundaries
  import opened Ledger
  import opened Backfill
  import opened BackfillLaws
  import opened ReplanScope
  import opened Reconcile
  import opened Planner
  import opened PlanningCalls
  import opened Tiling

  // ---------------------------------------------------------------- tiled ledgers

  function Num(item: Item): int {
    if NumOf(item).Some? then NumOf(item).value else 0
  }

  /** The anchored stretches, in ledger order. */
  function Spans(items: seq<Item>): seq<Span> {
    if items == [] then []
    else
      Spans(items[..|items| - 1])
      + if HasSpan(items[|items| - 1]) then [SpanOf(items[|items| - 1])] else []
  }

  /** A positive number and a status; a range exactly when it is not unanchored. */
  predicate GoodItem(item: Item) {
    && NumOf(item).Some? && Num(item) > 0
    && item.entry.status.Some?
    && if item.entry.status == Some(Unanchored) then item.entry.range == NoRange else HasSpan(item)
  }

  ghost predicate Rising(items: seq<Item>) {
    forall i, j :: 0 <= i < j < |items| ==> Num(items[i]) < Num(items[j])
  }

  ghost predicate GoodItems(items: seq<Item>) {
    (forall i :: 0 <= i < |items| ==> GoodItem(items[i])) && Rising(items)
  }

  ghost predicate LeftOverFindable(disk: Disk, dir: Dir) {
    dir.remaining.Some? && dir.remaining.value != "" && OccursSomewhere(disk.sources, dir.remaining.value)
  }

  /** Each episode file, by whatever name, belongs to an entry. */
  ghost predicate FilesListed(dir: Dir, items: seq<Item>) {
    forall n: nat :: n in dir.episodes ==> Has(items, n)
  }

  /** Every number that has files but no place in the ledger has one file only. */
  ghost predicate DropsOnlySingles(dir: Dir, items: seq<Item>) {
    forall n: nat :: n in dir.episodes && !Has(items, n) ==> CopyCount(dir.episodes[n]) <= 1
  }

  /** The same, read off before a replan from `from` into `count` episodes. */
  ghost predicate ShrinksCleanly(dir: Dir, from: int, count: nat) {
    forall n: nat :: n in dir.episodes && n >= from + count ==> CopyCount(dir.episodes[n]) <= 1
  }

  /** Nothing for a backfill to do. */
  ghost predicate Tidy(disk: Disk, dir: Dir, p: Project) {
    && GoodItems(p.items) && FilesListed(dir, p.items)
    && (p.cursor == Null ==> Spans(p.items) == [] && !LeftOverFindable(disk, dir))
  }

  /** The effective start is a place in a source; the anchored stretches lie before it in the
      order of their numbers, and no character before it that matters is left out. */
  ghost predicate TiledTo(disk: Disk, items: seq<Item>, start: Place) {
    && Known(disk.sources, start.file) && 0 <= start.offset <= Length(disk.sources, start.file)
    && Ordered(disk.sources, Spans(items), 0, At(disk.sources, start.file, start.offset))
    && CoveredUpTo(disk.sources, Spans(items), At(disk.sources, start.file, start.offset))
  }

  function StartOf(disk: Disk, p: Project): Option<Place> {
    EffectiveStart(disk.sources, p.items, p.cursor)
  }

  ghost predicate Tiled(disk: Disk, dir: Dir, p: Project) {
    && Tidy(disk, dir, p)
    && StartOf(disk, p).Some? && TiledTo(disk, p.items, StartOf(disk, p).value)
  }

  /** A new project with some source text is tiled. */
  lemma NewProjectIsTiled(disk: Disk, chars: nat, max: nat)
    requires disk.sources != []
    ensures Tiled(disk, Dir(map[], None), Project([], Null, chars, max))
  {
  }

  /** Every character of the text before the effective start that matters lies in exactly one
      episode's range. */
  lemma ExactlyOneEpisode(disk: Disk, dir: Dir, p: Project, d: nat, o: nat)
    requires Tiled(disk, dir, p) && Solid(disk.sources, d, o)
    requires var s := StartOf(disk, p).value; Base(disk.sources, d) + o < At(disk.sources, s.file, s.offset)
    ensures exists i: nat :: OnlySpanAt(Spans(p.items), i, disk.sources[d].rel, o)
  {
    var spans, s := Spans(p.items), StartOf(disk, p).value;
    var hi := At(disk.sources, s.file, s.offset);
    hide Spans, Tidy, StartOf, At;
    var i :| 0 <= i < |spans| && Holds(spans[i], disk.sources[d].rel, o);
    forall j | 0 <= j < |spans| && Holds(spans[j], disk.sources[d].rel, o)
      ensures j == i
    {
      OrderedDisjoint(disk.sources, spans, 0, hi, i, j, disk.sources[d].rel, o);
    }
    assert OnlySpanAt(spans, i, disk.sources[d].rel, o);
  }

  ghost predicate OnlySpanAt(spans: seq<Span>, i: nat, file: string, o: int) {
    && i < |spans| && Holds(spans[i], file, o)
    && forall j :: 0 <= j < |spans| && Holds(spans[j], file, o) ==> j == i
  }

  // ---------------------------------------------------------------- spans of ledgers

  lemma {:induction false} SpansConcat(a: seq<Item>, b: seq<Item>)
    ensures Spans(a + b) == Spans(a) + Spans(b)
  {
    if b == [] {
      assert a + b == a;
    } else {
      SpansConcat(a, b[..|b| - 1]);
      assert (a + b)[..|a + b| - 1] == a + b[..|b| - 1];
    }
  }

  lemma {:induction false} SpansOfAnchored(items: seq<Item>)
    requires forall i :: 0 <= i < |items| ==> HasSpan(items[i])
    ensures Spans(items) == SpansOf(items)
  {
    if items != [] { SpansOfAnchored(items[..|items| - 1]); }
  }

  lemma SpansOfNew(pieces: seq<Piece>, first: int, past: seq<Item>)
    ensures Spans(NewEntries(pieces, first, past)) == PieceSpans(pieces)
  {
    var items := NewEntries(pieces, first, past);
    SpansOfAnchored(items);
    assert forall i :: 0 <= i < |items| ==> SpanOf(items[i]) == pieces[i].span;
    assert SpansOf(items) == PieceSpans(pieces);
  }

  /** In a good ledger the last anchored end is the end of the last stretch. */
  lemma {:induction false} LastAnchoredIsLastSpan(items: seq<Item>)
    requires GoodItems(items)
    ensures Spans(items) == [] <==> LastAnchored(items).None?
    ensures Spans(items) != [] ==>
      var s, a := Spans(items)[|Spans(items)| - 1], LastAnchored(items).value;
      a.file == s.file && a.end == s.end
  {
    if items != [] {
      var butLast, last := items[..|items| - 1], items[|items| - 1];
      GoodParts(items, |items| - 1);
      GoodPoints(last);
      LastIsGreater(items);
      hide GoodItems, GoodItem, Points, HasSpan, Num;
      LastAnchoredIsLastSpan(butLast);
    }
  }

  lemma GoodPoints(item: Item)
    requires GoodItem(item)
    ensures Points(item) <==> HasSpan(item)
    ensures HasSpan(item) ==> AnchoredAt(item) == Anchored(Num(item), SpanOf(item).file, SpanOf(item).end)
  {
  }

  lemma LastIsGreater(items: seq<Item>)
    requires GoodItems(items) && items != []
    ensures var before := LastAnchored(items[..|items| - 1]);
      before.Some? ==> before.value.num < Num(items[|items| - 1])
  {
    var butLast := items[..|items| - 1];
    LastAnchoredExact(butLast);
    if LastAnchored(butLast).Some? {
      var i: nat :| IsLastAnchored(butLast, i) && LastAnchored(butLast).value == AnchoredAt(butLast[i]);
      assert Num(items[i]) < Num(items[|items| - 1]);
    }
  }

  // ---------------------------------------------------------------- nothing to backfill

  lemma GoodIsSorted(items: seq<Item>)
    requires GoodItems(items)
    ensures AllReadable(items) && SortIfPossible(items) == items
  {
    assert forall i :: 0 <= i < |items| ==> GoodItem(items[i]);
    assert forall i, j :: 0 <= i < j < |items| ==> Num(items[i]) < Num(items[j]);
    assert Sorted(items);
    SortOfSorted(items);
  }

  lemma NothingPends(items: seq<Item>)
    requires GoodItems(items)
    ensures !Pending(items) && forall n :: Settled(items, n)
  {
  }

  lemma NothingPoints(items: seq<Item>, n: int)
    requires GoodItems(items) && Spans(items) == []
    ensures !PointsAtEnd(items, n)
  {
    LastAnchoredIsLastSpan(items);
    LastAnchoredExact(items);
  }

  lemma NoCursorFound(disk: Disk, dir: Dir, items: seq<Item>)
    requires GoodItems(items) && Spans(items) == [] && !LeftOverFindable(disk, dir)
    ensures var scan := Scanned(disk, dir, items);
      scan.items == items && DeriveCursor(disk, dir, scan) == Null
  {
    var scan := Scan(items, seq(|disk.sources|, _ => 0), None, None);
    var nums := Numbers(items);
    NothingPends(items);
    NumbersExact(items);
    hide Walk, Visit, Settled, PointsAtEnd;
    WalkOfSettled(disk, dir, scan, nums);
    WalkEnd(disk, dir, scan, nums);
    forall n { NothingPoints(items, n); }
    if dir.remaining.Some? && dir.remaining.value != "" {
      var done := Scanned(disk, dir, items);
      FindInSourcesExact(disk.sources, done.cursors, done.lastDoc, dir.remaining.value);
    }
  }

  /** A tidy ledger is its own backfill. */
  lemma BackfillIsIdentity(disk: Disk, dir: Dir, p: Project)
    requires Tidy(disk, dir, p)
    ensures Backfilled(disk, dir, p) == p
  {
    var fileNums := SortedNums(dir.episodes.Keys);
    SortedNumsExact(dir.episodes.Keys);
    hide SortedNums, GoodItems, Spans, Scanned;
    forall n: nat | n in fileNums
      ensures Has(p.items, n)
    {
    }
    NoOrphans(p.items, fileNums);
    GoodIsSorted(p.items);
    NothingPends(p.items);
    if p.cursor == Null { NoCursorFound(disk, dir, p.items); }
  }

  // ---------------------------------------------------------------- the files after a commit

  /** After a commit every file left belongs to the ledger exactly when no number with several
      files was dropped; no left-over text remains. */
  lemma ReconciledIsListed(disk: Disk, clean: string -> string, items: seq<Item>, dir: Dir)
    requires AllSliceable(disk, items)
    ensures FilesListed(ReconciledDir(disk, clean, items, dir), items) <==> DropsOnlySingles(dir, items)
    ensures ReconciledDir(disk, clean, items, dir).remaining == None
  {
    hide ReconciledDir, Has, CopyCount;
    forall n: nat { ReconcileLeaves(disk, clean, items, dir, n); }
    ReconcileLeaves(disk, clean, items, dir, 0);
  }

  lemma GoodIsSliceable(disk: Disk, items: seq<Item>, hi: int)
    requires GoodItems(items) && Ordered(disk.sources, Spans(items), 0, hi)
    ensures AllSliceable(disk, items)
  {
    forall i | 0 <= i < |items| && Owned(items[i])
      ensures Sliceable(disk, items[i].entry.range)
    {
      assert GoodItem(items[i]);
      SpanListed(items, i);
    }
  }

  lemma {:induction false} SpanListed(items: seq<Item>, i: nat)
    requires i < |items| && HasSpan(items[i])
    ensures exists k :: 0 <= k < |Spans(items)| && Spans(items)[k] == SpanOf(items[i])
  {
    var spans := Spans(items);
    if i == |items| - 1 {
      assert spans[|spans| - 1] == SpanOf(items[i]);
    } else {
      SpanListed(items[..|items| - 1], i);
      var before := Spans(items[..|items| - 1]);
      var k :| 0 <= k < |before| && before[k] == SpanOf(items[i]);
      assert spans[k] == before[k];
    }
  }

  /** Putting a good ledger in place succeeds; it leaves it tidy exactly when no number with
      several files is dropped. */
  lemma ReplacedIsTidy(disk: Disk, dir: Dir, clean: string -> string, p: Project, hi: int, exhausted: bool)
    requires GoodItems(p.items) && Ordered(disk.sources, Spans(p.items), 0, hi) && p.cursor != Null
    ensures var r := Replaced(disk, dir, clean, p, exhausted);
      && r.Ok? && r.value.project == p && r.value.exhausted == exhausted
      && (Tidy(disk, r.value.dir, p) <==> DropsOnlySingles(dir, p.items))
  {
    GoodIsSliceable(disk, p.items, hi);
    ReconciledIsListed(disk, clean, p.items, dir);
    hide ReconciledDir, Spans, GoodItems;
  }

  // ---------------------------------------------------------------- planning

  /** From the effective start to where the window opens there are only blanks; when the sources
      count as used up, nothing but blanks is left. */
  lemma OpeningSkipsBlanks(disk: Disk, ref: Place)
    requires DistinctRels(disk.sources)
    requires Known(disk.sources, ref.file) && 0 <= ref.offset <= Length(disk.sources, ref.file)
    ensures Open(disk, ref).Ok?
    ensures var from := At(disk.sources, ref.file, ref.offset);
      match Open(disk, ref).value
      case Exhausted =>
        forall d: nat, o: nat :: Solid(disk.sources, d, o) ==> Base(disk.sources, d) + o < from
      case Opening(_, file, start, text) =>
        && Known(disk.sources, file) && 0 <= start < |text| == Length(disk.sources, file)
        && text == disk.sources[IndexOf(disk.sources, file).value].text
        && from <= At(disk.sources, file, start)
        && forall d: nat, o: nat ::
             Solid(disk.sources, d, o) && Base(disk.sources, d) + o < At(disk.sources, file, start) ==>
               Base(disk.sources, d) + o < from
  {
    var sources := disk.sources;
    var d0 := IndexOf(sources, ref.file).value;
    var text0 := sources[d0].text;
    assert PySlice(text0, ref.offset, |text0|) == text0[ref.offset..];
    var blankHere := Blank(text0[ref.offset..]);
    var next := SkipBlank(sources, d0 + 1);
    if blankHere && next.Some? {
      IndexOfDistinct(sources, next.value);
      BaseGrows(sources, d0, next.value);
    }
    forall d: nat, o: nat | Solid(sources, d, o) && Base(sources, d) + o >= Base(sources, d0) + ref.offset
      ensures !blankHere || (next.Some? && Base(sources, next.value) <= Base(sources, d) + o)
    {
      PastTheStart(sources, d0, ref.offset, next, d, o);
    }
  }

  lemma PastTheStart(sources: seq<Doc>, d0: nat, offset: nat, next: Option<nat>, d: nat, o: nat)
    requires d0 < |sources| && offset <= |sources[d0].text| && Solid(sources, d, o)
    requires Base(sources, d) + o >= Base(sources, d0) + offset
    requires next == SkipBlank(sources, d0 + 1)
    ensures Blank(sources[d0].text[offset..]) ==> next.Some? && Base(sources, next.value) <= Base(sources, d) + o
  {
    hide Base, IsSpace;
    if d < d0 {
      BaseGrows(sources, d, d0);
    } else if d == d0 {
      assert sources[d0].text[offset..][o - offset] == sources[d0].text[o];
    } else {
      assert !Blank(sources[d].text);
      if next.Some? && next.value < d { BaseGrows(sources, next.value, d); }
    }
  }

  lemma GoodIsNoNull(item: Item)
    requires GoodItem(item)
    ensures item != Foreign(true)
  {
  }

  lemma {:induction false} NoNullsInGood(items: seq<Item>)
    requires forall i :: 0 <= i < |items| ==> GoodItem(items[i])
    ensures NonNull(items) == items
  {
    hide GoodItem;
    if items != [] {
      GoodIsNoNull(items[|items| - 1]);
      NoNullsInGood(items[..|items| - 1]);
      assert items == items[..|items| - 1] + [items[|items| - 1]];
    }
  }

  lemma NewItemIsGood(piece: Piece, num: int, prior: Option<Entry>)
    requires num > 0
    ensures var item := NewEntry(piece, num, prior); GoodItem(item) && Num(item) == num
    ensures HasSpan(NewEntry(piece, num, prior)) && SpanOf(NewEntry(piece, num, prior)) == piece.span
  {
  }

  ghost predicate Numbered(items: seq<Item>, first: int) {
    forall i :: 0 <= i < |items| ==> GoodItem(items[i]) && Num(items[i]) == first + i
  }

  lemma NewAreNumbered(pieces: seq<Piece>, first: int, past: seq<Item>)
    requires first > 0
    ensures Numbered(NewEntries(pieces, first, past), first)
  {
    hide NewEntries, OldEntry, NewEntry, GoodItem, Num;
    var added := NewEntries(pieces, first, past);
    forall i | 0 <= i < |added|
      ensures GoodItem(added[i]) && Num(added[i]) == first + i
    {
      NewItemIsGood(pieces[i], first + i, OldEntry(past, first + i));
    }
  }

  lemma NumberedOnTop(items: seq<Item>, added: seq<Item>, first: int)
    requires GoodItems(items) && Numbered(added, first)
    requires forall i :: 0 <= i < |items| ==> Num(items[i]) < first
    ensures GoodItems(items + added)
  {
    hide GoodItem, Num;
    var all := items + added;
    assert forall i :: 0 <= i < |items| ==> all[i] == items[i];
    assert forall i :: |items| <= i < |all| ==> all[i] == added[i - |items|];
  }

  /** New entries on top of a good ledger with smaller numbers make a good ledger. */
  lemma ExtendedIsGood(items: seq<Item>, pieces: seq<Piece>, first: int, past: seq<Item>)
    requires GoodItems(items) && first > 0
    requires forall i :: 0 <= i < |items| ==> Num(items[i]) < first
    ensures var all := items + NewEntries(pieces, first, past);
      GoodItems(all) && SortIfPossible(all) == all && Spans(all) == Spans(items) + PieceSpans(pieces)
  {
    hide GoodItems, NewEntries, Num, Spans, SortIfPossible, PieceSpans, Numbered;
    NewAreNumbered(pieces, first, past);
    NumberedOnTop(items, NewEntries(pieces, first, past), first);
    GoodIsSorted(items + NewEntries(pieces, first, past));
    SpansConcat(items, NewEntries(pieces, first, past));
    SpansOfNew(pieces, first, past);
  }

  /** The batch as stretches: from the window's opening to the end of the batch. */
  lemma BatchTiles(disk: Disk, ref: Place, chars: nat, t: PlanTicket)
    requires DistinctRels(disk.sources) && Known(disk.sources, ref.file)
    requires 0 <= ref.offset <= Length(disk.sources, ref.file) && Drafted(disk, ref, chars, t)
    ensures |t.drafts| == |t.ends| && t.ends != [] && Known(disk.sources, t.file)
    ensures 0 <= t.start < EndOfBatch(t) <= Length(disk.sources, t.file)
    ensures var spans := PieceSpans(CutUp(t.file, t.start, t.drafts, t.ends));
      && spans != [] && spans[|spans| - 1].file == t.file && spans[|spans| - 1].end == EndOfBatch(t)
      && Ordered(disk.sources, spans, At(disk.sources, t.file, t.start), At(disk.sources, t.file, EndOfBatch(t)))
      && forall f, o :: Covers(spans, f, o) <==> f == t.file && t.start <= o < EndOfBatch(t)
  {
    hide Open, Acceptable, AreEnds, CutUp, At, Ordered, Covers;
    OpeningSkipsBlanks(disk, ref);
    var window := PySlice(t.text, t.start, t.start + chars);
    AcceptedEndsGood(window, t.drafts, false, t.final, t.ends);
    CutTiles(disk.sources, t.file, t.start, t.drafts, t.ends, |window|);
  }

  /** Coverage up to the start, plus the batch, is coverage up to the end of the batch. */
  lemma CoverageGrows(disk: Disk, spans: seq<Span>, added: seq<Span>, ref: Place, t: PlanTicket, end: int)
    requires DistinctRels(disk.sources) && Known(disk.sources, ref.file)
    requires 0 <= ref.offset <= Length(disk.sources, ref.file)
    requires Open(disk, ref) == Ok(Opening(ref, t.file, t.start, t.text))
    requires Known(disk.sources, t.file) && t.start <= end <= Length(disk.sources, t.file)
    requires CoveredUpTo(disk.sources, spans, At(disk.sources, ref.file, ref.offset))
    requires forall f, o :: Covers(added, f, o) <==> f == t.file && t.start <= o < end
    ensures CoveredUpTo(disk.sources, spans + added, At(disk.sources, t.file, end))
  {
    var sources := disk.sources;
    hide Open, Covers;
    OpeningSkipsBlanks(disk, ref);
    forall d: nat, o: nat | Solid(sources, d, o) && Base(sources, d) + o < At(sources, t.file, end)
      ensures Covers(spans + added, sources[d].rel, o)
    {
      CoversConcat(spans, added, sources[d].rel, o);
      if Base(sources, d) + o >= At(sources, t.file, t.start) {
        SameSource(sources, t.file, t.start, end, d, o);
      }
    }
  }

  lemma SameSource(sources: seq<Doc>, file: string, start: nat, end: nat, d: nat, o: nat)
    requires Known(sources, file) && start <= end <= Length(sources, file) && Solid(sources, d, o)
    requires At(sources, file, start) <= Base(sources, d) + o < At(sources, file, end)
    ensures sources[d].rel == file && start <= o < end
  {
    hide IndexOf, Base, IsSpace;
    var d0 := IndexOf(sources, file).value;
    if d < d0 { BaseGrows(sources, d, d0); }
    if d0 < d { BaseGrows(sources, d0, d); }
  }

  /** After a batch the effective start is the cursor the batch left. */
  lemma StartAfterBatch(sources: seq<Doc>, items: seq<Item>, file: string, end: int)
    requires GoodItems(items) && Spans(items) != [] && end >= 0
    requires Spans(items)[|Spans(items)| - 1].file == file && Spans(items)[|Spans(items)| - 1].end == end
    ensures EffectiveStart(sources, items, RawCursor(Some(file), Some(end))) == Some(Place(file, end))
  {
    LastAnchoredIsLastSpan(items);
  }

  /** A planning commit made from where the ledger now stands goes through: it appends the batch
      with the next numbers, moves the effective start to the end of the batch, strictly further
      on, and leaves a tiled ledger.  Any other planning commit is rejected. */
  lemma PlanKeepsTiled(disk: Disk, dir: Dir, clean: string -> string, p: Project, t: PlanTicket, chars: nat)
    requires DistinctRels(disk.sources) && Tiled(disk, dir, p)
    requires |t.drafts| == |t.ends| && t.ends != []
    ensures StartOf(disk, p).value != t.ref ==> PlanCommit(disk, dir, clean, p, t) == Err(Conflict)
    ensures StartOf(disk, p).value == t.ref && Drafted(disk, t.ref, chars, t) ==>
      var r := PlanCommit(disk, dir, clean, p, t);
      && r.Ok? && Tiled(disk, r.value.dir, r.value.project)
      && r.value.project.items == p.items
           + NewEntries(CutUp(t.file, t.start, t.drafts, t.ends), GreatestNum(p.items) + 1, [])
      && r.value.project.cursor == RawCursor(Some(t.file), Some(EndOfBatch(t)))
      && StartOf(disk, r.value.project) == Some(Place(t.file, EndOfBatch(t)))
      && Known(disk.sources, t.file)
      && At(disk.sources, t.ref.file, t.ref.offset) < At(disk.sources, t.file, EndOfBatch(t))
  {
    TiledParts(disk, dir, p);
    BackfillIsIdentity(disk, dir, p);
    hide Backfilled, Tidy, TiledTo, CutUp, NewEntries, Drafted, Replaced, Enlarged, EffectiveStart, GoodItems,
      FilesListed, Spans, Ordered, At, UsedUp, DropsOnlySingles;
    if StartOf(disk, p).value == t.ref && Drafted(disk, t.ref, chars, t) {
      BatchAppended(disk, dir, p, t, chars);
      var after := p.(items := Enlarged(p.items, t), cursor := RawCursor(Some(t.file), Some(EndOfBatch(t))));
      ReplacedIsTidy(disk, dir, clean, after, At(disk.sources, t.file, EndOfBatch(t)), UsedUp(disk, t));
    }
  }

  lemma MoreItemsDropNothing(dir: Dir, items: seq<Item>, all: seq<Item>, added: seq<Item>)
    requires FilesListed(dir, items) && all == items + added
    ensures DropsOnlySingles(dir, all)
  {
    forall n: nat | n in dir.episodes
      ensures Has(all, n)
    {
      assert all[First(items, n)] == items[First(items, n)];
    }
  }

  lemma TiledParts(disk: Disk, dir: Dir, p: Project)
    requires Tiled(disk, dir, p)
    ensures GoodItems(p.items) && FilesListed(dir, p.items) && Tidy(disk, dir, p)
    ensures StartOf(disk, p).Some? && TiledTo(disk, p.items, StartOf(disk, p).value)
    ensures StartOf(disk, p) == EffectiveStart(disk.sources, p.items, p.cursor)
    ensures var s := StartOf(disk, p).value;
      Known(disk.sources, s.file) && 0 <= s.offset <= Length(disk.sources, s.file)
  {
  }

  lemma BatchAppended(disk: Disk, dir: Dir, p: Project, t: PlanTicket, chars: nat)
    requires DistinctRels(disk.sources) && Tiled(disk, dir, p)
    requires StartOf(disk, p).value == t.ref && Drafted(disk, t.ref, chars, t)
    ensures |t.drafts| == |t.ends| && t.ends != []
    ensures DropsOnlySingles(dir, Enlarged(p.items, t))
    ensures var items := Enlarged(p.items, t);
      && items == p.items + NewEntries(CutUp(t.file, t.start, t.drafts, t.ends), GreatestNum(p.items) + 1, [])
      && GoodItems(items) && Known(disk.sources, t.file)
      && TiledTo(disk, items, Place(t.file, EndOfBatch(t)))
      && Ordered(disk.sources, Spans(items), 0, At(disk.sources, t.file, EndOfBatch(t)))
      && EffectiveStart(disk.sources, items, RawCursor(Some(t.file), Some(EndOfBatch(t))))
           == Some(Place(t.file, EndOfBatch(t)))
      && At(disk.sources, t.ref.file, t.ref.offset) < At(disk.sources, t.file, EndOfBatch(t))
  {
    hide CutUp, NewEntries, Spans, GreatestNum, At, GoodItems, Drafted, EffectiveStart, TiledTo, NonNull,
      SortIfPossible, Known, Tiled, StartOf, PieceSpans, FilesListed, DropsOnlySingles;
    TiledParts(disk, dir, p);
    BatchTiles(disk, t.ref, chars, t);
    var pieces := CutUp(t.file, t.start, t.drafts, t.ends);
    NumsBelow(p.items);
    ExtendedIsGood(p.items, pieces, GreatestNum(p.items) + 1, []);
    MoreItemsDropNothing(dir, p.items, Enlarged(p.items, t), NewEntries(pieces, GreatestNum(p.items) + 1, []));
    BatchTiled(disk, p.items, Enlarged(p.items, t), t, chars);
    StartAfterBatch(disk.sources, Enlarged(p.items, t), t.file, EndOfBatch(t));
    TiledIsOrdered(disk, Enlarged(p.items, t), Place(t.file, EndOfBatch(t)));
  }

  lemma TiledIsOrdered(disk: Disk, items: seq<Item>, start: Place)
    requires TiledTo(disk, items, start)
    ensures Known(disk.sources, start.file)
    ensures Ordered(disk.sources, Spans(items), 0, At(disk.sources, start.file, start.offset))
  {
  }

  lemma BatchTiled(disk: Disk, items: seq<Item>, all: seq<Item>, t: PlanTicket, chars: nat)
    requires DistinctRels(disk.sources) && TiledTo(disk, items, t.ref) && Drafted(disk, t.ref, chars, t)
    requires |t.drafts| == |t.ends| && t.ends != []
    requires Spans(all) == Spans(items) + PieceSpans(CutUp(t.file, t.start, t.drafts, t.ends))
    ensures Known(disk.sources, t.file) && TiledTo(disk, all, Place(t.file, EndOfBatch(t)))
    ensures At(disk.sources, t.ref.file, t.ref.offset) < At(disk.sources, t.file, EndOfBatch(t))
  {
    var sources, end := disk.sources, EndOfBatch(t);
    var added := PieceSpans(CutUp(t.file, t.start, t.drafts, t.ends));
    BatchTiles(disk, t.ref, chars, t);
    OpeningSkipsBlanks(disk, t.ref);
    assert At(sources, t.file, t.start) < At(sources, t.file, end);
    hide CutUp, Open, Spans, Ordered, CoveredUpTo, PieceSpans, At, EndOfBatch;
    OrderedWiden(sources, added, At(sources, t.file, t.start), At(sources, t.ref.file, t.ref.offset),
                 At(sources, t.file, end));
    StartsAtZero(sources, t.ref);
    OrderedAppend(sources, Spans(items), added, 0, At(sources, t.ref.file, t.ref.offset), At(sources, t.file, end));
    CoverageGrows(disk, Spans(items), added, t.ref, t, end);
  }

  lemma StartsAtZero(sources: seq<Doc>, place: Place)
    requires Known(sources, place.file) && place.offset >= 0
    ensures At(sources, place.file, place.offset) >= 0
  {
  }

  /** When a batch reports the sources as used up, the next call finds nothing to plan. */
  lemma UsedUpIsExhausted(disk: Disk, t: PlanTicket, chars: nat)
    requires DistinctRels(disk.sources) && Known(disk.sources, t.ref.file)
    requires 0 <= t.ref.offset <= Length(disk.sources, t.ref.file) && Drafted(disk, t.ref, chars, t)
    ensures t.ends != []
    ensures UsedUp(disk, t) ==> Open(disk, Place(t.file, EndOfBatch(t))) == Ok(Exhausted)
  {
    OpeningSkipsBlanks(disk, t.ref);
    hide Acceptable, AreEnds;
    BatchTiles(disk, t.ref, chars, t);
  }

  lemma NumsBelow(items: seq<Item>)
    requires GoodItems(items)
    ensures NonNull(items) == items
    ensures forall i :: 0 <= i < |items| ==> Num(items[i]) < GreatestNum(items) + 1
  {
    NoNullsInGood(items);
  }

  lemma OrderedWiden(sources: seq<Doc>, spans: seq<Span>, lo: int, lower: int, hi: int)
    requires Ordered(sources, spans, lo, hi) && lower <= lo
    ensures Ordered(sources, spans, lower, hi)
  {
  }

  // ---------------------------------------------------------------- replanning

  /** How many leading entries have a number below `from`. */
  function Below(items: seq<Item>, from: int): (k: nat)
    ensures k <= |items|
    ensures forall i :: k <= i < |items| ==> Num(items[i]) >= from
    ensures k == 0 || Num(items[k - 1]) < from
  {
    if items == [] then 0
    else if Num(items[|items| - 1]) < from then |items|
    else Below(items[..|items| - 1], from)
  }

  lemma {:induction false} FromPrefix(items: seq<Item>, from: int, k: nat)
    requires k <= |items| && forall i :: 0 <= i < |items| ==> GoodItem(items[i])
    requires forall i :: 0 <= i < |items| ==> (i < k <==> Num(items[i]) < from)
    ensures From(items, from) == items[k..]
  {
    if items != [] {
      var butLast, last := items[..|items| - 1], items[|items| - 1];
      assert GoodItem(last) && items == butLast + [last];
      FromPrefix(butLast, from, if k == |items| then k - 1 else k);
    }
  }

  lemma {:induction false} KeptPrefix(items: seq<Item>, gone: seq<Item>, k: nat)
    requires k <= |items|
    requires forall i :: 0 <= i < |items| ==>
      (i >= k <==> NumOf(items[i]).Some? && Has(gone, NumOf(items[i]).value))
    ensures Kept(items, gone) == items[..k]
  {
    hide Has, NumOf;
    if items != [] {
      var butLast, last := items[..|items| - 1], items[|items| - 1];
      assert items == butLast + [last];
      KeptPrefix(butLast, gone, if k == |items| then k - 1 else k);
    }
  }

  /** In a good ledger the affected entries are a suffix, and the others stay. */
  lemma AffectedIsSuffix(items: seq<Item>, from: int)
    requires GoodItems(items)
    ensures var k := Below(items, from);
      && Affected(items, from) == items[k..] && Kept(items, items[k..]) == items[..k]
      && GoodItems(items[..k]) && GoodItems(items[k..])
      && forall i :: 0 <= i < k ==> Num(items[i]) < from
  {
    var k := Below(items, from);
    BelowExact(items, from);
    GoodParts(items, k);
    hide GoodItems, Below, Num, GoodItem, From;
    FromPrefix(items, from, k);
    GoodIsSorted(items[k..]);
    forall i | 0 <= i < |items|
      ensures i >= k <==> NumOf(items[i]).Some? && Has(items[k..], NumOf(items[i]).value)
    {
      SuffixHas(items, k, i);
    }
    hide Has, NumOf;
    KeptPrefix(items, items[k..], k);
  }

  lemma BelowExact(items: seq<Item>, from: int)
    requires GoodItems(items)
    ensures forall i :: 0 <= i < |items| ==> (i < Below(items, from) <==> Num(items[i]) < from)
  {
    var k := Below(items, from);
    forall i | 0 <= i < k
      ensures Num(items[i]) < from
    {
      if i < k - 1 { assert Num(items[i]) < Num(items[k - 1]); }
    }
  }

  lemma GoodParts(items: seq<Item>, k: nat)
    requires GoodItems(items) && k <= |items|
    ensures GoodItems(items[..k]) && GoodItems(items[k..])
    ensures forall i :: 0 <= i < |items| ==> GoodItem(items[i])
  {
    hide GoodItem, Num;
  }

  lemma SuffixHas(items: seq<Item>, k: nat, i: nat)
    requires GoodItems(items) && k <= |items| && i < |items|
    ensures i >= k <==> NumOf(items[i]).Some? && Has(items[k..], NumOf(items[i]).value)
  {
    assert GoodItem(items[i]);
    if i >= k {
      assert items[k..][i - k] == items[i];
    } else {
      forall j | 0 <= j < |items[k..]|
        ensures NumOf(items[k..][j]) != NumOf(items[i])
      {
        assert Num(items[i]) < Num(items[k + j]);
      }
    }
  }

  /** The ranges a snapshot saw say all about the stretches to re-cut. */
  lemma SameRangesSameSpans(a: seq<Item>, b: seq<Item>)
    requires forall i :: 0 <= i < |a| ==> HasSpan(a[i])
    requires forall i :: 0 <= i < |b| ==> HasSpan(b[i])
    requires RangesOf(a) == RangesOf(b)
    ensures SpansOf(a) == SpansOf(b)
  {
    assert |a| == |RangesOf(a)| == |b|;
    forall i | 0 <= i < |a|
      ensures SpanOf(a[i]) == SpanOf(b[i])
    {
      assert RangesOf(a)[i] == RangesOf(b)[i];
    }
  }

  lemma ReplannableSpans(items: seq<Item>, from: int)
    requires Replannable(items, from)
    ensures forall i :: 0 <= i < |Affected(items, from)| ==> HasSpan(Affected(items, from)[i])
    ensures Affected(items, from) != [] && NumOf(Affected(items, from)[0]) == Some(from)
    ensures GapFree(SpansOf(Affected(items, from)))
  {
  }

  /** The new layout covers the same characters between the same bounds, ends at the same place,
      and leaves the effective start alone. */
  lemma RelaidTiles(disk: Disk, items: seq<Item>, k: nat, pieces: seq<Piece>, all: seq<Item>, start: Place)
    requires k < |items| && TiledTo(disk, items, start)
    requires forall i :: k <= i < |items| ==> HasSpan(items[i])
    requires GapFree(Spans(items[k..])) && Recuts(disk, Runs(Spans(items[k..])), pieces)
    requires Spans(all) == Spans(items[..k]) + PieceSpans(pieces)
    ensures TiledTo(disk, all, start) && Spans(all) != []
    ensures forall f, o :: Covers(Spans(all), f, o) <==> Covers(Spans(items), f, o)
    ensures Spans(items) != []
    ensures var was, now := Spans(items)[|Spans(items)| - 1], Spans(all)[|Spans(all)| - 1];
      was.file == now.file && was.end == now.end
  {
    hide Spans, GapFree, Runs, Recuts, At, Covers, CoveredUpTo, Ordered, HasSpan, Known, Length, SpansOf;
    var hi := At(disk.sources, start.file, start.offset);
    var head, tail := Spans(items[..k]), Spans(items[k..]);
    assert items == items[..k] + items[k..];
    SpansConcat(items[..k], items[k..]);
    SpansOfAnchored(items[k..]);
    RecutTail(disk, head, tail, pieces, hi);
    SameCoverage(disk.sources, Spans(items), Spans(all), hi);
    assert PieceSpans(pieces)[|pieces| - 1] == pieces[|pieces| - 1].span;
  }

  lemma RecutTail(disk: Disk, head: seq<Span>, tail: seq<Span>, pieces: seq<Piece>, hi: int)
    requires tail != [] && Ordered(disk.sources, head + tail, 0, hi)
    requires GapFree(tail) && Recuts(disk, Runs(tail), pieces)
    ensures Ordered(disk.sources, head + PieceSpans(pieces), 0, hi)
    ensures forall f, o :: Covers(head + PieceSpans(pieces), f, o) <==> Covers(head + tail, f, o)
    ensures EndsLike(pieces, tail[|tail| - 1])
  {
    FirstIsValid(disk.sources, head, tail, hi);
    var mid := Lo(disk.sources, tail[0]);
    hide GapFree, Runs, Recuts, Covers, Ordered, PieceSpans, ValidSpan, Lo, Hi;
    OrderedSplit(disk.sources, head, tail, 0, mid, hi);
    RunsOrdered(disk.sources, tail, mid, hi);
    RunsAreUnions(tail);
    RunsFiles(tail);
    RecutsTile(disk, Runs(tail), pieces, mid, hi);
    OrderedAppend(disk.sources, head, PieceSpans(pieces), 0, mid, hi);
    forall f, o
      ensures Covers(head + PieceSpans(pieces), f, o) <==> Covers(head + tail, f, o)
    {
      CoversConcat(head, PieceSpans(pieces), f, o);
      CoversConcat(head, tail, f, o);
    }
  }

  lemma FirstIsValid(sources: seq<Doc>, head: seq<Span>, tail: seq<Span>, hi: int)
    requires tail != [] && Ordered(sources, head + tail, 0, hi)
    ensures ValidSpan(sources, tail[0]) && 0 <= Lo(sources, tail[0]) <= hi
  {
    assert (head + tail)[|head|] == tail[0];
  }

  lemma SameCoverage(sources: seq<Doc>, a: seq<Span>, b: seq<Span>, bound: int)
    requires CoveredUpTo(sources, a, bound)
    requires forall f, o :: Covers(a, f, o) <==> Covers(b, f, o)
    ensures CoveredUpTo(sources, b, bound)
  {
  }

  lemma SameStart(sources: seq<Doc>, a: seq<Item>, b: seq<Item>, cursor: RawCursor)
    requires GoodItems(a) && GoodItems(b) && Spans(a) != [] && Spans(b) != []
    requires var s, t := Spans(a)[|Spans(a)| - 1], Spans(b)[|Spans(b)| - 1]; s.file == t.file && s.end == t.end
    ensures EffectiveStart(sources, a, cursor) == EffectiveStart(sources, b, cursor)
  {
    hide Spans;
    LastAnchoredIsLastSpan(a);
    LastAnchoredIsLastSpan(b);
  }

  /** What a replan may rely on: the ledger still shows the ranges it saw, and nothing beyond what
      it saw has been consumed. */
  ghost predicate StillAsSeen(items: seq<Item>, t: ReplanTicket) {
    && AllReadable(t.affected)
    && Replannable(items, t.from)
    && RangesOf(Affected(items, t.from)) == RangesOf(t.affected)
    && ConsumedNums(Affected(items, t.from)) <= ConsumedNums(t.affected)
  }

  lemma RelaidLedger(disk: Disk, items: seq<Item>, t: ReplanTicket, seen: seq<Item>, start: Place)
    requires GoodItems(items) && TiledTo(disk, items, start)
    requires Redrafted(disk, seen, t) && StillAsSeen(items, t)
    ensures var k := Below(items, t.from);
      var all := items[..k] + NewEntries(t.pieces, t.from, items[k..]);
      && Relaid(items, Affected(items, t.from), t) == all
      && GoodItems(all) && Spans(all) == Spans(items[..k]) + PieceSpans(t.pieces)
    ensures var k := Below(items, t.from);
      && k < |items| && Num(items[k]) == t.from
      && GapFree(Spans(items[k..])) && Recuts(disk, Runs(Spans(items[k..])), t.pieces)
      && forall i :: k <= i < |items| ==> HasSpan(items[i])
  {
    hide GoodItem, GoodItems, Spans, Recuts, NewEntries, Runs, GapFree, Affected, Replannable, Kept, TiledTo, RangesOf,
      ConsumedNums, Below, HasSpan, SpansOf, SortIfPossible, AllReadable, Num, PieceSpans;
    var k := Below(items, t.from);
    AffectedIsSuffix(items, t.from);
    ReplannableSpans(items, t.from);
    ReplannableSpans(seen, t.from);
    SameRangesSameSpans(items[k..], t.affected);
    SpansOfAnchored(items[k..]);
    FirstIsFrom(items, k, t.from);
    ExtendedIsGood(items[..k], t.pieces, t.from, items[k..]);
  }

  lemma FirstIsFrom(items: seq<Item>, k: nat, from: int)
    requires GoodItems(items) && k <= |items| && items[k..] != [] && NumOf(items[k..][0]) == Some(from)
    requires forall i :: 0 <= i < |items[k..]| ==> HasSpan(items[k..][i])
    ensures k < |items| && Num(items[k]) == from > 0
    ensures forall i :: k <= i < |items| ==> HasSpan(items[i])
  {
    assert GoodItem(items[k]);
    forall i | k <= i < |items|
      ensures HasSpan(items[i])
    {
      assert items[k..][i - k] == items[i];
    }
  }

  /** A replan commits exactly when the ledger is still as it saw it.  Then it leaves the entries
      below alone, numbers the new ones consecutively, covers the same characters and keeps the
      cursor and the effective start.  The ledger it leaves is tiled, with nothing for a backfill
      to add, exactly when no number it drops has several files. */
  lemma ReplanKeepsTiled(disk: Disk, dir: Dir, clean: string -> string, p: Project, t: ReplanTicket, seen: seq<Item>)
    requires Tiled(disk, dir, p) && Redrafted(disk, seen, t)
    ensures ReplanCommit(disk, dir, clean, p, t).Ok? <==> StillAsSeen(p.items, t)
    ensures StillAsSeen(p.items, t) ==>
      var c, k := ReplanCommit(disk, dir, clean, p, t).value, Below(p.items, t.from);
      && k < |p.items| && Num(p.items[k]) == t.from
      && c.project.items == p.items[..k] + NewEntries(t.pieces, t.from, p.items[k..])
      && c.project.cursor == p.cursor
      && StartOf(disk, c.project) == StartOf(disk, p)
      && TiledTo(disk, c.project.items, StartOf(disk, p).value)
      && (forall f, o :: Covers(Spans(c.project.items), f, o) <==> Covers(Spans(p.items), f, o))
      && (Tiled(disk, c.dir, c.project) <==> ShrinksCleanly(dir, t.from, |t.pieces|))
  {
    hide Backfilled, EffectiveStart, GoodItems, FilesListed, Spans, TiledTo, NewEntries, PieceSpans, Covers,
      Recuts, Runs, GapFree, Affected, Replannable, Relaid, Replaced, RangesOf, ConsumedNums, Redrafted, Tidy,
      At, Ordered, AllReadable, Below, Num, HasSpan, DropsOnlySingles, ShrinksCleanly;
    RedraftedIsReadable(disk, seen, t);
    TiledParts(disk, dir, p);
    BackfillIsIdentity(disk, dir, p);
    if StillAsSeen(p.items, t) {
      var start, k := StartOf(disk, p).value, Below(p.items, t.from);
      var all := p.items[..k] + NewEntries(t.pieces, t.from, p.items[k..]);
      RelaidLedger(disk, p.items, t, seen, start);
      RelaidTiles(disk, p.items, k, t.pieces, all, start);
      SameStart(disk.sources, p.items, all, p.cursor);
      TiledIsOrdered(disk, all, start);
      CursorSet(disk, dir, p);
      ReplacedIsTidy(disk, dir, clean, p.(items := all), At(disk.sources, start.file, start.offset), false);
      DroppedNumbers(dir, p.items, t.from, t.pieces);
    }
  }

  /** What a replan drops are the numbers from the end of the new layout on. */
  lemma DroppedNumbers(dir: Dir, items: seq<Item>, from: int, pieces: seq<Piece>)
    requires GoodItems(items) && FilesListed(dir, items)
    ensures var k := Below(items, from);
      DropsOnlySingles(dir, items[..k] + NewEntries(pieces, from, items[k..])) <==> ShrinksCleanly(dir, from, |pieces|)
  {
    hide Has, NewEntries, Below, CopyCount, GoodItems;
    var k := Below(items, from);
    forall n: nat | n in dir.episodes
      ensures Has(items[..k] + NewEntries(pieces, from, items[k..]), n) <==> n < from + |pieces|
    {
      RelaidHas(items, from, pieces, n);
    }
  }

  lemma RelaidHas(items: seq<Item>, from: int, pieces: seq<Piece>, n: int)
    requires GoodItems(items) && Has(items, n)
    ensures var k := Below(items, from);
      Has(items[..k] + NewEntries(pieces, from, items[k..]), n) <==> n < from + |pieces|
  {
    var k := Below(items, from);
    var added := NewEntries(pieces, from, items[k..]);
    hide Below, GoodItems, NewEntries, Num, NumOf;
    BelowExact(items, from);
    NumIsValue(items);
    NewNumbers(pieces, from, items[k..]);
    KeptOrAdded(items, k, added, from, n);
  }

  lemma NewNumbers(pieces: seq<Piece>, from: int, past: seq<Item>)
    ensures var added := NewEntries(pieces, from, past);
      |added| == |pieces| && forall i :: 0 <= i < |added| ==> NumOf(added[i]) == Some(from + i)
  {
    hide OldEntry, NewEntry, NumOf;
    forall i | 0 <= i < |pieces|
      ensures NumOf(NewEntries(pieces, from, past)[i]) == Some(from + i)
    {
      NewEntryIs(pieces[i], from + i, OldEntry(past, from + i));
    }
  }

  lemma KeptOrAdded(items: seq<Item>, k: nat, added: seq<Item>, from: int, n: int)
    requires k <= |items| && Has(items, n)
    requires forall i :: 0 <= i < |items| ==> NumOf(items[i]) == Some(Num(items[i]))
    requires forall i :: 0 <= i < |items| ==> (i < k <==> Num(items[i]) < from)
    requires forall i :: 0 <= i < |added| ==> NumOf(added[i]) == Some(from + i)
    ensures Has(items[..k] + added, n) <==> n < from + |added|
  {
    hide Num, NumOf;
    var all := items[..k] + added;
    assert forall i :: 0 <= i < k ==> all[i] == items[i];
    assert forall i :: 0 <= i < |added| ==> all[k + i] == added[i];
    var j := First(items, n);
    if n < from {
      assert NumOf(all[j]) == Some(n);
    } else if n < from + |added| {
      assert NumOf(all[k + (n - from)]) == Some(n);
    }
  }

  lemma NumIsValue(items: seq<Item>)
    requires GoodItems(items)
    ensures forall i :: 0 <= i < |items| ==> NumOf(items[i]) == Some(Num(items[i]))
  {
    forall i | 0 <= i < |items|
      ensures NumOf(items[i]) == Some(Num(items[i]))
    {
      assert GoodItem(items[i]);
    }
  }

  lemma RedraftedIsReadable(disk: Disk, seen: seq<Item>, t: ReplanTicket)
    requires Redrafted(disk, seen, t)
    ensures AllReadable(t.affected)
  {
  }

  lemma CursorSet(disk: Disk, dir: Dir, p: Project)
    requires Tidy(disk, dir, p) && Spans(p.items) != []
    ensures p.cursor != Null
  {
  }

  /** A number of the new layout is stale exactly when it was consumed or stale before. */
  lemma StaleExactly(items: seq<Item>, from: int, pieces: seq<Piece>, i: nat)
    requires GoodItems(items) && i < |pieces|
    ensures var k := Below(items, from);
      var item := NewEntries(pieces, from, items[k..])[i];
      && NumOf(item) == Some(from + i)
      && item.entry.status == Some(if WasUsed(items, from + i) then Stale else Planned)
  {
    hide Below, OldEntry, NewEntries, GoodItems, Num, NumOf, NewScript, WasUsed;
    var k := Below(items, from);
    NewEntryIs(pieces[i], from + i, OldEntry(items[k..], from + i));
    UsedBefore(items, from, from + i);
  }

  lemma NewEntryIs(piece: Piece, num: int, prior: Option<Entry>)
    ensures NumOf(NewEntry(piece, num, prior)) == Some(num)
    ensures NewEntry(piece, num, prior).entry.status == Some(NewStatus(prior))
  {
  }

  lemma UsedBefore(items: seq<Item>, from: int, num: int)
    requires GoodItems(items) && num >= from
    ensures NewStatus(OldEntry(items[Below(items, from)..], num)) == if WasUsed(items, num) then Stale else Planned
  {
    var k := Below(items, from);
    hide GoodItems, Below, OldEntry;
    BelowExact(items, from);
    OldEntryExact(items[k..], num);
    if WasUsed(items, num) {
      var j :| 0 <= j < |items| && IsUsed(items[j], num);
      assert j >= k && items[k..][j - k] == items[j];
      GoodParts(items, k);
      OldEntryIs(items[k..], num, j - k);
    } else if OldEntry(items[k..], num).Some? {
      var j :| 0 <= j < |items[k..]| && NumOf(items[k..][j]) == Some(num)
        && items[k..][j].entry == OldEntry(items[k..], num).value;
      assert items[k..][j] == items[k + j];
    }
  }

  predicate WasUsed(items: seq<Item>, num: int) {
    exists j :: 0 <= j < |items| && IsUsed(items[j], num)
  }

  predicate IsUsed(item: Item, num: int) {
    NumOf(item) == Some(num) && item.entry.status in {Some(Consumed), Some(Stale)}
  }

  lemma {:induction false} OldEntryExact(past: seq<Item>, num: int)
    ensures OldEntry(past, num).Some? ==>
      exists j :: 0 <= j < |past| && NumOf(past[j]) == Some(num) && past[j].entry == OldEntry(past, num).value
  {
    if past != [] && NumOf(past[|past| - 1]) != Some(num) {
      OldEntryExact(past[..|past| - 1], num);
    }
  }

  lemma {:induction false} OldEntryIs(past: seq<Item>, num: int, j: nat)
    requires GoodItems(past) && j < |past| && NumOf(past[j]) == Some(num)
    ensures OldEntry(past, num) == Some(past[j].entry)
  {
    var n := |past| - 1;
    if j < n {
      assert Num(past[j]) < Num(past[n]);
      GoodParts(past, n);
      OldEntryIs(past[..n], num, j);
    }
  }

  // ---------------------------------------------------------------- the planned text

  lemma TiledIsValid(disk: Disk, items: seq<Item>, start: Place)
    requires TiledTo(disk, items, start)
    ensures AllValid(disk.sources, Spans(items))
  {
  }

  /** A replan changes where episodes begin and end, never the text they make up together in
      number order. */
  lemma ReplanKeepsText(disk: Disk, dir: Dir, clean: string -> string, p: Project, t: ReplanTicket, seen: seq<Item>)
    requires Tiled(disk, dir, p) && Redrafted(disk, seen, t) && StillAsSeen(p.items, t)
    ensures AllValid(disk.sources, Spans(p.items))
    ensures var r := ReplanCommit(disk, dir, clean, p, t);
      && r.Ok? && AllValid(disk.sources, Spans(r.value.project.items))
      && TextOf(disk.sources, Spans(r.value.project.items)) == TextOf(disk.sources, Spans(p.items))
  {
    hide Tiled, StartOf, TiledTo, ReplanCommit, Redrafted, StillAsSeen, Below, Spans, TextOf, AllValid,
      NewEntries, GapFree, Runs, Recuts, PieceSpans, GoodItems, HasSpan, Num, Relaid, Affected, Known, Covers,
      Tidy, FilesListed, EffectiveStart, ShrinksCleanly;
    TiledParts(disk, dir, p);
    RedraftedIsReadable(disk, seen, t);
    ReplanKeepsTiled(disk, dir, clean, p, t, seen);
    RelaidLedger(disk, p.items, t, seen, StartOf(disk, p).value);
    TiledIsValid(disk, p.items, StartOf(disk, p).value);
    var k := Below(p.items, t.from);
    RelaidText(disk, p.items, k, t.pieces, ReplanCommit(disk, dir, clean, p, t).value.project.items);
  }

  lemma RelaidText(disk: Disk, items: seq<Item>, k: nat, pieces: seq<Piece>, all: seq<Item>)
    requires k <= |items| && AllValid(disk.sources, Spans(items))
    requires GapFree(Spans(items[k..])) && Recuts(disk, Runs(Spans(items[k..])), pieces)
    requires Spans(all) == Spans(items[..k]) + PieceSpans(pieces)
    ensures AllValid(disk.sources, Spans(all)) && TextOf(disk.sources, Spans(all)) == TextOf(disk.sources, Spans(items))
  {
    hide Spans, GapFree, Runs, Recuts, PieceSpans, TextOf, ValidSpan;
    var head, tail := Spans(items[..k]), Spans(items[k..]);
    assert items == items[..k] + items[k..];
    SpansConcat(items[..k], items[k..]);
    ValidParts(disk.sources, head, tail);
    RunsText(disk.sources, tail);
    RecutsText(disk, Runs(tail), pieces);
    TextConcat(disk.sources, head, tail);
    TextConcat(disk.sources, head, PieceSpans(pieces));
  }

  lemma ValidParts(sources: seq<Doc>, a: seq<Span>, b: seq<Span>)
    requires AllValid(sources, a + b)
    ensures AllValid(sources, a) && AllValid(sources, b)
  {
    hide ValidSpan;
    var all := a + b;
    assert forall i :: 0 <= i < |a| ==> all[i] == a[i];
    assert forall i :: 0 <= i < |b| ==> all[|a| + i] == b[i];
  }

  /** A planning call appends the text from the window's opening to the end of its batch. */
  lemma PlanAddsText(disk: Disk, dir: Dir, clean: string -> string, p: Project, t: PlanTicket, chars: nat)
    requires DistinctRels(disk.sources) && Tiled(disk, dir, p)
    requires StartOf(disk, p).value == t.ref && Drafted(disk, t.ref, chars, t)
    ensures |t.drafts| == |t.ends| && t.ends != []
    ensures AllValid(disk.sources, Spans(p.items))
    ensures var r, batch := PlanCommit(disk, dir, clean, p, t), Span(t.file, t.start, EndOfBatch(t));
      && r.Ok? && AllValid(disk.sources, Spans(r.value.project.items)) && ValidSpan(disk.sources, batch)
      && TextOf(disk.sources, Spans(r.value.project.items))
           == TextOf(disk.sources, Spans(p.items)) + TextOfSpan(disk.sources, batch)
  {
    hide Tiled, StartOf, TiledTo, PlanCommit, Drafted, Spans, TextOf, AllValid, ValidSpan, TextOfSpan,
      GreatestNum, CutUp, NewEntries, Enlarged, PieceSpans, EndOfBatch, DistinctRels, Known;
    TiledParts(disk, dir, p);
    BatchTiles(disk, t.ref, chars, t);
    PlanKeepsTiled(disk, dir, clean, p, t, chars);
    BatchText(disk, t.ref, chars, t);
    TiledIsValid(disk, p.items, t.ref);
    var pieces := CutUp(t.file, t.start, t.drafts, t.ends);
    SpansConcat(p.items, NewEntries(pieces, GreatestNum(p.items) + 1, []));
    SpansOfNew(pieces, GreatestNum(p.items) + 1, []);
    TextConcat(disk.sources, Spans(p.items), PieceSpans(pieces));
  }

  lemma BatchText(disk: Disk, ref: Place, chars: nat, t: PlanTicket)
    requires DistinctRels(disk.sources) && Known(disk.sources, ref.file)
    requires 0 <= ref.offset <= Length(disk.sources, ref.file) && Drafted(disk, ref, chars, t)
    ensures |t.drafts| == |t.ends| && t.ends != []
    ensures var spans, s := PieceSpans(CutUp(t.file, t.start, t.drafts, t.ends)), Span(t.file, t.start, EndOfBatch(t));
      && AllValid(disk.sources, spans) && ValidSpan(disk.sources, s)
      && TextOf(disk.sources, spans) == TextOfSpan(disk.sources, s)
  {
    hide Open, Acceptable, AreEnds, CutUp, TextOf, TextOfSpan;
    OpeningSkipsBlanks(disk, ref);
    var window := PySlice(t.text, t.start, t.start + chars);
    AcceptedEndsGood(window, t.drafts, false, t.final, t.ends);
    CutText(disk.sources, t.file, t.start, t.drafts, t.ends, |window|);
  }
}
