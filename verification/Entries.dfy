/** What the commits of `plan` and `replan` write into the ledger, field by field. */
module Entries {
  import opened Wrappers
  import opened Text
  import opened Boundaries
  import opened Ledger
  import opened Backfill
  import opened BackfillLaws
  import opened ReplanScope
  import opened Reconcile
  import opened Planner
  import opened PlanningCalls
  import opened Tiling
  import opened PlannerLaws

  // ---------------------------------------------------------------- the pieces

  lemma {:induction false} PieceAt(file: string, base: int, drafts: seq<Draft>, ends: seq<nat>, k: nat)
    requires |drafts| == |ends| && k < |ends|
    ensures CutUp(file, base, drafts, ends)[k].draft == drafts[k]
    ensures CutUp(file, base, drafts, ends)[k].span ==
      Span(file, if k == 0 then base else base + ends[k - 1], base + ends[k])
  {
    var n := |ends| - 1;
    if k < n { PieceAt(file, base, drafts[..n], ends[..n], k); }
  }

  lemma NoPast(n: int)
    ensures OldEntry([], n) == None
  {
  }

  /** A new entry that replaces none. */
  lemma FreshEntry(piece: Piece, n: int)
    ensures NewEntry(piece, n, None) ==
      Item(Entry(Int(n), piece.draft.title, piece.draft.hook, Some(Canonical(n)),
                 RawRange(Some(piece.span.file), Some(piece.span.start), Some(piece.span.end)), Some(Planned)))
  {
  }

  /** The number after the last one of a ledger in order. */
  function NextNumber(items: seq<Item>): int {
    if items == [] then 1 else Num(items[|items| - 1]) + 1
  }

  lemma AtMostLast(items: seq<Item>, i: nat)
    requires GoodItems(items) && i < |items|
    ensures Num(items[i]) <= Num(items[|items| - 1]) && Num(items[i]) > 0
    ensures NumOf(items[i]) == Some(Num(items[i]))
  {
    assert GoodItem(items[i]);
  }

  lemma GreatestIsLast(items: seq<Item>)
    requires GoodItems(items)
    ensures GreatestNum(items) + 1 == NextNumber(items)
  {
    hide GoodItems, Num, NumOf;
    if items != [] {
      AtMostLast(items, |items| - 1);
      AtMostLast(items, if Has(items, GreatestNum(items)) then First(items, GreatestNum(items)) else 0);
    }
  }

  // ---------------------------------------------------------------- planning

  /** What the entry of the `k`-th draft of a batch should be. */
  function DraftedEntry(t: PlanTicket, first: int, k: nat): Item
    requires k < |t.drafts| == |t.ends|
  {
    var start := if k == 0 then t.start else t.start + t.ends[k - 1];
    Item(Entry(Int(first + k), t.drafts[k].title, t.drafts[k].hook, Some(Canonical(first + k)),
               RawRange(Some(t.file), Some(start), Some(t.start + t.ends[k])), Some(Planned)))
  }

  lemma NewEntryOfDraft(t: PlanTicket, first: int, k: nat)
    requires k < |t.drafts| == |t.ends|
    ensures NewEntries(CutUp(t.file, t.start, t.drafts, t.ends), first, [])[k] == DraftedEntry(t, first, k)
  {
    PieceAt(t.file, t.start, t.drafts, t.ends, k);
    NoPast(first + k);
    FreshEntry(CutUp(t.file, t.start, t.drafts, t.ends)[k], first + k);
    hide CutUp, NewEntry, OldEntry;
  }

  lemma DraftHasEnds(disk: Disk, t: PlanTicket, chars: nat)
    requires Drafted(disk, t.ref, chars, t)
    ensures |t.drafts| == |t.ends| && t.ends != [] && t.final == (t.start + chars >= |t.text|)
  {
  }

  /** A planning commit that goes through leaves the entries that were there as they were and adds one
      for each draft: the title and hook of that draft, the next number in turn, the script path
      of that number, the range from the previous end to its own, planned. */
  lemma PlanWrites(disk: Disk, dir: Dir, clean: string -> string, p: Project, t: PlanTicket, chars: nat)
    requires DistinctRels(disk.sources) && Tiled(disk, dir, p)
    requires StartOf(disk, p).value == t.ref && Drafted(disk, t.ref, chars, t)
    ensures |t.drafts| == |t.ends| && t.ends != []
    ensures PlanCommit(disk, dir, clean, p, t).Ok?
    ensures var items := PlanCommit(disk, dir, clean, p, t).value.project.items;
      && |items| == |p.items| + |t.drafts| && items[..|p.items|] == p.items
      && forall k :: 0 <= k < |t.drafts| ==> items[|p.items| + k] == DraftedEntry(t, NextNumber(p.items), k)
  {
    hide Tiled, Drafted, PlanCommit, GoodItems, NewEntries, CutUp, StartOf, DraftedEntry, NextNumber, GreatestNum,
      DistinctRels, Tidy, FilesListed, EffectiveStart, TiledTo, Known, Length, At;
    TiledParts(disk, dir, p);
    GreatestIsLast(p.items);
    DraftHasEnds(disk, t, chars);
    PlanKeepsTiled(disk, dir, clean, p, t, chars);
    forall k | 0 <= k < |t.drafts|
      ensures PlanCommit(disk, dir, clean, p, t).value.project.items[|p.items| + k]
        == DraftedEntry(t, NextNumber(p.items), k)
    {
      NewEntryOfDraft(t, NextNumber(p.items), k);
    }
  }

  lemma CommitReports(disk: Disk, dir: Dir, clean: string -> string, p: Project, t: PlanTicket)
    requires |t.drafts| == |t.ends| && t.ends != [] && Backfilled(disk, dir, p) == p
    ensures var r := PlanCommit(disk, dir, clean, p, t); r.Ok? ==> r.value.exhausted == UsedUp(disk, t)
  {
    hide Backfilled, Enlarged, UsedUp;
  }

  lemma UsedUpMeans(disk: Disk, t: PlanTicket)
    requires DistinctRels(disk.sources) && t.ends != [] && Known(disk.sources, t.file)
    requires 0 <= EndOfBatch(t) <= |t.text|
    ensures UsedUp(disk, t) <==>
      && t.final && (forall o :: EndOfBatch(t) <= o < |t.text| ==> IsSpace(t.text[o]))
      && disk.sources[|disk.sources| - 1].rel == t.file
  {
    hide IsSpace;
    var e := EndOfBatch(t);
    assert PySlice(t.text, e, |t.text|) == t.text[e..];
    assert forall o :: e <= o < |t.text| ==> t.text[o] == t.text[e..][o - e];
    IndexOfDistinct(disk.sources, |disk.sources| - 1);
  }

  /** When the commit of `plan` reports the sources as used up: the window was the last of its source,
      only blanks follow the batch there, and that source is the last one. */
  lemma ReportedUsedUp(disk: Disk, dir: Dir, clean: string -> string, p: Project, t: PlanTicket, chars: nat)
    requires DistinctRels(disk.sources) && Tiled(disk, dir, p)
    requires StartOf(disk, p).value == t.ref && Drafted(disk, t.ref, chars, t)
    ensures |t.drafts| == |t.ends| && t.ends != [] && 0 <= EndOfBatch(t) <= |t.text| && disk.sources != []
    ensures PlanCommit(disk, dir, clean, p, t).Ok?
    ensures PlanCommit(disk, dir, clean, p, t).value.exhausted <==>
      && t.start + chars >= |t.text|
      && (forall o :: EndOfBatch(t) <= o < |t.text| ==> IsSpace(t.text[o]))
      && disk.sources[|disk.sources| - 1].rel == t.file
  {
    hide Tiled, Drafted, PlanCommit, NewEntries, CutUp, StartOf, GreatestNum, DistinctRels, Tidy, EffectiveStart,
      TiledTo, At, Backfilled, UsedUp, IsSpace, Open, GoodItems, FilesListed;
    TiledParts(disk, dir, p);
    BackfillIsIdentity(disk, dir, p);
    DraftHasEnds(disk, t, chars);
    BatchTiles(disk, t.ref, chars, t);
    TicketText(disk, t, chars);
    PlanKeepsTiled(disk, dir, clean, p, t, chars);
    CommitReports(disk, dir, clean, p, t);
    UsedUpMeans(disk, t);
  }

  lemma TicketText(disk: Disk, t: PlanTicket, chars: nat)
    requires DistinctRels(disk.sources) && Drafted(disk, t.ref, chars, t)
    requires Known(disk.sources, t.ref.file) && 0 <= t.ref.offset <= Length(disk.sources, t.ref.file)
    ensures Known(disk.sources, t.file) && |t.text| == Length(disk.sources, t.file)
  {
    hide Acceptable, AreEnds, Open;
    OpeningSkipsBlanks(disk, t.ref);
  }

  // ---------------------------------------------------------------- replanning

  /** The entry with this number, if there is one. */
  function EntryOf(items: seq<Item>, n: int): Option<Entry> {
    if Has(items, n) then Some(items[First(items, n)].entry) else None
  }

  /** What the entry of the `k`-th piece of a new layout should be, given the ledger before. */
  function RecutEntry(t: ReplanTicket, before: seq<Item>, k: nat): Item
    requires k < |t.pieces|
  {
    var n, draft, span := t.from + k, t.pieces[k].draft, t.pieces[k].span;
    var past := EntryOf(before, n);
    var script :=
      if past.Some? && past.value.script.Some? && past.value.script != Some(Path("")) then past.value.script
      else Some(Canonical(n));
    var status := if past.Some? && past.value.status in {Some(Consumed), Some(Stale)} then Stale else Planned;
    Item(Entry(Int(n), draft.title, draft.hook, script,
               RawRange(Some(span.file), Some(span.start), Some(span.end)), Some(status)))
  }

  lemma {:induction false} NoOldEntry(past: seq<Item>, n: int)
    requires forall j :: 0 <= j < |past| ==> NumOf(past[j]) != Some(n)
    ensures OldEntry(past, n) == None
  {
    hide NumOf;
    if past != [] { NoOldEntry(past[..|past| - 1], n); }
  }

  lemma PastEntry(items: seq<Item>, from: int, n: int)
    requires GoodItems(items) && n >= from
    ensures OldEntry(items[Below(items, from)..], n) == EntryOf(items, n)
  {
    hide GoodItems, Below, Num, NumOf, OldEntry;
    var k := Below(items, from);
    BelowExact(items, from);
    GoodParts(items, k);
    NumIsValue(items);
    if Has(items, n) {
      var i := First(items, n);
      assert i >= k && items[k..][i - k] == items[i];
      OldEntryIs(items[k..], n, i - k);
    } else {
      assert forall j :: 0 <= j < |items[k..]| ==> items[k..][j] == items[k + j];
      NoOldEntry(items[k..], n);
    }
  }

  lemma NewEntryOfPiece(t: ReplanTicket, before: seq<Item>, k: nat)
    requires GoodItems(before) && k < |t.pieces|
    ensures NewEntries(t.pieces, t.from, before[Below(before, t.from)..])[k] == RecutEntry(t, before, k)
  {
    hide GoodItems, Below, OldEntry, EntryOf, NewEntry;
    PastEntry(before, t.from, t.from + k);
    EntryFrom(t, before, k, OldEntry(before[Below(before, t.from)..], t.from + k));
  }

  lemma EntryFrom(t: ReplanTicket, before: seq<Item>, k: nat, past: Option<Entry>)
    requires k < |t.pieces| && past == EntryOf(before, t.from + k)
    ensures NewEntry(t.pieces[k], t.from + k, past) == RecutEntry(t, before, k)
  {
    hide EntryOf;
  }

  /** A replan that goes through leaves the entries below as they were and has one for each piece: the
      title and hook of its draft, the numbers from there on in turn, the script path of the old
      entry of that number if it had one and otherwise that of the number, the range of the
      piece, stale if the old entry was consumed or stale and otherwise planned. */
  lemma ReplanWrites(disk: Disk, dir: Dir, clean: string -> string, p: Project, t: ReplanTicket, seen: seq<Item>)
    requires Tiled(disk, dir, p) && Redrafted(disk, seen, t) && StillAsSeen(p.items, t)
    ensures ReplanCommit(disk, dir, clean, p, t).Ok?
    ensures var items := ReplanCommit(disk, dir, clean, p, t).value.project.items;
      var b := |items| - |t.pieces|;
      && 0 <= b < |p.items| && items[..b] == p.items[..b]
      && (forall i :: 0 <= i < |p.items| ==> (i < b <==> Num(p.items[i]) < t.from))
      && forall k :: 0 <= k < |t.pieces| ==> items[b + k] == RecutEntry(t, p.items, k)
  {
    hide Tiled, Redrafted, StillAsSeen, ReplanCommit, GoodItems, NewEntries, StartOf, RecutEntry, Below, Num, TiledTo,
      Covers, Spans, FilesListed, Tidy, EffectiveStart, Known, Length, ShrinksCleanly, At;
    RedraftedIsReadable(disk, seen, t);
    TiledParts(disk, dir, p);
    BelowExact(p.items, t.from);
    ReplanKeepsTiled(disk, dir, clean, p, t, seen);
    var items, b := ReplanCommit(disk, dir, clean, p, t).value.project.items, Below(p.items, t.from);
    assert |items| - |t.pieces| == b;
    forall k | 0 <= k < |t.pieces|
      ensures items[b + k] == RecutEntry(t, p.items, k)
    {
      NewEntryOfPiece(t, p.items, k);
    }
  }

  // ---------------------------------------------------------------- when a replan is possible

  /** The entry's place, read off its fields. */
  ghost predicate LiesAt(item: Item, file: string, start: int, end: int) {
    item.Item? && item.entry.range == RawRange(Some(file), Some(start), Some(end))
  }

  /** Two consecutive entries leave nothing out between them within one file. */
  ghost predicate Abut(a: Item, b: Item) {
    forall file, start, mid, mid', end :: LiesAt(a, file, start, mid) && LiesAt(b, file, mid', end) ==> mid == mid'
  }

  lemma LiesAtSpan(item: Item)
    requires HasSpan(item)
    ensures LiesAt(item, SpanOf(item).file, SpanOf(item).start, SpanOf(item).end)
    ensures forall file, start, end :: LiesAt(item, file, start, end) ==> SpanOf(item) == Span(file, start, end)
  {
  }

  lemma AbutMeans(a: Item, b: Item)
    requires HasSpan(a) && HasSpan(b)
    ensures Abut(a, b) <==> (SpanOf(a).file == SpanOf(b).file ==> SpanOf(a).end == SpanOf(b).start)
  {
    LiesAtSpan(a);
    LiesAtSpan(b);
    hide LiesAt, HasSpan, SpanOf;
  }

  /** In ordered stretches none is empty, and a file that has been left does not come back. */
  lemma OrderedNeverReturns(sources: seq<Doc>, spans: seq<Span>, lo: int, hi: int)
    requires Ordered(sources, spans, lo, hi)
    ensures forall i :: 0 <= i < |spans| ==> spans[i].start < spans[i].end
    ensures forall i, j, k :: 0 <= i < j < k < |spans| && spans[i].file == spans[k].file ==>
      spans[j].file == spans[i].file
  {
    forall i, j, k | 0 <= i < j < k < |spans| && spans[i].file == spans[k].file
      ensures spans[j].file == spans[i].file
    {
      var a, b := IndexOf(sources, spans[i].file).value, IndexOf(sources, spans[j].file).value;
      if a < b { BaseGrows(sources, a, b); }
      if b < a { BaseGrows(sources, b, a); }
      assert Hi(sources, spans[i]) <= Lo(sources, spans[j]) && Hi(sources, spans[j]) <= Lo(sources, spans[k]);
      assert sources[a].rel == spans[i].file && sources[b].rel == spans[j].file;
    }
  }

  /** Within one file each stretch begins where the one before it ends. */
  ghost predicate Seamless(spans: seq<Span>) {
    forall i, j :: 0 <= i && j == i + 1 && j < |spans| && spans[i].file == spans[j].file ==>
      spans[i].end == spans[j].start
  }

  lemma GapFreeWhenOrdered(sources: seq<Doc>, spans: seq<Span>, lo: int, hi: int)
    requires Ordered(sources, spans, lo, hi)
    ensures GapFree(spans) <==> Seamless(spans)
  {
    OrderedNeverReturns(sources, spans, lo, hi);
    hide Ordered;
  }

  /** From this number on no entry leaves anything out before the next one. */
  ghost predicate AbuttingFrom(items: seq<Item>, from: int) {
    forall i, j :: 0 <= i && j == i + 1 && j < |items| && Num(items[i]) >= from ==> Abut(items[i], items[j])
  }

  ghost predicate AnchoredFrom(items: seq<Item>, from: int) {
    forall i :: 0 <= i < |items| && Num(items[i]) >= from ==>
      items[i].Item? && items[i].entry.status != Some(Unanchored)
  }

  /** On a tiled ledger a replan from a number is possible exactly when the ledger has the number, no
      entry from it on is unanchored, and none of them leaves out anything before the next one in
      its file. */
  lemma ReplannableWhen(disk: Disk, items: seq<Item>, start: Place, from: int)
    requires GoodItems(items) && TiledTo(disk, items, start)
    ensures Replannable(items, from) <==>
      && (exists i :: 0 <= i < |items| && NumOf(items[i]) == Some(from))
      && AnchoredFrom(items, from) && AbuttingFrom(items, from)
  {
    hide GoodItems, Num, NumOf, TiledTo, Affected, Below, GapFree, HasSpan, SpanOf, Abut, Spans, Ordered, GoodItem,
      SpansOf, AnchoredFrom, AbuttingFrom, Replannable, Seamless;
    var k := Below(items, from);
    var tail := items[k..];
    AffectedIsSuffix(items, from);
    StartsWith(items, from);
    AnchoredSuffix(items, from);
    if Replannable(items, from) { ReplannableIsAnchored(items, tail, from); }
    if AnchoredFrom(items, from) {
      SuffixOrdered(disk, items, start, k);
      GapFreeWhenOrdered(disk.sources, SpansOf(tail), 0, At(disk.sources, start.file, start.offset));
      AbuttingSuffix(items, from);
      SuffixReplannable(items, tail, from);
    }
  }

  /** The first affected entry has the number exactly when the ledger has it. */
  lemma StartsWith(items: seq<Item>, from: int)
    requires GoodItems(items)
    ensures var tail := items[Below(items, from)..];
      tail != [] && NumOf(tail[0]) == Some(from) <==> exists i :: 0 <= i < |items| && NumOf(items[i]) == Some(from)
  {
    BelowExact(items, from);
    NumIsValue(items);
    hide Below, NumOf, Num;
    if Has(items, from) { FirstOfTail(items, from, First(items, from)); }
  }

  lemma FirstOfTail(items: seq<Item>, from: int, i: nat)
    requires GoodItems(items) && i < |items| && NumOf(items[i]) == Some(from)
    ensures Below(items, from) == i
  {
    BelowExact(items, from);
    NumIsValue(items);
    var k := Below(items, from);
    hide Below, NumOf, Num, GoodItems;
    NumsRise(items, k, i);
  }

  lemma NumsRise(items: seq<Item>, i: nat, j: nat)
    requires GoodItems(items) && i <= j < |items|
    ensures i < j ==> Num(items[i]) < Num(items[j])
  {
  }

  lemma AnchoredSuffix(items: seq<Item>, from: int)
    requires GoodItems(items)
    ensures var tail := items[Below(items, from)..];
      AnchoredFrom(items, from) <==>
        forall i :: 0 <= i < |tail| ==> tail[i].Item? && tail[i].entry.status != Some(Unanchored) && HasSpan(tail[i])
  {
    hide GoodItems, Below, Num, HasSpan;
    BelowExact(items, from);
    var k := Below(items, from);
    var tail := items[k..];
    assert forall i :: k <= i < |items| ==> items[i] == tail[i - k];
    if AnchoredFrom(items, from) {
      forall i | 0 <= i < |tail|
        ensures tail[i].Item? && tail[i].entry.status != Some(Unanchored) && HasSpan(tail[i])
      {
        assert items[k + i] == tail[i];
        GoodHasSpan(items, k + i);
      }
    } else {
      var i :| 0 <= i < |items| && Num(items[i]) >= from
        && !(items[i].Item? && items[i].entry.status != Some(Unanchored));
      assert tail[i - k] == items[i];
    }
  }

  lemma GoodHasSpan(items: seq<Item>, i: nat)
    requires GoodItems(items) && i < |items|
    ensures items[i].Item? && (HasSpan(items[i]) <==> items[i].entry.status != Some(Unanchored))
  {
    assert GoodItem(items[i]);
  }

  lemma SuffixOrdered(disk: Disk, items: seq<Item>, start: Place, k: nat)
    requires TiledTo(disk, items, start) && k <= |items|
    requires forall i :: 0 <= i < |items[k..]| ==> HasSpan(items[k..][i])
    ensures Known(disk.sources, start.file)
    ensures Ordered(disk.sources, SpansOf(items[k..]), 0, At(disk.sources, start.file, start.offset))
  {
    hide HasSpan, SpanOf, Spans, SpansOf, CoveredUpTo;
    SpansOfAnchored(items[k..]);
    assert items == items[..k] + items[k..];
    SpansConcat(items[..k], items[k..]);
    var head, tail := Spans(items[..k]), Spans(items[k..]);
    assert forall i :: 0 <= i < |tail| ==> (head + tail)[|head| + i] == tail[i];
  }

  lemma AbuttingSuffix(items: seq<Item>, from: int)
    requires GoodItems(items)
    requires forall i :: 0 <= i < |items[Below(items, from)..]| ==> HasSpan(items[Below(items, from)..][i])
    ensures AbuttingFrom(items, from) <==> Seamless(SpansOf(items[Below(items, from)..]))
  {
    BelowExact(items, from);
    hide GoodItems, Below, Num, HasSpan, SpanOf, Abut, SpansOf;
    var k := Below(items, from);
    var tail := items[k..];
    var spans := SpansOf(tail);
    forall i, j | 0 <= i && j == i + 1 && j < |tail|
      ensures Abut(tail[i], tail[j]) <==> (spans[i].file == spans[j].file ==> spans[i].end == spans[j].start)
    {
      AbutMeans(tail[i], tail[j]);
    }
    assert forall i :: k <= i < |items| ==> items[i] == tail[i - k];
    if AbuttingFrom(items, from) {
      forall i, j | 0 <= i && j == i + 1 && j < |spans| && spans[i].file == spans[j].file
        ensures spans[i].end == spans[j].start
      {
        assert Abut(items[k + i], items[k + j]);
      }
    }
    if Seamless(spans) {
      forall i, j | 0 <= i && j == i + 1 && j < |items| && Num(items[i]) >= from
        ensures Abut(items[i], items[j])
      {
        assert Abut(tail[i - k], tail[j - k]);
      }
    }
  }

  lemma SuffixReplannable(items: seq<Item>, tail: seq<Item>, from: int)
    requires Affected(items, from) == tail
    requires forall i :: 0 <= i < |tail| ==>
      tail[i].Item? && tail[i].entry.status != Some(Unanchored) && HasSpan(tail[i])
    ensures Replannable(items, from) <==> tail != [] && NumOf(tail[0]) == Some(from) && GapFree(SpansOf(tail))
  {
    hide GapFree, SpansOf, HasSpan, NumOf, Affected;
  }

  lemma ReplannableIsAnchored(items: seq<Item>, tail: seq<Item>, from: int)
    requires Affected(items, from) == tail && Replannable(items, from)
    ensures forall i :: 0 <= i < |tail| ==>
      tail[i].Item? && tail[i].entry.status != Some(Unanchored) && HasSpan(tail[i])
  {
    hide GapFree, SpansOf, HasSpan, NumOf, Affected;
  }

  // ---------------------------------------------------------------- the files

  /** After a commit each anchored episode's plain file holds the cleaned text of its range, and the
      files of an unanchored one are as they were. */
  lemma CommittedFiles(disk: Disk, clean: string -> string, items: seq<Item>, dir: Dir, i: nat)
    requires GoodItems(items) && AllSliceable(disk, items) && i < |items|
    ensures var out, n := ReconciledDir(disk, clean, items, dir).episodes, Num(items[i]);
      && (items[i].entry.status == Some(Unanchored) ==> Get(out, n) == Get(dir.episodes, n))
      && (forall file, start, end :: LiesAt(items[i], file, start, end) ==>
            && Load(disk, file).Some? && 0 <= start <= end <= |Load(disk, file).value|
            && n in out && out[n].canonical == Some(clean(Load(disk, file).value[start..end])))
  {
    assert GoodItem(items[i]);
    NumIsValue(items);
    assert forall j :: 0 <= j < |items| && j != i ==> Num(items[j]) != Num(items[i]);
    assert Has(items, Num(items[i]));
    hide GoodItems, Num, NumOf;
    WriteAllExact(disk, clean, items, dir.episodes, Num(items[i]), i);
    if items[i].entry.status == Some(Unanchored) {
      assert OwnsNothing(items, Num(items[i]));
      ReconcileLeaves(disk, clean, items, dir, Num(items[i]));
    } else {
      assert IsLastOwner(items, Num(items[i]), i);
    }
  }

  // ---------------------------------------------------------------- on any ledger, however untidy

  lemma SortIfPossibleKeepsItems(items: seq<Item>)
    ensures multiset(SortIfPossible(items)) == multiset(items)
  {
    if AllReadable(items) { SortSorts(items); }
  }

  /** Only the entries with an affected number go. */
  lemma {:induction false} KeptKeepsTheRest(items: seq<Item>, affected: seq<Item>, x: Item)
    ensures multiset(Kept(items, affected))[x] ==
      if NumOf(x).Some? && Has(affected, NumOf(x).value) then 0 else multiset(items)[x]
  {
    if items != [] {
      var butLast, last := items[..|items| - 1], items[|items| - 1];
      assert items == butLast + [last];
      hide Has, NumOf;
      KeptKeepsTheRest(butLast, affected, x);
    }
  }

  lemma {:induction false} FromCovers(items: seq<Item>, from: int, i: nat)
    requires i < |items| && NumOf(items[i]).Some? && NumOf(items[i]).value >= from
    ensures items[i] in From(items, from)
  {
    if i < |items| - 1 { FromCovers(items[..|items| - 1], from, i); }
  }

  /** The affected numbers are those from there on. */
  lemma AffectedNumbers(items: seq<Item>, from: int, n: int)
    ensures Has(Affected(items, from), n) <==> Has(items, n) && n >= from
  {
    var found := From(items, from);
    SortIfPossibleKeepsFirst(found, n);
    if Has(items, n) && n >= from {
      var i := First(items, n);
      FromCovers(items, from, i);
      var j :| 0 <= j < |found| && found[j] == items[i];
      assert Has(found, n);
    }
    if Has(found, n) {
      var j := First(found, n);
      FromIsPart(items, from, j);
    }
  }

  lemma {:induction false} FromIsPart(items: seq<Item>, from: int, j: nat)
    requires j < |From(items, from)|
    ensures From(items, from)[j] in items && NumOf(From(items, from)[j]).value >= from
  {
    var n := |items| - 1;
    if j < |From(items[..n], from)| { FromIsPart(items[..n], from, j); }
  }

  lemma PlanAdds(disk: Disk, dir: Dir, clean: string -> string, p: Project, t: PlanTicket)
    returns (added: seq<Item>)
    requires |t.drafts| == |t.ends| && t.ends != [] && PlanCommit(disk, dir, clean, p, t).Ok?
    ensures PlanCommit(disk, dir, clean, p, t).value.project.items
      == SortIfPossible(NonNull(Backfilled(disk, dir, p).items) + added)
  {
    hide Backfilled, NonNull, NewEntries, CutUp, GreatestNum, SortIfPossible, EffectiveStart, AllSliceable, UsedUp;
    var kept := NonNull(Backfilled(disk, dir, p).items);
    added := NewEntries(CutUp(t.file, t.start, t.drafts, t.ends), GreatestNum(kept) + 1, []);
  }

  /** What planning never touches: foreign items but nulls, and entries that have a status. */
  lemma PlanKeepsTheRest(disk: Disk, dir: Dir, clean: string -> string, p: Project, t: PlanTicket, x: Item)
    requires |t.drafts| == |t.ends| && t.ends != [] && PlanCommit(disk, dir, clean, p, t).Ok?
    requires x != Foreign(true) && (x.Foreign? || x.entry.status.Some?)
    ensures multiset(p.items)[x] <= multiset(PlanCommit(disk, dir, clean, p, t).value.project.items)[x]
  {
    hide *;
    BackfillProtects(disk, dir, p, x);
    var items := Backfilled(disk, dir, p).items;
    NonNullKeepsTheRest(items);
    var added := PlanAdds(disk, dir, clean, p, t);
    SortIfPossibleKeepsItems(NonNull(items) + added);
  }

  lemma {:induction false} FromCounts(items: seq<Item>, from: int, x: Item)
    ensures multiset(From(items, from))[x] ==
      if NumOf(x).Some? && NumOf(x).value >= from then multiset(items)[x] else 0
  {
    if items != [] {
      var butLast, last := items[..|items| - 1], items[|items| - 1];
      assert items == butLast + [last];
      hide NumOf;
      FromCounts(butLast, from, x);
    }
  }

  lemma FromOfSame(a: seq<Item>, b: seq<Item>, from: int)
    requires multiset(a) == multiset(b)
    ensures |From(a, from)| == |From(b, from)|
  {
    forall x
      ensures multiset(From(a, from))[x] == multiset(From(b, from))[x]
    {
      FromCounts(a, from, x);
      FromCounts(b, from, x);
    }
    assert multiset(From(a, from)) == multiset(From(b, from));
    assert |multiset(From(a, from))| == |From(a, from)|;
    assert |multiset(From(b, from))| == |From(b, from)|;
  }

  lemma {:induction false} FromNone(items: seq<Item>, from: int)
    requires forall i :: 0 <= i < |items| && NumOf(items[i]).Some? ==> NumOf(items[i]).value < from
    ensures From(items, from) == []
  {
    hide NumOf;
    if items != [] { FromNone(items[..|items| - 1], from); }
  }

  lemma FromOneMore(items: seq<Item>, item: Item, from: int)
    requires NumOf(item).Some? && NumOf(item).value >= from
    ensures From(items + [item], from) == From(items, from) + [item]
  {
    hide NumOf;
    assert (items + [item])[..|items|] == items;
  }

  lemma {:induction false} FromAfter(a: seq<Item>, b: seq<Item>, from: int)
    requires forall i :: 0 <= i < |b| ==> NumOf(b[i]).Some? && NumOf(b[i]).value >= from
    ensures From(a + b, from) == From(a, from) + b
  {
    hide NumOf, From;
    if b == [] {
      assert a + b == a;
    } else {
      var n := |b| - 1;
      FromAfter(a, b[..n], from);
      FromOneMore(a + b[..n], b[n], from);
      assert a + b == (a + b[..n]) + [b[n]];
    }
  }

  lemma KeptIsBelow(items: seq<Item>, from: int)
    ensures var kept := Kept(items, Affected(items, from)); From(kept, from) == []
  {
    hide Kept, Affected, NumOf;
    var kept := Kept(items, Affected(items, from));
    forall i | 0 <= i < |kept| && NumOf(kept[i]).Some?
      ensures NumOf(kept[i]).value < from
    {
      var x := kept[i];
      assert x in multiset(kept);
      KeptKeepsTheRest(items, Affected(items, from), x);
      assert x in multiset(items);
      assert x in items;
      var j :| 0 <= j < |items| && items[j] == x;
      assert Has(items, NumOf(x).value);
      AffectedNumbers(items, from, NumOf(x).value);
    }
    FromNone(kept, from);
  }

  lemma NewEntriesAreFrom(t: ReplanTicket, past: seq<Item>)
    ensures var added := NewEntries(t.pieces, t.from, past);
      forall i :: 0 <= i < |added| ==> NumOf(added[i]).Some? && NumOf(added[i]).value >= t.from
  {
  }

  lemma ReplanAdds(disk: Disk, dir: Dir, clean: string -> string, p: Project, t: ReplanTicket)
    returns (added: seq<Item>)
    requires AllReadable(t.affected) && ReplanCommit(disk, dir, clean, p, t).Ok?
    ensures var items := Backfilled(disk, dir, p).items;
      ReplanCommit(disk, dir, clean, p, t).value.project.items
        == SortIfPossible(Kept(items, Affected(items, t.from)) + added)
    ensures |added| == |t.pieces|
    ensures forall i :: 0 <= i < |added| ==> NumOf(added[i]).Some? && NumOf(added[i]).value >= t.from
  {
    hide Backfilled, NewEntries, Kept, SortIfPossible, Affected, AllSliceable, Replannable, RangesOf,
      ConsumedNums;
    var current := Affected(Backfilled(disk, dir, p).items, t.from);
    NewEntriesAreFrom(t, current);
    added := NewEntries(t.pieces, t.from, current);
  }

  /** A replan keeps foreign items, nulls included, and entries below that have a status; from its
      number on it leaves one entry for each piece and nothing else. */
  lemma ReplanKeepsTheRest(disk: Disk, dir: Dir, clean: string -> string, p: Project, t: ReplanTicket, x: Item)
    requires AllReadable(t.affected) && ReplanCommit(disk, dir, clean, p, t).Ok?
    ensures var after := ReplanCommit(disk, dir, clean, p, t).value.project.items;
      && |From(after, t.from)| == |t.pieces|
      && ((x.Foreign? || x.entry.status.Some?) && (NumOf(x).Some? ==> NumOf(x).value < t.from) ==>
            multiset(p.items)[x] <= multiset(after)[x])
  {
    hide *;
    if x.Foreign? || x.entry.status.Some? { BackfillProtects(disk, dir, p, x); }
    var items := Backfilled(disk, dir, p).items;
    var kept := Kept(items, Affected(items, t.from));
    var added := ReplanAdds(disk, dir, clean, p, t);
    KeptKeepsTheRest(items, Affected(items, t.from), x);
    if NumOf(x).Some? { AffectedNumbers(items, t.from, NumOf(x).value); }
    SortIfPossibleKeepsItems(kept + added);
    FromOfSame(SortIfPossible(kept + added), kept + added, t.from);
    FromAfter(kept, added, t.from);
    KeptIsBelow(items, t.from);
  }
}
