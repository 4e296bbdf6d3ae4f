/** Spans of text as stretches of one long line of characters: order, coverage, and how cutting
    and merging keep both. */
module Tiling {
  import opened Text
  import opened Boundaries
  import opened Backfill
  import opened ReplanScope
  import opened Reconcile
  import opened Planner
  import opened PlanningCalls

  // ---------------------------------------------------------------- positions

  /** The position of a source's first character when all sources are read one after the other. */
  function Base(sources: seq<Doc>, d: nat): nat
    requires d <= |sources|
  {
    if d == 0 then 0 else Base(sources, d - 1) + |sources[d - 1].text|
  }

  predicate Known(sources: seq<Doc>, file: string) {
    IndexOf(sources, file).Some?
  }

  function At(sources: seq<Doc>, file: string, offset: int): int
    requires Known(sources, file)
  {
    Base(sources, IndexOf(sources, file).value) + offset
  }

  function Length(sources: seq<Doc>, file: string): nat
    requires Known(sources, file)
  {
    |sources[IndexOf(sources, file).value].text|
  }

  lemma {:induction false} BaseGrows(sources: seq<Doc>, d: nat, e: nat)
    requires d < e <= |sources|
    ensures Base(sources, d) + |sources[d].text| <= Base(sources, e)
  {
    if d + 1 < e { BaseGrows(sources, d, e - 1); }
  }

  /** A character worth planning. */
  predicate Solid(sources: seq<Doc>, d: nat, o: nat) {
    d < |sources| && o < |sources[d].text| && !IsSpace(sources[d].text[o])
  }

  // ---------------------------------------------------------------- spans in order

  predicate ValidSpan(sources: seq<Doc>, s: Span) {
    Known(sources, s.file) && 0 <= s.start < s.end <= Length(sources, s.file)
  }

  function Lo(sources: seq<Doc>, s: Span): int
    requires ValidSpan(sources, s)
  {
    At(sources, s.file, s.start)
  }

  function Hi(sources: seq<Doc>, s: Span): int
    requires ValidSpan(sources, s)
  {
    At(sources, s.file, s.end)
  }

  /** Non-empty stretches of real text between two positions, each starting no earlier than the
      ones before it end. */
  ghost predicate Ordered(sources: seq<Doc>, spans: seq<Span>, lo: int, hi: int) {
    && (forall i :: 0 <= i < |spans| ==>
          ValidSpan(sources, spans[i]) && lo <= Lo(sources, spans[i]) && Hi(sources, spans[i]) <= hi)
    && forall i, j :: 0 <= i < j < |spans| ==> Hi(sources, spans[i]) <= Lo(sources, spans[j])
  }

  ghost predicate CoveredUpTo(sources: seq<Doc>, spans: seq<Span>, bound: int) {
    forall d: nat, o: nat :: Solid(sources, d, o) && Base(sources, d) + o < bound ==>
      Covers(spans, sources[d].rel, o)
  }

  lemma OrderedAppend(sources: seq<Doc>, a: seq<Span>, b: seq<Span>, lo: int, mid: int, hi: int)
    requires Ordered(sources, a, lo, mid) && Ordered(sources, b, mid, hi) && lo <= mid <= hi
    ensures Ordered(sources, a + b, lo, hi)
  {
    hide ValidSpan, Lo, Hi;
    var all := a + b;
    assert forall i :: 0 <= i < |a| ==> all[i] == a[i];
    assert forall i :: |a| <= i < |all| ==> all[i] == b[i - |a|];
  }

  lemma LoBeforeHi(sources: seq<Doc>, s: Span)
    requires ValidSpan(sources, s)
    ensures Lo(sources, s) < Hi(sources, s)
  {
  }

  lemma OrderedSplit(sources: seq<Doc>, a: seq<Span>, b: seq<Span>, lo: int, mid: int, hi: int)
    requires Ordered(sources, a + b, lo, hi)
    requires b != [] ==> ValidSpan(sources, b[0]) && mid == Lo(sources, b[0])
    requires b == [] ==> mid == hi
    ensures Ordered(sources, a, lo, mid) && Ordered(sources, b, mid, hi)
  {
    hide ValidSpan, Lo, Hi;
    var all := a + b;
    assert forall i :: 0 <= i < |a| ==> all[i] == a[i];
    assert forall i :: 0 <= i < |b| ==> all[|a| + i] == b[i];
    if b != [] {
      assert all[|a|] == b[0];
      LoBeforeHi(sources, b[0]);
    }
  }

  lemma CoversConcat(a: seq<Span>, b: seq<Span>, file: string, o: int)
    ensures Covers(a + b, file, o) <==> Covers(a, file, o) || Covers(b, file, o)
  {
    var all := a + b;
    assert forall i :: 0 <= i < |a| ==> all[i] == a[i];
    assert forall i :: 0 <= i < |b| ==> all[|a| + i] == b[i];
  }

  /** In ordered spans no character lies in two of them. */
  lemma OrderedDisjoint(sources: seq<Doc>, spans: seq<Span>, lo: int, hi: int, i: nat, j: nat, file: string, o: int)
    requires Ordered(sources, spans, lo, hi) && i < |spans| && j < |spans|
    requires Holds(spans[i], file, o) && Holds(spans[j], file, o)
    ensures i == j
  {
  }

  // ---------------------------------------------------------------- cutting a slice

  function PieceSpans(pieces: seq<Piece>): (r: seq<Span>)
    ensures |r| == |pieces| && forall i :: 0 <= i < |r| ==> r[i] == pieces[i].span
  {
    seq(|pieces|, i requires 0 <= i < |pieces| => pieces[i].span)
  }

  /** Ends that advance, up to `length`. */
  ghost predicate GoodEnds(ends: seq<nat>, length: nat) {
    && (forall i :: 0 <= i < |ends| ==> 0 < ends[i] <= length)
    && forall i, j :: 0 <= i < j < |ends| ==> ends[i] < ends[j]
  }

  /** Pieces laid out from `base` to the last end tile that stretch. */
  lemma {:induction false} CutTiles(sources: seq<Doc>, file: string, base: nat, drafts: seq<Draft>, ends: seq<nat>,
                                    length: nat)
    requires |drafts| == |ends| && ends != [] && GoodEnds(ends, length)
    requires Known(sources, file) && base + length <= Length(sources, file)
    ensures var spans := PieceSpans(CutUp(file, base, drafts, ends));
      var end := base + ends[|ends| - 1];
      && Ordered(sources, spans, At(sources, file, base), At(sources, file, end))
      && spans != [] && spans[|spans| - 1].file == file && spans[|spans| - 1].end == end
      && forall f, o :: Covers(spans, f, o) <==> f == file && base <= o < end
  {
    var k := |ends| - 1;
    var mid := if k == 0 then base else base + ends[k - 1];
    var before := PieceSpans(CutUp(file, base, drafts[..k], ends[..k]));
    var last := Span(file, mid, base + ends[k]);
    assert PieceSpans(CutUp(file, base, drafts, ends)) == before + [last];
    GoodEndsTake(ends, length);
    hide PieceSpans, CutUp, Covers, Ordered, At;
    if k == 0 {
      NoTiles(sources, file, base, before);
    } else {
      CutTiles(sources, file, base, drafts[..k], ends[..k], length);
    }
    TileStep(sources, file, base, before, last);
  }

  lemma GoodEndsTake(ends: seq<nat>, length: nat)
    requires GoodEnds(ends, length) && ends != []
    ensures GoodEnds(ends[..|ends| - 1], length)
    ensures 0 < ends[|ends| - 1] <= length && (|ends| > 1 ==> ends[|ends| - 2] < ends[|ends| - 1])
  {
  }

  lemma NoTiles(sources: seq<Doc>, file: string, base: nat, spans: seq<Span>)
    requires spans == [] && Known(sources, file)
    ensures Ordered(sources, spans, At(sources, file, base), At(sources, file, base))
    ensures forall f, o :: !Covers(spans, f, o)
  {
  }

  lemma TileStep(sources: seq<Doc>, file: string, base: nat, before: seq<Span>, last: Span)
    requires Known(sources, file) && last.file == file && base <= last.start < last.end <= Length(sources, file)
    requires Ordered(sources, before, At(sources, file, base), At(sources, file, last.start))
    requires forall f, o :: Covers(before, f, o) <==> f == file && base <= o < last.start
    ensures Ordered(sources, before + [last], At(sources, file, base), At(sources, file, last.end))
    ensures forall f, o :: Covers(before + [last], f, o) <==> f == file && base <= o < last.end
  {
    assert Ordered(sources, [last], At(sources, file, last.start), At(sources, file, last.end));
    hide Ordered, Covers;
    OrderedAppend(sources, before, [last], At(sources, file, base), At(sources, file, last.start),
                  At(sources, file, last.end));
    forall f, o { CoversAppend(before, last, f, o); }
  }

  lemma AcceptedEndsGood(window: string, drafts: seq<Draft>, cover: bool, snap: bool, ends: seq<nat>)
    requires WellFormed(drafts) && Acceptable(window, drafts, cover) && AreEnds(window, drafts, cover || snap, ends)
    ensures |ends| == |drafts| && ends != [] && GoodEnds(ends, |window|)
    ensures cover ==> ends[|ends| - 1] == |window|
  {
    hide Acceptable, AreEnds, Ascends, Flatten, Pieces;
    AcceptedEndsPartition(window, drafts, cover, snap, ends);
    AscendsLast(window, 0, ends);
    if cover {
      CoverIsBlank(window, drafts, snap, ends);
    }
  }

  lemma CoverIsBlank(window: string, drafts: seq<Draft>, snap: bool, ends: seq<nat>)
    requires WellFormed(drafts) && Acceptable(window, drafts, true) && AreEnds(window, drafts, true, ends)
    ensures ends != [] && ends[|ends| - 1] == |window|
  {
  }

  // ---------------------------------------------------------------- cutting all slices again

  /** Merging gap-free spans keeps them ordered between the same bounds. */
  lemma {:induction false} RunsOrdered(sources: seq<Doc>, spans: seq<Span>, lo: int, hi: int)
    requires Ordered(sources, spans, lo, hi) && GapFree(spans)
    ensures Ordered(sources, Runs(spans), lo, hi)
  {
    if spans != [] {
      var butLast, last := spans[..|spans| - 1], spans[|spans| - 1];
      assert spans == butLast + [last];
      GapFreeTake(spans, |spans| - 1);
      GapFreeStep(butLast, last);
      assert [last][0] == last;
      OrderedSplit(sources, butLast, [last], lo, Lo(sources, last), hi);
      RunsOrdered(sources, butLast, lo, Lo(sources, last));
      hide GapFree;
      ExtendOrdered(sources, Runs(butLast), last, lo, hi);
    }
  }

  lemma ExtendOrdered(sources: seq<Doc>, runs: seq<Span>, s: Span, lo: int, hi: int)
    requires ValidSpan(sources, s) && lo <= Lo(sources, s) && Hi(sources, s) <= hi
    requires Ordered(sources, runs, lo, Lo(sources, s)) && MayFollow(runs, s)
    ensures Ordered(sources, Extend(runs, s), lo, hi)
  {
    hide Files;
    if runs != [] && runs[|runs| - 1].file == s.file {
      var closed, open := runs[..|runs| - 1], runs[|runs| - 1];
      var longer := open.(end := s.end);
      assert runs == closed + [open] && [open][0] == open;
      OrderedSplit(sources, closed, [open], lo, Lo(sources, open), Lo(sources, s));
      OrderedAppend(sources, closed, [longer], lo, Lo(sources, open), hi);
    } else {
      OrderedAppend(sources, runs, [s], lo, Lo(sources, s), hi);
    }
  }

  /** A complete re-cut of ordered slices: ordered between the same bounds, over the same
      characters, ending at the same place. */
  lemma {:induction false} RecutsTile(disk: Disk, slices: seq<Span>, pieces: seq<Piece>, lo: int, hi: int)
    requires Ordered(disk.sources, slices, lo, hi) && Recuts(disk, slices, pieces) && lo <= hi
    ensures Ordered(disk.sources, PieceSpans(pieces), lo, hi)
    ensures forall f, o :: Covers(PieceSpans(pieces), f, o) <==> Covers(slices, f, o)
    ensures slices != [] ==> EndsLike(pieces, slices[|slices| - 1])
  {
    hide Recuts, Covers, IsCut, Ordered, PieceSpans, EndsLike, ValidSpan, Lo, Hi;
    if slices == [] {
      NothingTiles(disk, pieces, lo, hi);
    } else {
      var butLast, last := slices[..|slices| - 1], slices[|slices| - 1];
      assert slices == butLast + [last];
      var k := LastCut(disk, slices, pieces);
      SplitLast(disk.sources, slices, lo, hi);
      RecutsTile(disk, butLast, pieces[..k], lo, Lo(disk.sources, last));
      CutOfSlice(disk, last, pieces[k..]);
      assert pieces == pieces[..k] + pieces[k..];
      OneSliceMore(disk.sources, butLast, last, pieces[..k], pieces[k..], lo, hi);
    }
  }

  lemma NothingTiles(disk: Disk, pieces: seq<Piece>, lo: int, hi: int)
    requires Recuts(disk, [], pieces)
    ensures Ordered(disk.sources, PieceSpans(pieces), lo, hi)
    ensures forall f, o :: Covers(PieceSpans(pieces), f, o) <==> Covers([], f, o)
  {
  }

  lemma LastCut(disk: Disk, slices: seq<Span>, pieces: seq<Piece>) returns (k: nat)
    requires slices != [] && Recuts(disk, slices, pieces)
    ensures k <= |pieces| && Recuts(disk, slices[..|slices| - 1], pieces[..k])
    ensures IsCut(disk, slices[|slices| - 1], pieces[k..])
  {
    k :| 0 <= k <= |pieces| && Recuts(disk, slices[..|slices| - 1], pieces[..k])
      && IsCut(disk, slices[|slices| - 1], pieces[k..]);
  }

  lemma SplitLast(sources: seq<Doc>, spans: seq<Span>, lo: int, hi: int)
    requires spans != [] && Ordered(sources, spans, lo, hi)
    ensures var last := spans[|spans| - 1];
      && ValidSpan(sources, last) && lo <= Lo(sources, last) && Hi(sources, last) <= hi
      && Ordered(sources, spans[..|spans| - 1], lo, Lo(sources, last))
  {
  }

  ghost predicate EndsLike(pieces: seq<Piece>, s: Span) {
    pieces != [] && pieces[|pieces| - 1].span.file == s.file && pieces[|pieces| - 1].span.end == s.end
  }

  lemma OneSliceMore(sources: seq<Doc>, slices: seq<Span>, s: Span, a: seq<Piece>, b: seq<Piece>, lo: int, hi: int)
    requires ValidSpan(sources, s) && lo <= Lo(sources, s) && Hi(sources, s) <= hi
    requires Ordered(sources, PieceSpans(a), lo, Lo(sources, s))
    requires forall f, o :: Covers(PieceSpans(a), f, o) <==> Covers(slices, f, o)
    requires Ordered(sources, PieceSpans(b), Lo(sources, s), Hi(sources, s)) && EndsLike(b, s)
    requires forall f, o :: Covers(PieceSpans(b), f, o) <==> Holds(s, f, o)
    ensures Ordered(sources, PieceSpans(a + b), lo, hi) && EndsLike(a + b, s)
    ensures forall f, o :: Covers(PieceSpans(a + b), f, o) <==> Covers(slices + [s], f, o)
  {
    assert PieceSpans(a + b) == PieceSpans(a) + PieceSpans(b);
    LoBeforeHi(sources, s);
    hide PieceSpans, Ordered, Covers, Lo, Hi;
    OrderedAppend(sources, PieceSpans(a), PieceSpans(b), lo, Lo(sources, s), Hi(sources, s));
    Widen(sources, PieceSpans(a) + PieceSpans(b), lo, Hi(sources, s), hi);
    forall f, o
      ensures Covers(PieceSpans(a + b), f, o) <==> Covers(slices + [s], f, o)
    {
      CoversConcat(PieceSpans(a), PieceSpans(b), f, o);
      CoversAppend(slices, s, f, o);
    }
  }

  lemma Widen(sources: seq<Doc>, spans: seq<Span>, lo: int, hi: int, wider: int)
    requires Ordered(sources, spans, lo, hi) && hi <= wider
    ensures Ordered(sources, spans, lo, wider)
  {
  }

  lemma CutOfSlice(disk: Disk, s: Span, pieces: seq<Piece>)
    requires ValidSpan(disk.sources, s) && IsCut(disk, s, pieces)
    ensures Ordered(disk.sources, PieceSpans(pieces), Lo(disk.sources, s), Hi(disk.sources, s))
    ensures EndsLike(pieces, s)
    ensures forall f, o :: Covers(PieceSpans(pieces), f, o) <==> Holds(s, f, o)
  {
    var drafts, ends :| CutsInto(disk, s, drafts, ends, pieces);
    var window := Load(disk, s.file).value[s.start..s.end];
    hide Acceptable, AreEnds, CutUp;
    AcceptedEndsGood(window, drafts, true, true, ends);
    CutTiles(disk.sources, s.file, s.start, drafts, ends, |window|);
  }

  // ---------------------------------------------------------------- the text of spans

  ghost predicate AllValid(sources: seq<Doc>, spans: seq<Span>) {
    forall i :: 0 <= i < |spans| ==> ValidSpan(sources, spans[i])
  }

  function TextOfSpan(sources: seq<Doc>, s: Span): string
    requires ValidSpan(sources, s)
  {
    sources[IndexOf(sources, s.file).value].text[s.start..s.end]
  }

  /** The texts of the spans, one after the other. */
  ghost function TextOf(sources: seq<Doc>, spans: seq<Span>): string
    requires AllValid(sources, spans)
  {
    if spans == [] then ""
    else TextOf(sources, spans[..|spans| - 1]) + TextOfSpan(sources, spans[|spans| - 1])
  }

  lemma {:induction false} TextConcat(sources: seq<Doc>, a: seq<Span>, b: seq<Span>)
    requires AllValid(sources, a) && AllValid(sources, b)
    ensures AllValid(sources, a + b)
    ensures TextOf(sources, a + b) == TextOf(sources, a) + TextOf(sources, b)
  {
    if b == [] {
      assert a + b == a;
    } else {
      var butLast, last := b[..|b| - 1], b[|b| - 1];
      TextConcat(sources, a, butLast);
      assert (a + b)[..|a + b| - 1] == a + butLast;
      assert (TextOf(sources, a) + TextOf(sources, butLast)) + TextOfSpan(sources, last)
          == TextOf(sources, a) + (TextOf(sources, butLast) + TextOfSpan(sources, last));
    }
  }

  lemma TextAppend(sources: seq<Doc>, a: seq<Span>, s: Span)
    requires AllValid(sources, a) && ValidSpan(sources, s)
    ensures AllValid(sources, a + [s])
    ensures TextOf(sources, a + [s]) == TextOf(sources, a) + TextOfSpan(sources, s)
  {
    assert (a + [s])[..|a|] == a;
  }

  /** Merging gap-free spans does not change their text. */
  lemma {:induction false} RunsText(sources: seq<Doc>, spans: seq<Span>)
    requires AllValid(sources, spans) && GapFree(spans)
    ensures AllValid(sources, Runs(spans)) && TextOf(sources, Runs(spans)) == TextOf(sources, spans)
  {
    if spans != [] {
      var butLast, last := spans[..|spans| - 1], spans[|spans| - 1];
      assert spans == butLast + [last];
      GapFreeTake(spans, |spans| - 1);
      GapFreeStep(butLast, last);
      hide GapFree, ValidSpan, TextOfSpan;
      RunsText(sources, butLast);
      TextAppend(sources, butLast, last);
      ExtendText(sources, Runs(butLast), last);
    }
  }

  lemma ExtendText(sources: seq<Doc>, runs: seq<Span>, s: Span)
    requires AllValid(sources, runs) && ValidSpan(sources, s) && MayFollow(runs, s)
    ensures AllValid(sources, Extend(runs, s))
    ensures TextOf(sources, Extend(runs, s)) == TextOf(sources, runs) + TextOfSpan(sources, s)
  {
    hide Files, TextOf;
    if runs != [] && runs[|runs| - 1].file == s.file {
      var closed, open := runs[..|runs| - 1], runs[|runs| - 1];
      var longer := open.(end := s.end);
      assert runs == closed + [open];
      assert ValidSpan(sources, open);
      TextAppend(sources, closed, open);
      TextAppend(sources, closed, longer);
      assert TextOfSpan(sources, longer) == TextOfSpan(sources, open) + TextOfSpan(sources, s);
      assert (TextOf(sources, closed) + TextOfSpan(sources, open)) + TextOfSpan(sources, s)
          == TextOf(sources, closed) + (TextOfSpan(sources, open) + TextOfSpan(sources, s));
    } else {
      TextAppend(sources, runs, s);
    }
  }

  /** The pieces of a batch make up the text from its start to its last end. */
  lemma {:induction false} CutText(sources: seq<Doc>, file: string, base: nat, drafts: seq<Draft>, ends: seq<nat>,
                                   length: nat)
    requires |drafts| == |ends| && ends != [] && GoodEnds(ends, length)
    requires Known(sources, file) && base + length <= Length(sources, file)
    ensures var spans := PieceSpans(CutUp(file, base, drafts, ends));
      && AllValid(sources, spans)
      && ValidSpan(sources, Span(file, base, base + ends[|ends| - 1]))
      && TextOf(sources, spans) == TextOfSpan(sources, Span(file, base, base + ends[|ends| - 1]))
  {
    var k := |ends| - 1;
    var mid := if k == 0 then base else base + ends[k - 1];
    var before := PieceSpans(CutUp(file, base, drafts[..k], ends[..k]));
    var last := Span(file, mid, base + ends[k]);
    assert PieceSpans(CutUp(file, base, drafts, ends)) == before + [last];
    GoodEndsTake(ends, length);
    assert k == 0 ==> before == [];
    hide PieceSpans, CutUp, TextOfSpan, GoodEnds, TextOf, AllValid, ValidSpan;
    if k > 0 { CutText(sources, file, base, drafts[..k], ends[..k], length); }
    TextTileStep(sources, file, base, before, last);
  }

  lemma TextTileStep(sources: seq<Doc>, file: string, base: nat, before: seq<Span>, last: Span)
    requires Known(sources, file) && last.file == file && base <= last.start < last.end <= Length(sources, file)
    requires if before == [] then base == last.start
      else
        && base < last.start && AllValid(sources, before) && ValidSpan(sources, Span(file, base, last.start))
        && TextOf(sources, before) == TextOfSpan(sources, Span(file, base, last.start))
    ensures AllValid(sources, before + [last]) && ValidSpan(sources, Span(file, base, last.end))
    ensures TextOf(sources, before + [last]) == TextOfSpan(sources, Span(file, base, last.end))
  {
    TextAppend(sources, before, last);
    hide TextOfSpan;
    if before != [] {
      hide TextOf;
      TextJoin(sources, file, base, last.start, last.end);
    }
  }

  lemma TextJoin(sources: seq<Doc>, file: string, base: nat, mid: nat, end: nat)
    requires Known(sources, file) && base < mid < end <= Length(sources, file)
    ensures TextOfSpan(sources, Span(file, base, end))
      == TextOfSpan(sources, Span(file, base, mid)) + TextOfSpan(sources, Span(file, mid, end))
  {
  }

  /** A complete re-cut of all slices keeps their text, to the letter. */
  lemma {:induction false} RecutsText(disk: Disk, slices: seq<Span>, pieces: seq<Piece>)
    requires AllValid(disk.sources, slices) && Recuts(disk, slices, pieces)
    ensures AllValid(disk.sources, PieceSpans(pieces))
    ensures TextOf(disk.sources, PieceSpans(pieces)) == TextOf(disk.sources, slices)
  {
    hide Recuts, IsCut, ValidSpan, TextOfSpan, TextOf, AllValid, PieceSpans;
    if slices == [] {
      NoText(disk, pieces);
    } else {
      var butLast, last := slices[..|slices| - 1], slices[|slices| - 1];
      var k := LastCut(disk, slices, pieces);
      assert slices == butLast + [last] && pieces == pieces[..k] + pieces[k..];
      AllButLastValid(disk.sources, slices);
      RecutsText(disk, butLast, pieces[..k]);
      CutOfSliceText(disk, last, pieces[k..]);
      OneSliceMoreText(disk.sources, butLast, last, pieces[..k], pieces[k..]);
    }
  }

  lemma NoText(disk: Disk, pieces: seq<Piece>)
    requires Recuts(disk, [], pieces)
    ensures AllValid(disk.sources, PieceSpans(pieces)) && AllValid(disk.sources, [])
    ensures TextOf(disk.sources, PieceSpans(pieces)) == TextOf(disk.sources, [])
  {
  }

  lemma AllButLastValid(sources: seq<Doc>, spans: seq<Span>)
    requires AllValid(sources, spans) && spans != []
    ensures AllValid(sources, spans[..|spans| - 1]) && ValidSpan(sources, spans[|spans| - 1])
  {
  }

  lemma OneSliceMoreText(sources: seq<Doc>, slices: seq<Span>, s: Span, a: seq<Piece>, b: seq<Piece>)
    requires AllValid(sources, slices) && ValidSpan(sources, s)
    requires AllValid(sources, PieceSpans(a)) && AllValid(sources, PieceSpans(b))
    requires TextOf(sources, PieceSpans(a)) == TextOf(sources, slices)
    requires TextOf(sources, PieceSpans(b)) == TextOfSpan(sources, s)
    ensures AllValid(sources, PieceSpans(a + b)) && AllValid(sources, slices + [s])
    ensures TextOf(sources, PieceSpans(a + b)) == TextOf(sources, slices + [s])
  {
    assert PieceSpans(a + b) == PieceSpans(a) + PieceSpans(b);
    hide PieceSpans, ValidSpan, TextOfSpan, TextOf;
    TextConcat(sources, PieceSpans(a), PieceSpans(b));
    TextAppend(sources, slices, s);
  }

  lemma CutOfSliceText(disk: Disk, s: Span, pieces: seq<Piece>)
    requires ValidSpan(disk.sources, s) && IsCut(disk, s, pieces)
    ensures AllValid(disk.sources, PieceSpans(pieces))
    ensures TextOf(disk.sources, PieceSpans(pieces)) == TextOfSpan(disk.sources, s)
  {
    var drafts, ends :| CutsInto(disk, s, drafts, ends, pieces);
    var window := Load(disk, s.file).value[s.start..s.end];
    hide Acceptable, AreEnds, CutUp, TextOf;
    AcceptedEndsGood(window, drafts, true, true, ends);
    CutText(disk.sources, s.file, s.start, drafts, ends, |window|);
  }
}
