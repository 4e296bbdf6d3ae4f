/** Which entries a replan may re-cut, and the closed stretches of text they cover
    (`_replan_scope`). */
module ReplanScope {
  import opened Wrappers
  import opened Ledger

  /** A half-open stretch of one source file. */
  datatype Span = Span(file: string, start: int, end: int)

  datatype ScopeError =
    | NotInLedger
    | TouchesUnanchored(nums: seq<int>)
    | MissingRange(num: int)
    | IncompleteRange(num: int)
    | EmptyRange(num: int)
    | Discontinuous(num: int)
    | FileRepeats(num: int)

  /** The slices to re-cut, and the affected entries in number order. */
  datatype Scope = Scope(slices: seq<Span>, affected: seq<Item>)

  function From(items: seq<Item>, from: int): (r: seq<Item>)
    ensures AllReadable(r) && forall i :: 0 <= i < |r| ==> r[i].Item? && NumOf(r[i]).value >= from
  {
    if items == [] then []
    else
      var last := items[|items| - 1];
      From(items[..|items| - 1], from)
      + if NumOf(last).Some? && NumOf(last).value >= from then [last] else []
  }

  function Affected(items: seq<Item>, from: int): (r: seq<Item>)
    ensures AllReadable(r)
  {
    Sort(From(items, from))
  }

  predicate HasSpan(item: Item) {
    item.Item? && item.entry.range.RawRange?
    && item.entry.range.file.Some? && item.entry.range.start.Some? && item.entry.range.end.Some?
  }

  function SpanOf(item: Item): Span
    requires HasSpan(item)
  {
    Span(item.entry.range.file.value, item.entry.range.start.value, item.entry.range.end.value)
  }

  function SpansOf(items: seq<Item>): (r: seq<Span>)
    requires forall i :: 0 <= i < |items| ==> HasSpan(items[i])
    ensures |r| == |items| && forall i :: 0 <= i < |r| ==> r[i] == SpanOf(items[i])
  {
    if items == [] then [] else SpansOf(items[..|items| - 1]) + [SpanOf(items[|items| - 1])]
  }

  // ---------------------------------------------------------------- runs of spans

  /** Non-empty spans; within a file each starts where the one before ended, and a file that has
      been left does not come back. */
  ghost predicate GapFree(spans: seq<Span>) {
    && (forall i :: 0 <= i < |spans| ==> spans[i].start < spans[i].end)
    && (forall i, j :: 0 <= i && j == i + 1 && j < |spans| && spans[i].file == spans[j].file ==>
          spans[i].end == spans[j].start)
    && (forall i, j, k :: 0 <= i < j < k < |spans| && spans[i].file == spans[k].file ==>
          spans[j].file == spans[i].file)
  }

  /** One more span: it prolongs the last run of its own file, or opens a new one. */
  function Extend(runs: seq<Span>, s: Span): seq<Span> {
    if runs != [] && runs[|runs| - 1].file == s.file then
      runs[..|runs| - 1] + [runs[|runs| - 1].(end := s.end)]
    else runs + [s]
  }

  /** Adjacent spans of one file merged into one. */
  function Runs(spans: seq<Span>): seq<Span> {
    if spans == [] then [] else Extend(Runs(spans[..|spans| - 1]), spans[|spans| - 1])
  }

  function Files(spans: seq<Span>): set<string> {
    set i | 0 <= i < |spans| :: spans[i].file
  }

  function TotalLength(spans: seq<Span>): int {
    if spans == [] then 0 else TotalLength(spans[..|spans| - 1]) + spans[|spans| - 1].end - spans[|spans| - 1].start
  }

  predicate Holds(s: Span, file: string, o: int) {
    s.file == file && s.start <= o < s.end
  }

  predicate Covers(spans: seq<Span>, file: string, o: int) {
    exists i :: 0 <= i < |spans| && Holds(spans[i], file, o)
  }

  ghost predicate DistinctFiles(spans: seq<Span>) {
    forall i, j :: 0 <= i < j < |spans| ==> spans[i].file != spans[j].file
  }

  ghost predicate NonEmpty(spans: seq<Span>) {
    forall i :: 0 <= i < |spans| ==> spans[i].start < spans[i].end
  }

  lemma CoversAppend(spans: seq<Span>, s: Span, file: string, o: int)
    ensures Covers(spans + [s], file, o) <==> Covers(spans, file, o) || Holds(s, file, o)
  {
    var all := spans + [s];
    assert forall i :: 0 <= i < |spans| ==> all[i] == spans[i];
    assert all[|spans|] == s;
  }

  lemma FilesAppend(spans: seq<Span>, s: Span)
    ensures Files(spans + [s]) == Files(spans) + {s.file}
  {
    var all := spans + [s];
    assert forall i :: 0 <= i < |spans| ==> all[i] == spans[i];
    assert all[|spans|] == s;
  }

  /** When one more span may follow: non-empty, and either right after the open run of the same
      file, or in a file not met yet. */
  predicate MayFollow(runs: seq<Span>, s: Span) {
    && s.start < s.end
    && if runs != [] && runs[|runs| - 1].file == s.file then s.start == runs[|runs| - 1].end
       else s.file !in Files(runs)
  }

  lemma ExtendKeeps(runs: seq<Span>, s: Span)
    requires MayFollow(runs, s) && DistinctFiles(runs) && NonEmpty(runs)
    ensures DistinctFiles(Extend(runs, s)) && NonEmpty(Extend(runs, s))
    ensures TotalLength(Extend(runs, s)) == TotalLength(runs) + s.end - s.start
  {
    ExtendLength(runs, s);
    hide TotalLength;
    var r := Extend(runs, s);
    if runs == [] || runs[|runs| - 1].file != s.file {
      forall i | 0 <= i < |runs|
        ensures runs[i].file != s.file
      {
        assert runs[i].file in Files(runs);
      }
    }
  }

  lemma ExtendLength(runs: seq<Span>, s: Span)
    requires MayFollow(runs, s)
    ensures TotalLength(Extend(runs, s)) == TotalLength(runs) + s.end - s.start
  {
    hide Files;
    var r := Extend(runs, s);
    if runs != [] && runs[|runs| - 1].file == s.file {
      assert r[..|r| - 1] == runs[..|runs| - 1];
    } else {
      assert r[..|r| - 1] == runs;
    }
  }

  lemma ExtendCovers(runs: seq<Span>, s: Span, file: string, o: int)
    requires MayFollow(runs, s) && NonEmpty(runs)
    ensures Covers(Extend(runs, s), file, o) <==> Covers(runs, file, o) || Holds(s, file, o)
  {
    if runs != [] && runs[|runs| - 1].file == s.file {
      var closed, open := runs[..|runs| - 1], runs[|runs| - 1];
      assert runs == closed + [open];
      CoversAppend(closed, open, file, o);
      CoversAppend(closed, open.(end := s.end), file, o);
    } else {
      CoversAppend(runs, s, file, o);
    }
  }

  /** The files of the runs are those of the spans, and the last run ends with the last span. */
  lemma {:induction false} RunsFiles(spans: seq<Span>)
    ensures Files(Runs(spans)) == Files(spans)
    ensures spans != [] ==>
      var runs := Runs(spans);
      runs != [] && runs[|runs| - 1].file == spans[|spans| - 1].file && runs[|runs| - 1].end == spans[|spans| - 1].end
  {
    if spans != [] {
      var butLast, last := spans[..|spans| - 1], spans[|spans| - 1];
      var before := Runs(butLast);
      RunsFiles(butLast);
      assert spans == butLast + [last];
      hide Files;
      FilesAppend(butLast, last);
      FilesAppend(before, last);
      if before != [] && before[|before| - 1].file == last.file {
        var closed, open := before[..|before| - 1], before[|before| - 1];
        assert before == closed + [open];
        FilesAppend(closed, open);
        FilesAppend(closed, open.(end := last.end));
      }
    }
  }

  /** A list is gap-free exactly when each span may follow the runs of those before it. */
  lemma GapFreeStep(spans: seq<Span>, s: Span)
    requires GapFree(spans)
    ensures GapFree(spans + [s]) <==> MayFollow(Runs(spans), s)
  {
    AppendGapFree(spans, s);
    RunsFiles(spans);
    assert (forall i :: 0 <= i < |spans| ==> spans[i].file != s.file) <==> s.file !in Files(spans);
  }

  lemma GapFreeTake(spans: seq<Span>, k: nat)
    requires GapFree(spans) && k <= |spans|
    ensures GapFree(spans[..k])
  {
  }

  lemma AppendGapFree(spans: seq<Span>, s: Span)
    requires GapFree(spans)
    ensures GapFree(spans + [s]) <==>
      s.start < s.end
      && if spans != [] && spans[|spans| - 1].file == s.file then s.start == spans[|spans| - 1].end
         else forall i :: 0 <= i < |spans| ==> spans[i].file != s.file
  {
    var all := spans + [s];
    assert forall i :: 0 <= i < |spans| ==> all[i] == spans[i];
    if GapFree(all) {
      assert all[|spans|].start < all[|spans|].end;
      if spans != [] {
        assert all[|spans| - 1].file == all[|spans|].file ==> all[|spans| - 1].end == all[|spans|].start;
      }
    }
  }

  /** The runs of a gap-free list: one non-empty stretch per file, as long together as the
      list, and covering the very same characters. */
  lemma {:induction false} RunsAreUnions(spans: seq<Span>)
    requires GapFree(spans)
    ensures DistinctFiles(Runs(spans)) && NonEmpty(Runs(spans))
    ensures TotalLength(Runs(spans)) == TotalLength(spans)
    ensures forall file, o :: Covers(Runs(spans), file, o) <==> Covers(spans, file, o)
  {
    if spans != [] {
      var butLast, last := spans[..|spans| - 1], spans[|spans| - 1];
      assert spans == butLast + [last];
      GapFreeTake(spans, |spans| - 1);
      hide GapFree, DistinctFiles, NonEmpty, MayFollow, Covers, Extend;
      GapFreeStep(butLast, last);
      RunsAreUnions(butLast);
      ExtendKeeps(Runs(butLast), last);
      forall file, o
        ensures Covers(Runs(spans), file, o) <==> Covers(spans, file, o)
      {
        ExtendCovers(Runs(butLast), last, file, o);
        CoversAppend(butLast, last, file, o);
      }
    }
  }

  // ---------------------------------------------------------------- the scope

  /** What `_replan_scope` accepts. */
  ghost predicate Replannable(items: seq<Item>, from: int) {
    var affected := Affected(items, from);
    && affected != [] && NumOf(affected[0]) == Some(from)
    && (forall i :: 0 <= i < |affected| ==>
          affected[i].Item? && affected[i].entry.status != Some(Unanchored) && HasSpan(affected[i]))
    && GapFree(SpansOf(affected))
  }

  /** The first `k` affected entries raise no objection. */
  ghost predicate GoodUpTo(affected: seq<Item>, k: nat)
    requires k <= |affected|
  {
    && (forall i :: 0 <= i < k ==> HasSpan(affected[i]))
    && GapFree(SpansOf(affected[..k]))
  }

  method ResolveScope(p: Project, from: int) returns (r: Result<Scope, ScopeError>)
    ensures r.Ok? <==> Replannable(p.items, from)
    ensures r == Err(NotInLedger) <==>
      Affected(p.items, from) == [] || NumOf(Affected(p.items, from)[0]) != Some(from)
    ensures r.Ok? ==> r.value == Scope(Runs(SpansOf(Affected(p.items, from))), Affected(p.items, from))
  {
    hide GoodUpTo, GoodSpans, RunsUpTo, Affected, Files, Replannable, Runs, GapFree, UnanchoredNums;
    var affected := Affected(p.items, from);
    EarlyVerdicts(p.items, from);
    if affected == [] || NumOf(affected[0]) != Some(from) { return Err(NotInLedger); }
    var unanchored := UnanchoredNums(affected);
    if unanchored != [] { return Err(TouchesUnanchored(unanchored)); }
    var slices: seq<Span> := [];
    var seen: set<string> := {};
    NothingSeen(affected);
    for k := 0 to |affected|
      invariant GoodUpTo(affected, k)
      invariant GoodSpans(affected, k) && slices == RunsUpTo(affected, k) && seen == Files(slices)
    {
      var item := affected[k];
      var num := NumOf(item).value;
      NextSpan(p.items, from, k);
      var range := item.entry.range;
      if range.NoRange? { return Err(MissingRange(num)); }
      if range.file.None? || range.start.None? || range.end.None? { return Err(IncompleteRange(num)); }
      var rel, start, end := range.file.value, range.start.value, range.end.value;
      if start >= end { return Err(EmptyRange(num)); }
      if slices != [] && slices[|slices| - 1].file == rel {
        if start != slices[|slices| - 1].end { return Err(Discontinuous(num)); }
        slices := slices[..|slices| - 1] + [slices[|slices| - 1].(end := end)];
      } else {
        if rel in seen { return Err(FileRepeats(num)); }
        seen := seen + {rel};
        slices := slices + [Span(rel, start, end)];
      }
    }
    NothingLeft(p.items, from);
    return Ok(Scope(slices, affected));
  }

  ghost predicate GoodSpans(affected: seq<Item>, k: nat)
  {
    k <= |affected| && forall i :: 0 <= i < k ==> HasSpan(affected[i])
  }

  ghost function RunsUpTo(affected: seq<Item>, k: nat): seq<Span>
    requires GoodSpans(affected, k)
  {
    Runs(SpansOf(affected[..k]))
  }

  function UnanchoredNums(affected: seq<Item>): seq<int>
    requires AllReadable(affected)
  {
    if affected == [] then []
    else
      UnanchoredNums(affected[..|affected| - 1])
      + if affected[|affected| - 1].Item? && affected[|affected| - 1].entry.status == Some(Unanchored)
        then [NumOf(affected[|affected| - 1]).value] else []
  }

  lemma {:induction false} UnanchoredExact(affected: seq<Item>)
    requires AllReadable(affected)
    ensures UnanchoredNums(affected) == [] <==>
      forall i :: 0 <= i < |affected| ==> affected[i].Item? ==> affected[i].entry.status != Some(Unanchored)
  {
    if affected != [] {
      UnanchoredExact(affected[..|affected| - 1]);
    }
  }

  lemma AffectedAreEntries(items: seq<Item>, from: int)
    ensures forall i :: 0 <= i < |Affected(items, from)| ==> Affected(items, from)[i].Item?
  {
  }

  lemma EarlyVerdicts(items: seq<Item>, from: int)
    ensures var affected := Affected(items, from);
      && (forall i :: 0 <= i < |affected| ==> affected[i].Item?)
      && (affected == [] || NumOf(affected[0]) != Some(from) ==> !Replannable(items, from))
      && (UnanchoredNums(affected) != [] ==> !Replannable(items, from))
  {
    AffectedAreEntries(items, from);
    UnanchoredExact(Affected(items, from));
  }

  lemma NothingSeen(affected: seq<Item>)
    ensures GoodUpTo(affected, 0) && GoodSpans(affected, 0) && RunsUpTo(affected, 0) == []
    ensures Files([]) == {}
  {
  }

  /** The next entry passes the checks exactly when its span may follow; if it does not, no
      scope exists. */
  lemma NextSpan(items: seq<Item>, from: int, k: nat)
    requires var affected := Affected(items, from); k < |affected| && GoodUpTo(affected, k)
    ensures var affected := Affected(items, from);
      && GoodSpans(affected, k)
      && (!HasSpan(affected[k]) ==> !Replannable(items, from))
      && (HasSpan(affected[k]) ==>
            var s, runs := SpanOf(affected[k]), RunsUpTo(affected, k);
            if MayFollow(runs, s) then
              GoodUpTo(affected, k + 1) && GoodSpans(affected, k + 1)
              && RunsUpTo(affected, k + 1) == Extend(runs, s)
              && Files(Extend(runs, s)) == Files(runs) + {s.file}
              && (runs != [] ==> runs[|runs| - 1].file in Files(runs))
            else !Replannable(items, from))
  {
    var affected := Affected(items, from);
    hide GapFree, Affected, MayFollow, GoodUpTo, Files, RunsUpTo;
    GoodIsGood(affected, k);
    if HasSpan(affected[k]) {
      OneMore(affected, k);
      FilesOfRuns(affected, k);
      LastFile(RunsUpTo(affected, k));
      if Replannable(items, from) { GapFreeMayFollow(affected, k); }
    }
  }

  lemma LastFile(runs: seq<Span>)
    ensures runs != [] ==> runs[|runs| - 1].file in Files(runs)
  {
  }

  lemma GoodIsGood(affected: seq<Item>, k: nat)
    requires k <= |affected| && GoodUpTo(affected, k)
    ensures GoodSpans(affected, k)
  {
  }

  lemma SpansOneMore(affected: seq<Item>, k: nat)
    requires k < |affected| && GoodSpans(affected, k) && HasSpan(affected[k])
    ensures SpansOf(affected[..k + 1]) == SpansOf(affected[..k]) + [SpanOf(affected[k])]
  {
    assert affected[..k + 1][..k] == affected[..k];
  }

  lemma OneMore(affected: seq<Item>, k: nat)
    requires k < |affected| && GoodUpTo(affected, k) && HasSpan(affected[k])
    ensures GoodSpans(affected, k) && GoodSpans(affected, k + 1)
    ensures RunsUpTo(affected, k + 1) == Extend(RunsUpTo(affected, k), SpanOf(affected[k]))
    ensures GoodUpTo(affected, k + 1) <==> MayFollow(RunsUpTo(affected, k), SpanOf(affected[k]))
  {
    hide GapFree, MayFollow, Extend;
    var s, spans := SpanOf(affected[k]), SpansOf(affected[..k]);
    SpansOneMore(affected, k);
    assert SpansOf(affected[..k + 1])[..k] == spans;
    GapFreeStep(spans, s);
  }

  lemma FilesOfRuns(affected: seq<Item>, k: nat)
    requires k < |affected| && GoodUpTo(affected, k) && HasSpan(affected[k])
    ensures GoodSpans(affected, k)
    ensures var runs := RunsUpTo(affected, k);
      Files(Extend(runs, SpanOf(affected[k]))) == Files(runs) + {SpanOf(affected[k]).file}
  {
    hide GapFree, Files;
    var s, spans := SpanOf(affected[k]), SpansOf(affected[..k]);
    SpansOneMore(affected, k);
    assert (spans + [s])[..k] == spans;
    RunsFiles(spans + [s]);
    RunsFiles(spans);
    FilesAppend(spans, s);
  }

  lemma GapFreeMayFollow(affected: seq<Item>, k: nat)
    requires k < |affected| && forall i :: 0 <= i < |affected| ==> HasSpan(affected[i])
    requires GapFree(SpansOf(affected))
    ensures MayFollow(RunsUpTo(affected, k), SpanOf(affected[k]))
  {
    assert GoodSpans(affected, k);
    var all := SpansOf(affected);
    SpansTake(affected, k);
    hide GapFree, MayFollow, SpansOf, HasSpan, GoodSpans;
    GapFreeTake(all, k);
    GapFreeTake(all, k + 1);
    GapFreeStep(all[..k], SpanOf(affected[k]));
  }

  lemma SpansTake(affected: seq<Item>, k: nat)
    requires k < |affected| && forall i :: 0 <= i < |affected| ==> HasSpan(affected[i])
    ensures SpansOf(affected)[..k] == SpansOf(affected[..k])
    ensures SpansOf(affected)[..k + 1] == SpansOf(affected)[..k] + [SpanOf(affected[k])]
  {
    hide SpansOf, SpanOf, HasSpan;
    var taken := affected[..k];
    assert forall i :: 0 <= i < k ==> taken[i] == affected[i];
    assert forall i :: 0 <= i < k ==> SpansOf(taken)[i] == SpansOf(affected)[i];
  }

  lemma NothingLeft(items: seq<Item>, from: int)
    requires var affected := Affected(items, from);
      GoodUpTo(affected, |affected|) && affected != [] && NumOf(affected[0]) == Some(from)
    requires UnanchoredNums(Affected(items, from)) == []
    ensures Replannable(items, from)
    ensures var affected := Affected(items, from);
      RunsUpTo(affected, |affected|) == Runs(SpansOf(affected))
  {
    var affected := Affected(items, from);
    assert affected[..|affected|] == affected;
    AffectedAreEntries(items, from);
    UnanchoredExact(affected);
  }
}
