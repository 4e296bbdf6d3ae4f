/** What happens when an episode's file goes by two names, such as `episode_2.txt` and
    `episode_02.txt`, and a commit drops its number. */
module SecondNames {
  import opened Wrappers
  import opened Text
  import opened Boundaries
  import opened Ledger
  import opened Backfill
  import opened BackfillLaws
  import opened ReplanScope
  import opened Reconcile
  import opened Planner
  import opened PlanningCalls
  import opened Tiling
  import opened PlannerLaws

  /** A number that a commit leaves out of the ledger comes back with the next backfill if and
      only if its file went by more than one name; then, if that file's text still occurs in a
      source, it comes back with a range of its own, where that text occurs. */
  lemma SecondNameComesBack(disk: Disk, dir: Dir, clean: string -> string, p: Project, n: nat)
    requires AllSliceable(disk, p.items) && !Has(p.items, n)
    ensures var left := ReconciledDir(disk, clean, p.items, dir);
      var q := Backfilled(disk, left, p).items;
      && (Has(q, n) <==> n in dir.episodes && CopyCount(dir.episodes[n]) > 1)
      && (Has(q, n) && FileText(left, n) != "" && OccursSomewhere(disk.sources, FileText(left, n)) ==>
            HasSpan(q[First(q, n)]) && IsTextOf(disk, SpanOf(q[First(q, n)]), FileText(left, n)))
  {
    var left := ReconciledDir(disk, clean, p.items, dir);
    ReconcileLeaves(disk, clean, p.items, dir, n);
    BackfillNumbers(disk, left, p, n);
    hide ReconciledDir, Backfilled, Opened, OccursSomewhere, FileText, CopyCount;
    if n in left.episodes {
      NewcomerIsPending(left, p, n);
      AnchoringIsSound(disk, left, p, n);
    }
  }

  /** The span is a place in some source where the text stands. */
  ghost predicate IsTextOf(disk: Disk, s: Span, text: string) {
    s.end == s.start + |text| &&
    exists d: nat, start: nat :: IsPlaceOf(disk, text, d, start) && s.file == disk.sources[d].rel && s.start == start
  }

  // ---------------------------------------------------------------- a character in two episodes

  /** Two entries that hold the same character are enough: no ledger with them is tiled. */
  lemma SharedCharacterBreaksTiling(disk: Disk, items: seq<Item>, i: nat, j: nat, file: string, o: int, start: Place)
    requires i < j < |items| && HasSpan(items[i]) && HasSpan(items[j])
    requires ReplanScope.Holds(SpanOf(items[i]), file, o) && ReplanScope.Holds(SpanOf(items[j]), file, o)
    ensures !TiledTo(disk, items, start)
  {
    var head, tail := items[..i], items[i + 1..];
    assert items == (head + [items[i]]) + tail;
    SpansConcat(head + [items[i]], tail);
    SpansConcat(head, [items[i]]);
    assert Spans([items[i]]) == [SpanOf(items[i])] by { assert [items[i]][..0] == []; }
    assert tail[j - i - 1] == items[j];
    SpanListed(tail, j - i - 1);
    var k :| 0 <= k < |Spans(tail)| && Spans(tail)[k] == SpanOf(items[j]);
    var m := |Spans(head)|;
    hide Spans;
    assert Spans(items)[m] == SpanOf(items[i]) && Spans(items)[m + 1 + k] == SpanOf(items[j]);
    SharedSpan(disk, items, start, m, m + 1 + k, file, o);
  }

  lemma SharedSpan(disk: Disk, items: seq<Item>, start: Place, m: nat, n: nat, file: string, o: int)
    requires m < n < |Spans(items)|
    requires ReplanScope.Holds(Spans(items)[m], file, o) && ReplanScope.Holds(Spans(items)[n], file, o)
    ensures !TiledTo(disk, items, start)
  {
    hide Spans, CoveredUpTo;
  }

  /** A number that comes back over text another episode already has breaks the tiling for good. */
  lemma ComebackBreaksTiling(disk: Disk, dir: Dir, p: Project, n: int, i: nat, file: string, o: int)
    requires i < |p.items| && !Has(p.items, n)
    requires HasSpan(p.items[i]) && p.items[i].entry.status.Some?
    requires ReplanScope.Holds(SpanOf(p.items[i]), file, o)
    requires var q := Backfilled(disk, dir, p).items;
      Has(q, n) && HasSpan(q[First(q, n)]) && ReplanScope.Holds(SpanOf(q[First(q, n)]), file, o)
    ensures forall start :: !TiledTo(disk, Backfilled(disk, dir, p).items, start)
  {
    var x, q := p.items[i], Backfilled(disk, dir, p).items;
    BackfillProtects(disk, dir, p, x);
    assert x in multiset(p.items);
    assert x in multiset(q);
    var j :| 0 <= j < |q| && q[j] == x;
    var f := First(q, n);
    assert j != f by { assert NumOf(p.items[i]) != Some(n); }
    hide Backfilled, TiledTo, HasSpan, SpanOf, Has;
    forall start
      ensures !TiledTo(disk, q, start)
    {
      if j < f {
        SharedCharacterBreaksTiling(disk, q, j, f, file, o, start);
      } else {
        SharedCharacterBreaksTiling(disk, q, f, j, file, o, start);
      }
    }
  }

  // ---------------------------------------------------------------- an example

  const NOVEL := "source/novel.txt"

  /** One source of four letters, planned as two episodes of two letters each. */
  function ExampleDisk(): Disk {
    Disk([Doc(NOVEL, "abcd")], map[], {}, {})
  }

  function ExampleEntry(n: int, start: int, end: int): Item {
    Item(Entry(Int(n), "", "", Some(Canonical(n)), Full(NOVEL, start, end), Some(Planned)))
  }

  function ExampleLedger(): Project {
    Project([ExampleEntry(1, 0, 2), ExampleEntry(2, 2, 4)], RawCursor(Some(NOVEL), Some(4)), 0, 0)
  }

  /** `episode_1.txt`, and the second episode as `episode_2.txt` and as `episode_02.txt`. */
  function ExampleFiles(): Dir {
    Dir(map[1 := Copies(Some("ab"), []), 2 := Copies(Some("cd"), ["cd"])], None)
  }

  /** A replan from episode 1 that makes one episode of the whole text. */
  function ExampleTicket(): ReplanTicket {
    ReplanTicket(1, ExampleLedger().items, [Piece(ExampleDraft(), Span(NOVEL, 0, 4))])
  }

  function ExampleDraft(): Draft {
    Draft("", "", "cd")
  }

  lemma ExampleGood()
    ensures GoodItems(ExampleLedger().items)
    ensures Spans(ExampleLedger().items) == [Span(NOVEL, 0, 2), Span(NOVEL, 2, 4)]
    ensures SpansOf(ExampleLedger().items) == [Span(NOVEL, 0, 2), Span(NOVEL, 2, 4)]
    ensures FilesListed(ExampleFiles(), ExampleLedger().items)
  {
    var items := ExampleLedger().items;
    assert items[..1] == [ExampleEntry(1, 0, 2)] && items[..1][..0] == [];
    assert NumOf(items[0]) == Some(1) && NumOf(items[1]) == Some(2);
    assert Has(items, 1) && Has(items, 2);
  }

  lemma ExampleTiled()
    ensures Tiled(ExampleDisk(), ExampleFiles(), ExampleLedger())
  {
    var disk, p := ExampleDisk(), ExampleLedger();
    ExampleGood();
    LastAnchoredIsLastSpan(p.items);
    assert IndexOf(disk.sources, NOVEL) == Some(0);
    assert StartOf(disk, p) == Some(Place(NOVEL, 4));
    hide Spans, GoodItems, FilesListed;
    forall d: nat, o: nat | Solid(disk.sources, d, o) && Base(disk.sources, d) + o < 4
      ensures Covers(Spans(p.items), disk.sources[d].rel, o)
    {
      assert ReplanScope.Holds(Spans(p.items)[if o < 2 then 0 else 1], NOVEL, o);
    }
  }

  lemma ExampleAnchor()
    ensures Occurrences("abcd", "cd", 0) == [2]
  {
    var text, needle := "abcd", "cd";
    assert text[0..2] == "ab" && text[1..3] == "bc" && text[2..4] == "cd";
    assert Occurrences(text, needle, 3) == [];
    assert Occurrences(text, needle, 2) == [2] + Occurrences(text, needle, 3);
    assert Occurrences(text, needle, 1) == [] + Occurrences(text, needle, 2);
    assert Occurrences(text, needle, 0) == [] + Occurrences(text, needle, 1);
  }

  lemma ExampleCut()
    ensures IsCut(ExampleDisk(), Span(NOVEL, 0, 4), ExampleTicket().pieces)
  {
    var disk, s := ExampleDisk(), Span(NOVEL, 0, 4);
    var drafts, ends := [ExampleDraft()], [4 as nat];
    var window := "abcd";
    assert Load(disk, NOVEL) == Some(window) && window[0..4] == window;
    ExampleAccepted();
    hide Acceptable, AreEnds, Advancing;
    assert drafts[..0] == [] && ends[..0] == [];
    assert CutUp(NOVEL, 0, drafts, ends) == ExampleTicket().pieces;
    assert CutsInto(disk, s, drafts, ends, ExampleTicket().pieces);
  }

  lemma ExampleAccepted()
    ensures WellFormed([ExampleDraft()]) && Acceptable("abcd", [ExampleDraft()], true)
    ensures AreEnds("abcd", [ExampleDraft()], true, [4 as nat])
  {
    ExampleAnchor();
    hide Occurrences;
    assert "abcd"[4..] == "";
  }

  lemma ExampleAffected()
    ensures Below(ExampleLedger().items, 1) == 0
    ensures Affected(ExampleLedger().items, 1) == ExampleLedger().items
  {
    var items := ExampleLedger().items;
    ExampleGood();
    assert Num(items[0]) == 1;
    hide GoodItems, Below, Num, Affected;
    AffectedIsSuffix(items, 1);
    BelowExact(items, 1);
    assert items[0..] == items;
  }

  lemma ExampleRuns()
    ensures Runs([Span(NOVEL, 0, 2), Span(NOVEL, 2, 4)]) == [Span(NOVEL, 0, 4)]
    ensures GapFree([Span(NOVEL, 0, 2), Span(NOVEL, 2, 4)])
  {
    var spans := [Span(NOVEL, 0, 2), Span(NOVEL, 2, 4)];
    assert spans[..1] == [Span(NOVEL, 0, 2)] && spans[..1][..0] == [];
    assert Runs(spans[..1]) == [Span(NOVEL, 0, 2)];
  }

  lemma MakesReplannable(items: seq<Item>, from: int)
    requires Affected(items, from) == items && items != [] && NumOf(items[0]) == Some(from)
    requires forall i :: 0 <= i < |items| ==>
      items[i].Item? && HasSpan(items[i]) && items[i].entry.status != Some(Unanchored)
    requires GapFree(SpansOf(items))
    ensures Replannable(items, from) && AllReadable(items)
  {
    hide HasSpan, GapFree, SpansOf, Affected, AllReadable, NumOf;
  }

  lemma ExampleReplannable()
    ensures Replannable(ExampleLedger().items, 1)
    ensures AllReadable(ExampleLedger().items)
  {
    ExampleAffected();
    ExampleGood();
    ExampleRuns();
    hide Affected, GapFree, SpansOf, GoodItems, Spans, FilesListed, Runs, Below, Replannable;
    MakesReplannable(ExampleLedger().items, 1);
  }

  lemma ExampleRecut()
    ensures Recuts(ExampleDisk(), [Span(NOVEL, 0, 4)], ExampleTicket().pieces)
  {
    var slices, pieces := [Span(NOVEL, 0, 4)], ExampleTicket().pieces;
    ExampleCut();
    NothingRecut(ExampleDisk());
    assert slices[..0] == [] && slices[..1] == slices && [] + pieces == pieces;
    hide Recuts, IsCut;
    RecutStep(ExampleDisk(), slices, 0, [], pieces);
  }

  lemma ExampleSound()
    ensures Redrafted(ExampleDisk(), ExampleLedger().items, ExampleTicket())
    ensures StillAsSeen(ExampleLedger().items, ExampleTicket())
  {
    ExampleAffected();
    ExampleGood();
    ExampleRuns();
    ExampleRecut();
    ExampleReplannable();
    hide Affected, SpansOf, GapFree, Recuts, Replannable, Runs, RangesOf, ConsumedNums, GoodItems, Spans,
      FilesListed, Below, AllReadable;
  }

  /** The example's replan goes through, but leaves `episode_2.txt` behind. */
  lemma ExampleCommit(clean: string -> string) returns (c: Committed)
    ensures ReplanCommit(ExampleDisk(), ExampleFiles(), clean, ExampleLedger(), ExampleTicket()) == Ok(c)
    ensures |c.project.items| == 1 && NumOf(c.project.items[0]) == Some(1)
    ensures HasSpan(c.project.items[0]) && SpanOf(c.project.items[0]) == Span(NOVEL, 0, 4)
    ensures c.project.items[0].entry.status.Some?
    ensures AllSliceable(ExampleDisk(), c.project.items)
    ensures c.dir == ReconciledDir(ExampleDisk(), clean, c.project.items, ExampleFiles())
    ensures 2 in c.dir.episodes && FileText(c.dir, 2) == "cd"
  {
    var disk, dir, p, t := ExampleDisk(), ExampleFiles(), ExampleLedger(), ExampleTicket();
    ExampleTiled();
    ExampleSound();
    ReplanKeepsTiled(disk, dir, clean, p, t, p.items);
    c := ReplanCommit(disk, dir, clean, p, t).value;
    ExampleAffected();
    hide Tiled, Redrafted, StillAsSeen, StartOf, TiledTo;
    NewItemIsGood(t.pieces[0], 1, OldEntry(p.items[0..], 1));
    assert c.project.items == NewEntries(t.pieces, 1, p.items[0..]);
    CommittedDir(disk, dir, clean, p, t, c);
    LeftBehind(disk, dir, clean, c.project.items);
  }

  lemma CommittedDir(disk: Disk, dir: Dir, clean: string -> string, p: Project, t: ReplanTicket, c: Committed)
    requires AllReadable(t.affected) && ReplanCommit(disk, dir, clean, p, t) == Ok(c)
    ensures AllSliceable(disk, c.project.items) && c.dir == ReconciledDir(disk, clean, c.project.items, dir)
  {
  }

  lemma LeftBehind(disk: Disk, dir: Dir, clean: string -> string, items: seq<Item>)
    requires AllSliceable(disk, items) && dir == ExampleFiles()
    requires |items| == 1 && NumOf(items[0]) == Some(1)
    ensures var left := ReconciledDir(disk, clean, items, dir);
      2 in left.episodes && FileText(left, 2) == "cd"
  {
    assert OwnsNothing(items, 2) && !Has(items, 2);
    WriteAllExact(disk, clean, items, dir.episodes, 2, 0);
    var written := WriteAll(disk, clean, items, dir.episodes);
    assert Get(written, 2) == Some(Copies(Some("cd"), ["cd"]));
    assert ["cd"][1..] == [];
    assert Unlink(2, written[2]) == Some(Copies(Some("cd"), []));
  }

  /** A tiled ledger, a sound replan, and after its commit the next backfill brings episode 2 back
      over text that is now episode 1's: the ledger is tiled to no place at all. */
  lemma SecondNameBreaksTiling(clean: string -> string)
    ensures Tiled(ExampleDisk(), ExampleFiles(), ExampleLedger())
    ensures Redrafted(ExampleDisk(), ExampleLedger().items, ExampleTicket())
    ensures var r := ReplanCommit(ExampleDisk(), ExampleFiles(), clean, ExampleLedger(), ExampleTicket());
      && r.Ok? && !Tiled(ExampleDisk(), r.value.dir, r.value.project)
      && var q := Backfilled(ExampleDisk(), r.value.dir, r.value.project).items;
        && Has(q, 2) && HasSpan(q[First(q, 2)]) && SpanOf(q[First(q, 2)]) == Span(NOVEL, 2, 4)
        && forall start :: !TiledTo(ExampleDisk(), q, start)
  {
    hide Tiled, TiledTo, Redrafted, ReplanCommit, Backfilled, ReconciledDir, OccursSomewhere, AllSliceable,
      FileText, First, IsTextOf, ExampleDisk, ExampleLedger, ExampleTicket;
    ExampleTiled();
    ExampleSound();
    var c := ExampleCommit(clean);
    ExampleOccurs();
    ExampleComesBack(clean, c.dir, c.project);
    NotListed(ExampleDisk(), c.dir, c.project, 2);
  }

  lemma ExampleComesBack(clean: string -> string, left: Dir, p: Project)
    requires |p.items| == 1 && NumOf(p.items[0]) == Some(1) && p.items[0].entry.status.Some?
    requires HasSpan(p.items[0]) && SpanOf(p.items[0]) == Span(NOVEL, 0, 4)
    requires AllSliceable(ExampleDisk(), p.items)
    requires left == ReconciledDir(ExampleDisk(), clean, p.items, ExampleFiles()) && FileText(left, 2) == "cd"
    requires OccursSomewhere(ExampleDisk().sources, "cd")
    ensures !Has(p.items, 2)
    ensures var q := Backfilled(ExampleDisk(), left, p).items;
      && Has(q, 2) && HasSpan(q[First(q, 2)]) && SpanOf(q[First(q, 2)]) == Span(NOVEL, 2, 4)
      && forall start :: !TiledTo(ExampleDisk(), q, start)
  {
    hide Backfilled, TiledTo, ReconciledDir, OccursSomewhere, AllSliceable, FileText, IsTextOf, ExampleDisk;
    assert CopyCount(ExampleFiles().episodes[2]) == 2;
    SecondNameComesBack(ExampleDisk(), ExampleFiles(), clean, p, 2);
    var q := Backfilled(ExampleDisk(), left, p).items;
    PlaceOfCd(SpanOf(q[First(q, 2)]));
    ComebackBreaksTiling(ExampleDisk(), left, p, 2, 0, NOVEL, 2);
  }

  lemma NotListed(disk: Disk, dir: Dir, p: Project, n: nat)
    requires n in dir.episodes && !Has(p.items, n)
    ensures !Tiled(disk, dir, p)
  {
  }

  lemma ExampleOccurs()
    ensures OccursSomewhere(ExampleDisk().sources, "cd")
  {
    var text := "abcd";
    assert text[2..4] == "cd";
    assert OccursAt(ExampleDisk().sources[0].text, "cd", 2);
  }

  lemma PlaceOfCd(s: Span)
    requires IsTextOf(ExampleDisk(), s, "cd")
    ensures s == Span(NOVEL, 2, 4)
  {
    var d: nat, start: nat :| IsPlaceOf(ExampleDisk(), "cd", d, start)
      && s.file == ExampleDisk().sources[d].rel && s.start == start;
    var text := "abcd";
    assert OccursAt(text, "cd", start);
    assert text[0..2] == "ab" && text[1..3] == "bc";
    assert start == 2 by { assert text[start..start + 2][0] == 'c'; }
  }
}
