/** Rebuilding the ledger from the derived episode files (`backfill_episode_ledger`). */
module Backfill {
  import opened Wrappers
  import opened Text
  import opened Ledger

  // ---------------------------------------------------------------- the file system

  /** A candidate source file, normalised. */
  datatype Doc = Doc(rel: string, text: string)

  /** What planning never writes: candidate sources in file-name order, other readable files,
      the scripts that exist, the episodes with step-1 drafts. */
  datatype Disk = Disk(sources: seq<Doc>, others: map<string, string>, scripts: set<Script>, drafts: set<int>)

  /** The files that stand for one episode number: `episode_{n}.txt`, and names with leading
      zeros in directory order.  An unreadable file reads as empty. */
  datatype Copies = Copies(canonical: Option<string>, padded: seq<string>)

  /** The derived files by number, and the left-over text of older projects. */
  datatype Dir = Dir(episodes: map<nat, Copies>, remaining: Option<string>)

  /** The one file `discover_episode_files` reports for a number: names with leading zeros
      sort before the plain one, except for number 0. */
  function Discovered(n: int, c: Copies): string {
    if c.padded != [] && (n != 0 || c.canonical.None?) then c.padded[0]
    else if c.canonical.Some? then c.canonical.value
    else ""
  }

  function FileText(dir: Dir, n: int): string {
    if n >= 0 && n in dir.episodes then Discovered(n, dir.episodes[n]) else ""
  }

  // ---------------------------------------------------------------- searching

  function IndexOf(sources: seq<Doc>, rel: string): (r: Option<nat>)
    ensures r.Some? ==> r.value < |sources| && sources[r.value].rel == rel
    ensures r.None? ==> forall i :: 0 <= i < |sources| ==> sources[i].rel != rel
  {
    if sources == [] then None
    else if sources[0].rel == rel then Some(0)
    else match IndexOf(sources[1..], rel) case Some(i) => Some(i + 1) case None => None
  }

  /** The preferred source first, then the others in order. */
  function SearchOrder(n: nat, preferred: Option<nat>): seq<nat> {
    if preferred.None? then UpTo(n) else [preferred.value] + Without(UpTo(n), preferred.value)
  }

  function UpTo(n: nat): (r: seq<nat>)
    ensures |r| == n && forall i :: 0 <= i < n ==> r[i] == i
  {
    if n == 0 then [] else UpTo(n - 1) + [n - 1]
  }

  function Without(s: seq<nat>, x: nat): seq<nat> {
    if s == [] then [] else (if s[0] == x then [] else [s[0]]) + Without(s[1..], x)
  }

  /** A match: which source, and where. */
  datatype Hit = Hit(doc: nat, start: nat)

  function SearchFrom(sources: seq<Doc>, starts: seq<nat>, order: seq<nat>, needle: string): (r: Option<Hit>)
    requires |starts| == |sources|
    ensures r.Some? ==> r.value.doc < |sources|
  {
    if order == [] then None
    else if order[0] < |sources| && Find(sources[order[0]].text, needle, starts[order[0]]) >= 0 then
      Some(Hit(order[0], Find(sources[order[0]].text, needle, starts[order[0]])))
    else SearchFrom(sources, starts, order[1..], needle)
  }

  /** Two passes: from each source's cursor, then from the beginning. */
  function FindInSources(sources: seq<Doc>, cursors: seq<nat>, preferred: Option<nat>, needle: string)
    : (r: Option<Hit>)
    requires |cursors| == |sources|
    ensures r.Some? ==> r.value.doc < |sources|
  {
    var order := SearchOrder(|sources|, preferred);
    var first := SearchFrom(sources, cursors, order, needle);
    if first.Some? then first else SearchFrom(sources, seq(|sources|, _ => 0), order, needle)
  }

  ghost predicate OccursSomewhere(sources: seq<Doc>, needle: string) {
    exists d, i :: 0 <= d < |sources| && 0 <= i && OccursAt(sources[d].text, needle, i)
  }

  ghost predicate Absent(text: string, needle: string, from: nat) {
    forall i :: from <= i ==> !OccursAt(text, needle, i)
  }

  lemma {:induction false} SearchFromExact(sources: seq<Doc>, starts: seq<nat>, order: seq<nat>, needle: string)
    requires |starts| == |sources|
    ensures SearchFrom(sources, starts, order, needle).None? <==>
      forall d :: d in order && d < |sources| ==> Absent(sources[d].text, needle, starts[d])
    ensures SearchFrom(sources, starts, order, needle).Some? ==>
      var h := SearchFrom(sources, starts, order, needle).value;
      h.doc < |sources| && OccursAt(sources[h.doc].text, needle, h.start)
  {
    if order != [] {
      var d := order[0];
      if d < |sources| {
        assert Find(sources[d].text, needle, starts[d]) == -1 <==> Absent(sources[d].text, needle, starts[d]);
      }
      hide Absent, OccursAt;
      SearchFromExact(sources, starts, order[1..], needle);
      assert forall x :: x in order <==> x == d || x in order[1..];
    }
  }

  lemma {:induction false} WithoutExact(s: seq<nat>, x: nat)
    ensures forall y :: y in Without(s, x) <==> y in s && y != x
  {
    if s != [] {
      WithoutExact(s[1..], x);
      assert s == [s[0]] + s[1..];
    }
  }

  lemma SearchOrderCovers(n: nat, preferred: Option<nat>)
    ensures forall d: nat :: d < n ==> d in SearchOrder(n, preferred)
  {
    forall d: nat | d < n
      ensures d in UpTo(n)
    {
      assert UpTo(n)[d] == d;
    }
    if preferred.Some? { WithoutExact(UpTo(n), preferred.value); }
  }

  /** The search answers exactly when some source contains the text, whatever the cursors and
      the preferred source are; what it answers is an occurrence. */
  lemma FindInSourcesExact(sources: seq<Doc>, cursors: seq<nat>, preferred: Option<nat>, needle: string)
    requires |cursors| == |sources|
    ensures FindInSources(sources, cursors, preferred, needle).Some? <==> OccursSomewhere(sources, needle)
    ensures FindInSources(sources, cursors, preferred, needle).Some? ==>
      var h := FindInSources(sources, cursors, preferred, needle).value;
      h.doc < |sources| && OccursAt(sources[h.doc].text, needle, h.start)
  {
    var order := SearchOrder(|sources|, preferred);
    SearchOrderCovers(|sources|, preferred);
    var zeros := seq(|sources|, _ => 0);
    SearchFromExact(sources, cursors, order, needle);
    SearchFromExact(sources, zeros, order, needle);
    if !OccursSomewhere(sources, needle) {
      forall d | 0 <= d < |sources|
        ensures Absent(sources[d].text, needle, cursors[d]) && Absent(sources[d].text, needle, zeros[d])
      {
      }
    } else {
      var d, i :| 0 <= d < |sources| && 0 <= i && OccursAt(sources[d].text, needle, i);
      assert !Absent(sources[d].text, needle, zeros[d]);
    }
  }

  // ---------------------------------------------------------------- backfilling

  predicate HasDownstream(disk: Disk, num: int, entry: Entry) {
    || (entry.script.Some? && entry.script.value in disk.scripts)
    || Canonical(num) in disk.scripts
    || num in disk.drafts
  }

  function Orphan(num: int): Item {
    Item(Entry(Int(num), "", "", Some(Canonical(num)), NoRange, None))
  }

  /** Entries for derived files that no entry accounts for, in number order. */
  function AddOrphans(items: seq<Item>, fileNums: seq<nat>): seq<Item> {
    if fileNums == [] then items
    else
      var before := AddOrphans(items, fileNums[..|fileNums| - 1]);
      var n := fileNums[|fileNums| - 1];
      if Has(items, n) then before else before + [Orphan(n)]
  }

  predicate Pending(items: seq<Item>) {
    exists i :: 0 <= i < |items| && PendingAt(items, i)
  }

  /** The first entry with its number, and no status yet. */
  predicate PendingAt(items: seq<Item>, i: nat)
    requires i < |items|
  {
    NumOf(items[i]).Some? && items[i].entry.status.None? && First(items, NumOf(items[i]).value) == i
  }

  datatype Scan = Scan(items: seq<Item>, cursors: seq<nat>, lastDoc: Option<nat>, lastEnd: Option<(string, int)>)

  predicate Fits(disk: Disk, scan: Scan) {
    |scan.cursors| == |disk.sources|
  }

  /** An entry that already has a status only moves the cursors forward. */
  function Follow(disk: Disk, scan: Scan, range: RawRange): (r: Scan)
    requires Fits(disk, scan)
    ensures Fits(disk, r) && r.items == scan.items
  {
    match range
    case RawRange(Some(f), _, Some(end)) =>
      var s := scan.(lastEnd := Some((f, end)));
      (match IndexOf(disk.sources, f)
       case Some(d) =>
         s.(cursors := s.cursors[d := if end > s.cursors[d] then end else s.cursors[d]], lastDoc := Some(d))
       case None => s)
    case _ => scan
  }

  /** Where the episode's file text sits in the sources, if anywhere. */
  function Anchor(disk: Disk, dir: Dir, scan: Scan, num: int): (r: Option<Hit>)
    requires Fits(disk, scan)
    ensures r.Some? ==> r.value.doc < |disk.sources|
  {
    if FileText(dir, num) == "" then None
    else FindInSources(disk.sources, scan.cursors, scan.lastDoc, FileText(dir, num))
  }

  function Visit(disk: Disk, dir: Dir, scan: Scan, num: int): (r: Scan)
    requires Fits(disk, scan)
    ensures Fits(disk, r) && |r.items| == |scan.items|
  {
    if !Has(scan.items, num) then scan
    else
      var i := First(scan.items, num);
      var e := scan.items[i].entry;
      if e.status.Some? then Follow(disk, scan, e.range)
      else
        match Anchor(disk, dir, scan, num)
        case None =>
          scan.(items := scan.items[i := Item(e.(range := NoRange, status := Some(Unanchored)))])
        case Some(Hit(d, start)) =>
          var end := start + |FileText(dir, num)|;
          var status := if HasDownstream(disk, num, e) then Consumed else Planned;
          Scan(scan.items[i := Item(e.(range := Full(disk.sources[d].rel, start, end), status := Some(status)))],
               scan.cursors[d := end], Some(d), Some((disk.sources[d].rel, end)))
  }

  function Walk(disk: Disk, dir: Dir, scan: Scan, nums: seq<int>): (r: Scan)
    requires Fits(disk, scan)
    ensures Fits(disk, r) && |r.items| == |scan.items|
  {
    if nums == [] then scan
    else Visit(disk, dir, Walk(disk, dir, scan, nums[..|nums| - 1]), nums[|nums| - 1])
  }

  /** The left-over text's position, unless it lies before the last anchored end. */
  function DeriveCursor(disk: Disk, dir: Dir, scan: Scan): RawCursor
    requires Fits(disk, scan)
  {
    var fallback := match scan.lastEnd case Some((f, end)) => RawCursor(Some(f), Some(end)) case None => Null;
    if dir.remaining.None? || dir.remaining.value == "" then fallback
    else
      match FindInSources(disk.sources, scan.cursors, scan.lastDoc, dir.remaining.value)
      case None => fallback
      case Some(Hit(d, start)) =>
        var rel := disk.sources[d].rel;
        if scan.lastEnd.Some? && rel == scan.lastEnd.value.0 && start < scan.lastEnd.value.1 then fallback
        else RawCursor(Some(rel), Some(start))
  }

  ghost function Opened(dir: Dir, p: Project): seq<Item> {
    SortIfPossible(AddOrphans(p.items, SortedNums(dir.episodes.Keys)))
  }

  ghost function Scanned(disk: Disk, dir: Dir, items: seq<Item>): (r: Scan)
    ensures Fits(disk, r) && |r.items| == |items|
  {
    Walk(disk, dir, Scan(items, seq(|disk.sources|, _ => 0), None, None), Numbers(items))
  }

  ghost function Backfilled(disk: Disk, dir: Dir, p: Project): Project {
    var items := Opened(dir, p);
    if !Pending(items) && p.cursor != Null then p.(items := items)
    else
      var scan := Scanned(disk, dir, items);
      p.(items := scan.items,
         cursor := if p.cursor == Null then DeriveCursor(disk, dir, scan) else p.cursor)
  }

  // ---------------------------------------------------------------- file numbers in order

  ghost predicate IsGreatest(m: nat, s: set<nat>) {
    m in s && forall x <- s :: x <= m
  }

  lemma {:induction false} HasGreatest(s: set<nat>)
    requires s != {}
    ensures exists m :: IsGreatest(m, s)
  {
    var y :| y in s;
    if s == {y} {
      assert IsGreatest(y, s);
    } else {
      var rest := s - {y};
      assert s == rest + {y};
      HasGreatest(rest);
      var m :| IsGreatest(m, rest);
      assert IsGreatest(if m < y then y else m, s);
    }
  }

  ghost function Greatest(s: set<nat>): (m: nat)
    requires s != {}
    ensures IsGreatest(m, s)
  {
    HasGreatest(s);
    var m :| IsGreatest(m, s);
    m
  }

  ghost function SortedNums(s: set<nat>): seq<nat>
    decreases |s|
  {
    if s == {} then [] else SortedNums(s - {Greatest(s)}) + [Greatest(s)]
  }

  lemma {:induction false} SortedNumsExact(s: set<nat>)
    ensures Ascending(SortedNums(s))
    ensures forall n: nat :: n in SortedNums(s) <==> n in s
    decreases |s|
  {
    if s != {} {
      var m := Greatest(s);
      SortedNumsExact(s - {m});
      var rest := SortedNums(s - {m});
      forall i | 0 <= i < |rest|
        ensures rest[i] < m
      {
        assert rest[i] in rest;
      }
      hide Ascending;
      AppendAscends(rest, m);
    }
  }

  // ---------------------------------------------------------------- the loop

  class SourceDoc {
    const rel: string
    const text: string
    var cursor: nat

    constructor (doc: Doc)
      ensures rel == doc.rel && text == doc.text && cursor == 0
    {
      rel, text, cursor := doc.rel, doc.text, 0;
    }
  }

  /** The objects stand for the sources, with these cursors. */
  ghost predicate Stand(docs: seq<SourceDoc>, sources: seq<Doc>, cursors: seq<nat>)
    reads docs
  {
    && |docs| == |sources| == |cursors|
    && (forall i, j :: 0 <= i < j < |docs| ==> docs[i] != docs[j])
    && forall i :: 0 <= i < |docs| ==>
         docs[i].rel == sources[i].rel && docs[i].text == sources[i].text && docs[i].cursor == cursors[i]
  }

  method DiscoverSources(sources: seq<Doc>) returns (docs: seq<SourceDoc>)
    ensures fresh(docs) && Stand(docs, sources, seq(|sources|, _ => 0))
  {
    docs := [];
    for i := 0 to |sources|
      invariant fresh(docs) && Stand(docs, sources[..i], seq(i, _ => 0))
    {
      var doc := new SourceDoc(sources[i]);
      docs := docs + [doc];
    }
    assert sources[..|sources|] == sources;
  }

  method SearchDocs(docs: seq<SourceDoc>, preferred: Option<nat>, needle: string, ghost sources: seq<Doc>,
                    ghost cursors: seq<nat>) returns (hit: Option<Hit>)
    requires Stand(docs, sources, cursors)
    ensures hit == FindInSources(sources, cursors, preferred, needle)
  {
    var order := SearchOrder(|docs|, preferred);
    for k := 0 to |order|
      invariant SearchFrom(sources, cursors, order, needle) == SearchFrom(sources, cursors, order[k..], needle)
    {
      if order[k] < |docs| {
        var at := Find(docs[order[k]].text, needle, docs[order[k]].cursor);
        if at >= 0 { return Some(Hit(order[k], at)); }
      }
    }
    for k := 0 to |order|
      invariant var zeros := seq(|sources|, _ => 0);
        SearchFrom(sources, zeros, order, needle) == SearchFrom(sources, zeros, order[k..], needle)
    {
      if order[k] < |docs| {
        var at := Find(docs[order[k]].text, needle, 0);
        if at >= 0 { return Some(Hit(order[k], at)); }
      }
    }
    return None;
  }

  /** Moves one source's cursor. */
  method SetCursor(docs: seq<SourceDoc>, d: nat, cursor: nat, ghost sources: seq<Doc>, ghost cursors: seq<nat>)
    requires Stand(docs, sources, cursors) && d < |docs|
    modifies docs[d]
    ensures Stand(docs, sources, cursors[d := cursor])
  {
    docs[d].cursor := cursor;
  }

  /** One number of the main loop, on the live documents. */
  method VisitEntry(disk: Disk, dir: Dir, docs: seq<SourceDoc>, num: int, items: seq<Item>,
                    lastDoc: Option<nat>, lastEnd: Option<(string, int)>, ghost scan: Scan)
    returns (items': seq<Item>, lastDoc': Option<nat>, lastEnd': Option<(string, int)>)
    requires Fits(disk, scan) && Stand(docs, disk.sources, scan.cursors)
    requires scan.items == items && scan.lastDoc == lastDoc && scan.lastEnd == lastEnd
    requires Has(items, num)
    modifies docs
    ensures var r := Visit(disk, dir, scan, num);
      && Stand(docs, disk.sources, r.cursors)
      && items' == r.items && lastDoc' == r.lastDoc && lastEnd' == r.lastEnd
  {
    items', lastDoc', lastEnd' := items, lastDoc, lastEnd;
    var i := First(items, num);
    var entry := items[i].entry;
    if entry.status.Some? {
      if entry.range.RawRange? && entry.range.file.Some? && entry.range.end.Some? {
        var rel, end := entry.range.file.value, entry.range.end.value;
        lastEnd' := Some((rel, end));
        var d := IndexOf(disk.sources, rel);
        if d.Some? {
          if end > docs[d.value].cursor {
            SetCursor(docs, d.value, end, disk.sources, scan.cursors);
          }
          lastDoc' := d;
        }
      }
      return;
    }
    var anchored: Option<Hit> := None;
    var text := FileText(dir, num);
    if text != "" {
      anchored := SearchDocs(docs, lastDoc, text, disk.sources, scan.cursors);
    }
    if anchored.None? {
      items' := items[i := Item(entry.(range := NoRange, status := Some(Unanchored)))];
      return;
    }
    FindInSourcesExact(disk.sources, scan.cursors, lastDoc, text);
    var Hit(d, start) := anchored.value;
    var end := start + |text|;
    var status := if HasDownstream(disk, num, entry) then Consumed else Planned;
    items' := items[i := Item(entry.(range := Full(docs[d].rel, start, end), status := Some(status)))];
    SetCursor(docs, d, end, disk.sources, scan.cursors);
    lastDoc', lastEnd' := Some(d), Some((docs[d].rel, end));
  }

  lemma GreatestIs(m: nat, s: set<nat>)
    requires IsGreatest(m, s)
    ensures Greatest(s) == m
  {
  }

  lemma GreatestStep(m: nat, s: set<nat>, x: nat)
    requires IsGreatest(m, s)
    ensures IsGreatest(if x > m then x else m, s + {x})
  {
  }

  method GreatestOf(s: set<nat>) returns (m: nat)
    requires s != {}
    ensures m == Greatest(s)
  {
    m :| m in s;
    var rest := s - {m};
    assert s - rest == {m};
    assert IsGreatest(m, {m});
    hide IsGreatest;
    while rest != {}
      invariant rest <= s && IsGreatest(m, s - rest)
      decreases |rest|
    {
      var x :| x in rest;
      GreatestStep(m, s - rest, x);
      assert s - (rest - {x}) == (s - rest) + {x};
      if x > m { m := x; }
      rest := rest - {x};
    }
    assert s - rest == s;
    GreatestIs(m, s);
  }

  /** `sorted(discover_episode_files(...))`: the numbers that have a file, ascending. */
  method ListEpisodeFiles(dir: Dir) returns (nums: seq<nat>)
    ensures nums == SortedNums(dir.episodes.Keys)
  {
    nums := [];
    var todo := dir.episodes.Keys;
    while todo != {}
      invariant SortedNums(todo) + nums == SortedNums(dir.episodes.Keys)
      decreases |todo|
    {
      var m := GreatestOf(todo);
      assert SortedNums(todo - {m}) + ([m] + nums) == (SortedNums(todo - {m}) + [m]) + nums;
      nums, todo := [m] + nums, todo - {m};
    }
  }

  method BackfillLedger(disk: Disk, dir: Dir, p: Project) returns (r: Project)
    ensures r == Backfilled(disk, dir, p)
  {
    hide SortedNums, Visit, Walk, DeriveCursor, Stand;
    var fileNums := ListEpisodeFiles(dir);
    var items := p.items;
    for k := 0 to |fileNums|
      invariant items == AddOrphans(p.items, fileNums[..k])
    {
      assert fileNums[..k + 1][..k] == fileNums[..k];
      if !Has(p.items, fileNums[k]) { items := items + [Orphan(fileNums[k])]; }
    }
    assert fileNums[..|fileNums|] == fileNums;
    items := SortIfPossible(items);
    r := p.(items := items);
    if !Pending(items) && p.cursor != Null { return; }
    var docs := DiscoverSources(disk.sources);
    var lastDoc: Option<nat>, lastEnd: Option<(string, int)> := None, None;
    var nums := Numbers(items);
    ghost var scan := Scan(items, seq(|disk.sources|, _ => 0), None, None);
    ghost var start := scan;
    WalkNothing(disk, dir, scan);
    for k := 0 to |nums|
      invariant fresh(docs) && Fits(disk, scan) && Stand(docs, disk.sources, scan.cursors)
      invariant scan == Walk(disk, dir, start, nums[..k])
      invariant scan.items == items && scan.lastDoc == lastDoc && scan.lastEnd == lastEnd
    {
      assert nums[..k + 1][..k] == nums[..k];
      WalkStep(disk, dir, start, nums[..k + 1]);
      NumbersStay(disk, dir, start, nums, k);
      items, lastDoc, lastEnd := VisitEntry(disk, dir, docs, nums[k], items, lastDoc, lastEnd, scan);
      scan := Visit(disk, dir, scan, nums[k]);
    }
    assert nums[..|nums|] == nums;
    r := r.(items := items);
    if p.cursor == Null {
      var cursor := DerivedCursor(disk, dir, docs, lastDoc, lastEnd, scan);
      r := r.(cursor := cursor);
    }
  }

  method DerivedCursor(disk: Disk, dir: Dir, docs: seq<SourceDoc>, lastDoc: Option<nat>,
                       lastEnd: Option<(string, int)>, ghost scan: Scan) returns (cursor: RawCursor)
    requires Fits(disk, scan) && Stand(docs, disk.sources, scan.cursors)
    requires scan.lastDoc == lastDoc && scan.lastEnd == lastEnd
    ensures cursor == DeriveCursor(disk, dir, scan)
  {
    if dir.remaining.Some? && dir.remaining.value != "" {
      var found := SearchDocs(docs, lastDoc, dir.remaining.value, disk.sources, scan.cursors);
      FindInSourcesExact(disk.sources, scan.cursors, lastDoc, dir.remaining.value);
      if found.Some? {
        var Hit(d, start) := found.value;
        var rewinds := lastEnd.Some? && docs[d].rel == lastEnd.value.0 && start < lastEnd.value.1;
        if !rewinds { return RawCursor(Some(docs[d].rel), Some(start)); }
      }
    }
    if lastEnd.Some? { return RawCursor(Some(lastEnd.value.0), Some(lastEnd.value.1)); }
    return Null;
  }

  lemma WalkNothing(disk: Disk, dir: Dir, scan: Scan)
    requires Fits(disk, scan)
    ensures Walk(disk, dir, scan, []) == scan
  {
  }

  lemma WalkStep(disk: Disk, dir: Dir, scan: Scan, nums: seq<int>)
    requires Fits(disk, scan) && nums != []
    ensures Walk(disk, dir, scan, nums) ==
      Visit(disk, dir, Walk(disk, dir, scan, nums[..|nums| - 1]), nums[|nums| - 1])
  {
  }

  // ---------------------------------------------------------------- what a walk keeps

  ghost predicate SameNums(a: seq<Item>, b: seq<Item>) {
    |a| == |b| && forall i :: 0 <= i < |a| ==> NumOf(a[i]) == NumOf(b[i])
  }

  lemma {:induction false} SameNumsSameFirst(a: seq<Item>, b: seq<Item>)
    requires SameNums(a, b)
    ensures forall n :: Has(a, n) <==> Has(b, n)
    ensures forall n :: Has(a, n) ==> First(a, n) == First(b, n)
    ensures Numbers(a) == Numbers(b)
  {
    forall n
      ensures Has(a, n) <==> Has(b, n)
      ensures Has(a, n) ==> First(a, n) == First(b, n)
    {
      if Has(a, n) { FirstIs(b, n, First(a, n)); }
      if Has(b, n) { FirstIs(a, n, First(b, n)); }
    }
    NumbersExact(a);
    NumbersExact(b);
    AscendingUnique(Numbers(a), Numbers(b));
  }

  lemma VisitKeepsNums(disk: Disk, dir: Dir, scan: Scan, num: int)
    requires Fits(disk, scan)
    ensures SameNums(scan.items, Visit(disk, dir, scan, num).items)
  {
  }

  lemma {:induction false} WalkKeepsNums(disk: Disk, dir: Dir, scan: Scan, nums: seq<int>)
    requires Fits(disk, scan)
    ensures SameNums(scan.items, Walk(disk, dir, scan, nums).items)
  {
    if nums != [] {
      hide Visit;
      WalkKeepsNums(disk, dir, scan, nums[..|nums| - 1]);
      VisitKeepsNums(disk, dir, Walk(disk, dir, scan, nums[..|nums| - 1]), nums[|nums| - 1]);
    }
  }

  lemma NumbersStay(disk: Disk, dir: Dir, scan: Scan, nums: seq<int>, k: nat)
    requires Fits(disk, scan) && nums == Numbers(scan.items) && k < |nums|
    ensures Has(Walk(disk, dir, scan, nums[..k]).items, nums[k])
  {
    WalkKeepsNums(disk, dir, scan, nums[..k]);
    SameNumsSameFirst(scan.items, Walk(disk, dir, scan, nums[..k]).items);
    NumbersExact(scan.items);
    var n := nums[k];
    assert n in nums;
  }
}
