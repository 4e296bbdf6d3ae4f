/** Planning the next episodes and replanning a suffix of the ledger: read a snapshot, think,
    commit under the project lock (lib/episode_planner.py). */
module Planner {
  import opened Wrappers
  import opened Text
  import opened Boundaries
  import opened Ledger
  import opened Backfill
  import opened ReplanScope
  import opened Reconcile

  const DEFAULT_PLANNING_WINDOW_CHARS := 30000
  const DEFAULT_PLANNING_MAX_EPISODES := 20

  /** `_setting_int`: 0 stands for a missing or unusable value. */
  function Setting(value: nat, default: nat): (r: nat)
    ensures value >= 1 ==> r == value
    ensures value == 0 ==> r == default
  {
    if value >= 1 then value else default
  }

  /** `s[from:to]` as Python cuts it: negative bounds count from the end, others are capped. */
  function PySlice(s: string, from: int, to: int): string {
    var lo, hi := PyIndex(|s|, from), PyIndex(|s|, to);
    if lo < hi then s[lo..hi] else ""
  }

  function PyIndex(length: nat, i: int): (r: nat)
    ensures r <= length
  {
    if i > length then length
    else if i >= 0 then i
    else if length + i >= 0 then length + i
    else 0
  }

  // ---------------------------------------------------------------- where planning goes on

  datatype Place = Place(file: string, offset: int)

  datatype Anchored = Anchored(num: int, file: string, end: int)

  predicate Points(item: Item) {
    NumOf(item).Some? && item.entry.range.RawRange?
    && item.entry.range.file.Some? && item.entry.range.end.Some?
  }

  function AnchoredAt(item: Item): Anchored
    requires Points(item)
  {
    Anchored(NumOf(item).value, item.entry.range.file.value, item.entry.range.end.value)
  }

  function LastAnchored(items: seq<Item>): Option<Anchored> {
    if items == [] then None
    else
      var before, last := LastAnchored(items[..|items| - 1]), items[|items| - 1];
      if Points(last) && (before.None? || AnchoredAt(last).num > before.value.num) then Some(AnchoredAt(last))
      else before
  }

  /** The first of the entries with the greatest number that say where they end. */
  ghost predicate IsLastAnchored(items: seq<Item>, i: nat) {
    && i < |items| && Points(items[i])
    && forall j :: 0 <= j < |items| && Points(items[j]) ==>
         && AnchoredAt(items[j]).num <= AnchoredAt(items[i]).num
         && (j < i ==> AnchoredAt(items[j]).num < AnchoredAt(items[i]).num)
  }

  lemma {:induction false} LastAnchoredExact(items: seq<Item>)
    ensures LastAnchored(items).None? <==> forall i :: 0 <= i < |items| ==> !Points(items[i])
    ensures LastAnchored(items).Some? ==>
      exists i: nat :: IsLastAnchored(items, i) && LastAnchored(items).value == AnchoredAt(items[i])
  {
    if items != [] {
      var butLast, last := items[..|items| - 1], items[|items| - 1];
      hide Points, AnchoredAt;
      LastAnchoredExact(butLast);
      if LastAnchored(butLast).Some? {
        var i: nat :| IsLastAnchored(butLast, i) && LastAnchored(butLast).value == AnchoredAt(butLast[i]);
        LastAnchoredStep(items, i);
      } else if Points(last) {
        assert IsLastAnchored(items, |items| - 1);
      }
    }
  }

  lemma LastAnchoredStep(items: seq<Item>, i: nat)
    requires items != [] && IsLastAnchored(items[..|items| - 1], i)
    ensures var last := items[|items| - 1];
      if Points(last) && AnchoredAt(last).num > AnchoredAt(items[i]).num then IsLastAnchored(items, |items| - 1)
      else IsLastAnchored(items, i)
  {
    hide Points, AnchoredAt;
    var butLast := items[..|items| - 1];
    assert forall j :: 0 <= j < |butLast| ==> butLast[j] == items[j];
  }

  /** A cursor that planning may use. */
  function Usable(cursor: RawCursor): Option<Place> {
    match cursor
    case RawCursor(Some(f), Some(o)) => if o >= 0 then Some(Place(f, o)) else None
    case _ => None
  }

  /** The later of the last anchored end and the cursor, in source order; a file that is no
      candidate source loses to one that is. */
  function Later(sources: seq<Doc>, last: Place, cur: Place): Place {
    if cur.file == last.file then Place(last.file, if cur.offset > last.offset then cur.offset else last.offset)
    else
      var l, c := IndexOf(sources, last.file), IndexOf(sources, cur.file);
      if l.None? then (if c.Some? then cur else last)
      else if c.None? || c.value < l.value then last
      else cur
  }

  /** `p` comes no earlier than `q` when the sources are read in order. */
  predicate NoEarlier(sources: seq<Doc>, p: Place, q: Place) {
    var i, j := IndexOf(sources, p.file), IndexOf(sources, q.file);
    i.Some? && j.Some? && (i.value > j.value || (i.value == j.value && p.offset >= q.offset))
  }

  /** Of two places in the sources the later is taken; a place outside them loses to one inside,
      and of two outside the last anchored end is taken. */
  lemma LaterIsLatest(sources: seq<Doc>, last: Place, cur: Place)
    ensures var r, l, c := Later(sources, last, cur), IndexOf(sources, last.file), IndexOf(sources, cur.file);
      && (r == last || r == cur)
      && (l.Some? && c.Some? ==> NoEarlier(sources, r, last) && NoEarlier(sources, r, cur))
      && (l.Some? && c.None? ==> r == last)
      && (l.None? && c.Some? ==> r == cur)
      && (l.None? && c.None? && last.file != cur.file ==> r == last)
  {
  }

  /** `_effective_start`; None when there is nothing to plan from. */
  function EffectiveStart(sources: seq<Doc>, items: seq<Item>, cursor: RawCursor): Option<Place> {
    match (LastAnchored(items), Usable(cursor))
    case (Some(a), Some(cur)) => Some(Later(sources, Place(a.file, a.end), cur))
    case (Some(a), None) => Some(Place(a.file, a.end))
    case (None, Some(cur)) => Some(cur)
    case (None, None) => if sources == [] then None else Some(Place(sources[0].rel, 0))
  }

  method FindEffectiveStart(sources: seq<Doc>, items: seq<Item>, cursor: RawCursor) returns (r: Option<Place>)
    ensures r == EffectiveStart(sources, items, cursor)
  {
    var last: Option<Place> := None;
    var best: Option<int> := None;
    for k := 0 to |items|
      invariant match LastAnchored(items[..k])
        case None => last.None? && best.None?
        case Some(a) => last == Some(Place(a.file, a.end)) && best == Some(a.num)
    {
      assert items[..k + 1][..k] == items[..k];
      if Points(items[k]) && (best.None? || NumOf(items[k]).value > best.value) {
        best := NumOf(items[k]);
        last := Some(Place(items[k].entry.range.file.value, items[k].entry.range.end.value));
      }
    }
    assert items[..|items|] == items;
    var cur := Usable(cursor);
    if last.Some? && cur.Some? { return Some(Later(sources, last.value, cur.value)); }
    if last.Some? { return last; }
    if cur.Some? { return cur; }
    if sources == [] { return None; }
    return Some(Place(sources[0].rel, 0));
  }

  // ---------------------------------------------------------------- opening a window

  /** What a planning call reads: where it starts from, and the first place from there that has
      more than blanks after it. */
  datatype Opening = Exhausted | Opening(ref: Place, file: string, start: int, text: string)

  datatype OpenError = NoSource | Unreadable | PastEnd

  ghost predicate DistinctRels(sources: seq<Doc>) {
    forall i, j :: 0 <= i < j < |sources| ==> sources[i].rel != sources[j].rel
  }

  function NextSource(sources: seq<Doc>, rel: string): Option<string> {
    match IndexOf(sources, rel)
    case Some(d) => if d + 1 < |sources| then Some(sources[d + 1].rel) else None
    case None => None
  }

  /** The first source from `d` on that is not blank. */
  function SkipBlank(sources: seq<Doc>, d: nat): (r: Option<nat>)
    ensures r.Some? ==> d <= r.value < |sources| && !Blank(sources[r.value].text)
    ensures forall i :: d <= i < |sources| && (r.Some? ==> i < r.value) ==> Blank(sources[i].text)
    decreases |sources| - d
  {
    if d >= |sources| then None
    else if !Blank(sources[d].text) then Some(d)
    else SkipBlank(sources, d + 1)
  }

  function Open(disk: Disk, ref: Place): Result<Opening, OpenError> {
    match Load(disk, ref.file)
    case None => Err(Unreadable)
    case Some(text) =>
      if ref.offset > |text| then Err(PastEnd)
      else if !Blank(PySlice(text, ref.offset, |text|)) then Ok(Opening(ref, ref.file, ref.offset, text))
      else
        match IndexOf(disk.sources, ref.file)
        case None => Ok(Exhausted)
        case Some(d) =>
          match SkipBlank(disk.sources, d + 1)
          case None => Ok(Exhausted)
          case Some(n) => Ok(Opening(ref, disk.sources[n].rel, 0, disk.sources[n].text))
  }

  /** Where the search stands: at the starting place, or at the head of a later source that
      blanks alone separate from it. */
  ghost predicate Reached(disk: Disk, ref: Place, d: Option<nat>, rel: string, start: int, text: string) {
    match d
    case None => rel == ref.file && start == ref.offset && Load(disk, rel) == Some(text) && start <= |text|
    case Some(n) =>
      && start == 0 && n < |disk.sources| && disk.sources[n] == Doc(rel, text)
      && Open(disk, ref) == SkippedTo(disk.sources, ref, n)
  }

  function SkippedTo(sources: seq<Doc>, ref: Place, d: nat): Result<Opening, OpenError> {
    match SkipBlank(sources, d)
    case None => Ok(Exhausted)
    case Some(n) => Ok(Opening(ref, sources[n].rel, 0, sources[n].text))
  }

  method OpenWindow(disk: Disk, ref: Place) returns (r: Result<Opening, OpenError>)
    requires DistinctRels(disk.sources)
    ensures r == Open(disk, ref)
  {
    var loaded := Load(disk, ref.file);
    if loaded.None? { return Err(Unreadable); }
    var rel, start, text := ref.file, ref.offset, loaded.value;
    if start > |text| { return Err(PastEnd); }
    ghost var d: Option<nat> := None;
    hide Blank, DistinctRels, SkipBlank, Open;
    assert Reached(disk, ref, d, rel, start, text);
    hide Reached;
    while Blank(PySlice(text, start, |text|))
      invariant Reached(disk, ref, d, rel, start, text)
      invariant d.Some? ==> d.value < |disk.sources|
      decreases if d.None? then |disk.sources| + 1 else |disk.sources| - d.value
    {
      SkipOne(disk, ref, d, rel, start, text);
      var next := NextSource(disk.sources, rel);
      if next.None? { return Ok(Exhausted); }
      d := Some(IndexOf(disk.sources, rel).value + 1);
      rel, start := next.value, 0;
      text := Load(disk, rel).value;
    }
    Stopped(disk, ref, d, rel, start, text);
    return Ok(Opening(ref, rel, start, text));
  }

  lemma IndexOfDistinct(sources: seq<Doc>, d: nat)
    requires DistinctRels(sources) && d < |sources|
    ensures IndexOf(sources, sources[d].rel) == Some(d)
  {
  }

  lemma SkipOne(disk: Disk, ref: Place, d: Option<nat>, rel: string, start: int, text: string)
    requires DistinctRels(disk.sources) && Reached(disk, ref, d, rel, start, text)
    requires Blank(PySlice(text, start, |text|))
    ensures NextSource(disk.sources, rel).None? ==> Open(disk, ref) == Ok(Exhausted)
    ensures NextSource(disk.sources, rel).Some? ==>
      var n := IndexOf(disk.sources, rel).value + 1;
      && n < |disk.sources| && (d.Some? ==> d.value < n)
      && Load(disk, disk.sources[n].rel) == Some(disk.sources[n].text)
      && Reached(disk, ref, Some(n), disk.sources[n].rel, 0, disk.sources[n].text)
  {
    hide DistinctRels, Blank, SkipBlank, Open, PySlice, Reached, SkippedTo, IndexOf;
    BlankSoFar(disk, ref, d, rel, start, text);
    var i := IndexOf(disk.sources, rel);
    if i.Some? {
      if i.value + 1 < |disk.sources| {
        IndexOfDistinct(disk.sources, i.value + 1);
        ReachedNext(disk, ref, i.value + 1);
      } else {
        SkippedAll(disk.sources, ref);
      }
    }
  }

  /** Blanks here mean that the answer lies with the sources after this one. */
  lemma BlankSoFar(disk: Disk, ref: Place, d: Option<nat>, rel: string, start: int, text: string)
    requires DistinctRels(disk.sources) && Reached(disk, ref, d, rel, start, text)
    requires Blank(PySlice(text, start, |text|))
    ensures var i := IndexOf(disk.sources, rel);
      && (d.Some? ==> i == d)
      && Open(disk, ref) == if i.Some? then SkippedTo(disk.sources, ref, i.value + 1) else Ok(Exhausted)
  {
    if d.Some? {
      IndexOfDistinct(disk.sources, d.value);
      assert PySlice(text, 0, |text|) == text;
      hide Open, PySlice;
    }
  }

  lemma ReachedNext(disk: Disk, ref: Place, n: nat)
    requires n < |disk.sources| && IndexOf(disk.sources, disk.sources[n].rel) == Some(n)
    requires Open(disk, ref) == SkippedTo(disk.sources, ref, n)
    ensures Load(disk, disk.sources[n].rel) == Some(disk.sources[n].text)
    ensures Reached(disk, ref, Some(n), disk.sources[n].rel, 0, disk.sources[n].text)
  {
    hide Open, SkippedTo;
  }

  lemma SkippedAll(sources: seq<Doc>, ref: Place)
    ensures SkippedTo(sources, ref, |sources|) == Ok(Exhausted)
  {
  }

  lemma Stopped(disk: Disk, ref: Place, d: Option<nat>, rel: string, start: int, text: string)
    requires Reached(disk, ref, d, rel, start, text) && !Blank(PySlice(text, start, |text|))
    ensures Open(disk, ref) == Ok(Opening(ref, rel, start, text))
  {
    if d.Some? { assert PySlice(text, 0, |text|) == text; }
  }

  // ---------------------------------------------------------------- asking for drafts

  /** A reply that passed the schema, cut down to the batch limit; None is a reply that did not. */
  function Truncated(reply: seq<Draft>, max: Option<nat>): (r: seq<Draft>)
    ensures r <= reply
    ensures |r| == if max.Some? && max.value < |reply| then max.value else |reply|
  {
    if max.Some? && |reply| > max.value then reply[..max.value] else reply
  }

  ghost predicate Passes(window: string, reply: Option<seq<Draft>>, cover: bool, max: Option<nat>) {
    && reply.Some?
    && WellFormed(Truncated(reply.value, max))
    && Acceptable(window, Truncated(reply.value, max), cover)
  }

  ghost predicate FirstToPass(window: string, replies: seq<Option<seq<Draft>>>, cover: bool, max: Option<nat>, i: int) {
    && 0 <= i < |replies| && replies[i].Some? && Passes(window, replies[i], cover, max)
    && forall j :: 0 <= j < i ==> !Passes(window, replies[j], cover, max)
  }

  /** The first acceptable reply wins; without one the request fails. */
  method RequestValidatedDrafts(window: string, replies: seq<Option<seq<Draft>>>, cover: bool, snap: bool,
                                max: Option<nat>)
    returns (r: Option<(seq<Draft>, seq<nat>)>)
    requires forall i :: 0 <= i < |replies| && replies[i].Some? ==> WellFormed(replies[i].value)
    requires max.Some? ==> max.value >= 1
    ensures r.None? <==> forall i :: 0 <= i < |replies| ==> !Passes(window, replies[i], cover, max)
    ensures r.Some? ==>
      exists i :: FirstToPass(window, replies, cover, max, i) && r.value.0 == Truncated(replies[i].value, max)
    ensures r.Some? ==>
      && WellFormed(r.value.0) && Acceptable(window, r.value.0, cover)
      && AreEnds(window, r.value.0, cover || snap, r.value.1)
  {
    hide Acceptable, AreEnds;
    for attempt := 0 to |replies|
      invariant forall j :: 0 <= j < attempt ==> !Passes(window, replies[j], cover, max)
    {
      if replies[attempt].None? { continue; }
      var drafts := Truncated(replies[attempt].value, max);
      var ends := ResolveBoundaries(window, drafts, cover, snap);
      if ends.Ok? {
        AcceptableAdvances(window, drafts, cover);
        assert FirstToPass(window, replies, cover, max, attempt);
        return Some((drafts, ends.value));
      }
    }
    return None;
  }

  lemma AcceptableAdvances(window: string, drafts: seq<Draft>, cover: bool)
    requires WellFormed(drafts) && Acceptable(window, drafts, cover)
    ensures Advancing(window, drafts, |drafts|)
  {
  }

  // ---------------------------------------------------------------- new entries

  /** A drafted episode and the text it gets. */
  datatype Piece = Piece(draft: Draft, span: Span)

  /** The drafts laid out end to end from `base`. */
  function CutUp(file: string, base: int, drafts: seq<Draft>, ends: seq<nat>): (r: seq<Piece>)
    requires |drafts| == |ends|
    ensures |r| == |ends|
  {
    if ends == [] then []
    else
      var k := |ends| - 1;
      CutUp(file, base, drafts[..k], ends[..k])
      + [Piece(drafts[k], Span(file, if k == 0 then base else base + ends[k - 1], base + ends[k]))]
  }

  /** The entry a replan replaces: of several with one number, the last. */
  function OldEntry(past: seq<Item>, num: int): (r: Option<Entry>) {
    if past == [] then None
    else if NumOf(past[|past| - 1]) == Some(num) then Some(past[|past| - 1].entry)
    else OldEntry(past[..|past| - 1], num)
  }

  function NewStatus(prior: Option<Entry>): Status {
    if prior.Some? && prior.value.status in {Some(Consumed), Some(Stale)} then Stale else Planned
  }

  function NewScript(prior: Option<Entry>, num: int): Script {
    if prior.Some? && prior.value.script.Some? && prior.value.script.value != Path("") then prior.value.script.value
    else Canonical(num)
  }

  function NewEntry(piece: Piece, num: int, prior: Option<Entry>): Item {
    Item(Entry(Int(num), piece.draft.title, piece.draft.hook, Some(NewScript(prior, num)),
               Full(piece.span.file, piece.span.start, piece.span.end), Some(NewStatus(prior))))
  }

  /** Consecutive numbers from `first` on. */
  function NewEntries(pieces: seq<Piece>, first: int, past: seq<Item>): (r: seq<Item>)
    ensures |r| == |pieces|
    ensures forall i :: 0 <= i < |r| ==> r[i] == NewEntry(pieces[i], first + i, OldEntry(past, first + i))
  {
    if pieces == [] then []
    else
      var k := |pieces| - 1;
      NewEntries(pieces[..k], first, past) + [NewEntry(pieces[k], first + k, OldEntry(past, first + k))]
  }

  function NonNull(items: seq<Item>): seq<Item> {
    if items == [] then []
    else NonNull(items[..|items| - 1]) + if items[|items| - 1] == Foreign(true) then [] else [items[|items| - 1]]
  }

  /** Only the nulls go, and the rest stays in order: what remains is the list without its nulls. */
  lemma {:induction false} NonNullKeepsTheRest(items: seq<Item>)
    ensures forall x :: multiset(NonNull(items))[x] == if x == Foreign(true) then 0 else multiset(items)[x]
    ensures (forall i :: 0 <= i < |items| ==> items[i] != Foreign(true)) ==> NonNull(items) == items
  {
    if items != [] {
      var butLast, last := items[..|items| - 1], items[|items| - 1];
      assert items == butLast + [last];
      NonNullKeepsTheRest(butLast);
    }
  }

  /** Where planning goes on, case by case: a cursor counts when it names a file and an offset that is
      not negative. */
  lemma StartFrom(sources: seq<Doc>, items: seq<Item>, f: string, o: nat)
    ensures var start := EffectiveStart(sources, items, RawCursor(Some(f), Some(o)));
      match LastAnchored(items)
      case None => start == Some(Place(f, o))
      case Some(a) => start == Some(Later(sources, Place(a.file, a.end), Place(f, o)))
    ensures LastAnchored(items).None? && sources != [] ==>
      EffectiveStart(sources, items, Null) == Some(Place(sources[0].rel, 0))
    ensures LastAnchored(items).Some? ==>
      var a := LastAnchored(items).value;
      && EffectiveStart(sources, items, Null) == Some(Place(a.file, a.end))
      && EffectiveStart(sources, items, RawCursor(Some(f), None)) == Some(Place(a.file, a.end))
      && EffectiveStart(sources, items, RawCursor(Some(f), Some(-1 - o))) == Some(Place(a.file, a.end))
  {
  }

  /** The greatest positive number in use, or 0. */
  function GreatestNum(items: seq<Item>): (r: nat)
    ensures forall i :: 0 <= i < |items| && NumOf(items[i]).Some? ==> NumOf(items[i]).value <= r
    ensures r == 0 || Has(items, r)
  {
    if items == [] then 0
    else
      var before, last := GreatestNum(items[..|items| - 1]), items[|items| - 1];
      assert items == items[..|items| - 1] + [last];
      HasAppend(items[..|items| - 1], last, before);
      if NumOf(last).Some? && NumOf(last).value > before then NumOf(last).value else before
  }

  // ---------------------------------------------------------------- plan

  /** What a planning call brings to its commit. */
  datatype PlanTicket = PlanTicket(
    ref: Place, file: string, start: int, text: string, final: bool, drafts: seq<Draft>, ends: seq<nat>)

  datatype CommitError = Conflict | NewlyConsumed | NothingToPlan | Unreconciled

  /** A commit that went through: the new ledger and files, and whether the sources are used up. */
  datatype Committed = Committed(project: Project, dir: Dir, exhausted: bool)

  function EndOfBatch(t: PlanTicket): int
    requires t.ends != []
  {
    t.start + t.ends[|t.ends| - 1]
  }

  ghost function Replaced(disk: Disk, dir: Dir, clean: string -> string, p: Project, exhausted: bool)
    : Result<Committed, CommitError>
  {
    if AllSliceable(disk, p.items) then Ok(Committed(p, ReconciledDir(disk, clean, p.items, dir), exhausted))
    else Err(Unreconciled)
  }

  function Enlarged(items: seq<Item>, t: PlanTicket): seq<Item>
    requires |t.drafts| == |t.ends|
  {
    var kept := NonNull(items);
    SortIfPossible(kept + NewEntries(CutUp(t.file, t.start, t.drafts, t.ends), GreatestNum(kept) + 1, []))
  }

  function UsedUp(disk: Disk, t: PlanTicket): bool
    requires t.ends != []
  {
    t.final && Blank(PySlice(t.text, EndOfBatch(t), |t.text|)) && NextSource(disk.sources, t.file).None?
  }

  /** The commit closure of `plan`. */
  ghost function PlanCommit(disk: Disk, dir: Dir, clean: string -> string, p: Project, t: PlanTicket)
    : Result<Committed, CommitError>
    requires |t.drafts| == |t.ends| && t.ends != []
  {
    var ledger := Backfilled(disk, dir, p);
    var now := EffectiveStart(disk.sources, ledger.items, ledger.cursor);
    if now.None? then Err(NothingToPlan)
    else if now.value != t.ref then Err(Conflict)
    else
      Replaced(disk, dir, clean,
               ledger.(items := Enlarged(ledger.items, t), cursor := RawCursor(Some(t.file), Some(EndOfBatch(t)))),
               UsedUp(disk, t))
  }

  // ---------------------------------------------------------------- replan

  /** What a replanning call brings to its commit: the entries it saw and the new layout. */
  datatype ReplanTicket = ReplanTicket(from: int, affected: seq<Item>, pieces: seq<Piece>)

  function RangeOf(item: Item): RawRange {
    if item.Item? then item.entry.range else NoRange
  }

  function RangesOf(affected: seq<Item>): (r: seq<(Option<int>, RawRange)>)
    ensures |r| == |affected|
    ensures forall i :: 0 <= i < |r| ==> r[i] == (NumOf(affected[i]), RangeOf(affected[i]))
  {
    seq(|affected|, i requires 0 <= i < |affected| => (NumOf(affected[i]), RangeOf(affected[i])))
  }

  function ConsumedNums(affected: seq<Item>): (r: set<int>)
    requires AllReadable(affected)
    ensures forall n :: n in r <==>
      exists i :: 0 <= i < |affected| && affected[i].entry.status == Some(Consumed) && NumOf(affected[i]).value == n
  {
    set i | 0 <= i < |affected| && affected[i].entry.status == Some(Consumed) :: NumOf(affected[i]).value
  }

  /** Entries whose number is not among the affected ones, and everything that is no entry. */
  function Kept(items: seq<Item>, affected: seq<Item>): seq<Item> {
    if items == [] then []
    else
      var last := items[|items| - 1];
      Kept(items[..|items| - 1], affected)
      + if NumOf(last).Some? && Has(affected, NumOf(last).value) then [] else [last]
  }

  function Relaid(items: seq<Item>, current: seq<Item>, t: ReplanTicket): seq<Item> {
    SortIfPossible(Kept(items, current) + NewEntries(t.pieces, t.from, current))
  }

  /** The commit closure of `replan`. */
  ghost function ReplanCommit(disk: Disk, dir: Dir, clean: string -> string, p: Project, t: ReplanTicket)
    : Result<Committed, CommitError>
    requires AllReadable(t.affected)
  {
    var ledger := Backfilled(disk, dir, p);
    var current := Affected(ledger.items, t.from);
    if !Replannable(ledger.items, t.from) then Err(Conflict)
    else if RangesOf(current) != RangesOf(t.affected) then Err(Conflict)
    else if !(ConsumedNums(current) <= ConsumedNums(t.affected)) then Err(NewlyConsumed)
    else Replaced(disk, dir, clean, ledger.(items := Relaid(ledger.items, current, t)), false)
  }
}
