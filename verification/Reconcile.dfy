/** Bringing the derived episode files in line with the ledger (`_reconcile_derived_files`). */
module Reconcile {
  import opened Wrappers
  import opened Ledger
  import opened Backfill

  datatype ReconcileError =
    | RangeMissing(num: int)
    | RangeIllTyped(num: int)
    | SourceUnreadable(num: int)
    | OutOfBounds(num: int)

  /** `_load_normalized_source`: any readable file of the project, candidate source or not. */
  function Load(disk: Disk, rel: string): Option<string> {
    match IndexOf(disk.sources, rel)
    case Some(d) => Some(disk.sources[d].text)
    case None => Get(disk.others, rel)
  }

  /** An entry whose file the ledger owns; the file of an unanchored entry is left alone. */
  predicate Owned(item: Item) {
    NumOf(item).Some? && item.entry.status != Some(Unanchored)
  }

  predicate Sliceable(disk: Disk, range: RawRange) {
    && range.RawRange? && range.file.Some? && range.start.Some? && range.end.Some?
    && Load(disk, range.file.value).Some?
    && 0 <= range.start.value <= range.end.value <= |Load(disk, range.file.value).value|
  }

  function SliceText(disk: Disk, range: RawRange): string
    requires Sliceable(disk, range)
  {
    Load(disk, range.file.value).value[range.start.value..range.end.value]
  }

  /** Every entry that owns its file points at real text. */
  predicate AllSliceable(disk: Disk, items: seq<Item>) {
    forall i :: 0 <= i < |items| && Owned(items[i]) ==> Sliceable(disk, items[i].entry.range)
  }

  /** No entry, one without a readable number, or one whose file is left alone. */
  predicate NeedsNoText(item: Item) {
    item.Foreign? || ParseNum(item.entry.raw).None? || item.entry.status == Some(Unanchored)
  }

  /** The entry's range names a file that can be read, and lies in its text. */
  predicate HasRealText(disk: Disk, e: Entry) {
    match e.range
    case RawRange(Some(f), Some(start), Some(end)) =>
      0 <= start <= end && (match Load(disk, f) case Some(text) => end <= |text| case None => false)
    case _ => false
  }

  lemma SliceableIsReal(disk: Disk, items: seq<Item>)
    ensures AllSliceable(disk, items) <==>
      forall i :: 0 <= i < |items| ==> NeedsNoText(items[i]) || HasRealText(disk, items[i].entry)
  {
    hide ParseNum, Load;
  }

  // ---------------------------------------------------------------- the new directory

  /** `episode_{n}.txt` for a negative number is no episode file, so it changes none. */
  function WriteFile(files: map<nat, Copies>, n: int, text: string): map<nat, Copies> {
    if n < 0 then files
    else files[n := (if n in files then files[n] else Copies(None, [])).(canonical := Some(text))]
  }

  function WriteAll(disk: Disk, clean: string -> string, items: seq<Item>, files: map<nat, Copies>): map<nat, Copies>
    requires AllSliceable(disk, items)
  {
    if items == [] then files
    else
      var last := items[|items| - 1];
      var before := WriteAll(disk, clean, items[..|items| - 1], files);
      if Owned(last) then WriteFile(before, NumOf(last).value, clean(SliceText(disk, last.entry.range))) else before
  }

  /** Deletes the one file that discovery reports for the number. */
  function Unlink(n: int, c: Copies): Option<Copies> {
    var rest :=
      if c.padded != [] && (n != 0 || c.canonical.None?) then c.(padded := c.padded[1..])
      else c.(canonical := None);
    if rest == Copies(None, []) then None else Some(rest)
  }

  /** What a number's copies say, as often as they say it. */
  function Texts(c: Copies): multiset<string> {
    multiset(c.padded) + if c.canonical.Some? then multiset{c.canonical.value} else multiset{}
  }

  /** Of the copies exactly the one that discovery reports is deleted. */
  lemma UnlinkDeletesDiscovered(n: int, c: Copies)
    requires c != Copies(None, [])
    ensures Discovered(n, c) in Texts(c)
    ensures Texts(c) ==
      (match Unlink(n, c) case Some(rest) => Texts(rest) case None => multiset{}) + multiset{Discovered(n, c)}
  {
    if c.padded != [] { assert c.padded == [c.padded[0]] + c.padded[1..]; }
  }

  function CleanUp(items: seq<Item>, files: map<nat, Copies>): map<nat, Copies> {
    map n | n in files && (Has(items, n) || Unlink(n, files[n]).Some?) ::
      if Has(items, n) then files[n] else Unlink(n, files[n]).value
  }

  function ReconciledDir(disk: Disk, clean: string -> string, items: seq<Item>, dir: Dir): Dir
    requires AllSliceable(disk, items)
  {
    Dir(CleanUp(items, WriteAll(disk, clean, items, dir.episodes)), None)
  }

  // ---------------------------------------------------------------- what it means

  /** The last entry with this number that owns its file. */
  ghost predicate IsLastOwner(items: seq<Item>, n: int, i: nat) {
    && i < |items| && Owned(items[i]) && NumOf(items[i]) == Some(n)
    && forall j :: i < j < |items| && Owned(items[j]) ==> NumOf(items[j]) != Some(n)
  }

  ghost predicate OwnsNothing(items: seq<Item>, n: int) {
    forall j :: 0 <= j < |items| && Owned(items[j]) ==> NumOf(items[j]) != Some(n)
  }

  function CopiesOf(files: map<nat, Copies>, n: nat): Copies {
    if n in files then files[n] else Copies(None, [])
  }

  /** When several entries share a number the last one's slice is what the file holds; files no
      entry owns are not written. */
  lemma {:induction false} WriteAllExact(disk: Disk, clean: string -> string, items: seq<Item>,
                                         files: map<nat, Copies>, n: nat, i: nat)
    requires AllSliceable(disk, items)
    ensures var out := WriteAll(disk, clean, items, files);
      && (IsLastOwner(items, n, i) ==>
            n in out && out[n] == CopiesOf(files, n).(canonical := Some(clean(SliceText(disk, items[i].entry.range)))))
      && (OwnsNothing(items, n) ==> Get(out, n) == Get(files, n))
  {
    if items != [] {
      var butLast, last := items[..|items| - 1], items[|items| - 1];
      WriteAllExact(disk, clean, butLast, files, n, i);
      if Owned(last) && NumOf(last) == Some(n) {
        WriteAllPadded(disk, clean, butLast, files, n);
      }
    }
  }

  lemma {:induction false} WriteAllPadded(disk: Disk, clean: string -> string, items: seq<Item>,
                                          files: map<nat, Copies>, n: nat)
    requires AllSliceable(disk, items)
    ensures CopiesOf(WriteAll(disk, clean, items, files), n).padded == CopiesOf(files, n).padded
  {
    if items != [] {
      WriteAllPadded(disk, clean, items[..|items| - 1], files, n);
    }
  }

  predicate FileHolds(files: map<nat, Copies>, n: int, text: string) {
    n in files && files[n].canonical == Some(text)
  }

  /** What the entry's file should hold. */
  function FileContent(disk: Disk, clean: string -> string, item: Item): string
    requires item.Item? && Sliceable(disk, item.entry.range)
  {
    clean(SliceText(disk, item.entry.range))
  }

  /** An owned entry with a number a file can have. */
  predicate HasFile(item: Item) {
    Owned(item) && NumOf(item).value >= 0
  }

  /** If the entry has a file, that file holds the entry's own slice. */
  ghost predicate OwnFileMatches(disk: Disk, clean: string -> string, items: seq<Item>, out: map<nat, Copies>, i: nat)
    requires AllSliceable(disk, items) && i < |items|
  {
    HasFile(items[i]) ==> FileHolds(out, NumOf(items[i]).value, FileContent(disk, clean, items[i]))
  }

  /** Two entries with the same file would write the same text. */
  ghost predicate Agree(disk: Disk, clean: string -> string, items: seq<Item>, i: nat, j: nat)
    requires AllSliceable(disk, items) && i < |items| && j < |items|
  {
    HasFile(items[i]) && HasFile(items[j]) && NumOf(items[i]) == NumOf(items[j]) ==>
      FileContent(disk, clean, items[i]) == FileContent(disk, clean, items[j])
  }

  /** Every owned file holds its own slice exactly when entries that share a number agree. */
  lemma FilesMatchIffDuplicatesAgree(disk: Disk, clean: string -> string, items: seq<Item>, dir: Dir)
    requires AllSliceable(disk, items)
    ensures var out := ReconciledDir(disk, clean, items, dir).episodes;
      (forall i: nat :: i < |items| ==> OwnFileMatches(disk, clean, items, out, i)) <==>
      (forall i: nat, j: nat :: i < |items| && j < |items| ==> Agree(disk, clean, items, i, j))
  {
    var out := ReconciledDir(disk, clean, items, dir).episodes;
    hide ReconciledDir, FileContent, AllSliceable, OwnFileMatches, Agree;
    forall i: nat, j: nat | i < |items| && j < |items| &&
        OwnFileMatches(disk, clean, items, out, i) && OwnFileMatches(disk, clean, items, out, j)
      ensures Agree(disk, clean, items, i, j)
    {
      MatchesAgree(disk, clean, items, out, i, j);
    }
    forall i: nat | i < |items| && forall j: nat :: j < |items| ==> Agree(disk, clean, items, i, j)
      ensures OwnFileMatches(disk, clean, items, out, i)
    {
      AgreeMatches(disk, clean, items, dir, i);
    }
  }

  lemma MatchesAgree(disk: Disk, clean: string -> string, items: seq<Item>, out: map<nat, Copies>, i: nat, j: nat)
    requires AllSliceable(disk, items) && i < |items| && j < |items|
    requires OwnFileMatches(disk, clean, items, out, i) && OwnFileMatches(disk, clean, items, out, j)
    ensures Agree(disk, clean, items, i, j)
  {
    hide FileContent;
  }

  lemma AgreeMatches(disk: Disk, clean: string -> string, items: seq<Item>, dir: Dir, i: nat)
    requires AllSliceable(disk, items) && i < |items|
    requires forall j: nat :: j < |items| ==> Agree(disk, clean, items, i, j)
    ensures OwnFileMatches(disk, clean, items, ReconciledDir(disk, clean, items, dir).episodes, i)
  {
    hide ReconciledDir, FileContent;
    if HasFile(items[i]) {
      var l := LastTwinHolds(disk, clean, items, dir, i);
      assert Agree(disk, clean, items, i, l);
    }
  }

  /** `l` is `i` or a later owned entry with the same number. */
  ghost predicate IsTwin(items: seq<Item>, i: nat, l: nat)
    requires i < |items|
  {
    i <= l < |items| && Owned(items[l]) && NumOf(items[l]) == NumOf(items[i])
  }

  lemma LastTwinHolds(disk: Disk, clean: string -> string, items: seq<Item>, dir: Dir, i: nat) returns (l: nat)
    requires AllSliceable(disk, items) && i < |items| && HasFile(items[i])
    ensures IsTwin(items, i, l)
    ensures var out := ReconciledDir(disk, clean, items, dir).episodes;
      FileHolds(out, NumOf(items[i]).value, FileContent(disk, clean, items[l]))
  {
    var n := NumOf(items[i]).value;
    l := LastOwner(items, n, i);
    WriteAllExact(disk, clean, items, dir.episodes, n, l);
    assert Has(items, n);
  }

  lemma LastOwner(items: seq<Item>, n: int, i: nat) returns (l: nat)
    requires i < |items| && Owned(items[i]) && NumOf(items[i]) == Some(n)
    ensures i <= l && IsLastOwner(items, n, l)
  {
    l := i;
    var j := i + 1;
    while j < |items|
      invariant i <= l < j <= |items| && Owned(items[l]) && NumOf(items[l]) == Some(n)
      invariant forall k :: l < k < j && Owned(items[k]) ==> NumOf(items[k]) != Some(n)
    {
      if Owned(items[j]) && NumOf(items[j]) == Some(n) { l := j; }
      j := j + 1;
    }
  }

  function CopyCount(c: Copies): nat {
    |c.padded| + if c.canonical.Some? then 1 else 0
  }

  /** What happens to each number: unowned files of ledger numbers stay as they are, and a number
      outside the ledger loses one file, so none remains exactly when it had only one name. */
  lemma ReconcileLeaves(disk: Disk, clean: string -> string, items: seq<Item>, dir: Dir, n: nat)
    requires AllSliceable(disk, items)
    ensures var out := ReconciledDir(disk, clean, items, dir);
      && out.remaining == None
      && (OwnsNothing(items, n) && Has(items, n) ==> Get(out.episodes, n) == Get(dir.episodes, n))
      && (!Has(items, n) ==>
            (n !in out.episodes <==> n !in dir.episodes || CopyCount(dir.episodes[n]) <= 1))
  {
    WriteAllExact(disk, clean, items, dir.episodes, n, 0);
    if !Has(items, n) {
      assert OwnsNothing(items, n);
      assert Get(WriteAll(disk, clean, items, dir.episodes), n) == Get(dir.episodes, n);
    }
  }

  /** The file a later scan reads for a ledger number says what was just written, exactly when no
      name with leading zeros comes first that says something else. */
  lemma DiscoveryReadsTheSlice(disk: Disk, clean: string -> string, items: seq<Item>, dir: Dir, n: nat, i: nat)
    requires AllSliceable(disk, items) && IsLastOwner(items, n, i)
    ensures var text, padded := FileContent(disk, clean, items[i]), CopiesOf(dir.episodes, n).padded;
      FileText(ReconciledDir(disk, clean, items, dir), n) == text <==> n == 0 || padded == [] || padded[0] == text
  {
    WriteAllExact(disk, clean, items, dir.episodes, n, i);
    assert Has(items, n);
  }

  // ---------------------------------------------------------------- the method

  class EpisodeFiles {
    var episodes: map<nat, Copies>
    var remaining: Option<string>

    function Contents(): Dir
      reads this
    {
      Dir(episodes, remaining)
    }

    /** Validates the whole ledger first, then writes and cleans up: an error leaves every file
        as it was. */
    method ReconcileDerivedFiles(disk: Disk, clean: string -> string, items: seq<Item>, cached: map<string, string>)
      returns (r: Option<ReconcileError>)
      requires forall rel :: rel in cached ==> Load(disk, rel) == Some(cached[rel])
      modifies this
      ensures r.None? <==> AllSliceable(disk, items)
      ensures r.None? <==> forall i :: 0 <= i < |items| ==> NeedsNoText(items[i]) || HasRealText(disk, items[i].entry)
      ensures r.Some? ==> Contents() == old(Contents())
      ensures r.None? ==> Contents() == ReconciledDir(disk, clean, items, old(Contents()))
    {
      SliceableIsReal(disk, items);
      hide WriteAll, Apply, CleanUp, AllSliceable, HasRealText, NeedsNoText;
      var checked := Validate(disk, items, cached);
      if checked.Err? { return Some(checked.error); }
      var (writes, keep) := checked.value;
      ghost var before := episodes;
      ApplyNothing(clean, before);
      for k := 0 to |writes|
        invariant remaining == old(remaining)
        invariant episodes == Apply(clean, writes[..k], before)
      {
        ApplyStep(clean, writes, k, before);
        episodes := WriteFile(episodes, writes[k].0, clean(writes[k].1));
      }
      assert writes[..|writes|] == writes;
      ApplyWrites(disk, clean, items, before);
      DeleteStrays(items, keep);
      remaining := None;
      return None;
    }

    method DeleteStrays(items: seq<Item>, keep: set<int>)
      requires forall n :: n in keep <==> Has(items, n)
      modifies this
      ensures remaining == old(remaining) && episodes == CleanUp(items, old(episodes))
    {
      ghost var written := episodes;
      var todo := episodes.Keys;
      ghost var done: set<nat> := {};
      NoneDeleted(items, written);
      hide Has, Unlink, DeletedUpTo;
      while todo != {}
        invariant remaining == old(remaining)
        invariant todo !! done && todo + done == written.Keys
        invariant DeletedUpTo(items, written, episodes, done)
        decreases |todo|
      {
        var n :| n in todo;
        DeleteStep(items, written, episodes, done, n);
        if n !in keep {
          episodes := Put(episodes, n, Unlink(n, episodes[n]));
        }
        todo, done := todo - {n}, done + {n};
      }
      AllDeleted(items, written, episodes);
    }
  }

  ghost predicate DeletedUpTo(items: seq<Item>, written: map<nat, Copies>, now: map<nat, Copies>, done: set<nat>) {
    && done <= written.Keys
    && forall n: nat ::
         Get(now, n) == if n in done && !Has(items, n) then Unlink(n, written[n]) else Get(written, n)
  }

  lemma NoneDeleted(items: seq<Item>, written: map<nat, Copies>)
    ensures DeletedUpTo(items, written, written, {})
  {
  }

  lemma DeleteStep(items: seq<Item>, written: map<nat, Copies>, now: map<nat, Copies>, done: set<nat>, n: nat)
    requires DeletedUpTo(items, written, now, done) && n in written && n !in done
    ensures n in now && now[n] == written[n]
    ensures DeletedUpTo(items, written, if Has(items, n) then now else Put(now, n, Unlink(n, now[n])), done + {n})
  {
    hide Has, Unlink;
    assert Get(now, n) == Get(written, n);
  }

  lemma AllDeleted(items: seq<Item>, written: map<nat, Copies>, now: map<nat, Copies>)
    requires DeletedUpTo(items, written, now, written.Keys)
    ensures now == CleanUp(items, written)
  {
    hide Has, Unlink;
    SameMap(now, CleanUp(items, written));
  }

  lemma ApplyNothing(clean: string -> string, files: map<nat, Copies>)
    ensures Apply(clean, [], files) == files
  {
  }

  lemma ApplyStep(clean: string -> string, writes: seq<(int, string)>, k: nat, files: map<nat, Copies>)
    requires k < |writes|
    ensures Apply(clean, writes[..k + 1], files)
      == WriteFile(Apply(clean, writes[..k], files), writes[k].0, clean(writes[k].1))
  {
    assert writes[..k + 1][..k] == writes[..k];
  }

  /** The first phase: every range checked, nothing written. */
  method Validate(disk: Disk, items: seq<Item>, cached: map<string, string>)
    returns (r: Result<(seq<(int, string)>, set<int>), ReconcileError>)
    requires forall rel :: rel in cached ==> Load(disk, rel) == Some(cached[rel])
    ensures r.Ok? <==> AllSliceable(disk, items)
    ensures r.Ok? ==> r.value.0 == Writes(disk, items)
    ensures r.Ok? ==> forall n :: n in r.value.1 <==> Has(items, n)
  {
    var cache := cached;
    var writes: seq<(int, string)> := [];
    var keep: set<int> := {};
    for i := 0 to |items|
      invariant AllSliceable(disk, items[..i])
      invariant writes == Writes(disk, items[..i])
      invariant forall n :: n in keep <==> Has(items[..i], n)
      invariant forall rel :: rel in cache ==> Load(disk, rel) == Some(cache[rel])
    {
      var item := items[i];
      assert items[..i + 1] == items[..i] + [item] && items[..i + 1][..i] == items[..i];
      forall n { HasAppend(items[..i], item, n); }
      hide Has, Load;
      if NumOf(item).None? { continue; }
      var num := NumOf(item).value;
      keep := keep + {num};
      if item.entry.status == Some(Unanchored) { continue; }
      assert Owned(item);
      var range := item.entry.range;
      if range.NoRange? { return Err(RangeMissing(num)); }
      if range.file.None? || range.start.None? || range.end.None? { return Err(RangeIllTyped(num)); }
      var text := Get(cache, range.file.value);
      if text.None? {
        text := Load(disk, range.file.value);
        if text.None? { return Err(SourceUnreadable(num)); }
        cache := cache[range.file.value := text.value];
      }
      if !(0 <= range.start.value <= range.end.value <= |text.value|) { return Err(OutOfBounds(num)); }
      writes := writes + [(num, text.value[range.start.value..range.end.value])];
    }
    assert items[..|items|] == items;
    return Ok((writes, keep));
  }

  function Writes(disk: Disk, items: seq<Item>): seq<(int, string)>
    requires AllSliceable(disk, items)
  {
    if items == [] then []
    else
      var last := items[|items| - 1];
      Writes(disk, items[..|items| - 1])
      + if Owned(last) then [(NumOf(last).value, SliceText(disk, last.entry.range))] else []
  }

  function Apply(clean: string -> string, writes: seq<(int, string)>, files: map<nat, Copies>): map<nat, Copies> {
    if writes == [] then files
    else
      var (n, text) := writes[|writes| - 1];
      WriteFile(Apply(clean, writes[..|writes| - 1], files), n, clean(text))
  }

  lemma {:induction false} ApplyWrites(disk: Disk, clean: string -> string, items: seq<Item>, files: map<nat, Copies>)
    requires AllSliceable(disk, items)
    ensures Apply(clean, Writes(disk, items), files) == WriteAll(disk, clean, items, files)
  {
    if items != [] {
      var butLast, last := items[..|items| - 1], items[|items| - 1];
      ApplyWrites(disk, clean, butLast, files);
      var writes := Writes(disk, items);
      if Owned(last) {
        assert writes[..|writes| - 1] == Writes(disk, butLast);
      } else {
        assert writes == Writes(disk, butLast);
      }
    }
  }

  lemma SameMap(a: map<nat, Copies>, b: map<nat, Copies>)
    requires forall n: nat :: Get(a, n) == Get(b, n)
    ensures a == b
  {
    forall n: nat
      ensures n in a <==> n in b
      ensures n in a ==> a[n] == b[n]
    {
      assert Get(a, n) == Get(b, n);
    }
    assert a.Keys == b.Keys;
  }
}
