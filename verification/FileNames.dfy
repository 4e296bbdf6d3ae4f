/** The derived episode files as names in a directory, and which of several names of one number
    discovery reports (`discover_episode_files`). */
module FileNames {
  import opened Wrappers
  import opened Ledger
  import opened Backfill

  /** A directory entry; a file that cannot be read has an empty text. */
  datatype File = File(name: string, isFile: bool, text: string)

  // ---------------------------------------------------------------- names

  const HEAD := "episode_"
  const TAIL := ".txt"

  function Name(digits: string): string {
    HEAD + digits + TAIL
  }

  /** The digits of a derived file's name. */
  function DigitsOf(name: string): (r: Option<string>)
    ensures r.Some? ==> IsDigits(r.value) && name == Name(r.value)
    ensures r.None? ==> forall digits :: IsDigits(digits) ==> name != Name(digits)
  {
    if |name| > 12 && name[..8] == HEAD && name[|name| - 4..] == TAIL && IsDigits(name[8..|name| - 4]) then
      NameParts(name);
      Some(name[8..|name| - 4])
    else
      NoName(name);
      None
  }

  lemma NameParts(name: string)
    requires |name| > 12 && name[..8] == HEAD && name[|name| - 4..] == TAIL
    ensures name == Name(name[8..|name| - 4])
  {
  }

  lemma NoName(name: string)
    ensures forall digits :: IsDigits(digits) && name == Name(digits) ==>
      |name| > 12 && name[..8] == HEAD && name[|name| - 4..] == TAIL && IsDigits(name[8..|name| - 4])
  {
    forall digits | IsDigits(digits) && name == Name(digits)
      ensures |name| > 12 && name[..8] == HEAD && name[|name| - 4..] == TAIL && name[8..|name| - 4] == digits
    {
    }
  }

  /** No leading zero: the name that writing an episode uses. */
  predicate Plain(digits: string) {
    digits == "0" || (digits != "" && digits[0] != '0')
  }

  lemma {:induction false} PlainIsPositive(digits: string)
    requires IsDigits(digits) && digits[0] != '0'
    ensures DigitsValue(digits) > 0
  {
    if |digits| > 1 { PlainIsPositive(digits[..|digits| - 1]); }
  }

  /** Each number has one plain name only. */
  lemma {:induction false} PlainIsUnique(a: string, b: string)
    requires IsDigits(a) && IsDigits(b) && Plain(a) && Plain(b) && DigitsValue(a) == DigitsValue(b)
    ensures a == b
  {
    if a != "0" { PlainIsPositive(a); }
    if b != "0" { PlainIsPositive(b); }
    if a != "0" && b != "0" {
      var a', b' := a[..|a| - 1], b[..|b| - 1];
      assert a == a' + [a[|a| - 1]] && b == b' + [b[|b| - 1]];
      if a' != "" { PlainIsPositive(a'); }
      if b' != "" { PlainIsPositive(b'); }
      if a' != "" && b' != "" { PlainIsUnique(a', b'); }
    }
  }

  // ---------------------------------------------------------------- order

  /** Lexicographic order of characters. */
  predicate Precedes(a: string, b: string) {
    b != "" && (a == "" || a[0] < b[0] || (a[0] == b[0] && Precedes(a[1..], b[1..])))
  }

  lemma {:induction false} PrecedesOneWay(a: string, b: string)
    requires Precedes(a, b)
    ensures !Precedes(b, a)
  {
    if a != "" && a[0] == b[0] { PrecedesOneWay(a[1..], b[1..]); }
  }

  lemma {:induction false} PrecedesBehind(head: string, a: string, b: string)
    ensures Precedes(head + a, head + b) <==> Precedes(a, b)
  {
    if head == "" {
      assert head + a == a && head + b == b;
    } else {
      PrecedesBehind(head[1..], a, b);
      assert (head + a)[1..] == head[1..] + a && (head + b)[1..] == head[1..] + b;
    }
  }

  /** Names with leading zeros come before the plain one, except for number 0. */
  lemma PaddedBeforePlain(padded: string, plain: string)
    requires IsDigits(padded) && IsDigits(plain) && !Plain(padded) && Plain(plain)
    requires DigitsValue(padded) == DigitsValue(plain)
    ensures if DigitsValue(plain) != 0 then Precedes(Name(padded), Name(plain))
            else Precedes(Name(plain), Name(padded))
  {
    assert Name(padded) == HEAD + (padded + TAIL) && Name(plain) == HEAD + (plain + TAIL);
    PrecedesBehind(HEAD, padded + TAIL, plain + TAIL);
    PrecedesBehind(HEAD, plain + TAIL, padded + TAIL);
    assert padded[0] == '0' && |padded| > 1;
    if plain != "0" {
      PlainIsPositive(plain);
    } else {
      assert (plain + TAIL)[1..] == TAIL;
      assert (padded + TAIL)[1..][0] == padded[1];
    }
  }

  // ---------------------------------------------------------------- directories

  /** `sorted(iterdir())`: in the order of names, each of which is there once. */
  ghost predicate Listing(files: seq<File>) {
    forall i, j :: 0 <= i < j < |files| ==> Precedes(files[i].name, files[j].name)
  }

  function NumberOf(f: File): Option<nat> {
    if f.isFile && DigitsOf(f.name).Some? then Some(DigitsValue(DigitsOf(f.name).value)) else None
  }

  predicate IsPlain(f: File)
    requires NumberOf(f).Some?
  {
    Plain(DigitsOf(f.name).value)
  }

  /** The files of one number: the plain one, and the others in directory order. */
  function CopiesIn(files: seq<File>, n: nat): Copies {
    if files == [] then Copies(None, [])
    else
      var before, f := CopiesIn(files[..|files| - 1], n), files[|files| - 1];
      if NumberOf(f) != Some(n) then before
      else if IsPlain(f) then before.(canonical := Some(f.text))
      else before.(padded := before.padded + [f.text])
  }

  /** The first file of the number. */
  ghost predicate IsFirstOf(files: seq<File>, n: nat, i: nat) {
    && i < |files| && NumberOf(files[i]) == Some(n)
    && forall j :: 0 <= j < i ==> NumberOf(files[j]) != Some(n)
  }

  lemma PlainOnce(files: seq<File>, n: nat, i: nat, j: nat)
    requires Listing(files) && i < |files| && j < |files|
    requires NumberOf(files[i]) == Some(n) == NumberOf(files[j]) && IsPlain(files[i]) && IsPlain(files[j])
    ensures i == j
  {
    PlainIsUnique(DigitsOf(files[i].name).value, DigitsOf(files[j].name).value);
    if i < j { PrecedesOneWay(files[i].name, files[j].name); }
    if j < i { PrecedesOneWay(files[j].name, files[i].name); }
  }

  lemma PaddedThenPlain(files: seq<File>, n: nat, i: nat, j: nat)
    requires Listing(files) && i < |files| && j < |files|
    requires NumberOf(files[i]) == Some(n) == NumberOf(files[j]) && !IsPlain(files[i]) && IsPlain(files[j])
    ensures if n != 0 then i < j else j < i
  {
    PaddedBeforePlain(DigitsOf(files[i].name).value, DigitsOf(files[j].name).value);
    if i < j { PrecedesOneWay(files[i].name, files[j].name); }
    if j < i { PrecedesOneWay(files[j].name, files[i].name); }
  }

  lemma ListingTake(files: seq<File>, k: nat)
    requires Listing(files) && k <= |files|
    ensures Listing(files[..k])
  {
    hide Precedes;
  }

  /** What discovery reports of a number's copies is the text of its first file. */
  lemma {:induction false} DiscoveredIsFirst(files: seq<File>, n: nat, i: nat)
    requires Listing(files) && IsFirstOf(files, n, i)
    ensures CopiesIn(files, n) != Copies(None, []) && Discovered(n, CopiesIn(files, n)) == files[i].text
  {
    var k := |files| - 1;
    var before, f := files[..k], files[k];
    hide NumberOf, IsPlain, Listing, Precedes;
    ListingTake(files, k);
    if i == k {
      NoCopies(before, n);
    } else {
      DiscoveredIsFirst(before, n, i);
      if NumberOf(f) == Some(n) { LaterCopyIsHidden(files, n); }
    }
  }

  lemma {:induction false} NoCopies(files: seq<File>, n: nat)
    requires forall j :: 0 <= j < |files| ==> NumberOf(files[j]) != Some(n)
    ensures CopiesIn(files, n) == Copies(None, [])
  {
    if files != [] { NoCopies(files[..|files| - 1], n); }
  }

  lemma {:induction false} CopiesComeFrom(files: seq<File>, n: nat)
    ensures CopiesIn(files, n).canonical.Some? ==>
      exists j :: 0 <= j < |files| && NumberOf(files[j]) == Some(n) && IsPlain(files[j])
    ensures CopiesIn(files, n).padded != [] ==>
      exists j :: 0 <= j < |files| && NumberOf(files[j]) == Some(n) && !IsPlain(files[j])
  {
    if files != [] {
      hide NumberOf, IsPlain;
      var k := |files| - 1;
      CopiesComeFrom(files[..k], n);
      assert forall j :: 0 <= j < k ==> files[..k][j] == files[j];
    }
  }

  lemma CopiesStep(files: seq<File>, n: nat)
    requires files != [] && NumberOf(files[|files| - 1]) == Some(n)
    ensures var c, f := CopiesIn(files[..|files| - 1], n), files[|files| - 1];
      CopiesIn(files, n) == if IsPlain(f) then c.(canonical := Some(f.text)) else c.(padded := c.padded + [f.text])
  {
    hide NumberOf, IsPlain;
  }

  /** A further copy does not change what discovery reports. */
  lemma LaterCopyIsHidden(files: seq<File>, n: nat)
    requires Listing(files) && files != [] && NumberOf(files[|files| - 1]) == Some(n)
    requires CopiesIn(files[..|files| - 1], n) != Copies(None, [])
    ensures CopiesIn(files, n) != Copies(None, [])
    ensures Discovered(n, CopiesIn(files, n)) == Discovered(n, CopiesIn(files[..|files| - 1], n))
  {
    hide NumberOf, IsPlain, Listing, CopiesIn;
    var k := |files| - 1;
    var before := files[..k];
    var c := CopiesIn(before, n);
    CopiesStep(files, n);
    CopiesComeFrom(before, n);
    if c.canonical.Some? {
      var j :| 0 <= j < |before| && NumberOf(before[j]) == Some(n) && IsPlain(before[j]);
      assert before[j] == files[j];
      if IsPlain(files[k]) {
        PlainOnce(files, n, j, k);
      } else {
        PaddedThenPlain(files, n, k, j);
      }
    } else if IsPlain(files[k]) {
      var j :| 0 <= j < |before| && NumberOf(before[j]) == Some(n) && !IsPlain(before[j]);
      assert before[j] == files[j];
      PaddedThenPlain(files, n, j, k);
    }
  }

  // ---------------------------------------------------------------- discovery

  predicate HasFile(files: seq<File>, n: nat) {
    exists i :: 0 <= i < |files| && NumberOf(files[i]) == Some(n)
  }

  /** The directory by numbers. */
  ghost predicate DescribedBy(files: seq<File>, episodes: map<nat, Copies>) {
    && (forall n: nat :: n in episodes <==> HasFile(files, n))
    && forall n: nat :: n in episodes ==> episodes[n] == CopiesIn(files, n)
  }

  /** `discover_episode_files`: for each number the first of its files, and so the one that the
      directory by numbers says. */
  method DiscoverEpisodeFiles(files: seq<File>, ghost dir: Dir) returns (result: map<nat, File>)
    requires Listing(files) && DescribedBy(files, dir.episodes)
    ensures result.Keys == dir.episodes.Keys
    ensures forall n: nat :: n in result ==> exists i: nat :: IsFirstOf(files, n, i) && result[n] == files[i]
    ensures forall n: nat :: n in result ==> result[n].text == FileText(dir, n)
  {
    hide NumberOf, Listing, CopiesIn, HasFile, Discovered;
    result := map[];
    NoFilesYet(files);
    for k := 0 to |files|
      invariant forall n: nat :: n in result <==> HasFile(files[..k], n)
      invariant forall n: nat :: n in result ==> exists i: nat :: IsFirstOf(files, n, i) && result[n] == files[i]
    {
      forall n: nat { OneFileMore(files, k, n); }
      var number := NumberOf(files[k]);
      if number.Some? && number.value !in result {
        NewIsFirst(files, k, number.value);
        result := result[number.value := files[k]];
      }
    }
    assert files[..|files|] == files;
    forall n: nat | n in result
      ensures result[n].text == FileText(dir, n)
    {
      var i: nat :| IsFirstOf(files, n, i) && result[n] == files[i];
      DiscoveredIsFirst(files, n, i);
    }
  }

  lemma NoFilesYet(files: seq<File>)
    ensures forall n: nat :: !HasFile(files[..0], n)
  {
  }

  lemma NewIsFirst(files: seq<File>, k: nat, n: nat)
    requires k < |files| && NumberOf(files[k]) == Some(n) && !HasFile(files[..k], n)
    ensures IsFirstOf(files, n, k)
  {
    hide NumberOf;
    assert forall j :: 0 <= j < k ==> files[..k][j] == files[j];
  }

  lemma OneFileMore(files: seq<File>, k: nat, n: nat)
    requires k < |files|
    ensures HasFile(files[..k + 1], n) <==> HasFile(files[..k], n) || NumberOf(files[k]) == Some(n)
  {
    hide NumberOf;
    assert forall i :: 0 <= i < k ==> files[..k + 1][i] == files[..k][i];
    assert files[..k + 1][k] == files[k];
  }
}
