/** Strings as the planner uses them: blank stretches, exact search, slices. */
module Text {

  /** The characters that Python's `str.strip()` removes. */
  predicate IsSpace(c: char) {
    || '\t' <= c <= '\r' || '\U{1C}' <= c <= ' ' || c == '\U{85}' || c == '\U{A0}' || c == '\U{1680}'
    || '\U{2000}' <= c <= '\U{200A}' || c == '\U{2028}' || c == '\U{2029}' || c == '\U{202F}'
    || c == '\U{205F}' || c == '\U{3000}'
  }

  predicate Blank(s: string) {
    forall i :: 0 <= i < |s| ==> IsSpace(s[i])
  }

  predicate OccursAt(text: string, needle: string, i: nat) {
    i + |needle| <= |text| && text[i..i + |needle|] == needle
  }

  /** `text.find(needle, from)`: the first occurrence at or after `from`, or -1. */
  function Find(text: string, needle: string, from: nat): (i: int)
    ensures i == -1 || (from <= i && OccursAt(text, needle, i))
    ensures forall j :: from <= j && (i == -1 || j < i) ==> !OccursAt(text, needle, j)
    decreases |text| - from
  {
    if from + |needle| > |text| then -1
    else if OccursAt(text, needle, from) then from
    else Find(text, needle, from + 1)
  }

  /** All occurrences at or after `from`, overlapping ones included. */
  function Occurrences(text: string, needle: string, from: nat): seq<nat>
    decreases |text| - from
  {
    if from + |needle| > |text| then []
    else (if OccursAt(text, needle, from) then [from] else []) + Occurrences(text, needle, from + 1)
  }

  /** The list holds exactly the places where the needle occurs... */
  lemma {:induction false} OccurrencesExact(text: string, needle: string, from: nat)
    ensures forall i :: i in Occurrences(text, needle, from) <==> from <= i && OccursAt(text, needle, i)
    decreases |text| - from
  {
    if from + |needle| <= |text| {
      OccurrencesExact(text, needle, from + 1);
    }
  }

  ghost predicate StrictlyAscending(s: seq<nat>) {
    forall i, j :: 0 <= i < j < |s| ==> s[i] < s[j]
  }

  /** ... in ascending order. */
  lemma {:induction false} OccurrencesAscend(text: string, needle: string, from: nat)
    ensures StrictlyAscending(Occurrences(text, needle, from))
    decreases |text| - from
  {
    if from + |needle| <= |text| {
      OccurrencesAscend(text, needle, from + 1);
      OccurrencesExact(text, needle, from + 1);
      hide OccursAt;
      PrependAscends(from, Occurrences(text, needle, from + 1));
    }
  }

  lemma PrependAscends(first: nat, rest: seq<nat>)
    requires StrictlyAscending(rest)
    requires forall i :: i in rest ==> first < i
    ensures StrictlyAscending([first] + rest)
    ensures [] + rest == rest
  {
    forall i | 0 <= i < |rest|
      ensures first < rest[i]
    {
      assert rest[i] in rest;
    }
  }

  lemma FindFits(text: string, needle: string, from: nat)
    ensures Find(text, needle, from) + |needle| <= |text| || Find(text, needle, from) == -1
  {
  }

  /** Searching past a stretch without occurrences loses none. */
  lemma {:induction false} OccurrencesFromFind(text: string, needle: string, from: nat)
    ensures Find(text, needle, from) == -1 ==> Occurrences(text, needle, from) == []
    ensures Find(text, needle, from) >= 0 ==>
      var f := Find(text, needle, from);
      Occurrences(text, needle, from) == [f] + Occurrences(text, needle, f + 1)
    decreases |text| - from
  {
    hide OccursAt;
    if from + |needle| <= |text| && !OccursAt(text, needle, from) {
      OccurrencesFromFind(text, needle, from + 1);
      assert [] + Occurrences(text, needle, from + 1) == Occurrences(text, needle, from + 1);
    }
  }

  /** A needle that sits at `from` is found there. */
  lemma FindHere(text: string, from: nat, to: nat)
    requires from <= to <= |text|
    ensures Find(text, text[from..to], from) == from
  {
    assert OccursAt(text, text[from..to], from);
  }

  function Flatten(pieces: seq<string>): string {
    if pieces == [] then "" else pieces[0] + Flatten(pieces[1..])
  }

  lemma {:induction false} FlattenAppend(a: seq<string>, b: seq<string>)
    ensures Flatten(a + b) == Flatten(a) + Flatten(b)
  {
    if a == [] {
      assert a + b == b;
    } else {
      FlattenAppend(a[1..], b);
      assert (a + b)[1..] == a[1..] + b;
      assert Flatten(a) + Flatten(b) == a[0] + (Flatten(a[1..]) + Flatten(b));
    }
  }
}
