/** Which windows some reply can cut at all, and which texts can be cut to their end window by
    window when every end needs an anchor of two characters that occurs once in its window. */
module Windows {
  import opened Wrappers
  import opened Text
  import opened Boundaries
  import opened Planner

  // ---------------------------------------------------------------- one window

  /** All characters are the same. */
  predicate Uniform(s: string) {
    forall i :: 0 <= i < |s| ==> s[i] == s[0]
  }

  /** A draft that ends after the first `k` characters. */
  function Head(window: string, k: nat): Draft
    requires k <= |window|
  {
    Draft("-", "-", window[..k])
  }

  lemma OnceAt(window: string, draft: Draft, i: nat)
    requires OccursAt(window, draft.anchor, i)
    requires forall j: nat :: OccursAt(window, draft.anchor, j) ==> j == i
    ensures Times(window, draft) == 1 && EndOf(window, draft) == i + |draft.anchor|
  {
    var places := Occurrences(window, draft.anchor, 0);
    hide Occurrences, OccursAt;
    OccurrencesExact(window, draft.anchor, 0);
    OccurrencesAscend(window, draft.anchor, 0);
    assert i in places;
    forall k | 0 <= k < |places|
      ensures places[k] == i
    {
      assert places[k] in places;
    }
    if |places| > 1 { Apart(places, 0, 1); }
  }

  lemma Apart(places: seq<nat>, i: nat, j: nat)
    requires StrictlyAscending(places) && i < j < |places|
    ensures places[i] < places[j]
  {
  }

  lemma OnceMeansOnce(window: string, draft: Draft, i: nat, j: nat)
    requires Times(window, draft) == 1 && OccursAt(window, draft.anchor, i) && OccursAt(window, draft.anchor, j)
    ensures i == j
  {
    hide OccursAt;
    OccurrencesExact(window, draft.anchor, 0);
  }

  /** The whole window as one anchor is always accepted; so is all but its last character, unless
      all its characters are the same. */
  lemma HeadIsUnique(window: string, k: nat)
    requires k == |window| || (k + 1 == |window| && !Uniform(window))
    ensures Times(window, Head(window, k)) == 1 && EndOf(window, Head(window, k)) == k
  {
    var anchor := window[..k];
    assert window[0..k] == anchor;
    forall j: nat | OccursAt(window, anchor, j)
      ensures j == 0
    {
      if j == 1 {
        assert window[1..1 + k] == window[..k];
        ShiftedIsUniform(window);
      }
    }
    OnceAt(window, Head(window, k), 0);
  }

  lemma ShiftedIsUniform(s: string)
    requires s != [] && s[1..] == s[..|s| - 1]
    ensures Uniform(s)
  {
    var i := 0;
    while i < |s|
      invariant 0 <= i <= |s| && forall j :: 0 <= j < i ==> s[j] == s[0]
    {
      if i > 0 { assert s[i] == s[1..][i - 1] == s[..|s| - 1][i - 1]; }
      i := i + 1;
    }
  }

  /** In a window of one repeated character only the whole window occurs once. */
  lemma UniformHasOneEnd(window: string, draft: Draft)
    requires Uniform(window) && Times(window, draft) == 1
    ensures EndOf(window, draft) == |window|
  {
    EndFits(window, draft);
    var m, i := |draft.anchor|, EndOf(window, draft) - |draft.anchor|;
    assert window[|window| - m..|window|] == window[i..i + m];
    OnceMeansOnce(window, draft, i, |window| - m);
  }

  /** The reply that ends its one episode after `k` characters. */
  function HeadReply(window: string, k: nat): seq<Draft>
    requires k <= |window|
  {
    [Head(window, k)]
  }

  lemma HeadPasses(window: string, k: nat, max: nat)
    requires max >= 1 && 2 <= k && (k == |window| || (k + 1 == |window| && !Uniform(window)))
    ensures Truncated(HeadReply(window, k), Some(max)) == HeadReply(window, k)
    ensures Passes(window, Some(HeadReply(window, k)), false, Some(max))
  {
    HeadIsUnique(window, k);
  }

  /** Some reply passes for a window exactly when it has two characters. */
  lemma PassesIffTwo(window: string, max: nat)
    requires max >= 1
    ensures (exists reply :: Passes(window, reply, false, Some(max))) <==> |window| >= 2
  {
    if |window| >= 2 {
      HeadPasses(window, |window|, max);
    } else {
      forall reply
        ensures !Passes(window, reply, false, Some(max))
      {
        if Passes(window, reply, false, Some(max)) { PassedEnds(window, Truncated(reply.value, Some(max))); }
      }
    }
  }

  /** An accepted batch ends after at least two characters of its window. */
  lemma PassedEnds(window: string, drafts: seq<Draft>)
    requires WellFormed(drafts) && Acceptable(window, drafts, false)
    ensures Times(window, drafts[|drafts| - 1]) == 1
    ensures 2 <= EndOf(window, drafts[|drafts| - 1]) <= |window|
  {
    EndFits(window, drafts[|drafts| - 1]);
  }

  // ---------------------------------------------------------------- window after window

  /** One of the windows of `chars` characters that follow each other from the head of the text,
      the last incomplete one aside, holds different characters. */
  predicate Varies(rest: string, chars: nat) {
    chars > 0 && |rest| >= chars && (!Uniform(rest[..chars]) || Varies(rest[chars..], chars))
  }

  /** How many characters full windows leave at the end: `length % chars`. */
  function Remainder(length: nat, chars: nat): nat
    requires chars > 0
    decreases length
  {
    if length < chars then length else Remainder(length - chars, chars)
  }

  /** The text can be planned to its end: it is blank, or its windows have at least two characters
      and do not have to leave a single last character that is no blank. */
  predicate Cuttable(rest: string, chars: nat) {
    || Blank(rest)
    || (chars >= 2
        && (Remainder(|rest|, chars) != 1 || IsSpace(rest[|rest| - 1]) || (chars >= 3 && Varies(rest, chars))))
  }

  function FirstWindow(rest: string, chars: nat): (r: string)
    ensures |r| == if |rest| < chars then |rest| else chars
  {
    if |rest| < chars then rest else rest[..chars]
  }

  /** Where to end the next episode so that the text can still be planned to its end. */
  function BestEnd(rest: string, chars: nat): (k: nat)
    ensures k <= |FirstWindow(rest, chars)|
  {
    var window := FirstWindow(rest, chars);
    if |rest| > chars >= 3 && Remainder(|rest|, chars) == 1 && !Uniform(window) then chars - 1 else |window|
  }

  lemma {:induction false} TwoLeftOver(length: nat, chars: nat)
    requires 3 <= chars < length && Remainder(length, chars) == 1
    ensures Remainder(length - (chars - 1), chars) == 2
    decreases length
  {
    var rest := length - chars;
    assert Remainder(length, chars) == Remainder(rest, chars);
    if rest > chars {
      TwoLeftOver(rest, chars);
      assert Remainder(length - (chars - 1), chars) == Remainder(rest - (chars - 1), chars);
    } else {
      assert rest == 1;
    }
  }

  lemma LoneCharacter(rest: string)
    requires !Blank(rest)
    ensures |rest| == 1 ==> !IsSpace(rest[0])
  {
  }

  /** Ending at the best end keeps a text plannable, and a window allows it. */
  lemma BestEndCuts(rest: string, chars: nat)
    requires Cuttable(rest, chars) && !Blank(rest)
    ensures 2 <= BestEnd(rest, chars) <= |rest| && Cuttable(rest[BestEnd(rest, chars)..], chars)
    ensures var window, k := FirstWindow(rest, chars), BestEnd(rest, chars);
      k == |window| || (k + 1 == |window| && !Uniform(window))
  {
    var k := BestEnd(rest, chars);
    if |rest| <= chars {
      LoneCharacter(rest);
      assert rest[k..] == "";
    } else {
      var after := rest[k..];
      assert |after| == |rest| - k && after[|after| - 1] == rest[|rest| - 1];
      if k != chars { TwoLeftOver(|rest|, chars); }
    }
  }

  /** From a text that cannot be planned to its end no accepted batch leads to one that can. */
  lemma NoEndHelps(rest: string, chars: nat, drafts: seq<Draft>, snap: bool, ends: seq<nat>)
    requires !Cuttable(rest, chars) && WellFormed(drafts)
    requires var window := FirstWindow(rest, chars);
      Acceptable(window, drafts, false) && AreEnds(window, drafts, snap, ends)
    requires snap ==> |rest| <= chars
    ensures ends != [] && ends[|ends| - 1] <= |rest| && !Cuttable(rest[ends[|ends| - 1]..], chars)
  {
    var window := FirstWindow(rest, chars);
    hide Occurrences, Advancing, EndOf, Times, Blank, Varies, Cuttable, Uniform;
    PassedEnds(window, drafts);
    StuckRest(rest, chars);
    var last := drafts[|drafts| - 1];
    OneEndInStuck(rest, chars, last);
    assert ends[|ends| - 1] == chars;
  }

  /** What a text that cannot be planned to its end looks like. */
  lemma StuckRest(rest: string, chars: nat)
    requires !Cuttable(rest, chars) && chars >= 2
    ensures |rest| == 1 || |rest| > chars
    ensures |rest| > chars ==> !Cuttable(rest[chars..], chars) && (chars == 2 || Uniform(rest[..chars]))
  {
    assert Remainder(0, chars) == 0;
    if |rest| > chars {
      var after := rest[chars..];
      assert after[|after| - 1] == rest[|rest| - 1];
    }
  }

  lemma OneEndInStuck(rest: string, chars: nat, draft: Draft)
    requires !Cuttable(rest, chars) && chars >= 2 && |rest| > chars
    requires Times(rest[..chars], draft) == 1 && 2 <= EndOf(rest[..chars], draft) <= chars
    ensures EndOf(rest[..chars], draft) == chars
  {
    StuckRest(rest, chars);
    if chars > 2 { UniformHasOneEnd(rest[..chars], draft); }
  }
}
