/** Turning untrusted end anchors into a partition of a window (`_resolve_boundaries`). */
module Boundaries {
  import opened Wrappers
  import opened Text

  /** One episode as the generator drafts it; the schema asks for an anchor of at least two
      characters. */
  datatype Draft = Draft(title: string, hook: string, anchor: string)

  datatype Reason =
    | Missing(idx: nat)
    | Ambiguous(idx: nat, times: nat)
    | OutOfOrder(idx: nat)
    | TailLeft

  predicate WellFormed(drafts: seq<Draft>) {
    drafts != [] && forall i :: 0 <= i < |drafts| ==> |drafts[i].anchor| >= 2
  }

  function Times(window: string, draft: Draft): nat {
    |Occurrences(window, draft.anchor, 0)|
  }

  /** Where the anchor's first occurrence ends. */
  function EndOf(window: string, draft: Draft): nat
    requires Times(window, draft) > 0
  {
    Occurrences(window, draft.anchor, 0)[0] + |draft.anchor|
  }

  /** The first `k` anchors occur once each and their ends strictly increase. */
  ghost predicate Advancing(window: string, drafts: seq<Draft>, k: nat)
    requires k <= |drafts|
  {
    && (forall i :: 0 <= i < k ==> Times(window, drafts[i]) == 1)
    && (forall i, j :: 0 <= i && j == i + 1 && j < k ==> EndOf(window, drafts[i]) < EndOf(window, drafts[j]))
  }

  /** When a draft is acceptable: once each, in order, and nothing but blanks left behind when
      the window must be covered. */
  ghost predicate Acceptable(window: string, drafts: seq<Draft>, coverToEnd: bool)
    requires WellFormed(drafts)
  {
    && Advancing(window, drafts, |drafts|)
    && (coverToEnd ==> LeavesBlank(window, drafts))
  }

  ghost predicate LeavesBlank(window: string, drafts: seq<Draft>)
    requires drafts != [] && Times(window, drafts[|drafts| - 1]) == 1
  {
    EndFits(window, drafts[|drafts| - 1]);
    Blank(window[EndOf(window, drafts[|drafts| - 1])..])
  }

  lemma EndFits(window: string, draft: Draft)
    requires Times(window, draft) > 0
    ensures |draft.anchor| <= EndOf(window, draft) <= |window|
    ensures OccursAt(window, draft.anchor, EndOf(window, draft) - |draft.anchor|)
  {
    OccurrencesExact(window, draft.anchor, 0);
    assert Occurrences(window, draft.anchor, 0)[0] in Occurrences(window, draft.anchor, 0);
  }

  /** What the ends are: the anchors' ends, the last one moved to the end of the window when
      only blanks follow it and the caller wants that. */
  ghost predicate AreEnds(window: string, drafts: seq<Draft>, snap: bool, ends: seq<nat>)
    requires WellFormed(drafts) && Advancing(window, drafts, |drafts|)
  {
    && |ends| == |drafts|
    && (forall i :: 0 <= i < |ends| - 1 ==> ends[i] == EndOf(window, drafts[i]))
    && ends[|ends| - 1] ==
       if snap && LeavesBlank(window, drafts) then |window| else EndOf(window, drafts[|drafts| - 1])
  }

  /** The complaints after looking at the first `k` drafts: every missing or repeated anchor,
      and the first one out of order if nothing before it was wrong. */
  ghost predicate Complains(window: string, drafts: seq<Draft>, k: nat, reasons: seq<Reason>)
    requires k <= |drafts|
  {
    && (forall i: nat :: Missing(i) in reasons <==> i < k && Times(window, drafts[i]) == 0)
    && (forall i: nat, n: nat :: Ambiguous(i, n) in reasons <==> i < k && Times(window, drafts[i]) == n && n > 1)
    && (forall i: nat :: OutOfOrder(i) in reasons <==> i < k && FirstOutOfOrder(window, drafts, i))
    && TailLeft !in reasons
    && (reasons == [] <==> Advancing(window, drafts, k))
  }

  ghost predicate FirstOutOfOrder(window: string, drafts: seq<Draft>, i: nat)
    requires i < |drafts|
  {
    Advancing(window, drafts, i) && Times(window, drafts[i]) == 1 && !Advancing(window, drafts, i + 1)
  }

  method AllStarts(window: string, anchor: string) returns (starts: seq<nat>)
    ensures starts == Occurrences(window, anchor, 0)
  {
    hide Occurrences, OccursAt;
    starts := [];
    var found := Find(window, anchor, 0);
    OccurrencesFromFind(window, anchor, 0);
    FindFits(window, anchor, 0);
    while found != -1
      invariant -1 <= found <= |window|
      invariant Occurrences(window, anchor, 0)
        == starts + if found == -1 then [] else [found] + Occurrences(window, anchor, found + 1)
      decreases if found == -1 then 0 else |window| + 1 - found
    {
      OccurrencesFromFind(window, anchor, found + 1);
      FindFits(window, anchor, found + 1);
      ghost var rest := Occurrences(window, anchor, found + 1);
      assert starts + ([found] + rest) == (starts + [found]) + rest;
      starts := starts + [found];
      found := Find(window, anchor, found + 1);
    }
  }

  method ResolveBoundaries(window: string, drafts: seq<Draft>, coverToEnd: bool, snapTail: bool)
    returns (r: Result<seq<nat>, seq<Reason>>)
    requires WellFormed(drafts)
    ensures r.Ok? <==> Acceptable(window, drafts, coverToEnd)
    ensures r.Ok? ==> AreEnds(window, drafts, coverToEnd || snapTail, r.value)
    ensures r.Err? && !Advancing(window, drafts, |drafts|) ==> Complains(window, drafts, |drafts|, r.error)
    ensures r.Err? && Advancing(window, drafts, |drafts|) ==> r.error == [TailLeft]
  {
    hide Advancing, Complains, Acceptable, AreEnds, LeavesBlank, EndsSoFar, Occurrences;
    var reasons: seq<Reason> := [];
    var ends: seq<nat> := [];
    var pos := 0;
    var orderingValid := true;
    NothingYet(window, drafts);
    for idx := 0 to |drafts|
      invariant Complains(window, drafts, idx, reasons)
      invariant orderingValid <==> reasons == []
      invariant orderingValid ==> |ends| == idx && EndsSoFar(window, drafts, idx, ends)
      invariant orderingValid ==> pos == if idx == 0 then 0 else ends[idx - 1]
    {
      var anchor := drafts[idx].anchor;
      var starts := AllStarts(window, anchor);
      ComplainsStep(window, drafts, idx, reasons);
      if starts == [] {
        reasons := reasons + [Missing(idx)];
        orderingValid := false;
        continue;
      }
      if |starts| > 1 {
        reasons := reasons + [Ambiguous(idx, |starts|)];
        orderingValid := false;
        continue;
      }
      var end := starts[0] + |anchor|;
      if orderingValid { EndsStep(window, drafts, idx, ends); }
      if orderingValid && end <= pos {
        reasons := reasons + [OutOfOrder(idx)];
        orderingValid := false;
        continue;
      }
      ends := ends + [end];
      pos := end;
    }
    Verdict(window, drafts, coverToEnd, reasons);
    if reasons != [] {
      return Err(reasons);
    }
    EndsFinish(window, drafts, coverToEnd || snapTail, ends);
    var last := ends[|ends| - 1];
    assert ends[|ends| - 1 := last] == ends;
    if (coverToEnd || snapTail) && last < |window| && Blank(window[last..]) {
      ends := ends[|ends| - 1 := |window|];
    }
    if coverToEnd && ends[|ends| - 1] < |window| {
      return Err([TailLeft]);
    }
    return Ok(ends);
  }

  /** While nothing is wrong, the collected ends are the anchors' ends. */
  ghost predicate EndsSoFar(window: string, drafts: seq<Draft>, k: nat, ends: seq<nat>)
    requires k <= |drafts|
  {
    && Advancing(window, drafts, k)
    && |ends| == k
    && forall i :: 0 <= i < k ==> ends[i] == EndOf(window, drafts[i])
  }

  lemma NothingYet(window: string, drafts: seq<Draft>)
    ensures Complains(window, drafts, 0, []) && EndsSoFar(window, drafts, 0, [])
  {
  }

  lemma EndsStep(window: string, drafts: seq<Draft>, k: nat, ends: seq<nat>)
    requires k < |drafts| && EndsSoFar(window, drafts, k, ends) && Times(window, drafts[k]) == 1
    requires |drafts[k].anchor| > 0
    ensures Advancing(window, drafts, k)
    ensures var end := EndOf(window, drafts[k]);
      && (EndsSoFar(window, drafts, k + 1, ends + [end]) <==> end > if k == 0 then 0 else ends[k - 1])
      && (Advancing(window, drafts, k + 1) <==> end > if k == 0 then 0 else ends[k - 1])
  {
    AdvancingStep(window, drafts, k);
  }

  lemma Verdict(window: string, drafts: seq<Draft>, coverToEnd: bool, reasons: seq<Reason>)
    requires WellFormed(drafts) && Complains(window, drafts, |drafts|, reasons)
    ensures reasons == [] <==> Advancing(window, drafts, |drafts|)
    ensures reasons != [] ==> !Acceptable(window, drafts, coverToEnd)
  {
  }

  lemma EndsFinish(window: string, drafts: seq<Draft>, snap: bool, ends: seq<nat>)
    requires WellFormed(drafts) && EndsSoFar(window, drafts, |drafts|, ends)
    ensures Advancing(window, drafts, |drafts|)
    ensures ends[|ends| - 1] <= |window|
    ensures var blank := Blank(window[ends[|ends| - 1]..]);
      && (Acceptable(window, drafts, true) <==> blank)
      && Acceptable(window, drafts, false)
      && AreEnds(window, drafts, snap, if snap && blank then ends[|ends| - 1 := |window|] else ends)
  {
    EndFits(window, drafts[|drafts| - 1]);
  }

  /** One more draft adds its own complaint, if it has one, and nothing else. */
  lemma ComplainsStep(window: string, drafts: seq<Draft>, k: nat, reasons: seq<Reason>)
    requires k < |drafts| && Complains(window, drafts, k, reasons)
    ensures reasons == [] <==> Advancing(window, drafts, k)
    ensures var t := Times(window, drafts[k]);
      if t == 0 then Complains(window, drafts, k + 1, reasons + [Missing(k)])
      else if t > 1 then Complains(window, drafts, k + 1, reasons + [Ambiguous(k, t)])
      else if Advancing(window, drafts, k) && !Advancing(window, drafts, k + 1) then
        Complains(window, drafts, k + 1, reasons + [OutOfOrder(k)])
      else Complains(window, drafts, k + 1, reasons)
  {
    hide Advancing, Times;
    AdvancingStep(window, drafts, k);
    var t := Times(window, drafts[k]);
    var added :=
      if t == 0 then [Missing(k)]
      else if t > 1 then [Ambiguous(k, t)]
      else if FirstOutOfOrder(window, drafts, k) then [OutOfOrder(k)]
      else [];
    hide FirstOutOfOrder;
    var now := reasons + added;
    forall i: nat
      ensures Missing(i) in now <==> i < k + 1 && Times(window, drafts[i]) == 0
      ensures OutOfOrder(i) in now <==> i < k + 1 && FirstOutOfOrder(window, drafts, i)
    {
      if i == k { assert Missing(k) !in reasons && OutOfOrder(k) !in reasons; }
    }
    forall i: nat, n: nat
      ensures Ambiguous(i, n) in now <==> i < k + 1 && Times(window, drafts[i]) == n && n > 1
    {
      if i == k { assert Ambiguous(k, n) !in reasons; }
    }
    assert now == if added == [] then reasons else reasons + [added[0]];
  }

  lemma AdvancingStep(window: string, drafts: seq<Draft>, k: nat)
    requires k < |drafts|
    ensures Advancing(window, drafts, k + 1) <==>
      && Advancing(window, drafts, k)
      && Times(window, drafts[k]) == 1
      && (k > 0 ==> EndOf(window, drafts[k - 1]) < EndOf(window, drafts[k]))
  {
  }

  // ---------------------------------------------------------------- the partition

  /** Half-open pieces between consecutive ends. */
  function Pieces(window: string, from: nat, ends: seq<nat>): seq<string>
    requires Ascends(window, from, ends)
    decreases |ends|
  {
    if ends == [] then [] else [window[from..ends[0]]] + Pieces(window, ends[0], ends[1..])
  }

  predicate Ascends(window: string, from: nat, ends: seq<nat>)
    decreases |ends|
  {
    if ends == [] then from <= |window|
    else from < ends[0] <= |window| && Ascends(window, ends[0], ends[1..])
  }

  /** Accepted ends cut the window's prefix, or the whole window when it must be covered, into
      as many non-empty pieces as there are drafts. */
  lemma AcceptedEndsPartition(window: string, drafts: seq<Draft>, coverToEnd: bool, snapTail: bool, ends: seq<nat>)
    requires WellFormed(drafts) && Acceptable(window, drafts, coverToEnd)
    requires AreEnds(window, drafts, coverToEnd || snapTail, ends)
    ensures |ends| == |drafts| && Ascends(window, 0, ends) && ends[|ends| - 1] <= |window|
    ensures Flatten(Pieces(window, 0, ends)) == window[..ends[|ends| - 1]]
    ensures |Pieces(window, 0, ends)| == |drafts|
    ensures forall i :: 0 <= i < |drafts| ==> Pieces(window, 0, ends)[i] != ""
    ensures coverToEnd ==> Flatten(Pieces(window, 0, ends)) == window
    ensures (coverToEnd || snapTail) && Blank(window[ends[|ends| - 1]..]) ==> ends[|ends| - 1] == |window|
  {
    forall i | 0 <= i < |drafts|
      ensures 0 < ends[i] <= |window|
      ensures i > 0 ==> ends[i - 1] < ends[i]
    {
      EndFits(window, drafts[i]);
      EndFits(window, drafts[|drafts| - 1]);
    }
    AscendsFrom(window, 0, ends);
    PiecesFlatten(window, 0, ends);
    assert window[0..ends[|ends| - 1]] == window[..ends[|ends| - 1]];
  }

  lemma {:induction false} AscendsFrom(window: string, from: nat, ends: seq<nat>)
    requires from <= |window| && (ends != [] ==> from < ends[0])
    requires forall i :: 0 <= i < |ends| ==> ends[i] <= |window|
    requires forall i, j :: 0 <= i && j == i + 1 && j < |ends| ==> ends[i] < ends[j]
    ensures Ascends(window, from, ends)
    decreases |ends|
  {
    if ends != [] {
      AscendsFrom(window, ends[0], ends[1..]);
    }
  }

  lemma {:induction false} AscendsLast(window: string, from: nat, ends: seq<nat>)
    requires Ascends(window, from, ends)
    ensures ends != [] ==> from < ends[|ends| - 1] <= |window|
    ensures forall i :: 0 <= i < |ends| ==> from < ends[i] <= |window|
    ensures forall i, j :: 0 <= i < j < |ends| ==> ends[i] < ends[j]
    decreases |ends|
  {
    if ends != [] {
      AscendsLast(window, ends[0], ends[1..]);
      var rest := ends[1..];
      assert forall i :: 0 < i < |ends| ==> ends[i] == rest[i - 1];
    }
  }

  lemma {:induction false} PiecesFlatten(window: string, from: nat, ends: seq<nat>)
    requires Ascends(window, from, ends)
    ensures ends != [] ==> from < ends[|ends| - 1] <= |window|
    ensures Flatten(Pieces(window, from, ends)) == if ends == [] then "" else window[from..ends[|ends| - 1]]
    ensures |Pieces(window, from, ends)| == |ends|
    ensures forall i :: 0 <= i < |ends| ==> Pieces(window, from, ends)[i] != ""
    decreases |ends|
  {
    if ends != [] {
      PiecesFlatten(window, ends[0], ends[1..]);
      AscendsLast(window, from, ends);
      var last := ends[|ends| - 1];
      assert window[from..last] == window[from..ends[0]] + window[ends[0]..last];
    }
  }
}
