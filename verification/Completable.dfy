/** Which ledgers can be planned to the end of all sources by some generator, and which generator
    does it. */
module Completable {
  import opened Wrappers
  import opened Text
  import opened Boundaries
  import opened Ledger
  import opened Backfill
  import opened Planner
  import opened PlanningCalls
  import opened Tiling
  import opened PlannerLaws
  import opened PlannerRuns
  import opened Windows
  import opened Completion

  // ---------------------------------------------------------------- the window that opens

  predicate LaterCuttable(sources: seq<Doc>, file: string, chars: nat)
    requires Known(sources, file)
  {
    forall d: nat :: IndexOf(sources, file).value < d < |sources| ==> Cuttable(sources[d].text, chars)
  }

  /** What follows the place in its source, and each later source, can be planned to its end. */
  predicate AllCuttable(sources: seq<Doc>, s: Place, chars: nat)
    requires Known(sources, s.file) && 0 <= s.offset <= Length(sources, s.file)
  {
    && Cuttable(sources[IndexOf(sources, s.file).value].text[s.offset..], chars)
    && LaterCuttable(sources, s.file, chars)
  }

  /** Planning can go on from this ledger to the end of all sources. */
  ghost predicate Completes(disk: Disk, p: Project) {
    var s := StartOf(disk, p);
    && s.Some? && Known(disk.sources, s.value.file) && 0 <= s.value.offset <= Length(disk.sources, s.value.file)
    && AllCuttable(disk.sources, s.value, WindowSize(p))
  }

  /** Skipping blanks until a window opens changes nothing about what can be planned. */
  lemma OpeningKeepsCuttable(disk: Disk, ref: Place, chars: nat)
    requires DistinctRels(disk.sources)
    requires Known(disk.sources, ref.file) && 0 <= ref.offset <= Length(disk.sources, ref.file)
    requires Open(disk, ref).Ok?
    ensures match Open(disk, ref).value
      case Exhausted => AllCuttable(disk.sources, ref, chars)
      case Opening(_, file, start, text) =>
        && Known(disk.sources, file) && text == disk.sources[IndexOf(disk.sources, file).value].text
        && 0 <= start < |text| == Length(disk.sources, file) && !Blank(text[start..])
        && (AllCuttable(disk.sources, ref, chars) <==> AllCuttable(disk.sources, Place(file, start), chars))
  {
    hide Varies, IsSpace;
    OpeningSkipsBlanks(disk, ref);
    var sources := disk.sources;
    var d0 := IndexOf(sources, ref.file).value;
    var text0 := sources[d0].text;
    assert PySlice(text0, ref.offset, |text0|) == text0[ref.offset..];
    if Blank(text0[ref.offset..]) {
      var next := SkipBlank(sources, d0 + 1);
      if next.Some? {
        IndexOfDistinct(sources, next.value);
        assert sources[next.value].text[0..] == sources[next.value].text;
      }
    }
  }

  lemma WindowIsFirst(text: string, start: nat, chars: nat)
    requires start <= |text|
    ensures PySlice(text, start, start + chars) == FirstWindow(text[start..], chars)
  {
  }

  /** What a ticket says about the window it was drafted for. */
  lemma TicketWindow(disk: Disk, p: Project, replies: seq<Option<seq<Draft>>>, t: PlanTicket)
    requires DistinctRels(disk.sources) && TicketOf(disk, p, replies, t)
    requires Known(disk.sources, t.ref.file) && 0 <= t.ref.offset <= Length(disk.sources, t.ref.file)
    ensures Known(disk.sources, t.file) && t.text == disk.sources[IndexOf(disk.sources, t.file).value].text
    ensures 0 <= t.start < |t.text| == Length(disk.sources, t.file)
    ensures AllCuttable(disk.sources, t.ref, WindowSize(p)) <==>
      AllCuttable(disk.sources, Place(t.file, t.start), WindowSize(p))
    ensures var window := FirstWindow(t.text[t.start..], WindowSize(p));
      && WellFormed(t.drafts) && Acceptable(window, t.drafts, false) && AreEnds(window, t.drafts, t.final, t.ends)
    ensures t.final ==> |t.text[t.start..]| <= WindowSize(p)
  {
    hide Open, Acceptable, AreEnds, AllCuttable, Advancing;
    TicketIsDrafted(disk, p, replies, t);
    OpeningKeepsCuttable(disk, t.ref, WindowSize(p));
    WindowIsFirst(t.text, t.start, WindowSize(p));
  }

  /** A planning call that goes through leaves a tiled ledger with less left to plan. */
  lemma AfterPlanTiles(disk: Disk, dir: Dir, p: Project, replies: seq<Option<seq<Draft>>>)
    returns (t: PlanTicket, left: Dir)
    requires DistinctRels(disk.sources) && Tiled(disk, dir, p) && Answered(disk, p, replies)
    ensures TicketOf(disk, p, replies, t) && t == TicketFor(disk, p, replies) && t.ends != []
    ensures var q := AfterPlan(disk, p, replies);
      && Tiled(disk, left, q) && Left(disk, left, q) < Left(disk, dir, p) && WindowSize(q) == WindowSize(p)
      && StartOf(disk, p) == Some(t.ref) && StartOf(disk, q) == Some(Place(t.file, EndOfBatch(t)))
  {
    hide Tiled, Drafted, PlanCommit, StartOf, DistinctRels, EndOfBatch, Known, Left, Answered, TicketOf, At, AfterPlan;
    t := TicketFor(disk, p, replies);
    TicketIsDrafted(disk, p, replies, t);
    TiledParts(disk, dir, p);
    BackfillIsIdentity(disk, dir, p);
    var clean := (s: string) => s;
    PlanKeepsTiled(disk, dir, clean, p, t, WindowSize(p));
    CommitExtends(disk, dir, clean, p, t);
    AfterPlanIs(disk, p, replies, t);
    left := PlanCommit(disk, dir, clean, p, t).value.dir;
    LessLeft(disk, World(p, dir, map[]), World(Extended(p, t), left, map[]), t);
  }

  // ---------------------------------------------------------------- some reply passes

  /** The window that planning opens on this ledger. */
  ghost function WindowOf(disk: Disk, p: Project): string
    requires OpensWindow(disk, p)
  {
    var Opening(_, _, start, text) := Open(disk, StartOf(disk, p).value).value;
    PySlice(text, start, start + WindowSize(p))
  }

  lemma AnsweredInWindow(disk: Disk, p: Project, replies: seq<Option<seq<Draft>>>)
    ensures Answered(disk, p, replies) <==>
      && OpensWindow(disk, p)
      && AnyPasses(WindowOf(disk, p), replies, false, Some(Setting(p.maxEpisodes, DEFAULT_PLANNING_MAX_EPISODES)))
  {
    hide Open, AnyPasses, PySlice;
  }

  /** What is left of the source in which the window opens. */
  ghost function RestOf(disk: Disk, p: Project): string
    requires OpensWindow(disk, p)
  {
    var Opening(_, _, start, text) := Open(disk, StartOf(disk, p).value).value;
    PySlice(text, start, |text|)
  }

  lemma OpenedAt(disk: Disk, dir: Dir, p: Project) returns (file: string, start: nat, text: string)
    requires DistinctRels(disk.sources) && Tiled(disk, dir, p) && OpensWindow(disk, p)
    ensures Open(disk, StartOf(disk, p).value) == Ok(Opening(StartOf(disk, p).value, file, start, text))
    ensures Known(disk.sources, file) && text == disk.sources[IndexOf(disk.sources, file).value].text
    ensures start < |text| == Length(disk.sources, file) && !Blank(text[start..])
    ensures Completes(disk, p) <==> AllCuttable(disk.sources, Place(file, start), WindowSize(p))
  {
    TiledParts(disk, dir, p);
    var ref := StartOf(disk, p).value;
    hide Tiled, Open, AllCuttable, Blank;
    OpeningKeepsCuttable(disk, ref, WindowSize(p));
    OpenKeepsRef(disk, ref);
    file, start, text := Open(disk, ref).value.file, Open(disk, ref).value.start, Open(disk, ref).value.text;
  }

  lemma OpenedTexts(disk: Disk, p: Project, file: string, start: nat, text: string)
    requires OpensWindow(disk, p) && start < |text|
    requires Open(disk, StartOf(disk, p).value) == Ok(Opening(StartOf(disk, p).value, file, start, text))
    ensures RestOf(disk, p) == text[start..] && WindowOf(disk, p) == FirstWindow(text[start..], WindowSize(p))
  {
    hide Open;
    WindowIsFirst(text, start, WindowSize(p));
    assert PySlice(text, start, |text|) == text[start..];
  }

  /** Some reply passes on a tiled ledger exactly when a window of at least two characters opens:
      the window setting is at least 2, and at least two characters of that source are left. */
  lemma AnswerableIffTwo(disk: Disk, dir: Dir, p: Project)
    requires DistinctRels(disk.sources) && Tiled(disk, dir, p)
    ensures (exists replies :: Answered(disk, p, replies)) <==> TwoCharactersOpen(disk, p)
  {
    hide Tiled, Answered, WindowOf, Passes, Open, RestOf, Completes, AllCuttable, DistinctRels;
    var max := Setting(p.maxEpisodes, DEFAULT_PLANNING_MAX_EPISODES);
    forall replies { AnsweredInWindow(disk, p, replies); }
    if OpensWindow(disk, p) {
      var file, start, text := OpenedAt(disk, dir, p);
      OpenedTexts(disk, p, file, start, text);
      PassesIffTwo(WindowOf(disk, p), max);
      if TwoCharactersOpen(disk, p) {
        var reply :| Passes(WindowOf(disk, p), reply, false, Some(max));
        assert [reply][0] == reply;
        assert AnyPasses(WindowOf(disk, p), [reply], false, Some(max));
        AnsweredInWindow(disk, p, [reply]);
      }
    }
  }

  ghost predicate TwoCharactersOpen(disk: Disk, p: Project) {
    && OpensWindow(disk, p) && WindowSize(p) >= 2
    && var Opening(_, _, start, text) := Open(disk, StartOf(disk, p).value).value; start + 2 <= |text|
  }

  // ---------------------------------------------------------------- planning with care

  /** One episode that ends where the rest can still be planned. */
  ghost function CarefulReplies(disk: Disk, p: Project): (r: seq<Option<seq<Draft>>>)
    ensures AllWellFormed(r)
  {
    if !OpensWindow(disk, p) then []
    else
      var k := BestEnd(RestOf(disk, p), WindowSize(p));
      if k < 2 then [] else [Some(HeadReply(FirstWindow(RestOf(disk, p), WindowSize(p)), k))]
  }

  ghost function Careful(disk: Disk): Generator {
    p => CarefulReplies(disk, p)
  }

  lemma FurtherOn(sources: seq<Doc>, file: string, start: nat, k: nat, chars: nat)
    requires Known(sources, file) && start + k <= Length(sources, file)
    ensures var rest := sources[IndexOf(sources, file).value].text[start..];
      AllCuttable(sources, Place(file, start + k), chars) <==>
        Cuttable(rest[k..], chars) && LaterCuttable(sources, file, chars)
  {
    var text := sources[IndexOf(sources, file).value].text;
    assert text[start..][k..] == text[start + k..];
    hide Cuttable;
  }

  lemma CarefulIsAnswered(disk: Disk, dir: Dir, p: Project)
    requires DistinctRels(disk.sources) && Tiled(disk, dir, p) && OpensWindow(disk, p) && Completes(disk, p)
    ensures Answered(disk, p, CarefulReplies(disk, p))
    ensures var rest, chars := RestOf(disk, p), WindowSize(p);
      && 2 <= BestEnd(rest, chars) <= |rest| && Cuttable(rest[BestEnd(rest, chars)..], chars)
      && CarefulReplies(disk, p) == [Some(HeadReply(FirstWindow(rest, chars), BestEnd(rest, chars)))]
  {
    var rest, chars := RestOf(disk, p), WindowSize(p);
    var window, max := FirstWindow(rest, chars), Setting(p.maxEpisodes, DEFAULT_PLANNING_MAX_EPISODES);
    var file, start, text := OpenedAt(disk, dir, p);
    OpenedTexts(disk, p, file, start, text);
    hide Tiled, Answered, OpensWindow, WindowOf, Completes, Cuttable, Blank, RestOf, Passes, BestEnd, FirstWindow,
      WindowSize, LaterCuttable, Open;
    BestEndCuts(rest, chars);
    HeadPasses(window, BestEnd(rest, chars), max);
    var replies := CarefulReplies(disk, p);
    assert replies[0] == Some(HeadReply(window, BestEnd(rest, chars)));
    assert AnyPasses(WindowOf(disk, p), replies, false, Some(max));
    AnsweredInWindow(disk, p, replies);
  }

  /** The one ticket that the careful generator can bring about. */
  lemma CarefulTicket(disk: Disk, p: Project, rest: string, t: PlanTicket)
    requires OpensWindow(disk, p) && TicketOf(disk, p, CarefulReplies(disk, p), t)
    requires var k, window := BestEnd(rest, WindowSize(p)), FirstWindow(rest, WindowSize(p));
      && 2 <= k <= |rest| && CarefulReplies(disk, p) == [Some(HeadReply(window, k))]
      && (k == |window| || (k + 1 == |window| && !Uniform(window)))
      && WellFormed(t.drafts) && Acceptable(window, t.drafts, false) && AreEnds(window, t.drafts, t.final, t.ends)
    requires t.final ==> |rest| <= WindowSize(p)
    ensures t.ends != [] && EndOfBatch(t) == t.start + BestEnd(rest, WindowSize(p))
  {
    var k, window := BestEnd(rest, WindowSize(p)), FirstWindow(rest, WindowSize(p));
    HeadIsUnique(window, k);
    HeadPasses(window, k, Setting(p.maxEpisodes, DEFAULT_PLANNING_MAX_EPISODES));
    hide Open, Drafted, Passes, Times, EndOf, CarefulReplies, OpensWindow, Uniform, Acceptable;
    assert t.drafts == HeadReply(window, k);
  }

  lemma CarefulPlace(disk: Disk, dir: Dir, p: Project, file: string, start: nat, text: string)
    requires DistinctRels(disk.sources) && Tiled(disk, dir, p) && OpensWindow(disk, p) && start < |text|
    requires Open(disk, StartOf(disk, p).value) == Ok(Opening(StartOf(disk, p).value, file, start, text))
    requires Answered(disk, p, CarefulReplies(disk, p))
    requires var k, window := BestEnd(text[start..], WindowSize(p)), FirstWindow(text[start..], WindowSize(p));
      && 2 <= k <= |text[start..]| && CarefulReplies(disk, p) == [Some(HeadReply(window, k))]
      && (k == |window| || (k + 1 == |window| && !Uniform(window)))
    ensures var q := AfterPlan(disk, p, CarefulReplies(disk, p));
      && StartOf(disk, q) == Some(Place(file, start + BestEnd(text[start..], WindowSize(p))))
      && WindowSize(q) == WindowSize(p)
  {
    hide CarefulReplies, BestEnd, FirstWindow, Uniform, HeadReply, Tiled, Answered, TicketOf, AfterPlan, Open,
      OpensWindow, Left, AreEnds, Acceptable, AllCuttable, WindowSize, DistinctRels;
    var replies := CarefulReplies(disk, p);
    var t, left := AfterPlanTiles(disk, dir, p, replies);
    TiledParts(disk, dir, p);
    TicketWindow(disk, p, replies, t);
    TicketPlace(disk, p, replies, t, file, start, text);
    CarefulTicket(disk, p, text[start..], t);
  }

  /** The careful generator's next ledger can be completed again. */
  lemma CarefulGoesOn(disk: Disk, dir: Dir, p: Project)
    requires DistinctRels(disk.sources) && Tiled(disk, dir, p) && OpensWindow(disk, p) && Completes(disk, p)
    ensures Answered(disk, p, CarefulReplies(disk, p))
    ensures Completes(disk, AfterPlan(disk, p, CarefulReplies(disk, p)))
  {
    hide Tiled, Answered, AfterPlan, CarefulReplies, BestEnd, Open, OpensWindow, Cuttable, LaterCuttable, FirstWindow,
      Uniform, Blank, RestOf, WindowOf, HeadReply, WindowSize, DistinctRels, AllCuttable, Completes;
    var chars := WindowSize(p);
    CarefulIsAnswered(disk, dir, p);
    var file, start, text := OpenedAt(disk, dir, p);
    OpenedTexts(disk, p, file, start, text);
    FurtherOn(disk.sources, file, start, 0, chars);
    assert text[start..][0..] == text[start..];
    BestEndCuts(text[start..], chars);
    CarefulPlace(disk, dir, p, file, start, text);
    FurtherOn(disk.sources, file, start, BestEnd(text[start..], chars), chars);
    var next := Place(file, start + BestEnd(text[start..], chars));
    CompletesFrom(disk, AfterPlan(disk, p, CarefulReplies(disk, p)), next);
  }

  lemma CompletesFrom(disk: Disk, p: Project, s: Place)
    requires StartOf(disk, p) == Some(s) && Known(disk.sources, s.file) && 0 <= s.offset <= Length(disk.sources, s.file)
    ensures Completes(disk, p) <==> AllCuttable(disk.sources, s, WindowSize(p))
  {
    hide AllCuttable;
  }

  lemma TicketPlace(disk: Disk, p: Project, replies: seq<Option<seq<Draft>>>, t: PlanTicket, file: string, start: nat,
                    text: string)
    requires TicketOf(disk, p, replies, t) && StartOf(disk, p).Some?
    requires Open(disk, StartOf(disk, p).value) == Ok(Opening(StartOf(disk, p).value, file, start, text))
    ensures t.file == file && t.start == start && t.text == text
  {
    hide Open, Acceptable, AreEnds;
  }

  /** From a ledger that cannot be completed no accepted batch leads to one that can. */
  lemma NoBatchHelps(disk: Disk, dir: Dir, p: Project, replies: seq<Option<seq<Draft>>>)
    requires DistinctRels(disk.sources) && Tiled(disk, dir, p) && !Completes(disk, p) && Answered(disk, p, replies)
    ensures !Completes(disk, AfterPlan(disk, p, replies))
  {
    hide Tiled, Answered, TicketOf, AfterPlan, Open, OpensWindow, Cuttable, LaterCuttable, Left, FirstWindow, AreEnds,
      Acceptable, Blank, AllCuttable, Completes, DistinctRels;
    var chars := WindowSize(p);
    OpensOrNot(disk, dir, p, replies);
    var file, start, text := OpenedAt(disk, dir, p);
    var t, left := AfterPlanTiles(disk, dir, p, replies);
    TiledParts(disk, dir, p);
    TicketWindow(disk, p, replies, t);
    TicketPlace(disk, p, replies, t, file, start, text);
    FurtherOn(disk.sources, file, start, 0, chars);
    assert text[start..][0..] == text[start..];
    var end := t.ends[|t.ends| - 1];
    EndLiesInRest(text[start..], chars, t);
    FurtherOn(disk.sources, file, start, end, chars);
    CompletesFrom(disk, AfterPlan(disk, p, replies), Place(file, start + end));
    if !Cuttable(text[start..], chars) {
      NoEndHelps(text[start..], chars, t.drafts, t.final, t.ends);
    }
  }

  lemma EndLiesInRest(rest: string, chars: nat, t: PlanTicket)
    requires var window := FirstWindow(rest, chars);
      WellFormed(t.drafts) && Acceptable(window, t.drafts, false) && AreEnds(window, t.drafts, t.final, t.ends)
    ensures t.ends != [] && t.ends[|t.ends| - 1] <= |rest|
  {
    PassedEnds(FirstWindow(rest, chars), t.drafts);
  }

  // ---------------------------------------------------------------- whole runs

  lemma NothingOpensCompletes(disk: Disk, dir: Dir, p: Project)
    requires DistinctRels(disk.sources) && Tiled(disk, dir, p)
    ensures !OpensWindow(disk, p) ==> Completes(disk, p)
  {
    TiledParts(disk, dir, p);
    hide Tiled, Open, Cuttable, LaterCuttable, AllCuttable;
    OpensOrNot(disk, dir, p, []);
    if !OpensWindow(disk, p) {
      ExhaustedIsNothing(disk, p);
      OpeningKeepsCuttable(disk, StartOf(disk, p).value, WindowSize(p));
    }
  }

  lemma {:induction false} CarefulRun(disk: Disk, dir: Dir, p: Project, n: nat) returns (left: Dir)
    requires DistinctRels(disk.sources) && Tiled(disk, dir, p) && Completes(disk, p)
    ensures Tiled(disk, left, Ledgers(disk, p, Careful(disk), n)) && Completes(disk, Ledgers(disk, p, Careful(disk), n))
  {
    hide Tiled, Completes, OpensWindow, Answered, AfterPlan, Left, CarefulReplies;
    if n == 0 {
      left := dir;
    } else {
      left := CarefulRun(disk, dir, p, n - 1);
      var q := Ledgers(disk, p, Careful(disk), n - 1);
      OpensOrNot(disk, left, q, CarefulReplies(disk, q));
      NoAnswerNoChange(disk, q, CarefulReplies(disk, q));
      if OpensWindow(disk, q) {
        CarefulGoesOn(disk, left, q);
        var t, next := AfterPlanTiles(disk, left, q, CarefulReplies(disk, q));
        left := next;
      }
    }
  }

  lemma {:induction false} StuckSomewhere(disk: Disk, dir: Dir, p: Project, generator: Generator)
    requires DistinctRels(disk.sources) && Tiled(disk, dir, p) && !Completes(disk, p)
    ensures !NeverStuck(disk, p, generator)
    decreases Left(disk, dir, p)
  {
    hide Tiled, Completes, OpensWindow, Answered, AfterPlan, Left, TicketOf;
    NothingOpensCompletes(disk, dir, p);
    if !Answered(disk, p, generator(p)) {
      StuckHere(disk, p, generator, 0);
    } else {
      var t, left := AfterPlanTiles(disk, dir, p, generator(p));
      NoBatchHelps(disk, dir, p, generator(p));
      var q := AfterPlan(disk, p, generator(p));
      StuckSomewhere(disk, left, q, generator);
      var n: nat :| OpensWindow(disk, Ledgers(disk, q, generator, n)) &&
        !Answered(disk, Ledgers(disk, q, generator, n), generator(Ledgers(disk, q, generator, n)));
      LedgersShift(disk, p, generator, n);
      StuckHere(disk, p, generator, n + 1);
    }
  }

  /** Planning a tiled ledger to the end of all sources is possible for some generator if and only
      if what is left of each source can be cut to its end; then the careful generator does it. */
  lemma CompletesExactly(disk: Disk, dir: Dir, p: Project, generator: Generator)
    requires DistinctRels(disk.sources) && Tiled(disk, dir, p)
    ensures NeverStuck(disk, p, generator) ==> Completes(disk, p)
    ensures Completes(disk, p) ==> Answers(Careful(disk)) && NeverStuck(disk, p, Careful(disk))
  {
    hide Tiled, Completes, OpensWindow, Answered, AfterPlan, Left, CarefulReplies, AllWellFormed, Ledgers, DistinctRels;
    if !Completes(disk, p) {
      StuckSomewhere(disk, dir, p, generator);
    } else {
      forall n: nat | OpensWindow(disk, Ledgers(disk, p, Careful(disk), n))
        ensures Answered(disk, Ledgers(disk, p, Careful(disk), n), Careful(disk)(Ledgers(disk, p, Careful(disk), n)))
      {
        var left := CarefulRun(disk, dir, p, n);
        CarefulGoesOn(disk, left, Ledgers(disk, p, Careful(disk), n));
      }
    }
  }

  // ---------------------------------------------------------------- an example

  const STORY := "source/story.txt"

  function StoryDisk(): Disk {
    Disk([Doc(STORY, "abcd")], map[], {}, {})
  }

  /** A new project with default settings. */
  function NewProject(): Project {
    Project([], Null, 0, 0)
  }

  /** One episode that ends with the third of the four letters. */
  function HastyReplies(): seq<Option<seq<Draft>>> {
    [Some([Draft("-", "-", "bc")])]
  }

  lemma HastyAnchor()
    ensures Times("abcd", Draft("-", "-", "bc")) == 1 && EndOf("abcd", Draft("-", "-", "bc")) == 3
  {
    var text := "abcd";
    assert text[0..2] == "ab" && text[1..3] == "bc" && text[2..4] == "cd";
    forall j: nat | OccursAt(text, "bc", j)
      ensures j == 1
    {
      assert text[j..j + 2][0] == 'b';
    }
    OnceAt(text, Draft("-", "-", "bc"), 1);
  }

  lemma HastyOpens()
    ensures OpensWindow(StoryDisk(), NewProject()) && WindowOf(StoryDisk(), NewProject()) == "abcd"
    ensures StartOf(StoryDisk(), NewProject()) == Some(Place(STORY, 0))
    ensures Open(StoryDisk(), Place(STORY, 0)) == Ok(Opening(Place(STORY, 0), STORY, 0, "abcd"))
  {
    var text := "abcd";
    assert IndexOf(StoryDisk().sources, STORY) == Some(0);
    assert PySlice(text, 0, |text|) == text && PySlice(text, 0, 30000) == text;
    assert !Blank(text) by { assert !IsSpace(text[0]); }
  }

  lemma HastyPasses()
    ensures Passes("abcd", HastyReplies()[0], false, Some(20))
    ensures Answered(StoryDisk(), NewProject(), HastyReplies())
  {
    HastyAnchor();
    HastyOpens();
    hide Times, EndOf, OpensWindow, WindowOf, Answered;
    var reply := [Draft("-", "-", "bc")];
    assert HastyReplies()[0] == Some(reply) && Truncated(reply, Some(20)) == reply;
    assert WellFormed(reply) && Acceptable("abcd", reply, false);
    assert Passes("abcd", HastyReplies()[0], false, Some(20));
    assert AnyPasses("abcd", HastyReplies(), false, Some(20));
    AnsweredInWindow(StoryDisk(), NewProject(), HastyReplies());
  }

  lemma HastyTicket(t: PlanTicket)
    requires TicketOf(StoryDisk(), NewProject(), HastyReplies(), t)
    ensures t.file == STORY && t.start == 0 && t.text == "abcd" && t.ends == [3]
  {
    HastyOpens();
    HastyAnchor();
    TicketPlace(StoryDisk(), NewProject(), HastyReplies(), t, STORY, 0, "abcd");
    hide Open, OpensWindow, WindowOf, Times, EndOf, StartOf;
    var text := "abcd";
    assert PySlice(text, 0, 30000) == text;
    var i :| FirstToPass(PySlice(t.text, t.start, t.start + 30000), HastyReplies(), false, Some(20), i)
      && t.drafts == Truncated(HastyReplies()[i].value, Some(20));
    assert t.drafts == [Draft("-", "-", "bc")];
    assert text[3..] == "d" && !Blank("d") by { assert !IsSpace("d"[0]); }
  }

  /** A new project over four letters could be planned to the end, but when its first reply ends
      after the third letter, which is accepted, the fourth can never be planned: no reply
      whatever passes for it. */
  lemma OneLetterLeft()
    ensures var disk, p := StoryDisk(), NewProject();
      && Tiled(disk, Dir(map[], None), p) && Completes(disk, p) && Answered(disk, p, HastyReplies())
      && var q := AfterPlan(disk, p, HastyReplies());
        && (exists dir :: Tiled(disk, dir, q))
        && OpensWindow(disk, q) && forall replies :: !Answered(disk, q, replies)
  {
    var disk, p := StoryDisk(), NewProject();
    NewProjectIsTiled(disk, 0, 0);
    HastyPasses();
    NewProjectCompletes();
    hide Tiled, Completes, Answered, AfterPlan, TicketOf, Left;
    var t, left := AfterPlanTiles(disk, Dir(map[], None), p, HastyReplies());
    HastyTicket(t);
    var q := AfterPlan(disk, p, HastyReplies());
    OpensAtLast(q);
    AnswerableIffTwo(disk, left, q);
  }

  lemma NewProjectCompletes()
    ensures Completes(StoryDisk(), NewProject())
  {
    var text := "abcd";
    assert text[0..] == text;
    assert IndexOf(StoryDisk().sources, STORY) == Some(0);
  }

  lemma OpensAtLast(q: Project)
    requires StartOf(StoryDisk(), q) == Some(Place(STORY, 3))
    ensures OpensWindow(StoryDisk(), q) && !TwoCharactersOpen(StoryDisk(), q)
  {
    var text := "abcd";
    assert IndexOf(StoryDisk().sources, STORY) == Some(0);
    assert PySlice(text, 3, |text|) == "d" && !Blank("d") by { assert text[3..4] == "d"; assert !IsSpace("d"[0]); }
  }
}
