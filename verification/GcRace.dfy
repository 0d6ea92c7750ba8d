/**
 The list of garbage collections at the granularity of its locks. `gcFinish` makes four
 locked calls (the last element, then the test and the pop of `pop_front`, then a push),
 and the cleaner pops from the same list, so that both can meet a list that is too short.
 Finishes do not overlap each other.
 */
module GcRace {
  import opened Basics

  /** Where the finish of a collection is, and which collection it holds. */
  datatype Phase = Idle | Held(event: nat) | Tested(event: nat) | Popped(event: nat)

  datatype Step =
    | Start        // push_back of gcStart
    | Back | Test | Pop | PushAgain
    | Mark | Clean

  /** `until`: what the last mark counted; `marked`: it waits for its clean. */
  datatype Race = Race(list: seq<nat>, started: nat, phase: Phase, until: nat, marked: bool)

  /** The order of calls in each thread; marks and cleans take turns. */
  predicate Enabled(s: Race, step: Step) {
    match step
    case Start => true
    case Back => s.phase.Idle?
    case Test => s.phase.Held?
    case Pop => s.phase.Tested?
    case PushAgain => s.phase.Popped?
    case Mark => !s.marked
    case Clean => s.marked
  }

  /** `back` and the pops are undefined on a list that is too short. */
  predicate Defined(s: Race, step: Step) {
    match step
    case Back => s.list != []
    case Pop => s.list != []
    case Clean => s.until <= |s.list|
    case _ => true
  }

  /** A test that finds the list empty makes `pop_front` answer null, and the push follows. */
  function Next(s: Race, step: Step): Race
    requires Enabled(s, step) && Defined(s, step)
  {
    match step
    case Start => s.(list := s.list + [s.started], started := s.started + 1)
    case Back => s.(phase := Held(s.list[|s.list| - 1]))
    case Test => s.(phase := if s.list == [] then Popped(s.phase.event) else Tested(s.phase.event))
    case Pop => s.(list := s.list[1..], phase := Popped(s.phase.event))
    case PushAgain => s.(list := s.list + [s.phase.event], phase := Idle)
    case Mark => s.(until := |s.list|, marked := true)
    case Clean => s.(list := s.list[s.until..], marked := false)
  }

  /** The state after a run in which every call was defined. */
  function RaceAfter(steps: seq<Step>): Option<Race> {
    if steps == [] then Some(Race([], 0, Idle, 0, false)) else
    var before, step := RaceAfter(steps[..|steps| - 1]), steps[|steps| - 1];
    if before.Some? && Enabled(before.value, step) && Defined(before.value, step)
    then Some(Next(before.value, step)) else None
  }

  function Change(step: Step): int {
    match step
    case Start => 1
    case PushAgain => 1
    case Pop => -1
    case _ => 0
  }

  /** Pushes less pops since the last mark. */
  function SinceMark(steps: seq<Step>): int {
    if steps == [] || steps[|steps| - 1].Mark? then 0 else SinceMark(steps[..|steps| - 1]) + Change(steps[|steps| - 1])
  }

  /** Pushes less pops since the mark of the last clean, or since the beginning. */
  function Balance(steps: seq<Step>): int {
    if steps == [] then 0 else
    var front, step := steps[..|steps| - 1], steps[|steps| - 1];
    if step.Clean? then SinceMark(front) else Balance(front) + Change(step)
  }

  lemma {:induction false} LengthStep(s: Race, step: Step)
    requires Enabled(s, step) && Defined(s, step)
    ensures var n := Next(s, step);
      && (!step.Clean? ==> |n.list| == |s.list| + Change(step))
      && (step.Clean? ==> |n.list| == |s.list| - s.until)
      && (n.until == if step.Mark? then |s.list| else s.until)
      && (n.marked == if step.Mark? then true else if step.Clean? then false else s.marked)
  {
  }

  /** The list is as long as the balance, and the next clean finds as much too little as was popped and not pushed. */
  lemma {:induction false} LengthIsBalance(steps: seq<Step>, s: Race)
    requires RaceAfter(steps) == Some(s)
    ensures |s.list| == Balance(steps)
    ensures s.marked ==> |s.list| == s.until + SinceMark(steps)
  {
    hide Enabled, Defined, Next;
    if steps != [] {
      var front, step := steps[..|steps| - 1], steps[|steps| - 1];
      LengthIsBalance(front, RaceAfter(front).value);
      LengthStep(RaceAfter(front).value, step);
      CleanNeedsMark(RaceAfter(front).value, step);
    }
  }

  lemma {:induction false} CleanNeedsMark(s: Race, step: Step)
    requires Enabled(s, step)
    ensures step.Clean? ==> s.marked
  {
  }

  /** A clean came since the test of the finish. */
  ghost predicate CleanSinceTest(steps: seq<Step>) {
    steps != [] && !steps[|steps| - 1].Test? && (steps[|steps| - 1].Clean? || CleanSinceTest(steps[..|steps| - 1]))
  }

  lemma {:induction false} TestedStep(s: Race, step: Step)
    requires Enabled(s, step) && Defined(s, step) && Next(s, step).phase.Tested?
    ensures step.Test? ==> Next(s, step).list != []
    ensures !step.Test? ==> s.phase.Tested? && (step.Clean? || s.list == [] || Next(s, step).list != [])
  {
  }

  lemma {:induction false} EmptyNeedsClean(steps: seq<Step>, s: Race)
    requires RaceAfter(steps) == Some(s) && s.phase.Tested? && s.list == []
    ensures CleanSinceTest(steps)
  {
    hide Enabled, Defined, Next;
    if steps != [] {
      var front, step := steps[..|steps| - 1], steps[|steps| - 1];
      var before := RaceAfter(front).value;
      TestedStep(before, step);
      if !step.Test? && !step.Clean? { EmptyNeedsClean(front, before); }
    }
  }

  /**
   Over all interleavings: the pop of a finish meets an empty list exactly if a clean came
   between its test and its pop, and since the mark of that clean as much was popped as pushed.
   */
  lemma {:induction false} PopMeetsEmptyIff(steps: seq<Step>, s: Race)
    requires RaceAfter(steps) == Some(s) && s.phase.Tested?
    ensures !Defined(s, Pop) <==> CleanSinceTest(steps) && Balance(steps) == 0
  {
    hide Enabled, Next, RaceAfter, CleanSinceTest;
    LengthIsBalance(steps, s);
    if s.list == [] { EmptyNeedsClean(steps, s); }
  }

  /** The first call of a finish meets an empty list exactly if nothing is left of what was pushed. */
  lemma {:induction false} BackMeetsEmptyIff(steps: seq<Step>, s: Race)
    requires RaceAfter(steps) == Some(s)
    ensures !Defined(s, Back) <==> Balance(steps) == 0
  {
    hide Enabled, Next, RaceAfter;
    LengthIsBalance(steps, s);
  }

  // ---------- the clean ----------

  /** The pop of the finish came after the last mark. */
  ghost predicate PoppedSinceMark(steps: seq<Step>) {
    steps != [] && !steps[|steps| - 1].Mark? && (steps[|steps| - 1].Pop? || PoppedSinceMark(steps[..|steps| - 1]))
  }

  /** One finish at a time owes the list at most one element. */
  lemma {:induction false} OwesAtMostOne(steps: seq<Step>, s: Race)
    requires RaceAfter(steps) == Some(s)
    ensures SinceMark(steps) >= if s.phase.Popped? then -1 else 0
    ensures SinceMark(steps) == -1 ==> PoppedSinceMark(steps)
  {
    hide Defined, PoppedSinceMark;
    if steps != [] {
      var front, step := steps[..|steps| - 1], steps[|steps| - 1];
      OwesAtMostOne(front, RaceAfter(front).value);
      PoppedStep(steps);
    }
  }

  lemma {:induction false} PoppedStep(steps: seq<Step>)
    requires steps != []
    ensures var front, step := steps[..|steps| - 1], steps[|steps| - 1];
      PoppedSinceMark(steps) <==> !step.Mark? && (step.Pop? || PoppedSinceMark(front))
  {
  }

  /**
   Over all interleavings: a clean finds fewer elements than were counted exactly if it falls
   between the pop and the push of a finish and one more was popped than pushed since the
   mark; then one element is missing.
   */
  lemma {:induction false} CleanRunsOutIff(steps: seq<Step>, s: Race)
    requires RaceAfter(steps) == Some(s) && s.marked
    ensures !Defined(s, Clean) <==> s.phase.Popped? && SinceMark(steps) == -1
    ensures !Defined(s, Clean) ==> PoppedSinceMark(steps) && s.until == |s.list| + 1
  {
    hide Enabled, Next, RaceAfter, PoppedSinceMark, SinceMark;
    LengthIsBalance(steps, s);
    OwesAtMostOne(steps, s);
  }

  lemma {:induction false} OneMore(steps: seq<Step>, s: Race, step: Step)
    requires RaceAfter(steps) == Some(s) && Enabled(s, step) && Defined(s, step)
    ensures RaceAfter(steps + [step]) == Some(Next(s, step))
  {
    hide Enabled, Defined, Next;
    assert (steps + [step])[..|steps|] == steps;
  }

  lemma {:induction false} TestedRun()
    ensures RaceAfter([Start, Mark, Back, Test]) == Some(Race([0], 1, Tested(0), 1, true))
  {
    hide RaceAfter;
    NothingYet();
    OneMore([], Race([], 0, Idle, 0, false), Start);
    assert [] + [0] == [0];
    OneMore([] + [Start], Race([0], 1, Idle, 0, false), Mark);
    OneMore([] + [Start] + [Mark], Race([0], 1, Idle, 1, true), Back);
    OneMore([] + [Start] + [Mark] + [Back], Race([0], 1, Held(0), 1, true), Test);
    assert [] + [Start] + [Mark] + [Back] + [Test] == [Start, Mark, Back, Test];
  }

  lemma {:induction false} NothingYet()
    ensures RaceAfter([]) == Some(Race([], 0, Idle, 0, false))
  {
  }

  /** A clean between the test and the pop of a finish. */
  lemma {:induction false} PopMeetsEmpty()
    ensures var r := RaceAfter([Start, Mark, Back, Test, Clean]);
      r.Some? && r.value.phase.Tested? && !Defined(r.value, Pop)
  {
    TestedRun();
    assert [Start, Mark, Back, Test, Clean][..4] == [Start, Mark, Back, Test];
  }

  /** A clean between the pop and the push of a finish. */
  lemma {:induction false} CleanRunsOut()
    ensures var r := RaceAfter([Start, Mark, Back, Test, Pop]);
      r.Some? && r.value.marked && !Defined(r.value, Clean)
  {
    TestedRun();
    assert [Start, Mark, Back, Test, Pop][..4] == [Start, Mark, Back, Test];
  }

  /** Undisturbed, the four calls of a finish drop the first element and list the last one again. */
  lemma {:induction false} UndisturbedFinish(s: Race)
    requires s.phase.Idle? && s.list != []
    ensures var s1 := Next(s, Back);
      var s2 := Next(s1, Test);
      var s3 := Next(s2, Pop);
      Next(s3, PushAgain) == s.(list := s.list[1..] + [s.list[|s.list| - 1]])
  {
  }
}
