/**
 Wall-clock running time and suspensions of one coroutine, over every
 interleaving with the events of other coroutines, threads and the cleaner.
 */
module WallTime {
  import opened Basics
  import opened Records
  import opened Lifecycle
  import opened Clock

  /** What an event does to the times of coroutine `c`. */
  function Local(info: CoroutineInfo, e: Event, c: Id): CoroutineInfo {
    match e
    case Suspended(_, id, _, charged, began, stack) =>
      if id != c then info else
      var i1 := if info.lastResume > 0 then info.(wall := info.wall + (charged - info.lastResume), lastResume := 0)
        else info;
      if stack.None? then i1 else i1.(suspensions := i1.suspensions + [Suspension(began, 0, stack.value)])
    case Resumed(_, id, _, resumed, ended) =>
      if id != c then info else info.(lastResume := resumed, suspensions := EndFirstOpen(info.suspensions, ended))
    case Completed(_, id, _, ended, charged) =>
      if id != c then info else info.(end := ended, wall := info.wall + (charged - info.lastResume))
    case TraceEnded(_, id, self, _, charged, _) =>
      if Traced(id, self) != c then info else info.(wall := info.wall + (charged - info.lastResume))
    case _ => info
  }

  function Times(info: CoroutineInfo): CoroutineInfo {
    info.(usage := NO_USAGE)
  }

  function LocalRun(info: CoroutineInfo, es: seq<Event>, c: Id): CoroutineInfo {
    if es == [] then info else Local(LocalRun(info, es[..|es| - 1], c), es[|es| - 1], c)
  }

  /** The times of a coroutine change only by its own events. */
  lemma {:induction false} StepLocal(s: State, e: Event, c: Id)
    requires c in Step(s, e).infos
    ensures c in s.infos ==> Times(Step(s, e).infos[c]) == Local(Times(s.infos[c]), e, c)
    ensures c !in s.infos ==> (e.Created? || e.TraceStarted?) && Step(s, e).infos[c] == NewInfo(e.start, e.resumed)
  {
    hide Difference, EndFirstOpen;
    assert Step(s, e).infos == InfosAfter(s, e);
  }

  /** Coroutine `c` has an info all along the run. */
  ghost predicate Kept(s: State, es: seq<Event>, c: Id) {
    c in Run(s, es).infos && (es != [] ==> Kept(s, es[..|es| - 1], c))
  }

  lemma {:induction false} RunLocal(s: State, es: seq<Event>, c: Id)
    requires Kept(s, es, c)
    ensures c in s.infos
    ensures Times(Run(s, es).infos[c]) == LocalRun(Times(s.infos[c]), es, c)
  {
    if es != [] {
      RunLocal(s, es[..|es| - 1], c);
      StepLocal(Run(s, es[..|es| - 1]), es[|es| - 1], c);
    }
  }

  // ---------- the reference: time between a resume and the next suspension or completion ----------

  /** When the coroutine last became running, if it still is. */
  function RunningSince(es: seq<Event>, c: Id, start: Option<Time>): Option<Time> {
    if es == [] then start else
    match es[|es| - 1]
    case Resumed(_, id, _, resumed, _) => if id == c then Some(resumed) else RunningSince(es[..|es| - 1], c, start)
    case Suspended(_, id, _, _, _, _) => if id == c then None else RunningSince(es[..|es| - 1], c, start)
    case Completed(_, id, _, _, _) => if id == c then None else RunningSince(es[..|es| - 1], c, start)
    case _ => RunningSince(es[..|es| - 1], c, start)
  }

  /** The running time that an event ends. */
  function Stretch(since: Option<Time>, e: Event, c: Id): Time {
    if (e.Suspended? || e.Completed?) && e.id == c && since.Some? then e.charged - since.value else 0
  }

  function RunningTime(es: seq<Event>, c: Id, start: Option<Time>): Time {
    if es == [] then 0 else
    RunningTime(es[..|es| - 1], c, start) + Stretch(RunningSince(es[..|es| - 1], c, start), es[|es| - 1], c)
  }

  /** The time since which the code charges: the last resume, or 0 after a suspension. */
  function ChargedSince(es: seq<Event>, c: Id, start: Time): Time {
    if es == [] then start else
    match es[|es| - 1]
    case Resumed(_, id, _, resumed, _) => if id == c then resumed else ChargedSince(es[..|es| - 1], c, start)
    case Suspended(_, id, _, _, _, _) => if id == c then 0 else ChargedSince(es[..|es| - 1], c, start)
    case _ => ChargedSince(es[..|es| - 1], c, start)
  }

  /**
   What an event charges beyond the reference: the end of a trace charges time that
   the next suspension or completion charges again, and a completion (or a late
   suspension) of a coroutine that is not running charges from the last resume, or
   from the start of the clock.
   */
  function Overcharge(since: Option<Time>, from: Time, e: Event, c: Id): Time {
    match e
    case TraceEnded(_, id, self, _, charged, _) => if Traced(id, self) == c then charged - from else 0
    case Completed(_, id, _, _, charged) => if id == c && since.None? then charged - from else 0
    case Suspended(_, id, _, charged, _, _) => if id == c && since.None? && from > 0 then charged - from else 0
    case _ => 0
  }

  function Overcharged(es: seq<Event>, c: Id, start: Option<Time>, from: Time): Time {
    if es == [] then 0 else
    var front := es[..|es| - 1];
    Overcharged(front, c, start, from)
    + Overcharge(RunningSince(front, c, start), ChargedSince(front, c, from), es[|es| - 1], c)
  }

  function Since(info: CoroutineInfo): Option<Time> {
    if info.lastResume > 0 then Some(info.lastResume) else None
  }

  /** For every run: the wall time is the running time plus what was overcharged. */
  lemma {:induction false} LocalWallTime(info: CoroutineInfo, es: seq<Event>, c: Id)
    requires info.lastResume >= 0 && PositiveClock(es)
    ensures var r := LocalRun(info, es, c);
      && r.wall == info.wall + RunningTime(es, c, Since(info)) + Overcharged(es, c, Since(info), info.lastResume)
      && r.lastResume == ChargedSince(es, c, info.lastResume) >= 0
    ensures var since := RunningSince(es, c, Since(info));
      since.Some? ==> since.value == ChargedSince(es, c, info.lastResume) > 0
  {
    if es != [] {
      var front, e := es[..|es| - 1], es[|es| - 1];
      LocalWallTime(info, front, c);
      assert Positive(e);
      if e.Resumed? { assert Readings(e)[0] == e.resumed; }
    }
  }

  lemma {:induction false} WallTimeExact(s: State, es: seq<Event>, c: Id)
    requires Kept(s, es, c) && c in s.infos && s.infos[c].lastResume >= 0 && PositiveClock(es)
    ensures var info := s.infos[c];
      Run(s, es).infos[c].wall
      == info.wall + RunningTime(es, c, Since(info)) + Overcharged(es, c, Since(info), info.lastResume)
  {
    RunLocal(s, es, c);
    LocalWallTime(Times(s.infos[c]), es, c);
  }

  // ---------- when nothing is overcharged ----------

  /** Whether a coroutine runs, and whether its last resume is still to be charged from. */
  datatype Standing = Standing(running: bool, armed: bool)

  function StandingOf(info: CoroutineInfo): Standing {
    Standing(info.lastResume > 0, info.lastResume > 0)
  }

  /** A completion ends the running of a coroutine but does not clear its last resume. */
  function StandingAfter(es: seq<Event>, c: Id, start: Standing): Standing {
    if es == [] then start else
    var before := StandingAfter(es[..|es| - 1], c, start);
    match es[|es| - 1]
    case Resumed(_, id, _, _, _) => if id == c then Standing(true, true) else before
    case Suspended(_, id, _, _, _, _) => if id == c then Standing(false, false) else before
    case Completed(_, id, _, _, _) => if id == c then before.(running := false) else before
    case _ => before
  }

  /**
   No trace of the coroutine ends, it completes only while it runs, and it is not suspended
   while it does not run and its last resume is still there.
   */
  ghost predicate Orderly(es: seq<Event>, c: Id, start: Standing) {
    es == [] ||
    var front, e := es[..|es| - 1], es[|es| - 1];
    var before := StandingAfter(front, c, start);
    && Orderly(front, c, start)
    && (e.TraceEnded? ==> Traced(e.id, e.self) != c)
    && (e.Completed? && e.id == c ==> before.running)
    && (e.Suspended? && e.id == c ==> before.running || !before.armed)
  }

  lemma {:induction false} StandingMeans(es: seq<Event>, c: Id, info: CoroutineInfo)
    requires info.lastResume >= 0 && PositiveClock(es)
    ensures var st := StandingAfter(es, c, StandingOf(info));
      && (st.running <==> RunningSince(es, c, Since(info)).Some?)
      && (st.armed <==> ChargedSince(es, c, info.lastResume) > 0)
      && ChargedSince(es, c, info.lastResume) >= 0
  {
    if es != [] {
      var e := es[|es| - 1];
      StandingMeans(es[..|es| - 1], c, info);
      assert Positive(e);
      if e.Resumed? { assert Readings(e)[0] == e.resumed; }
    }
  }

  lemma {:induction false} ChargedSinceBound(es: seq<Event>, c: Id, from: Time, now: Time)
    requires Timed(es, now) && 0 <= from <= now
    ensures ChargedSince(es, c, from) <= Now(es, now)
  {
    if es != [] {
      var e := es[|es| - 1];
      ChargedSinceBound(es[..|es| - 1], c, from, now);
      if e.Resumed? { assert Readings(e)[0] == e.resumed; }
    }
  }

  lemma {:induction false} OverchargeNonNegative(es: seq<Event>, c: Id, start: Option<Time>, from: Time, now: Time)
    requires es != [] && Timed(es, now) && 0 <= from <= now
    ensures var front := es[..|es| - 1];
      Overcharge(RunningSince(front, c, start), ChargedSince(front, c, from), es[|es| - 1], c) >= 0
  {
    var e := es[|es| - 1];
    ChargedSinceBound(es[..|es| - 1], c, from, now);
    assert After(e, Now(es[..|es| - 1], now));
    if e.TraceEnded? || e.Suspended? { assert Readings(e)[0] == e.charged; }
    if e.Completed? { assert Readings(e)[1] == e.charged; }
  }

  lemma {:induction false} OverchargedNonNegative(es: seq<Event>, c: Id, start: Option<Time>, from: Time, now: Time)
    requires Timed(es, now) && 0 <= from <= now
    ensures Overcharged(es, c, start, from) >= 0
  {
    hide Overcharge;
    if es != [] {
      OverchargedNonNegative(es[..|es| - 1], c, start, from, now);
      OverchargeNonNegative(es, c, start, from, now);
    }
  }

  /** What one event charges too much, when no time stands still. */
  lemma {:induction false} OverchargeIff(es: seq<Event>, c: Id, info: CoroutineInfo, now: Time)
    requires es != [] && StrictlyTimed(es, now) && 0 <= info.lastResume <= now && 0 < now
    ensures var front, e := es[..|es| - 1], es[|es| - 1];
      var before := StandingAfter(front, c, StandingOf(info));
      Overcharge(RunningSince(front, c, Since(info)), ChargedSince(front, c, info.lastResume), e, c) == 0
      <==> (&& (e.TraceEnded? ==> Traced(e.id, e.self) != c)
            && (e.Completed? && e.id == c ==> before.running)
            && (e.Suspended? && e.id == c ==> before.running || !before.armed))
  {
    var front, e := es[..|es| - 1], es[|es| - 1];
    StrictlyTimedIsTimed(front, now);
    TimedPositive(front, now);
    StandingMeans(front, c, info);
    ChargedSinceBound(front, c, info.lastResume, now);
    if e.TraceEnded? || e.Suspended? { assert Readings(e)[0] == e.charged; }
    if e.Completed? { assert Readings(e)[1] == e.charged; }
  }

  /** Nothing is overcharged exactly if the run is orderly. */
  lemma {:induction false} OverchargedIff(es: seq<Event>, c: Id, info: CoroutineInfo, now: Time)
    requires StrictlyTimed(es, now) && 0 <= info.lastResume <= now && 0 < now
    ensures Overcharged(es, c, Since(info), info.lastResume) == 0 <==> Orderly(es, c, StandingOf(info))
  {
    hide Overcharge, StandingAfter, RunningSince, ChargedSince;
    if es != [] {
      var front := es[..|es| - 1];
      OverchargedIff(front, c, info, now);
      OverchargeIff(es, c, info, now);
      StrictlyTimedIsTimed(es, now);
      OverchargedNonNegative(front, c, Since(info), info.lastResume, now);
      OverchargeNonNegative(es, c, Since(info), info.lastResume, now);
    }
  }

  /** The wall time is never below the running time. */
  lemma {:induction false} WallTimeAtLeast(s: State, es: seq<Event>, c: Id, now: Time)
    requires Kept(s, es, c) && c in s.infos && 0 <= s.infos[c].lastResume <= now && 0 < now && Timed(es, now)
    ensures Run(s, es).infos[c].wall >= s.infos[c].wall + RunningTime(es, c, Since(s.infos[c]))
  {
    hide Run, Kept, Timed;
    var info := s.infos[c];
    TimedPositive(es, now);
    WallTimeExact(s, es, c);
    OverchargedNonNegative(es, c, Since(info), info.lastResume, now);
  }

  /**
   If time passes between callbacks, the wall time is the running time exactly if no trace
   of the coroutine ends, it completes only while it runs, and it is not suspended again
   after completing without a resume between.
   */
  lemma {:induction false} WallTimeIff(s: State, es: seq<Event>, c: Id, now: Time)
    requires Kept(s, es, c) && c in s.infos && 0 <= s.infos[c].lastResume <= now && 0 < now && StrictlyTimed(es, now)
    ensures var info := s.infos[c];
      Run(s, es).infos[c].wall == info.wall + RunningTime(es, c, Since(info)) <==> Orderly(es, c, StandingOf(info))
  {
    hide Run, Kept, StrictlyTimed, Orderly;
    var info := s.infos[c];
    StrictlyTimedIsTimed(es, now);
    TimedPositive(es, now);
    WallTimeExact(s, es, c);
    OverchargedIff(es, c, info, now);
  }

  /** The property fails: a trace that ends in a running coroutine is charged twice. */
  lemma {:induction false} TraceEndChargedTwice(s: State, c: Id, tid: Tid, usage: Rusage)
    requires c in s.infos && s.infos[c].lastResume == 10 && c != PLAIN_FUNCTION
    ensures var e, f := TraceEnded(tid, c, c, usage, 20, 20), Suspended(tid, c, usage, 30, 30, None);
      var after := Step(Step(s, e), f).infos;
      c in after && after[c].wall == s.infos[c].wall + 30 && RunningTime([e, f], c, Some(10)) == 20
  {
    var e, f := TraceEnded(tid, c, c, usage, 20, 20), Suspended(tid, c, usage, 30, 30, None);
    assert Step(s, e).infos == InfosAfter(s, e) && Step(Step(s, e), f).infos == InfosAfter(Step(s, e), f);
    StepLocal(s, e, c);
    StepLocal(Step(s, e), f, c);
    assert [e, f][..1] == [e] && [e][..0] == [];
    assert RunningSince([], c, Some(10)) == Some(10);
    assert RunningSince([e], c, Some(10)) == Some(10);
    assert RunningTime([e], c, Some(10)) == 0;
  }

  /** It also fails for a coroutine that completes while suspended, which is charged from time 0. */
  lemma {:induction false} CompletedWhileSuspended(threshold: Time, usage: Rusage)
    ensures var es := [Created(0, 5, 10, 10), Suspended(0, 5, usage, 20, 20, None), Completed(0, 5, usage, 1000, 1000)];
      var s := Run(Init(threshold), es);
      5 in s.infos && s.infos[5].wall == 10 + 1000 && RunningTime(es[1..], 5, Some(10)) == 10
  {
    var e, f, g := Created(0, 5, 10, 10), Suspended(0, 5, usage, 20, 20, None), Completed(0, 5, usage, 1000, 1000);
    assert [e, f, g][..2] == [e, f] && [e, f][..1] == [e] && [e][..0] == [] && [e, f, g][1..] == [f, g];
    assert [f, g][..1] == [f] && [f][..0] == [];
    var s1 := Step(Init(threshold), e);
    assert Run(Init(threshold), [e]) == s1;
    var s2 := Step(s1, f);
    var s3 := Step(s2, g);
    assert s1.infos == InfosAfter(Init(threshold), e) && s2.infos == InfosAfter(s1, f) && s3.infos == InfosAfter(s2, g);
    assert Run(Init(threshold), [e, f]) == s2 && Run(Init(threshold), [e, f, g]) == s3;
    assert s1.infos[5] == NewInfo(10, 10);
    StepLocal(s1, f, 5);
    StepLocal(s2, g, 5);
    assert RunningSince([f], 5, Some(10)) == None && RunningTime([f], 5, Some(10)) == 10;
  }

  // ---------- suspensions ----------

  /** Nothing is charged to a suspended coroutine until it is resumed, completes or its trace ends. */
  lemma {:induction false} LocalChain(info: CoroutineInfo, es: seq<Event>, c: Id)
    requires info.lastResume == 0 && forall k :: 0 <= k < |es| ==> !Wakes(es[k], c)
    ensures LocalRun(info, es, c).wall == info.wall && LocalRun(info, es, c).lastResume == 0
  {
    if es != [] {
      LocalChain(info, es[..|es| - 1], c);
      assert !Wakes(es[|es| - 1], c);
    }
  }

  predicate Wakes(e: Event, c: Id) {
    || ((e.Resumed? || e.Completed?) && e.id == c)
    || (e.TraceEnded? && Traced(e.id, e.self) == c)
  }

  /** Of chained suspensions, with no resume between them, only the first charges running time. */
  lemma {:induction false} ChainedSuspendsCountOnce(s: State, e: Event, es: seq<Event>, c: Id)
    requires e.Suspended? && e.id == c && c in s.infos && s.infos[c].lastResume > 0
    requires Kept(Step(s, e), es, c) && forall k :: 0 <= k < |es| ==> !Wakes(es[k], c)
    ensures Run(Step(s, e), es).infos[c].wall == s.infos[c].wall + (e.charged - s.infos[c].lastResume)
  {
    hide Kept, Run, Wakes, LocalRun;
    RunLocal(Step(s, e), es, c);
    StepLocal(s, e, c);
    LocalChain(Times(Step(s, e).infos[c]), es, c);
  }

  /** Ended suspensions come first. */
  ghost predicate EndedFirst(ss: seq<Suspension>) {
    forall i, j :: 0 <= i < j < |ss| && ss[j].end != 0 ==> ss[i].end != 0
  }

  lemma {:induction false} EndedFirstStep(info: CoroutineInfo, e: Event, c: Id)
    requires EndedFirst(info.suspensions) && Positive(e)
    ensures EndedFirst(Local(info, e, c).suspensions)
  {
    if e.Resumed? { assert Readings(e)[1] == e.ended; }
  }

  /** In every state of every run, a resume ends the oldest suspension that has not ended. */
  lemma {:induction false} SuspensionsEndInOrder(threshold: Time, es: seq<Event>, c: Id)
    requires PositiveClock(es) && c in Run(Init(threshold), es).infos
    ensures EndedFirst(Run(Init(threshold), es).infos[c].suspensions)
  {
    if es != [] {
      var front, e := es[..|es| - 1], es[|es| - 1];
      var s := Run(Init(threshold), front);
      StepLocal(s, e, c);
      if c in s.infos {
        SuspensionsEndInOrder(threshold, front, c);
        EndedFirstStep(Times(s.infos[c]), e, c);
      }
    }
  }

  /** How regularly a coroutine that has just been resumed goes on. */
  datatype Phase = Awake | Asleep | Finished | Irregular

  function PhaseOf(es: seq<Event>, c: Id): Phase {
    if es == [] then Awake else
    var p := PhaseOf(es[..|es| - 1], c);
    match es[|es| - 1]
    case Suspended(_, id, _, _, _, stack) =>
      if id != c then p else if p == Awake && stack.Some? then Asleep else Irregular
    case Resumed(_, id, _, _, _) => if id != c then p else if p == Asleep then Awake else Irregular
    case Completed(_, id, _, _, _) => if id != c then p else if p == Awake then Finished else Irregular
    case _ => p
  }

  /** The reading that the last event of the coroutine leaves behind. */
  function Landmark(es: seq<Event>, c: Id, start: Time): Time {
    if es == [] then start else
    match es[|es| - 1]
    case Suspended(_, id, _, _, began, _) => if id == c then began else Landmark(es[..|es| - 1], c, start)
    case Resumed(_, id, _, resumed, _) => if id == c then resumed else Landmark(es[..|es| - 1], c, start)
    case Completed(_, id, _, _, charged) => if id == c then charged else Landmark(es[..|es| - 1], c, start)
    case _ => Landmark(es[..|es| - 1], c, start)
  }

  /** How far apart the two clock readings of a callback are. */
  function Skew(es: seq<Event>, c: Id): Time {
    if es == [] then 0 else
    Skew(es[..|es| - 1], c) +
    match es[|es| - 1]
    case Suspended(_, id, _, charged, began, _) => if id == c then began - charged else 0
    case Resumed(_, id, _, resumed, ended) => if id == c then resumed - ended else 0
    case _ => 0
  }

  /** Total length of the ended suspensions. */
  function Durations(ss: seq<Suspension>): Time {
    if ss == [] then 0 else
    var last := ss[|ss| - 1];
    Durations(ss[..|ss| - 1]) + (if last.end != 0 then last.end - last.start else 0)
  }

  ghost predicate AllEnded(ss: seq<Suspension>) {
    forall i :: 0 <= i < |ss| ==> ss[i].end != 0
  }

  /** The suspensions fit the phase: all have ended, but for the last one while asleep. */
  ghost predicate Fits(phase: Phase, ss: seq<Suspension>, landmark: Time) {
    if phase == Asleep then
      && |ss| > 0
      && AllEnded(ss[..|ss| - 1])
      && ss[|ss| - 1].end == 0
      && ss[|ss| - 1].start == landmark
    else AllEnded(ss)
  }

  lemma {:induction false} OnlyLastOpen(ss: seq<Suspension>, landmark: Time)
    requires Fits(Asleep, ss, landmark)
    ensures FirstOpen(ss) == |ss| - 1
  {
    assert forall i :: 0 <= i < |ss| - 1 ==> ss[..|ss| - 1][i] == ss[i];
  }

  lemma {:induction false} EndLast(ss: seq<Suspension>, landmark: Time, ended: Time)
    requires Fits(Asleep, ss, landmark) && ended > 0
    ensures AllEnded(EndFirstOpen(ss, ended))
    ensures Durations(EndFirstOpen(ss, ended)) == Durations(ss) + (ended - landmark)
  {
    OnlyLastOpen(ss, landmark);
    var closed := EndFirstOpen(ss, ended);
    assert closed[..|ss| - 1] == ss[..|ss| - 1];
    assert forall i :: 0 <= i < |ss| - 1 ==> closed[i] == ss[..|ss| - 1][i];
  }

  lemma {:induction false} BeginAnother(ss: seq<Suspension>, began: Time, frames: seq<StackFrame>)
    requires AllEnded(ss)
    ensures Fits(Asleep, ss + [Suspension(began, 0, frames)], began)
    ensures Durations(ss + [Suspension(began, 0, frames)]) == Durations(ss)
  {
    assert (ss + [Suspension(began, 0, frames)])[..|ss|] == ss;
  }

  /** What holds of a coroutine that has suspended and resumed in turn. */
  ghost predicate Law(info: CoroutineInfo, es: seq<Event>, c: Id) {
    var r, landmark := LocalRun(info, es, c), Landmark(es, c, info.lastResume);
    && Fits(PhaseOf(es, c), r.suspensions, landmark)
    && (PhaseOf(es, c) == Awake ==> RunningSince(es, c, Some(info.lastResume)) == Some(landmark))
    && RunningTime(es, c, Some(info.lastResume)) + Durations(r.suspensions) + Skew(es, c)
       == landmark - info.lastResume + Durations(info.suspensions)
  }

  lemma {:induction false} NotAsleep(phase: Phase, ss: seq<Suspension>, landmark: Time)
    requires phase != Asleep
    ensures Fits(phase, ss, landmark) <==> AllEnded(ss)
  {
  }

  lemma {:induction false} LawSuspended(info: CoroutineInfo, es: seq<Event>, c: Id)
    requires es != [] && es[|es| - 1].Suspended? && es[|es| - 1].id == c && PhaseOf(es, c) != Irregular
    requires Law(info, es[..|es| - 1], c)
    ensures Law(info, es, c)
  {
    hide Fits, Durations, AllEnded;
    var front, e := es[..|es| - 1], es[|es| - 1];
    var ss := LocalRun(info, front, c).suspensions;
    NotAsleep(Awake, ss, Landmark(front, c, info.lastResume));
    BeginAnother(ss, e.began, e.stack.value);
  }

  lemma {:induction false} LawResumed(info: CoroutineInfo, es: seq<Event>, c: Id)
    requires es != [] && es[|es| - 1].Resumed? && es[|es| - 1].id == c && PhaseOf(es, c) != Irregular
    requires Law(info, es[..|es| - 1], c) && Positive(es[|es| - 1])
    ensures Law(info, es, c)
  {
    hide Fits, Durations, AllEnded, EndFirstOpen;
    var front, e := es[..|es| - 1], es[|es| - 1];
    var ss := LocalRun(info, front, c).suspensions;
    assert Readings(e)[1] == e.ended;
    EndLast(ss, Landmark(front, c, info.lastResume), e.ended);
    NotAsleep(Awake, EndFirstOpen(ss, e.ended), e.resumed);
  }

  lemma {:induction false} LawCompleted(info: CoroutineInfo, es: seq<Event>, c: Id)
    requires es != [] && es[|es| - 1].Completed? && es[|es| - 1].id == c && PhaseOf(es, c) != Irregular
    requires Law(info, es[..|es| - 1], c)
    ensures Law(info, es, c)
  {
    hide Fits, Durations;
    var front, e := es[..|es| - 1], es[|es| - 1];
    var ss := LocalRun(info, front, c).suspensions;
    NotAsleep(Awake, ss, Landmark(front, c, info.lastResume));
    NotAsleep(Finished, ss, e.charged);
  }

  lemma {:induction false} LawOther(info: CoroutineInfo, es: seq<Event>, c: Id)
    requires es != [] && !((es[|es| - 1].Suspended? || es[|es| - 1].Resumed? || es[|es| - 1].Completed?)
      && es[|es| - 1].id == c)
    requires Law(info, es[..|es| - 1], c)
    ensures Law(info, es, c)
  {
    hide Fits, Durations;
  }

  lemma {:induction false} PhaseBefore(es: seq<Event>, c: Id)
    requires es != [] && PhaseOf(es, c) != Irregular
    ensures PhaseOf(es[..|es| - 1], c) != Irregular
  {
  }

  /**
   Running time and suspensions cover the time since the first resume without gap or
   overlap, up to the distance between the two readings of each callback.
   */
  lemma {:induction false} SuspensionLaw(info: CoroutineInfo, es: seq<Event>, c: Id)
    requires info.lastResume > 0 && AllEnded(info.suspensions) && PositiveClock(es) && PhaseOf(es, c) != Irregular
    ensures Law(info, es, c)
  {
    if es != [] {
      hide Law, PhaseOf;
      var front, e := es[..|es| - 1], es[|es| - 1];
      PhaseBefore(es, c);
      assert Positive(e) && PositiveClock(front);
      SuspensionLaw(info, front, c);
      match e {
        case Suspended(_, id, _, _, _, _) => if id == c { LawSuspended(info, es, c); } else { LawOther(info, es, c); }
        case Resumed(_, id, _, _, _) => if id == c { LawResumed(info, es, c); } else { LawOther(info, es, c); }
        case Completed(_, id, _, _, _) => if id == c { LawCompleted(info, es, c); } else { LawOther(info, es, c); }
        case _ => LawOther(info, es, c);
      }
    }
  }

  /** In every run of suspensions and resumes in turn, a search while the coroutine sleeps finds the last suspension. */
  lemma {:induction false} FirstOpenIsLast(s: State, es: seq<Event>, c: Id)
    requires Kept(s, es, c) && PositiveClock(es) && PhaseOf(es, c) == Asleep
    requires c in s.infos && s.infos[c].lastResume > 0 && AllEnded(s.infos[c].suspensions)
    ensures var ss := Run(s, es).infos[c].suspensions;
      |ss| > 0 && FirstOpen(ss) == |ss| - 1 && ss[|ss| - 1].start == Landmark(es, c, s.infos[c].lastResume)
  {
    hide Run, PhaseOf, Landmark, LocalRun;
    RunLocal(s, es, c);
    SuspensionLaw(Times(s.infos[c]), es, c);
    OnlyLastOpen(Run(s, es).infos[c].suspensions, Landmark(es, c, s.infos[c].lastResume));
  }

  /**
   Conservation: from a resume on, through any number of suspensions and resumes to the
   completion, interleaved with anything else but the end of a trace of this coroutine,
   wall time plus suspensions is the time from the resume to the completion, if every
   callback takes one reading.
   */
  lemma {:induction false} WallTimeConserved(s: State, es: seq<Event>, c: Id)
    requires Kept(s, es, c) && PositiveClock(es) && PhaseOf(es, c) == Finished && Skew(es, c) == 0
    requires c in s.infos && s.infos[c].lastResume > 0 && s.infos[c].wall == 0 && s.infos[c].suspensions == []
    requires forall k :: 0 <= k < |es| && es[k].TraceEnded? ==> Traced(es[k].id, es[k].self) != c
    ensures var r := Run(s, es).infos[c];
      r.wall + Durations(r.suspensions) == Landmark(es, c, s.infos[c].lastResume) - s.infos[c].lastResume
  {
    var info := Times(s.infos[c]);
    RunLocal(s, es, c);
    WallTimeExact(s, es, c);
    SuspensionLaw(info, es, c);
    RegularNotOvercharged(es, c, info.lastResume);
  }

  lemma {:induction false} RegularNotOvercharged(es: seq<Event>, c: Id, from: Time)
    requires from > 0 && PositiveClock(es) && PhaseOf(es, c) != Irregular
    requires forall k :: 0 <= k < |es| && es[k].TraceEnded? ==> Traced(es[k].id, es[k].self) != c
    ensures Overcharged(es, c, Some(from), from) == 0
    ensures PhaseOf(es, c) == Awake ==> RunningSince(es, c, Some(from)).Some?
  {
    if es != [] {
      RegularNotOvercharged(es[..|es| - 1], c, from);
    }
  }
}
