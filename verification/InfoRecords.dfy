/**
 What the storage holds about a coroutine after any run, read off the events of the
 run: its start and end, its suspensions, and when it has an info at all.
 */
module InfoRecords {
  import opened Basics
  import opened Records
  import opened Lifecycle
  import opened Clock
  import opened WallTime

  /** The suspensions that a run reports for `c`: when they began, and where. */
  function Begun(es: seq<Event>, c: Id): seq<(Time, seq<StackFrame>)> {
    if es == [] then [] else
    var front, e := es[..|es| - 1], es[|es| - 1];
    Begun(front, c) + (if e.Suspended? && e.id == c && e.stack.Some? then [(e.began, e.stack.value)] else [])
  }

  /** When they ended: every resume ends the next one that has begun, if there is one. */
  function EndedAt(es: seq<Event>, c: Id): seq<Time> {
    if es == [] then [] else
    var front, e := es[..|es| - 1], es[|es| - 1];
    EndedAt(front, c) + (if e.Resumed? && e.id == c && |EndedAt(front, c)| < |Begun(front, c)| then [e.ended] else [])
  }

  ghost predicate Match(ss: seq<Suspension>, begun: seq<(Time, seq<StackFrame>)>, ended: seq<Time>) {
    && |ended| <= |begun| == |ss|
    && (forall k :: 0 <= k < |ended| ==> ended[k] > 0)
    && forall k :: 0 <= k < |ss| ==>
         ss[k].start == begun[k].0 && ss[k].frames == begun[k].1 && ss[k].end == if k < |ended| then ended[k] else 0
  }

  lemma {:induction false} NextToEnd(ss: seq<Suspension>, begun: seq<(Time, seq<StackFrame>)>, ended: seq<Time>)
    requires Match(ss, begun, ended)
    ensures FirstOpen(ss) == |ended|
  {
    hide FirstOpen;
    var k := FirstOpen(ss);
    if |ended| < |ss| { assert ss[|ended|].end == 0; }
    assert forall i :: 0 <= i < |ended| ==> ss[i].end == ended[i];
  }

  lemma {:induction false} MatchEnds(ss: seq<Suspension>, begun: seq<(Time, seq<StackFrame>)>, ended: seq<Time>,
    at: Time)
    requires Match(ss, begun, ended) && at > 0
    ensures Match(EndFirstOpen(ss, at), begun, if |ended| < |begun| then ended + [at] else ended)
  {
    hide FirstOpen;
    NextToEnd(ss, begun, ended);
  }

  lemma {:induction false} MatchBegins(ss: seq<Suspension>, begun: seq<(Time, seq<StackFrame>)>, ended: seq<Time>,
                                       at: Time, frames: seq<StackFrame>)
    requires Match(ss, begun, ended)
    ensures Match(ss + [Suspension(at, 0, frames)], begun + [(at, frames)], ended)
  {
  }

  lemma {:induction false} MatchStep(info: CoroutineInfo, es: seq<Event>, c: Id)
    requires es != [] && Positive(es[|es| - 1])
    requires Match(info.suspensions, Begun(es[..|es| - 1], c), EndedAt(es[..|es| - 1], c))
    ensures Match(Local(info, es[|es| - 1], c).suspensions, Begun(es, c), EndedAt(es, c))
  {
    hide Match, EndFirstOpen;
    var front, e := es[..|es| - 1], es[|es| - 1];
    assert EndedAt(front, c) + [] == EndedAt(front, c) && Begun(front, c) + [] == Begun(front, c);
    if e.Resumed? && e.id == c {
      assert Readings(e)[1] == e.ended;
      MatchEnds(info.suspensions, Begun(front, c), EndedAt(front, c), e.ended);
    } else if e.Suspended? && e.id == c && e.stack.Some? {
      MatchBegins(info.suspensions, Begun(front, c), EndedAt(front, c), e.began, e.stack.value);
    }
  }

  lemma {:induction false} LocalSuspensions(info: CoroutineInfo, es: seq<Event>, c: Id)
    requires info.suspensions == [] && PositiveClock(es)
    ensures Match(LocalRun(info, es, c).suspensions, Begun(es, c), EndedAt(es, c))
  {
    hide Match, Local;
    if es == [] {
      NothingBegun(c);
    } else {
      assert Positive(es[|es| - 1]);
      LocalSuspensions(info, es[..|es| - 1], c);
      MatchStep(LocalRun(info, es[..|es| - 1], c), es, c);
    }
  }

  lemma {:induction false} NothingBegun(c: Id)
    ensures Match([], Begun([], c), EndedAt([], c))
  {
  }

  /**
   In every run a coroutine's suspensions are those reported, in order, each ended by the
   resume whose turn it was.
   */
  lemma {:induction false} SuspensionsExact(s: State, es: seq<Event>, c: Id)
    requires Kept(s, es, c) && PositiveClock(es) && c in s.infos && s.infos[c].suspensions == []
    ensures var ss, begun, ended := Run(s, es).infos[c].suspensions, Begun(es, c), EndedAt(es, c);
      && |ended| <= |begun| == |ss|
      && forall k :: 0 <= k < |ss| ==>
           ss[k].start == begun[k].0 && ss[k].frames == begun[k].1 && ss[k].end == if k < |ended| then ended[k] else 0
  {
    hide Run, LocalRun, Begun, EndedAt;
    RunLocal(s, es, c);
    LocalSuspensions(Times(s.infos[c]), es, c);
  }

  /** The reading of the last completion. */
  function CompletedAt(es: seq<Event>, c: Id, start: Time): Time {
    if es == [] then start else
    var front, e := es[..|es| - 1], es[|es| - 1];
    if e.Completed? && e.id == c then e.ended else CompletedAt(front, c, start)
  }

  lemma {:induction false} LocalLife(info: CoroutineInfo, es: seq<Event>, c: Id)
    ensures LocalRun(info, es, c).start == info.start
    ensures LocalRun(info, es, c).end == CompletedAt(es, c, info.end)
  {
    if es != [] { LocalLife(info, es[..|es| - 1], c); }
  }

  /** Its start never changes, and its end is the reading of its last completion. */
  lemma {:induction false} LifeExact(s: State, es: seq<Event>, c: Id)
    requires Kept(s, es, c) && c in s.infos
    ensures Run(s, es).infos[c].start == s.infos[c].start
    ensures Run(s, es).infos[c].end == CompletedAt(es, c, s.infos[c].end)
  {
    hide Run, LocalRun;
    RunLocal(s, es, c);
    LocalLife(Times(s.infos[c]), es, c);
  }

  /**
   A coroutine gets an info exactly when it is created, or when a trace of a plain function
   starts on the thread whose id it is; the info then says that it runs and has done nothing.
   */
  lemma {:induction false} InfoAppearsIff(s: State, e: Event, c: Id)
    requires c !in s.infos
    ensures c in Step(s, e).infos <==> (e.Created? && e.id == c) || (e.TraceStarted? && e.id == -2 && e.self == c)
    ensures c in Step(s, e).infos ==>
      Step(s, e).infos[c] == CoroutineInfo(e.start, 0, e.resumed, 0, Usage(0, 0, 0, 0), [])
  {
    assert Step(s, e).infos == InfosAfter(s, e);
  }
}
