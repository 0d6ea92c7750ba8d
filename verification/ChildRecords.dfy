/** What the child map and the threads hold after any run, read off the events of the run. */
module ChildRecords {
  import opened Basics
  import opened Records
  import opened Lifecycle

  /** The coroutine that a thread runs: the last one resumed on it, unless one was suspended or completed since. */
  function RunsOn(es: seq<Event>, tid: Tid, start: Id): Id {
    if es == [] then start else
    var front, e := es[..|es| - 1], es[|es| - 1];
    if e.Resumed? && e.tid == tid then e.id
    else if (e.Suspended? || e.Completed?) && e.tid == tid then -1
    else RunsOn(front, tid, start)
  }

  lemma {:induction false} CurrentStep(s: State, e: Event, tid: Tid)
    ensures CurrentOf(Step(s, e), tid) ==
      if e.Resumed? && e.tid == tid then e.id
      else if (e.Suspended? || e.Completed?) && e.tid == tid then -1
      else CurrentOf(s, tid)
  {
    assert Step(s, e).current == CurrentAfter(s, e);
  }

  /** From the start, a thread runs what the last of these events says, or nothing. */
  lemma {:induction false} CurrentExact(s: State, es: seq<Event>, tid: Tid)
    ensures CurrentOf(Run(s, es), tid) == RunsOn(es, tid, CurrentOf(s, tid))
    ensures tid !in s.current ==> CurrentOf(s, tid) == -1
  {
    hide Step;
    if es != [] {
      CurrentExact(s, es[..|es| - 1], tid);
      CurrentStep(Run(s, es[..|es| - 1]), es[|es| - 1], tid);
    }
  }

  /** The coroutines that are created while their thread runs `u`, in order. */
  function CreatedUnder(s: State, es: seq<Event>, u: Id): seq<Id> {
    if es == [] then [] else
    var front, e := es[..|es| - 1], es[|es| - 1];
    CreatedUnder(s, front, u)
    + (if e.Created? && RunsOn(front, e.tid, CurrentOf(s, e.tid)) == u then [e.id] else [])
  }

  /** Coroutine `u` has a child list all along the run. */
  ghost predicate Listed(s: State, es: seq<Event>, u: Id) {
    u in Run(s, es).children && (es != [] ==> Listed(s, es[..|es| - 1], u))
  }

  lemma {:induction false} ListStep(s: State, e: Event, u: Id)
    requires u in s.children && u in Step(s, e).children
    ensures Step(s, e).children[u]
      == s.children[u] + (if e.Created? && CurrentOf(s, e.tid) == u then [e.id] else [])
  {
    assert Step(s, e).children == ChildrenAfter(s, e);
  }

  /** In every run the list of a coroutine grows by exactly the coroutines that are created under it. */
  lemma {:induction false} ChildrenExact(s: State, es: seq<Event>, u: Id)
    requires Listed(s, es, u)
    ensures u in s.children && Run(s, es).children[u] == s.children[u] + CreatedUnder(s, es, u)
  {
    hide Step, CurrentOf;
    if es != [] {
      var front, e := es[..|es| - 1], es[|es| - 1];
      ChildrenExact(s, front, u);
      ListStep(Run(s, front), e, u);
      if e.Created? { CurrentExact(s, front, e.tid); }
    }
  }

  /**
   A coroutine gets a child list exactly when a trace of it starts, or when it is created
   while its thread runs a coroutine that has one; the list is empty then.
   */
  lemma {:induction false} ListAppearsIff(s: State, e: Event, u: Id)
    requires u !in s.children
    ensures u in Step(s, e).children <==>
      || (e.TraceStarted? && (if e.id == -2 then e.self else e.id) == u)
      || (e.Created? && e.id == u && CurrentOf(s, e.tid) in s.children)
    ensures u in Step(s, e).children ==> Step(s, e).children[u] == []
  {
    assert Step(s, e).children == ChildrenAfter(s, e);
  }
}
