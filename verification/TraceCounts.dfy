/**
 The per-thread counters of running traces against the map of ongoing traces,
 over arbitrary runs of starts and ends on any threads, and the numbers of the
 written files.
 */
module TraceCounts {
  import opened Basics
  import opened Records
  import opened Lifecycle

  /** The sum of `current_traces` over all threads. */
  ghost function SumCounts(m: map<Tid, int>): int {
    if !exists tid :: tid in m then 0 else
    var tid :| tid in m;
    SumCounts(m - {tid}) + m[tid]
  }

  lemma {:induction false} SumRemove(m: map<Tid, int>, tid: Tid)
    requires tid in m
    ensures SumCounts(m) == SumCounts(m - {tid}) + m[tid]
    decreases |m|
  {
    var k :| k in m && SumCounts(m) == SumCounts(m - {k}) + m[k];
    if k != tid {
      SumRemove(m - {k}, tid);
      SumRemove(m - {tid}, k);
      assert m - {k} - {tid} == m - {tid} - {k};
    }
  }

  lemma {:induction false} SumUpdate(m: map<Tid, int>, tid: Tid, n: int)
    ensures SumCounts(m[tid := n]) == SumCounts(m) - (if tid in m then m[tid] else 0) + n
  {
    SumRemove(m[tid := n], tid);
    assert m[tid := n] - {tid} == m - {tid};
    if tid in m { SumRemove(m, tid); } else { assert m - {tid} == m; }
  }

  /** How far the counters are ahead of the ongoing traces. */
  ghost function Imbalance(s: State): int {
    SumCounts(s.traces) - |s.ongoing|
  }

  /** Entries are kept under the id of their coroutine. */
  ghost predicate Keyed(s: State) {
    forall c :: c in s.ongoing ==> s.ongoing[c].coroutineId == c
  }

  /** A start finds no ongoing trace of its coroutine; an end finds one, and the coroutine's info. */
  predicate Matched(s: State, e: Event) {
    match e
    case TraceStarted(_, id, self, _, _, _) => Traced(id, self) !in s.ongoing
    case TraceEnded(_, id, self, _, _, _) => Traced(id, self) in s.infos && Traced(id, self) in s.ongoing
    case _ => true
  }

  ghost predicate AllMatched(s: State, es: seq<Event>) {
    es == [] || (AllMatched(s, es[..|es| - 1]) && Matched(Run(s, es[..|es| - 1]), es[|es| - 1]))
  }

  /** The counters agree with the ongoing traces after every event of the run. */
  ghost predicate AlwaysBalanced(s: State, es: seq<Event>) {
    Imbalance(Run(s, es)) == 0 && (es == [] || AlwaysBalanced(s, es[..|es| - 1]))
  }

  lemma {:induction false} SizeAfterInsert(m: map<Id, TraceInfo>, c: Id, t: TraceInfo)
    ensures |m[c := t]| == if c in m then |m| else |m| + 1
  {
    if c in m {
      assert m[c := t].Keys == m.Keys;
    } else {
      assert m[c := t].Keys == m.Keys + {c};
    }
  }

  lemma {:induction false} SizeAfterRemove(m: map<Id, TraceInfo>, c: Id)
    ensures |m - {c}| == if c in m then |m| - 1 else |m|
  {
    if c in m {
      assert m.Keys == (m - {c}).Keys + {c};
    } else {
      assert m - {c} == m;
    }
  }

  /** One more thread counter, or one fewer. */
  lemma {:induction false} CountStep(s: State, e: Event)
    ensures SumCounts(Step(s, e).traces) - SumCounts(s.traces) ==
      if e.TraceStarted? then 1 else if e.TraceEnded? then -1 else 0
  {
    hide SumCounts;
    assert Step(s, e).traces == TracesAfter(s, e);
    if e.TraceStarted? { SumUpdate(s.traces, e.tid, CountOf(s.traces, e.tid) + 1); }
    if e.TraceEnded? { SumUpdate(s.traces, e.tid, CountOf(s.traces, e.tid) - 1); }
  }

  lemma {:induction false} StartedStep(s: State, e: Event)
    requires e.TraceStarted? && Keyed(s)
    ensures |OngoingAfter(s, e)| == |s.ongoing| + 1 <==> Matched(s, e)
    ensures forall c :: c in OngoingAfter(s, e) ==> OngoingAfter(s, e)[c].coroutineId == c
  {
    var c := Traced(e.id, e.self);
    SizeAfterInsert(s.ongoing, c, TraceInfo(c, e.begun, 0));
  }

  lemma {:induction false} EndedStep(s: State, e: Event)
    requires e.TraceEnded? && Keyed(s)
    ensures |OngoingAfter(s, e)| == |s.ongoing| - 1 <==> Matched(s, e)
    ensures Matched(s, e) ==> forall c :: c in OngoingAfter(s, e) ==> OngoingAfter(s, e)[c].coroutineId == c
  {
    var c := Traced(e.id, e.self);
    var found := OngoingAt(s.ongoing, c);
    SizeAfterInsert(s.ongoing, c, found);
    SizeAfterRemove(s.ongoing[c := found], found.coroutineId);
  }

  /** A matched event keeps the balance; an unmatched one breaks it. */
  lemma {:induction false} BalanceStep(s: State, e: Event)
    requires Keyed(s)
    ensures Imbalance(Step(s, e)) == Imbalance(s) <==> Matched(s, e)
    ensures Matched(s, e) ==> Keyed(Step(s, e))
  {
    hide SumCounts;
    CountStep(s, e);
    assert Step(s, e).ongoing == OngoingAfter(s, e);
    if e.TraceStarted? { StartedStep(s, e); }
    if e.TraceEnded? { EndedStep(s, e); }
  }

  /**
   The sum of the counters over all threads is the number of ongoing traces throughout a
   run, exactly if every start and every end of the run is matched. Traces may end on
   other threads than they started on.
   */
  lemma {:induction false} BalancedIffMatched(s: State, es: seq<Event>)
    requires Imbalance(s) == 0 && Keyed(s)
    ensures AlwaysBalanced(s, es) <==> AllMatched(s, es)
    ensures AllMatched(s, es) ==> Keyed(Run(s, es)) && Imbalance(Run(s, es)) == 0
  {
    hide Imbalance, Step, Matched;
    if es != [] {
      BalancedIffMatched(s, es[..|es| - 1]);
      if AllMatched(s, es[..|es| - 1]) {
        BalanceStep(Run(s, es[..|es| - 1]), es[|es| - 1]);
      }
    }
  }

  lemma {:induction false} InitBalanced(threshold: Time)
    ensures Imbalance(Init(threshold)) == 0 && Keyed(Init(threshold))
  {
  }

  /** From the start of the agent on. */
  lemma {:induction false} BalancedFromStart(threshold: Time, es: seq<Event>)
    ensures AlwaysBalanced(Init(threshold), es) <==> AllMatched(Init(threshold), es)
    ensures AllMatched(Init(threshold), es) ==>
      SumCounts(Run(Init(threshold), es).traces) == |Run(Init(threshold), es).ongoing|
  {
    hide Run, AlwaysBalanced, AllMatched, Keyed;
    InitBalanced(threshold);
    BalancedIffMatched(Init(threshold), es);
  }

  /** Entries hold the id of their coroutine, or 0 if a lookup created them. */
  ghost predicate OwnOrZero(ongoing: map<Id, TraceInfo>) {
    forall c :: c in ongoing ==> ongoing[c].coroutineId == c || ongoing[c].coroutineId == 0
  }

  lemma {:induction false} OwnOrZeroStep(s: State, e: Event)
    requires OwnOrZero(s.ongoing)
    ensures OwnOrZero(OngoingAfter(s, e))
    ensures forall c :: c != 0 && c in s.ongoing && s.ongoing[c].coroutineId == 0 ==>
              c in OngoingAfter(s, e) && OngoingAfter(s, e)[c].coroutineId == 0
  {
  }

  lemma {:induction false} OwnOrZeroAlways(threshold: Time, es: seq<Event>)
    ensures OwnOrZero(Run(Init(threshold), es).ongoing)
  {
    hide OngoingAfter, OwnOrZero;
    if es != [] {
      OwnOrZeroAlways(threshold, es[..|es| - 1]);
      OwnOrZeroStep(Run(Init(threshold), es[..|es| - 1]), es[|es| - 1]);
    } else {
      NoneOngoing(threshold);
    }
  }

  lemma {:induction false} NoneOngoing(threshold: Time)
    ensures OwnOrZero(Init(threshold).ongoing)
  {
  }

  /** An entry that a lookup created stays, whatever events follow. */
  lemma {:induction false} CreatedEntryStays(s: State, es: seq<Event>, c: Id)
    requires OwnOrZero(s.ongoing) && c != 0 && c in s.ongoing && s.ongoing[c].coroutineId == 0
    ensures OwnOrZero(Run(s, es).ongoing) && c in Run(s, es).ongoing && Run(s, es).ongoing[c].coroutineId == 0
  {
    hide OngoingAfter, OwnOrZero;
    if es != [] {
      CreatedEntryStays(s, es[..|es| - 1], c);
      OwnOrZeroStep(Run(s, es[..|es| - 1]), es[|es| - 1]);
    }
  }

  /**
   An unmatched end leaves behind an entry that nothing removes: neither later ends of its
   coroutine nor anything else, so that the coroutine's traces never start again.
   */
  lemma {:induction false} UnmatchedEndLeavesEntry(threshold: Time, before: seq<Event>, e: Event, after: seq<Event>)
    requires e.TraceEnded? && Traced(e.id, e.self) != 0
    requires var s := Run(Init(threshold), before);
      Traced(e.id, e.self) in s.infos && Traced(e.id, e.self) !in s.ongoing
    ensures Traced(e.id, e.self) in Run(Step(Run(Init(threshold), before), e), after).ongoing
  {
    hide Run, OwnOrZero;
    var s := Run(Init(threshold), before);
    OwnOrZeroAlways(threshold, before);
    OwnOrZeroStep(s, e);
    CreatedEntryStays(Step(s, e), after, Traced(e.id, e.self));
  }

  /** The event ends a trace of `c` that was not started, and finds the coroutine's info. */
  predicate EndsUnstarted(s: State, e: Event, c: Id) {
    e.TraceEnded? && Traced(e.id, e.self) == c && c in s.infos && c !in s.ongoing
  }

  ghost predicate EndedUnstarted(threshold: Time, es: seq<Event>, c: Id) {
    exists k :: 0 <= k < |es| && EndsUnstarted(Run(Init(threshold), es[..k]), es[k], c)
  }

  predicate HasCreatedEntry(ongoing: map<Id, TraceInfo>, c: Id) {
    c in ongoing && ongoing[c].coroutineId == 0
  }

  lemma {:induction false} CreatedEntryStep(s: State, e: Event, c: Id)
    requires OwnOrZero(s.ongoing) && c != 0
    ensures HasCreatedEntry(OngoingAfter(s, e), c) <==> HasCreatedEntry(s.ongoing, c) || EndsUnstarted(s, e, c)
  {
  }

  lemma {:induction false} EndedUnstartedStep(threshold: Time, es: seq<Event>, c: Id)
    requires es != []
    ensures var front, e := es[..|es| - 1], es[|es| - 1];
      EndedUnstarted(threshold, es, c)
      <==> EndedUnstarted(threshold, front, c) || EndsUnstarted(Run(Init(threshold), front), e, c)
  {
    hide Run, EndsUnstarted;
    var front := es[..|es| - 1];
    assert forall k :: 0 <= k < |front| ==> front[k] == es[k] && front[..k] == es[..k];
    assert es[..|front|] == front;
  }

  /** In every run, such an entry is there exactly if a trace of the coroutine ended that was not started. */
  lemma {:induction false} CreatedEntryIff(threshold: Time, es: seq<Event>, c: Id)
    requires c != 0
    ensures HasCreatedEntry(Run(Init(threshold), es).ongoing, c) <==> EndedUnstarted(threshold, es, c)
  {
    hide OngoingAfter, OwnOrZero, EndsUnstarted, EndedUnstarted;
    if es == [] {
      NoneEnded(threshold, c);
    } else {
      var front, e := es[..|es| - 1], es[|es| - 1];
      CreatedEntryIff(threshold, front, c);
      OwnOrZeroAlways(threshold, front);
      CreatedEntryStep(Run(Init(threshold), front), e, c);
      EndedUnstartedStep(threshold, es, c);
    }
  }

  lemma {:induction false} NoneEnded(threshold: Time, c: Id)
    ensures !EndedUnstarted(threshold, [], c)
  {
  }

  /** A second start does not disturb the trace that is ongoing. */
  lemma {:induction false} SecondStartKeepsTrace(s: State, e: Event, c: Id)
    requires e.TraceStarted? && c in s.ongoing
    ensures c in Step(s, e).ongoing && Step(s, e).ongoing[c] == s.ongoing[c]
  {
    assert Step(s, e).ongoing == OngoingAfter(s, e);
  }

  /** In every run the written files are numbered 0, 1, 2, ... */
  lemma {:induction false} FileNumbers(threshold: Time, es: seq<Event>)
    ensures var s := Run(Init(threshold), es);
      s.outputCounter == |s.files| && forall i :: 0 <= i < |s.files| ==> s.files[i].number == i
  {
    hide Exported;
    if es != [] {
      var s, e := Run(Init(threshold), es[..|es| - 1]), es[|es| - 1];
      FileNumbers(threshold, es[..|es| - 1]);
      assert Step(s, e).files == FilesAfter(s, e);
    }
  }
}
