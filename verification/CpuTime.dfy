/**
 CPU time and context switches: every thread's counters are charged to
 coroutines, over arbitrary runs with any number of threads and coroutines.
 */
module CpuTime {
  import opened Basics
  import opened Records
  import opened Lifecycle
  import opened WallTime

  /** Counter values as microseconds and switches. */
  function Amount(r: Rusage): Usage {
    Usage(1_000_000 * r.utime.sec + r.utime.usec, 1_000_000 * r.stime.sec + r.stime.usec, r.nvcsw, r.nivcsw)
  }

  predicate AtMost(a: Usage, b: Usage) {
    a.user <= b.user && a.system <= b.system && a.voluntary <= b.voluntary && a.involuntary <= b.involuntary
  }

  /**
   Differences of counters telescope although seconds and microseconds are
   subtracted separately and the microseconds may go down.
   */
  lemma {:induction false} DifferenceTelescopes(a: Rusage, b: Rusage, c: Rusage)
    ensures Plus(Difference(b, a), Difference(c, b)) == Difference(c, a)
    ensures Plus(Amount(a), Difference(b, a)) == Amount(b)
  {
  }

  /** The event charges the thread's counters to a coroutine. */
  predicate Charges(s: State, e: Event) {
    match e
    case Suspended(_, id, _, _, _, _) => id in s.infos && s.infos[id].lastResume > 0
    case Completed(_, id, _, _, _) => id in s.infos
    case TraceEnded(_, id, self, _, _, _) => Traced(id, self) in s.infos
    case _ => false
  }

  function ChargedTo(e: Event): Id
    requires e.Suspended? || e.Completed? || e.TraceEnded?
  {
    if e.TraceEnded? then Traced(e.id, e.self) else e.id
  }

  /** What the event charges. */
  function Bill(s: State, e: Event): Usage {
    if Charges(s, e) then Spent(s, e.tid, e.usage) else NO_USAGE
  }

  predicate OnThread(e: Event, tid: Tid) {
    (e.Suspended? || e.Completed? || e.TraceEnded? || e.Resumed?) && e.tid == tid
  }

  /** All that a run charges from thread `tid`. */
  function FromThread(s: State, es: seq<Event>, tid: Tid): Usage {
    if es == [] then NO_USAGE else
    var front, e := es[..|es| - 1], es[|es| - 1];
    if OnThread(e, tid) then Plus(FromThread(s, front, tid), Bill(Run(s, front), e)) else FromThread(s, front, tid)
  }

  /** All that a run charges to coroutine `c`. */
  function ToCoroutine(s: State, es: seq<Event>, c: Id): Usage {
    if es == [] then NO_USAGE else
    var front, e := es[..|es| - 1], es[|es| - 1];
    if Charges(Run(s, front), e) && ChargedTo(e) == c then Plus(ToCoroutine(s, front, c), Bill(Run(s, front), e))
    else ToCoroutine(s, front, c)
  }

  /** All that a run charges. */
  function Billed(s: State, es: seq<Event>): Usage {
    if es == [] then NO_USAGE else
    Plus(Billed(s, es[..|es| - 1]), Bill(Run(s, es[..|es| - 1]), es[|es| - 1]))
  }

  // ---------- per thread ----------

  /** The thread's counters at its last callback. */
  function Counter(es: seq<Event>, tid: Tid, start: Rusage): Rusage {
    if es == [] then start else
    if OnThread(es[|es| - 1], tid) then es[|es| - 1].usage else Counter(es[..|es| - 1], tid, start)
  }

  /** The counters of a thread never go down. */
  ghost predicate CountersRise(es: seq<Event>, tid: Tid, start: Rusage) {
    es == [] ||
    var front, e := es[..|es| - 1], es[|es| - 1];
    CountersRise(front, tid, start) && (OnThread(e, tid)
      ==> AtMost(Amount(Counter(front, tid, start)), Amount(e.usage)))
  }

  /** What a step does to the last reading of a thread, and what it charges from it. */
  lemma {:induction false} ThreadStep(s: State, e: Event, tid: Tid)
    ensures var last, next := RusageOf(s.rusage, tid), RusageOf(Step(s, e).rusage, tid);
      && (next == last || (OnThread(e, tid) && next == e.usage))
      && (OnThread(e, tid) && Charges(s, e) ==> Bill(s, e) == Difference(next, last))
      && (OnThread(e, tid) && !Charges(s, e) ==> Bill(s, e) == NO_USAGE)
  {
    assert Step(s, e).rusage == RusageAfter(s, e);
  }

  lemma {:induction false} ReadingBelowCounter(s: State, es: seq<Event>, tid: Tid)
    requires CountersRise(es, tid, RusageOf(s.rusage, tid))
    ensures AtMost(Amount(RusageOf(Run(s, es).rusage, tid)), Amount(Counter(es, tid, RusageOf(s.rusage, tid))))
  {
    hide Step, Bill, Difference;
    if es != [] {
      ReadingBelowCounter(s, es[..|es| - 1], tid);
      ThreadStep(Run(s, es[..|es| - 1]), es[|es| - 1], tid);
    }
  }

  lemma {:induction false} FromThreadStep(s: State, es: seq<Event>, tid: Tid)
    requires es != []
    ensures var front, e := es[..|es| - 1], es[|es| - 1];
      FromThread(s, es, tid)
      == if OnThread(e, tid) then Plus(FromThread(s, front, tid), Bill(Run(s, front), e)) else FromThread(s, front, tid)
  {
  }

  lemma {:induction false} ChargedBelowReading(s: State, es: seq<Event>, tid: Tid)
    requires CountersRise(es, tid, RusageOf(s.rusage, tid))
    ensures AtMost(Plus(Amount(RusageOf(s.rusage, tid)), FromThread(s, es, tid)),
      Amount(RusageOf(Run(s, es).rusage, tid)))
  {
    hide Step, Bill, Difference, FromThread, RusageOf, Charges;
    if es == [] {
      NothingFromThread(s, tid);
    } else {
      var front, e := es[..|es| - 1], es[|es| - 1];
      ChargedBelowReading(s, front, tid);
      ReadingBelowCounter(s, front, tid);
      FromThreadStep(s, es, tid);
      ThreadStep(Run(s, front), e, tid);
      DifferenceTelescopes(RusageOf(Run(s, front).rusage, tid), RusageOf(Run(s, es).rusage, tid), NO_RUSAGE);
    }
  }

  lemma {:induction false} NothingFromThread(s: State, tid: Tid)
    ensures FromThread(s, [], tid) == NO_USAGE
  {
  }

  /** No thread is charged twice: what is charged from it never exceeds its counters. */
  lemma {:induction false} ThreadNotDoubleCounted(threshold: Time, es: seq<Event>, tid: Tid)
    requires CountersRise(es, tid, NO_RUSAGE)
    ensures AtMost(FromThread(Init(threshold), es, tid), Amount(Counter(es, tid, NO_RUSAGE)))
  {
    hide Step, Bill, FromThread, Counter, CountersRise, Run, Amount, Plus, AtMost;
    var s := Init(threshold);
    assert RusageOf(s.rusage, tid) == NO_RUSAGE;
    ReadingBelowCounter(s, es, tid);
    ChargedBelowReading(s, es, tid);
    AtMostFromNothing(FromThread(s, es, tid), Amount(RusageOf(Run(s, es).rusage, tid)),
                      Amount(Counter(es, tid, NO_RUSAGE)));
  }

  lemma {:induction false} AtMostFromNothing(a: Usage, b: Usage, c: Usage)
    requires AtMost(Plus(Amount(NO_RUSAGE), a), b) && AtMost(b, c)
    ensures AtMost(a, c)
  {
  }

  // ---------- per coroutine ----------

  lemma {:induction false} UsageStep(s: State, e: Event, c: Id)
    requires c in s.infos && c in Step(s, e).infos
    ensures Step(s, e).infos[c].usage ==
      if Charges(s, e) && ChargedTo(e) == c then Plus(s.infos[c].usage, Bill(s, e)) else s.infos[c].usage
  {
    hide EndFirstOpen;
    assert Step(s, e).infos == InfosAfter(s, e);
  }

  /** A coroutine's usage is what was charged to it. */
  lemma {:induction false} CoroutineUsage(s: State, es: seq<Event>, c: Id)
    requires Kept(s, es, c)
    ensures c in s.infos && Run(s, es).infos[c].usage == Plus(s.infos[c].usage, ToCoroutine(s, es, c))
  {
    if es != [] {
      CoroutineUsage(s, es[..|es| - 1], c);
      UsageStep(Run(s, es[..|es| - 1]), es[|es| - 1], c);
    }
  }

  // ---------- totals ----------

  ghost function SumInfos(m: map<Id, CoroutineInfo>): Usage {
    if !exists id :: id in m then NO_USAGE else
    var id :| id in m;
    Plus(SumInfos(m - {id}), m[id].usage)
  }

  lemma {:induction false} PlusSwap(a: Usage, b: Usage, c: Usage)
    ensures Plus(Plus(a, b), c) == Plus(Plus(a, c), b)
  {
  }

  lemma {:induction false} SumRemove(m: map<Id, CoroutineInfo>, id: Id)
    requires id in m
    ensures SumInfos(m) == Plus(SumInfos(m - {id}), m[id].usage)
    decreases |m|
  {
    hide Plus;
    var k :| k in m && SumInfos(m) == Plus(SumInfos(m - {k}), m[k].usage);
    if k != id {
      SumRemove(m - {k}, id);
      SumRemove(m - {id}, k);
      assert m - {k} - {id} == m - {id} - {k};
      PlusSwap(SumInfos(m - {k} - {id}), m[id].usage, m[k].usage);
    }
  }

  lemma {:induction false} SumUpdate(m: map<Id, CoroutineInfo>, id: Id, info: CoroutineInfo)
    ensures SumInfos(m[id := info]) == Plus(SumInfos(m - {id}), info.usage)
  {
    SumRemove(m[id := info], id);
    assert m[id := info] - {id} == m - {id};
  }

  ghost function Restrict(m: map<Id, CoroutineInfo>, keys: set<Id>): map<Id, CoroutineInfo> {
    map id | id in m && id in keys :: m[id]
  }

  lemma {:induction false} SumSplit(m: map<Id, CoroutineInfo>, keys: set<Id>)
    ensures SumInfos(m) == Plus(SumInfos(m - keys), SumInfos(Restrict(m, keys)))
    decreases |m|
  {
    if exists id :: id in m {
      var id :| id in m;
      SumRemove(m, id);
      SumSplit(m - {id}, keys);
      if id in keys {
        SumRemove(Restrict(m, keys), id);
        assert m - {id} - keys == m - keys;
        assert Restrict(m - {id}, keys) == Restrict(m, keys) - {id};
      } else {
        SumRemove(m - keys, id);
        assert m - {id} - keys == m - keys - {id};
        assert Restrict(m - {id}, keys) == Restrict(m, keys);
      }
    } else {
      assert !exists id :: id in m - keys;
      assert !exists id :: id in Restrict(m, keys);
    }
  }

  /** The usage of the infos that the cleaner removes. */
  ghost function Discarded(s: State, es: seq<Event>): Usage {
    if es == [] then NO_USAGE else
    var front, e := es[..|es| - 1], es[|es| - 1];
    if e.CleanInfos? then Plus(Discarded(s, front), SumInfos(Restrict(Run(s, front).infos, Run(s, front).infoMarks)))
    else Discarded(s, front)
  }

  lemma {:induction false} PlusNothing(a: Usage)
    ensures Plus(a, NO_USAGE) == a
  {
  }

  lemma {:induction false} NewInfoSum(m: map<Id, CoroutineInfo>, id: Id, start: Time, resumed: Time)
    ensures SumInfos(WithInfo(m, id, start, resumed)) == SumInfos(m)
  {
    hide SumInfos, Plus;
    if id !in m {
      SumUpdate(m, id, NewInfo(start, resumed));
      assert m - {id} == m;
      PlusNothing(SumInfos(m));
    }
  }

  lemma {:induction false} TotalStep(s: State, e: Event)
    ensures e.CleanInfos? ==> Bill(s, e) == NO_USAGE
    ensures e.CleanInfos? ==>
      Plus(SumInfos(Step(s, e).infos), SumInfos(Restrict(s.infos, s.infoMarks))) == SumInfos(s.infos)
    ensures !e.CleanInfos? ==> SumInfos(Step(s, e).infos) == Plus(SumInfos(s.infos), Bill(s, e))
  {
    hide SumInfos, Spent, Suspend, Resume, Complete, Charge;
    assert Step(s, e).infos == InfosAfter(s, e);
    match e {
      case CleanInfos => SumSplit(s.infos, s.infoMarks);
      case Created(_, id, start, resumed) => NewInfoSum(s.infos, id, start, resumed);
      case TraceStarted(_, id, self, start, resumed, _) => NewInfoSum(s.infos, self, start, resumed);
      case Suspended(_, id, _, _, _, _) => OneInfoSum(s, e, id);
      case Resumed(_, id, _, _, _) => OneInfoSum(s, e, id);
      case Completed(_, id, _, _, _) => OneInfoSum(s, e, id);
      case TraceEnded(_, id, self, _, _, _) => OneInfoSum(s, e, Traced(id, self));
      case _ =>
    }
  }

  lemma {:induction false} OneInfoSum(s: State, e: Event, c: Id)
    requires e.Suspended? || e.Resumed? || e.Completed? || e.TraceEnded?
    requires c == if e.TraceEnded? then Traced(e.id, e.self) else e.id
    ensures SumInfos(InfosAfter(s, e)) == Plus(SumInfos(s.infos), Bill(s, e))
  {
    hide SumInfos, Spent, Suspend, Resume, Complete, Charge;
    if c in s.infos {
      UsageStep(s, e, c);
      SumUpdate(s.infos, c, InfosAfter(s, e)[c]);
      SumRemove(s.infos, c);
    }
  }

  /** Nothing charged is lost: it is in the infos, or in infos that were cleaned. */
  lemma {:induction false} TotalOverCoroutines(s: State, es: seq<Event>)
    ensures Plus(SumInfos(Run(s, es).infos), Discarded(s, es)) == Plus(SumInfos(s.infos), Billed(s, es))
  {
    hide Step, SumInfos, Bill, Restrict;
    if es != [] {
      TotalOverCoroutines(s, es[..|es| - 1]);
      TotalStep(Run(s, es[..|es| - 1]), es[|es| - 1]);
    }
  }

  function SumThreads(s: State, es: seq<Event>, tids: seq<Tid>): Usage {
    if tids == [] then NO_USAGE else
    Plus(SumThreads(s, es, tids[..|tids| - 1]), FromThread(s, es, tids[|tids| - 1]))
  }

  lemma {:induction false} PlusAssoc(a: Usage, b: Usage, c: Usage)
    ensures Plus(Plus(a, b), c) == Plus(a, Plus(b, c))
  {
  }

  lemma {:induction false} SumThreadsStep(s: State, es: seq<Event>, tids: seq<Tid>)
    requires es != [] && Distinct(tids)
    ensures var front, e := es[..|es| - 1], es[|es| - 1];
      SumThreads(s, es, tids) ==
      if exists tid :: tid in tids && OnThread(e, tid) then Plus(SumThreads(s, front, tids), Bill(Run(s, front), e))
      else SumThreads(s, front, tids)
  {
    hide Step, Bill, FromThread, Plus;
    var front, e := es[..|es| - 1], es[|es| - 1];
    if tids != [] {
      var rest, tid := tids[..|tids| - 1], tids[|tids| - 1];
      SumThreadsStep(s, es, rest);
      FromThreadStep(s, es, tid);
      PlusSwap(SumThreads(s, front, rest), Bill(Run(s, front), e), FromThread(s, front, tid));
      PlusAssoc(SumThreads(s, front, rest), FromThread(s, front, tid), Bill(Run(s, front), e));
      assert forall t :: t in tids <==> t == tid || t in rest;
      assert tid !in rest;
    }
  }

  lemma {:induction false} NoThreads(s: State, tids: seq<Tid>)
    ensures SumThreads(s, [], tids) == NO_USAGE
  {
    hide FromThread, Plus;
    if tids != [] {
      NoThreads(s, tids[..|tids| - 1]);
      NothingFromThread(s, tids[|tids| - 1]);
      PlusNothing(NO_USAGE);
    }
  }

  lemma {:induction false} UnbilledElsewhere(s: State, e: Event)
    ensures (forall tid :: !OnThread(e, tid)) ==> Bill(s, e) == NO_USAGE
  {
    if e.Suspended? || e.Completed? || e.TraceEnded? { assert OnThread(e, e.tid); }
  }

  /** The totals over threads and over coroutines agree. */
  lemma {:induction false} TotalOverThreads(s: State, es: seq<Event>, tids: seq<Tid>)
    requires Distinct(tids) && forall k, tid :: 0 <= k < |es| && OnThread(es[k], tid) ==> tid in tids
    ensures SumThreads(s, es, tids) == Billed(s, es)
    ensures Plus(SumInfos(Run(s, es).infos), Discarded(s, es)) == Plus(SumInfos(s.infos), SumThreads(s, es, tids))
  {
    hide Step, Bill, FromThread, SumThreads, SumInfos, Discarded;
    TotalOverCoroutines(s, es);
    if es == [] {
      NoThreads(s, tids);
    } else {
      var front, e := es[..|es| - 1], es[|es| - 1];
      assert forall k :: 0 <= k < |front| ==> front[k] == es[k];
      TotalOverThreads(s, front, tids);
      SumThreadsStep(s, es, tids);
      UnbilledElsewhere(Run(s, front), e);
      assert forall tid :: OnThread(e, tid) ==> tid in tids;
    }
  }

  // ---------- what exactly is charged ----------

  /** The event reads the counters of its thread. */
  predicate ReadsCounters(s: State, e: Event) {
    match e
    case Resumed(_, id, _, _, _) => id in s.infos
    case Suspended(_, id, _, _, _, _) => id in s.infos && s.infos[id].lastResume > 0
    case Completed(_, id, _, _, _) => id in s.infos
    case TraceEnded(_, id, self, _, _, _) => (if id == -2 then self else id) in s.infos
    case _ => false
  }

  /** The counters that the thread's last such event of a run read. */
  function LastReading(s: State, es: seq<Event>, tid: Tid): Rusage {
    if es == [] then if tid in s.rusage then s.rusage[tid] else Rusage(Timeval(0, 0), Timeval(0, 0), 0, 0) else
    var front, e := es[..|es| - 1], es[|es| - 1];
    if ReadsCounters(Run(s, front), e) && e.tid == tid then e.usage else LastReading(s, front, tid)
  }

  lemma {:induction false} ReadingStep(s: State, e: Event, tid: Tid)
    ensures RusageOf(Step(s, e).rusage, tid) ==
      if ReadsCounters(s, e) && e.tid == tid then e.usage else RusageOf(s.rusage, tid)
  {
    assert Step(s, e).rusage == RusageAfter(s, e);
  }

  lemma {:induction false} ReadingExact(s: State, es: seq<Event>, tid: Tid)
    ensures RusageOf(Run(s, es).rusage, tid) == LastReading(s, es, tid)
  {
    hide Step, ReadsCounters;
    if es != [] {
      ReadingExact(s, es[..|es| - 1], tid);
      ReadingStep(Run(s, es[..|es| - 1]), es[|es| - 1], tid);
    }
  }

  /** The event charges coroutine `c`. */
  predicate ChargesCoroutine(s: State, e: Event, c: Id)
    requires c in s.infos
  {
    match e
    case Suspended(_, id, _, _, _, _) => id == c && s.infos[c].lastResume > 0
    case Completed(_, id, _, _, _) => id == c
    case TraceEnded(_, id, self, _, _, _) => (if id == -2 then self else id) == c
    case _ => false
  }

  /** Usage `b` is `a` and, if `charged`, what the counters rose from `last` to `now`. */
  predicate RisesBy(a: Usage, b: Usage, now: Rusage, last: Rusage, charged: bool) {
    if charged then
      && b.user - a.user == (1_000_000 * now.utime.sec + now.utime.usec) - (1_000_000 * last.utime.sec
        + last.utime.usec)
      && b.system - a.system
         == (1_000_000 * now.stime.sec + now.stime.usec) - (1_000_000 * last.stime.sec + last.stime.usec)
      && b.voluntary - a.voluntary == now.nvcsw - last.nvcsw
      && b.involuntary - a.involuntary == now.nivcsw - last.nivcsw
    else b == a
  }

  lemma {:induction false} RiseOfStep(s: State, e: Event, c: Id)
    requires c in s.infos && c in Step(s, e).infos
    ensures ChargesCoroutine(s, e, c) ==>
      RisesBy(s.infos[c].usage, Step(s, e).infos[c].usage, e.usage, RusageOf(s.rusage, e.tid), true)
    ensures !ChargesCoroutine(s, e, c) ==> Step(s, e).infos[c].usage == s.infos[c].usage
  {
    assert Step(s, e).infos == InfosAfter(s, e);
  }

  /**
   After every run: an event that charges a coroutine raises its user time, its system time
   and its switches by what the event's reading of the thread's counters exceeds the thread's
   last reading, each in its own field, and every other event leaves them as they are.
   */
  lemma {:induction false} ChargedExactly(s: State, es: seq<Event>, e: Event, c: Id)
    requires c in Run(s, es).infos && c in Step(Run(s, es), e).infos
    ensures var before, after := Run(s, es).infos[c].usage, Step(Run(s, es), e).infos[c].usage;
      if ChargesCoroutine(Run(s, es), e, c) then RisesBy(before, after, e.usage, LastReading(s, es, e.tid), true)
      else after == before
  {
    hide Run, Step, LastReading, RisesBy;
    RiseOfStep(Run(s, es), e, c);
    if ChargesCoroutine(Run(s, es), e, c) { ReadingExact(s, es, e.tid); }
  }

  lemma {:induction false} ReadingKept(s: State, es: seq<Event>, tid: Tid)
    requires forall k :: 0 <= k < |es| ==> !OnThread(es[k], tid)
    ensures LastReading(s, es, tid) == LastReading(s, [], tid)
  {
    hide Run;
    if es != [] {
      ReadingKept(s, es[..|es| - 1], tid);
      assert !OnThread(es[|es| - 1], tid);
    }
  }

  /**
   A stretch from a resume to a suspension on the same thread, with nothing of that thread in
   between, is charged exactly what the thread's counters rose over it.
   */
  lemma {:induction false} StretchCharged(s: State, e: Event, es: seq<Event>, f: Event, c: Id)
    requires e.Resumed? && e.id == c && c in s.infos && f.Suspended? && f.id == c && f.tid == e.tid
    requires forall k :: 0 <= k < |es| ==> !OnThread(es[k], e.tid)
    requires var t := Run(Step(s, e), es); c in t.infos && t.infos[c].lastResume > 0
    ensures var t := Run(Step(s, e), es);
      && c in Step(t, f).infos
      && RisesBy(t.infos[c].usage, Step(t, f).infos[c].usage, f.usage, e.usage, true)
  {
    hide Run, RisesBy, LastReading;
    var t := Run(Step(s, e), es);
    assert Step(t, f).infos == InfosAfter(t, f);
    ChargedExactly(Step(s, e), es, f, c);
    ReadingKept(Step(s, e), es, e.tid);
    FirstReading(Step(s, e), e.tid);
    ReadingStep(s, e, e.tid);
  }

  lemma {:induction false} FirstReading(s: State, tid: Tid)
    ensures LastReading(s, [], tid) == RusageOf(s.rusage, tid)
  {
  }
}
