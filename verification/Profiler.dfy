/**
 The callbacks of `Profiler`, updating the maps and lists of the storage in
 place. Each takes the step of `Lifecycle` for its event, so that a profiler that
 has handled any sequence of events is in the state of that run.
 */
module Profiling {
  import opened Basics
  import opened Records
  import opened Lifecycle
  import opened GcEvents
  import opened Pipeline
  import opened Steps

  class Profiler {
    const threshold: Time
    var infos: map<Id, CoroutineInfo>
    var infoMarks: set<Id>
    var children: map<Id, seq<Id>>
    var childMarks: set<Id>
    var processed: map<Id, seq<Sample>>
    var processedMarks: set<Id>
    var ongoing: map<Id, TraceInfo>
    var gc: seq<nat>
    var gcStore: seq<GcEvent>
    var gcUntil: nat
    var current: map<Tid, Id>
    var rusage: map<Tid, Rusage>
    var traces: map<Tid, int>
    var outputCounter: nat
    ghost var files: seq<TraceFile>
    var rawList: seq<RawRecord>

    ghost function Abs(): State
      reads this
    {
      State(threshold, infos, infoMarks, children, childMarks, processed, processedMarks, ongoing,
            gc, gcStore, gcUntil, current, rusage, traces, outputCounter, files)
    }

    constructor (threshold: Time)
      ensures Abs() == Init(threshold) && rawList == []
    {
      this.threshold := threshold;
      infos, infoMarks, children, childMarks := map[], {}, map[], {};
      processed, processedMarks, ongoing := map[], {}, map[];
      gc, gcStore, gcUntil := [], [], 0;
      current, rusage, traces, outputCounter, files := map[], map[], map[], 0, [];
      rawList := [];
    }

    // ---------- storage and thread-local variables ----------

    method GetCoroutineInfo(id: Id) returns (info: Option<CoroutineInfo>)
      ensures info == if id in Abs().infos then Some(Abs().infos[id]) else None
    {
      info := if id in infos then Some(infos[id]) else None;
    }

    method CreateCoroutineInfo(id: Id, start: Time, resumed: Time)
      modifies `infos
      ensures Abs() == old(Abs()).(infos := WithInfo(old(Abs()).infos, id, start, resumed))
    {
      if id !in infos {
        infos := infos[id := NewInfo(start, resumed)];
      }
    }

    /** Assigns through the pointer to an info. */
    method StoreInfo(id: Id, info: CoroutineInfo)
      modifies `infos
      ensures Abs() == old(Abs()).(infos := old(Abs()).infos[id := info])
    {
      infos := infos[id := info];
    }

    method CreateChildCoroutineStorage(id: Id)
      modifies `children
      ensures Abs() == old(Abs()).(children := WithList(old(Abs()).children, id))
    {
      if id !in children {
        children := children[id := []];
      }
    }

    /** Fails if the parent has no list. */
    method AddChildCoroutine(id: Id, parent: Id) returns (added: bool)
      modifies `children
      ensures added <==> parent in old(Abs()).children
      ensures var s := old(Abs());
        Abs() == if added then s.(children := s.children[parent := s.children[parent] + [id]]) else s
    {
      added := parent in children;
      if added {
        children := children[parent := children[parent] + [id]];
      }
    }

    method SetCurrentCoroutine(tid: Tid, id: Id)
      modifies `current
      ensures Abs() == old(Abs()).(current := old(Abs()).current[tid := id])
    {
      current := current[tid := id];
    }

    method GetCurrentCoroutine(tid: Tid) returns (id: Id)
      ensures id == CurrentOf(Abs(), tid)
    {
      id := if tid in current then current[tid] else NOT_FOUND;
    }

    method UpdatePerfCounters(tid: Tid, usage: Rusage)
      modifies `rusage
      ensures Abs() == old(Abs()).(rusage := old(Abs()).rusage[tid := usage])
    {
      rusage := rusage[tid := usage];
    }

    method CalculateResourceUsage(tid: Tid, id: Id, usage: Rusage, now: Time)
      requires id in Abs().infos
      modifies `infos, `rusage
      ensures var s := old(Abs());
        Abs() == s.(infos := s.infos[id := Charge(s.infos[id], now, Spent(s, tid, usage))],
          rusage := s.rusage[tid := usage])
    {
      hide Difference, Plus;
      var info := infos[id];
      var last := if tid in rusage then rusage[tid] else NO_RUSAGE;
      rusage := rusage[tid := usage];
      infos := infos[id := info.(
                       wall := info.wall + (now - info.lastResume),
                       usage := Plus(info.usage, Difference(usage, last)))];
    }

    /** `fetch_add` on `current_traces` of the calling thread. */
    method AddCurrentTraces(tid: Tid, count: int)
      modifies `traces
      ensures Abs() == old(Abs()).(traces := old(Abs()).traces[tid := CountOf(old(Abs()).traces, tid) + count])
    {
      traces := traces[tid := (if tid in traces then traces[tid] else 0) + count];
    }

    method AddOngoingTraceInfo(trace: TraceInfo) returns (added: bool)
      modifies `ongoing
      ensures added <==> trace.coroutineId !in old(Abs()).ongoing
      ensures Abs() == if added then old(Abs()).(ongoing := old(Abs()).ongoing[trace.coroutineId := trace])
        else old(Abs())
    {
      added := trace.coroutineId !in ongoing;
      if added {
        ongoing := ongoing[trace.coroutineId := trace];
      }
    }

    /** `findOngoingTrace`, which creates a missing entry, and `removeOngoingTrace`. */
    method TakeOngoing(id: Id, finished: Time) returns (trace: TraceInfo)
      modifies `ongoing
      ensures trace == OngoingAt(old(Abs()).ongoing, id).(end := finished)
      ensures var s := old(Abs());
        Abs() == s.(ongoing := s.ongoing[id := OngoingAt(s.ongoing, id)] - {trace.coroutineId})
    {
      if id !in ongoing {
        ongoing := ongoing[id := TraceInfo(0, 0, 0)];
      }
      trace := ongoing[id].(end := finished);
      assert ongoing == old(ongoing)[id := OngoingAt(old(ongoing), id)];
      ongoing := ongoing - {trace.coroutineId};
    }

    /** Writes a trace that is long enough. */
    method WriteTrace(trace: TraceInfo)
      modifies `outputCounter, `files
      ensures Abs() == WithFile(old(Abs()), trace)
    {
      if trace.end - trace.start > threshold {
        files := files + [TraceFile(outputCounter, trace, Snapshot(infos, children, processed, GcList(gc, gcStore)))];
        outputCounter := outputCounter + 1;
      }
    }

    // ---------- callbacks ----------

    method CoroutineCreated(tid: Tid, id: Id, start: Time, resumed: Time)
      modifies `infos, `children
      ensures Abs() == Step(old(Abs()), Created(tid, id, start, resumed))
    {
      hide Step, Abs, WithInfo, WithList;
      CreatedStep(Abs(), Created(tid, id, start, resumed));
      var parent := GetCurrentCoroutine(tid);
      CreateCoroutineInfo(id, start, resumed);
      var added := AddChildCoroutine(id, parent);
      if added {
        CreateChildCoroutineStorage(id);
      }
    }

    method CoroutineSuspended(tid: Tid, id: Id, usage: Rusage, charged: Time, began: Time,
                              stack: Option<seq<StackFrame>>)
      modifies `infos, `rusage, `current
      ensures Abs() == Step(old(Abs()), Suspended(tid, id, usage, charged, began, stack))
    {
      hide Step, Abs, Charge, Difference;
      ghost var s := Abs();
      CoroutineStep(s, Suspended(tid, id, usage, charged, began, stack));
      SetCurrentCoroutine(tid, NOT_FOUND);
      var found := GetCoroutineInfo(id);
      if found.None? {
        return;
      }
      var info := found.value;
      if info.lastResume > 0 {
        CalculateResourceUsage(tid, id, usage, charged);
        found := GetCoroutineInfo(id);
        info := found.value.(lastResume := 0);
      }
      if stack.Some? {
        info := info.(suspensions := info.suspensions + [Suspension(began, 0, stack.value)]);
      }
      ghost var before := Abs().infos;
      StoreInfo(id, info);
      assert before[id := info] == s.infos[id := info];
    }

    /** The search of `getLastSuspensionInfo`. */
    static method FindOpen(ss: seq<Suspension>) returns (k: nat)
      ensures k <= |ss| && (k < |ss| ==> ss[k].end == 0)
      ensures forall i :: 0 <= i < k ==> ss[i].end != 0
      ensures k == FirstOpen(ss)
    {
      k := 0;
      while k < |ss| && ss[k].end != 0
        invariant k <= |ss| && forall i :: 0 <= i < k ==> ss[i].end != 0
      {
        k := k + 1;
      }
    }

    method CoroutineResumed(tid: Tid, id: Id, usage: Rusage, resumed: Time, ended: Time)
      modifies `infos, `rusage, `current
      ensures Abs() == Step(old(Abs()), Resumed(tid, id, usage, resumed, ended))
    {
      hide Step, Abs, FirstOpen;
      CoroutineStep(Abs(), Resumed(tid, id, usage, resumed, ended));
      SetCurrentCoroutine(tid, id);
      var found := GetCoroutineInfo(id);
      if found.None? {
        return;
      }
      UpdatePerfCounters(tid, usage);
      var info := found.value.(lastResume := resumed);
      var k := FindOpen(info.suspensions);
      if k < |info.suspensions| {
        info := info.(suspensions := info.suspensions[k := info.suspensions[k].(end := ended)]);
      }
      StoreInfo(id, info);
    }

    method CoroutineCompleted(tid: Tid, id: Id, usage: Rusage, ended: Time, charged: Time)
      modifies `infos, `rusage, `current
      ensures Abs() == Step(old(Abs()), Completed(tid, id, usage, ended, charged))
    {
      hide Step, Abs, Charge;
      ghost var s := Abs();
      CoroutineStep(s, Completed(tid, id, usage, ended, charged));
      SetCurrentCoroutine(tid, NOT_FOUND);
      var found := GetCoroutineInfo(id);
      if found.None? {
        return;
      }
      var info := found.value.(end := ended);
      StoreInfo(id, info);
      CalculateResourceUsage(tid, id, usage, charged);
      assert Abs().infos == s.infos[id := Abs().infos[id]];
    }

    /** Fails for a coroutine that is traced already. */
    method TraceStart(tid: Tid, id: Id, self: Id, start: Time, resumed: Time, begun: Time) returns (ok: bool)
      modifies `infos, `children, `ongoing, `traces
      ensures Abs() == Step(old(Abs()), TraceStarted(tid, id, self, start, resumed, begun))
      ensures ok <==> Traced(id, self) !in old(Abs()).ongoing
    {
      hide Step, Abs, WithInfo, WithList, CountOf;
      TraceStartedStep(Abs(), TraceStarted(tid, id, self, start, resumed, begun));
      var coroutineId := id;
      if id == PLAIN_FUNCTION {
        coroutineId := self;
        CreateCoroutineInfo(coroutineId, start, resumed);
      }
      AddCurrentTraces(tid, 1);
      CreateChildCoroutineStorage(coroutineId);
      ok := AddOngoingTraceInfo(TraceInfo(coroutineId, begun, 0));
    }

    method TraceEnd(tid: Tid, id: Id, self: Id, usage: Rusage, charged: Time, finished: Time)
      modifies `infos, `rusage, `ongoing, `traces, `outputCounter, `files
      ensures Abs() == Step(old(Abs()), TraceEnded(tid, id, self, usage, charged, finished))
    {
      hide Step, Abs, Charge, WithFile, Difference, OngoingAt;
      TraceEndedStep(Abs(), TraceEnded(tid, id, self, usage, charged, finished));
      AddCurrentTraces(tid, -1);
      var coroutineId := if id == PLAIN_FUNCTION then self else id;
      var found := GetCoroutineInfo(coroutineId);
      if found.None? {
        return;
      }
      CalculateResourceUsage(tid, coroutineId, usage, charged);
      var trace := TakeOngoing(coroutineId, finished);
      WriteTrace(trace);
    }

    method GcStart(now: Time)
      modifies `gc, `gcStore
      ensures Abs() == Step(old(Abs()), GcStarted(now))
    {
      gc := gc + [|gcStore|];
      gcStore := gcStore + [GcEvent(now, 0)];
    }

    /** `list_.back()` of an empty list is undefined, so the list must not be empty. */
    method GcFinish(now: Time)
      requires Abs().gc != []
      modifies `gc, `gcStore
      ensures Abs() == Step(old(Abs()), GcFinished(now))
    {
      GcFinishedStep(Abs(), now);
      hide Step;
      var event := gc[|gc| - 1];
      gc := gc[1..];
      if event < |gcStore| {
        gcStore := gcStore[event := gcStore[event].(end := now)];
      }
      gc := gc + [event];
    }

    // ---------- samples ----------

    method AddRawTrace(time: Time, instructions: seq<Instruction>, coroutineId: Id)
      modifies `rawList
      ensures Abs() == old(Abs()) && rawList == old(rawList) + [RawRecord(time, coroutineId, instructions)]
    {
      rawList := rawList + [RawRecord(time, coroutineId, instructions)];
    }

    method AddProcessedTrace(id: Id, sample: Sample)
      modifies `processed
      ensures Abs() == Step(old(Abs()), SampleProcessed(id, sample))
    {
      if id in processed {
        processed := processed[id := processed[id] + [sample]];
      } else {
        assert [] + [sample] == [sample];
        processed := processed[id := [sample]];
      }
    }

    static method ResolveFrames(instructions: seq<Instruction>, resolve: Instruction -> StackFrame)
      returns (methods: seq<StackFrame>)
      ensures methods == Frames(instructions, resolve)
    {
      methods := [];
      for i := 0 to |instructions|
        invariant methods == Frames(instructions, resolve)[..i]
      {
        methods := methods + [resolve(instructions[i])];
      }
    }

    /** Drains the raw queue; a stable grouping by coroutine. */
    method ProcessTraces(resolve: Instruction -> StackFrame)
      modifies `rawList, `processed
      ensures rawList == []
      ensures Abs() == Run(old(Abs()), SampleEvents(old(rawList), resolve))
      ensures Grouped(old(Abs()).processed, old(rawList), resolve, Abs().processed)
    {
      hide Grouped, Frames, WithSample, Abs, Step, Run, SampleEvents;
      ghost var s, done: seq<RawRecord> := Abs(), [];
      NothingGrouped(s.processed, resolve);
      NothingProcessed(s, resolve);
      while rawList != []
        invariant done + rawList == old(rawList)
        invariant Abs() == Run(s, SampleEvents(done, resolve))
        invariant Grouped(s.processed, done, resolve, Abs().processed)
        decreases |rawList|
      {
        var rawRecord := rawList[0];
        ghost var before, e := Abs(), SampleProcessed(rawRecord.coroutineId, Processed(rawRecord, resolve));
        GroupedOneMore(s.processed, done, rawRecord, resolve, before.processed);
        SampleEventsOneMore(done, rawRecord, resolve);
        RunOneMore(s, SampleEvents(done, resolve), e);
        ProcessedStep(before, e);
        done := done + [rawRecord];
        PopRaw();
        var methods := ResolveFrames(rawRecord.instructions, resolve);
        AddProcessedTrace(rawRecord.coroutineId, Sample(rawRecord.time, methods));
      }
      assert done == old(rawList);
    }

    method PopRaw()
      requires rawList != []
      modifies `rawList
      ensures Abs() == old(Abs()) && rawList == old(rawList)[1..]
    {
      rawList := rawList[1..];
    }

    // ---------- cleaning ----------

    method MarkProcessedTraces()
      modifies `processedMarks
      ensures Abs() == Step(old(Abs()), MarkProcessed)
    {
      processedMarks := processedMarks + processed.Keys;
    }

    method MarkChildLists()
      modifies `childMarks
      ensures Abs() == Step(old(Abs()), MarkChildren)
    {
      childMarks := childMarks + children.Keys;
    }

    method MarkCoroutineInfos()
      modifies `infoMarks
      ensures Abs() == Step(old(Abs()), MarkInfos)
    {
      infoMarks := infoMarks + infos.Keys;
    }

    method MarkGcEvents()
      modifies `gcUntil
      ensures Abs() == Step(old(Abs()), MarkGc)
    {
      gcUntil := |gc|;
    }

    /** `mark_for_clean` with no other thread between its parts. */
    method MarkForClean()
      modifies `processedMarks, `childMarks, `infoMarks, `gcUntil
      ensures Abs() == Run(old(Abs()), [MarkProcessed, MarkChildren, MarkInfos, MarkGc])
    {
      hide Step, Run, Abs;
      RunFour(Abs(), MarkProcessed, MarkChildren, MarkInfos, MarkGc);
      MarkProcessedTraces();
      MarkChildLists();
      MarkCoroutineInfos();
      MarkGcEvents();
    }

    method CleanProcessedTraces()
      modifies `processed, `processedMarks
      ensures Abs() == Step(old(Abs()), CleanProcessed)
    {
      processed, processedMarks := processed - processedMarks, {};
    }

    method CleanChildLists()
      modifies `children, `childMarks
      ensures Abs() == Step(old(Abs()), CleanChildren)
    {
      children, childMarks := children - childMarks, {};
    }

    method CleanCoroutineInfos()
      modifies `infos, `infoMarks
      ensures Abs() == Step(old(Abs()), CleanInfos)
    {
      infos, infoMarks := infos - infoMarks, {};
    }

    /** `pop_front` of an empty list is undefined, so enough entries must be left. */
    method CleanGcEvents()
      requires Abs().gcUntil <= |Abs().gc|
      modifies `gc
      ensures Abs() == Step(old(Abs()), CleanGc)
    {
      gc := gc[gcUntil..];
    }

    /** `clean` with no other thread between its parts. */
    method Clean()
      requires Abs().gcUntil <= |Abs().gc|
      modifies `processed, `processedMarks, `children, `childMarks, `infos, `infoMarks, `gc
      ensures Abs() == Run(old(Abs()), [CleanProcessed, CleanChildren, CleanInfos, CleanGc])
    {
      hide Step, Run, Abs;
      RunFour(Abs(), CleanProcessed, CleanChildren, CleanInfos, CleanGc);
      GcStep(Abs(), CleanProcessed);
      CleanProcessedTraces();
      GcStep(Abs(), CleanChildren);
      CleanChildLists();
      GcStep(Abs(), CleanInfos);
      CleanCoroutineInfos();
      CleanGcEvents();
    }

    // ---------- whole runs ----------

    method Handle(e: Event)
      requires e.GcFinished? ==> Abs().gc != []
      requires e.CleanGc? ==> Abs().gcUntil <= |Abs().gc|
      modifies this
      ensures Abs() == Step(old(Abs()), e)
    {
      hide Step, Abs;
      match e {
        case Created(tid, id, start, resumed) => CoroutineCreated(tid, id, start, resumed);
        case Suspended(tid, id, usage, charged, began, stack) => CoroutineSuspended(tid, id, usage, charged, began,
          stack);
        case Resumed(tid, id, usage, resumed, ended) => CoroutineResumed(tid, id, usage, resumed, ended);
        case Completed(tid, id, usage, ended, charged) => CoroutineCompleted(tid, id, usage, ended, charged);
        case TraceStarted(tid, id, self, start, resumed, begun) =>
          var ok := TraceStart(tid, id, self, start, resumed, begun);
        case TraceEnded(tid, id, self, usage, charged, finished) => TraceEnd(tid, id, self, usage, charged, finished);
        case SampleProcessed(id, sample) => AddProcessedTrace(id, sample);
        case GcStarted(at) => GcStart(at);
        case GcFinished(at) => GcFinish(at);
        case MarkProcessed => MarkProcessedTraces();
        case MarkChildren => MarkChildLists();
        case MarkInfos => MarkCoroutineInfos();
        case MarkGc => MarkGcEvents();
        case CleanProcessed => CleanProcessedTraces();
        case CleanChildren => CleanChildLists();
        case CleanInfos => CleanCoroutineInfos();
        case CleanGc => CleanGcEvents();
      }
    }

    /** A profiler that handles any events is in the state of their run. */
    static method HandleAll(threshold: Time, es: seq<Event>) returns (p: Profiler)
      requires WellDefined(es)
      ensures fresh(p) && p.Abs() == Run(Init(threshold), es)
    {
      hide Step, Run, WellDefined;
      p := new Profiler(threshold);
      assert es[..0] == [];
      NothingRun(Init(threshold));
      for i := 0 to |es|
        invariant fresh(p) && p.Abs() == Run(Init(threshold), es[..i])
      {
        assert es[..i + 1] == es[..i] + [es[i]];
        RunOneMore(Init(threshold), es[..i], es[i]);
        DefinedSoFar(threshold, es, i);
        p.Handle(es[i]);
      }
      assert es[..|es|] == es;
    }
  }

  lemma {:induction false} NothingProcessed(s: State, resolve: Instruction -> StackFrame)
    ensures Run(s, SampleEvents([], resolve)) == s
  {
  }

  lemma {:induction false} ProcessedStep(s: State, e: Event)
    requires e.SampleProcessed?
    ensures Step(s, e).processed == WithSample(s.processed, e.id, e.sample)
  {
  }

  /** The next event of a well-defined run finds what it needs. */
  lemma {:induction false} DefinedSoFar(threshold: Time, es: seq<Event>, i: nat)
    requires WellDefined(es) && i < |es|
    ensures var s, e := Run(Init(threshold), es[..i]), es[i];
      (e.GcFinished? ==> s.gc != []) && (e.CleanGc? ==> s.gcUntil <= |s.gc|)
  {
    hide Run;
    if i + 1 == |es| {
      NextIsDefined(threshold, es);
    } else {
      assert es[..|es| - 1][..i] == es[..i];
      DefinedSoFar(threshold, es[..|es| - 1], i);
    }
  }
}
