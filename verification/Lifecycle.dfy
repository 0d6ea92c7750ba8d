/**
 What the callbacks of `Profiler` and the cleaner of `TraceStorage` do to the
 storage, as one step function over events. Events come from any number of
 threads; each carries the thread, the clock readings and the thread counters
 that the callback takes, in the order in which it takes them.
 */
module Lifecycle {
  import opened Basics
  import opened Records

  /** The id with which the instrumentation reports a function that is not a suspension. */
  const PLAIN_FUNCTION: Id := -2

  datatype Timeval = Timeval(sec: int, usec: int)

  datatype Rusage = Rusage(stime: Timeval, utime: Timeval, nvcsw: int, nivcsw: int)

  const NO_RUSAGE := Rusage(Timeval(0, 0), Timeval(0, 0), 0, 0)
  const NO_USAGE := Usage(0, 0, 0, 0)

  /** A written trace file: its number, the trace, and the storage it was made from. */
  datatype TraceFile = TraceFile(number: nat, trace: TraceInfo, content: Snapshot)

  datatype State = State(
    threshold: Time,
    infos: map<Id, CoroutineInfo>,
    infoMarks: set<Id>,
    children: map<Id, seq<Id>>,
    childMarks: set<Id>,
    processed: map<Id, seq<Sample>>,
    processedMarks: set<Id>,
    ongoing: map<Id, TraceInfo>,
    gc: seq<nat>,               // the shared list: references into `gcStore`
    gcStore: seq<GcEvent>,
    gcUntil: nat,
    current: map<Tid, Id>,      // thread-local `current_coroutine_id`
    rusage: map<Tid, Rusage>,   // thread-local `current_rusage_`
    traces: map<Tid, int>,      // `current_traces` of the thread
    outputCounter: nat,
    files: seq<TraceFile>)

  datatype Event =
    | Created(tid: Tid, id: Id, start: Time, resumed: Time)
    | Suspended(tid: Tid, id: Id, usage: Rusage, charged: Time, began: Time, stack: Option<seq<StackFrame>>)
    | Resumed(tid: Tid, id: Id, usage: Rusage, resumed: Time, ended: Time)
    | Completed(tid: Tid, id: Id, usage: Rusage, ended: Time, charged: Time)
    | TraceStarted(tid: Tid, id: Id, self: Id, start: Time, resumed: Time, begun: Time)
    | TraceEnded(tid: Tid, id: Id, self: Id, usage: Rusage, charged: Time, finished: Time)
    | SampleProcessed(id: Id, sample: Sample)
    | GcStarted(at: Time)
    | GcFinished(at: Time)
    | MarkProcessed | MarkChildren | MarkInfos | MarkGc
    | CleanProcessed | CleanChildren | CleanInfos | CleanGc

  function Init(threshold: Time): State {
    State(threshold, map[], {}, map[], {}, map[], {}, map[], [], [], 0, map[], map[], map[], 0, [])
  }

  function CurrentOf(s: State, tid: Tid): Id {
    if tid in s.current then s.current[tid] else NOT_FOUND
  }

  function RusageOf(rusage: map<Tid, Rusage>, tid: Tid): Rusage {
    if tid in rusage then rusage[tid] else NO_RUSAGE
  }

  function CountOf(traces: map<Tid, int>, tid: Tid): int {
    if tid in traces then traces[tid] else 0
  }

  /** `calculate_elapsed_time`, in microseconds. */
  function Elapsed(end: Timeval, begin: Timeval): int {
    1_000_000 * (end.sec - begin.sec) + (end.usec - begin.usec)
  }

  function Difference(now: Rusage, last: Rusage): Usage {
    Usage(Elapsed(now.utime, last.utime), Elapsed(now.stime, last.stime),
          now.nvcsw - last.nvcsw, now.nivcsw - last.nivcsw)
  }

  function Plus(a: Usage, b: Usage): Usage {
    Usage(a.user + b.user, a.system + b.system, a.voluntary + b.voluntary, a.involuntary + b.involuntary)
  }

  // ---------- coroutine infos ----------

  function NewInfo(start: Time, resumed: Time): CoroutineInfo {
    CoroutineInfo(start, 0, resumed, 0, NO_USAGE, [])
  }

  /** `createCoroutineInfo`. */
  function WithInfo(infos: map<Id, CoroutineInfo>, id: Id, start: Time, resumed: Time): map<Id, CoroutineInfo> {
    if id in infos then infos else infos[id := NewInfo(start, resumed)]
  }

  /** `calculate_resource_usage`: charges the time since the last resume and what the thread spent. */
  function Charge(info: CoroutineInfo, at: Time, spent: Usage): CoroutineInfo {
    info.(wall := info.wall + (at - info.lastResume), usage := Plus(info.usage, spent))
  }

  /** The index of the first suspension that has not ended, or the length. */
  function FirstOpen(ss: seq<Suspension>): (k: nat)
    ensures k <= |ss|
    ensures k < |ss| ==> ss[k].end == 0
    ensures forall i :: 0 <= i < k ==> ss[i].end != 0
  {
    if ss == [] then 0
    else
      var k := FirstOpen(ss[..|ss| - 1]);
      if k < |ss| - 1 || ss[|ss| - 1].end == 0 then k else |ss|
  }

  /** Ends the suspension that `getLastSuspensionInfo` finds. */
  function EndFirstOpen(ss: seq<Suspension>, ended: Time): seq<Suspension> {
    var k := FirstOpen(ss);
    if k < |ss| then ss[k := ss[k].(end := ended)] else ss
  }

  function Suspend(info: CoroutineInfo, charged: Time, spent: Usage, began: Time,
                   stack: Option<seq<StackFrame>>): CoroutineInfo {
    var i1 := if info.lastResume > 0 then Charge(info, charged, spent).(lastResume := 0) else info;
    if stack.None? then i1 else i1.(suspensions := i1.suspensions + [Suspension(began, 0, stack.value)])
  }

  function Resume(info: CoroutineInfo, resumed: Time, ended: Time): CoroutineInfo {
    info.(lastResume := resumed, suspensions := EndFirstOpen(info.suspensions, ended))
  }

  function Complete(info: CoroutineInfo, ended: Time, charged: Time, spent: Usage): CoroutineInfo {
    Charge(info.(end := ended), charged, spent)
  }

  /** What the thread of the event spent since its counters were last read. */
  function Spent(s: State, tid: Tid, usage: Rusage): Usage {
    Difference(usage, RusageOf(s.rusage, tid))
  }

  /** The coroutine a trace event is about. */
  function Traced(id: Id, self: Id): Id {
    if id == PLAIN_FUNCTION then self else id
  }

  function InfosAfter(s: State, e: Event): map<Id, CoroutineInfo> {
    match e
    case Created(_, id, start, resumed) => WithInfo(s.infos, id, start, resumed)
    case TraceStarted(_, id, self, start, resumed, _) =>
      if id == PLAIN_FUNCTION then WithInfo(s.infos, self, start, resumed) else s.infos
    case Suspended(tid, id, usage, charged, began, stack) =>
      if id !in s.infos then s.infos else
      s.infos[id := Suspend(s.infos[id], charged, Spent(s, tid, usage), began, stack)]
    case Resumed(_, id, _, resumed, ended) =>
      if id !in s.infos then s.infos else s.infos[id := Resume(s.infos[id], resumed, ended)]
    case Completed(tid, id, usage, ended, charged) =>
      if id !in s.infos then s.infos else s.infos[id := Complete(s.infos[id], ended, charged, Spent(s, tid, usage))]
    case TraceEnded(tid, id, self, usage, charged, _) =>
      var c := Traced(id, self);
      if c !in s.infos then s.infos else s.infos[c := Charge(s.infos[c], charged, Spent(s, tid, usage))]
    case CleanInfos => s.infos - s.infoMarks
    case _ => s.infos
  }

  function InfoMarksAfter(s: State, e: Event): set<Id> {
    match e
    case MarkInfos => s.infoMarks + s.infos.Keys
    case CleanInfos => {}
    case _ => s.infoMarks
  }

  // ---------- threads ----------

  /** The thread counters are read by a resume and by every charge. */
  function RusageAfter(s: State, e: Event): map<Tid, Rusage> {
    match e
    case Suspended(tid, id, usage, _, _, _) =>
      if id in s.infos && s.infos[id].lastResume > 0 then s.rusage[tid := usage] else s.rusage
    case Resumed(tid, id, usage, _, _) => if id in s.infos then s.rusage[tid := usage] else s.rusage
    case Completed(tid, id, usage, _, _) => if id in s.infos then s.rusage[tid := usage] else s.rusage
    case TraceEnded(tid, id, self, usage, _, _) =>
      if Traced(id, self) in s.infos then s.rusage[tid := usage] else s.rusage
    case _ => s.rusage
  }

  function CurrentAfter(s: State, e: Event): map<Tid, Id> {
    match e
    case Suspended(tid, _, _, _, _, _) => s.current[tid := NOT_FOUND]
    case Resumed(tid, id, _, _, _) => s.current[tid := id]
    case Completed(tid, _, _, _, _) => s.current[tid := NOT_FOUND]
    case _ => s.current
  }

  function TracesAfter(s: State, e: Event): map<Tid, int> {
    match e
    case TraceStarted(tid, _, _, _, _, _) => s.traces[tid := CountOf(s.traces, tid) + 1]
    case TraceEnded(tid, _, _, _, _, _) => s.traces[tid := CountOf(s.traces, tid) - 1]
    case _ => s.traces
  }

  // ---------- the child map ----------

  /** `createChildCoroutineStorage`. */
  function WithList(children: map<Id, seq<Id>>, id: Id): map<Id, seq<Id>> {
    if id in children then children else children[id := []]
  }

  function ChildrenAfter(s: State, e: Event): map<Id, seq<Id>> {
    match e
    case Created(tid, id, _, _) =>
      var parent := CurrentOf(s, tid);
      if parent in s.children then WithList(s.children[parent := s.children[parent] + [id]], id) else s.children
    case TraceStarted(_, id, self, _, _, _) => WithList(s.children, Traced(id, self))
    case CleanChildren => s.children - s.childMarks
    case _ => s.children
  }

  function ChildMarksAfter(s: State, e: Event): set<Id> {
    match e
    case MarkChildren => s.childMarks + s.children.Keys
    case CleanChildren => {}
    case _ => s.childMarks
  }

  // ---------- traces ----------

  /** The entry found under a key: looking up a missing one creates it, empty. */
  function OngoingAt(ongoing: map<Id, TraceInfo>, id: Id): TraceInfo {
    if id in ongoing then ongoing[id] else TraceInfo(0, 0, 0)
  }

  /**
   A start for a coroutine that is traced already fails and changes nothing here. An end
   removes the entry under the id that the entry found holds.
   */
  function OngoingAfter(s: State, e: Event): map<Id, TraceInfo> {
    match e
    case TraceStarted(_, id, self, _, _, begun) =>
      var c := Traced(id, self);
      if c in s.ongoing then s.ongoing else s.ongoing[c := TraceInfo(c, begun, 0)]
    case TraceEnded(_, id, self, _, _, _) =>
      var c := Traced(id, self);
      if c !in s.infos then s.ongoing else s.ongoing[c := OngoingAt(s.ongoing, c)] - {OngoingAt(s.ongoing,
        c).coroutineId}
    case _ => s.ongoing
  }

  /** The trace that an event finishes and that is long enough to be written. */
  function Written(s: State, e: Event): Option<TraceInfo> {
    match e
    case TraceEnded(_, id, self, _, _, finished) =>
      var c := Traced(id, self);
      if c in s.infos && finished - OngoingAt(s.ongoing, c).start > s.threshold
      then Some(OngoingAt(s.ongoing, c).(end := finished)) else None
    case _ => None
  }

  // ---------- samples and garbage collections ----------

  /** `addProcessedTrace`. */
  function WithSample(processed: map<Id, seq<Sample>>, id: Id, sample: Sample): map<Id, seq<Sample>> {
    processed[id := (if id in processed then processed[id] else []) + [sample]]
  }

  function ProcessedAfter(s: State, e: Event): map<Id, seq<Sample>> {
    match e
    case SampleProcessed(id, sample) => WithSample(s.processed, id, sample)
    case CleanProcessed => s.processed - s.processedMarks
    case _ => s.processed
  }

  function ProcessedMarksAfter(s: State, e: Event): set<Id> {
    match e
    case MarkProcessed => s.processedMarks + s.processed.Keys
    case CleanProcessed => {}
    case _ => s.processedMarks
  }

  /** A finish takes the last event but removes the first list entry, then lists the event again. */
  function GcAfter(s: State, e: Event): seq<nat> {
    match e
    case GcStarted(_) => s.gc + [|s.gcStore|]
    case GcFinished(_) => if s.gc == [] then [] else s.gc[1..] + [s.gc[|s.gc| - 1]]
    case CleanGc => s.gc[if s.gcUntil <= |s.gc| then s.gcUntil else |s.gc|..]
    case _ => s.gc
  }

  function GcStoreAfter(s: State, e: Event): seq<GcEvent> {
    match e
    case GcStarted(at) => s.gcStore + [GcEvent(at, 0)]
    case GcFinished(at) =>
      if s.gc == [] || s.gc[|s.gc| - 1] >= |s.gcStore| then s.gcStore else
      var last := s.gc[|s.gc| - 1];
      s.gcStore[last := s.gcStore[last].(end := at)]
    case _ => s.gcStore
  }

  function GcAt(store: seq<GcEvent>, k: nat): GcEvent {
    if k < |store| then store[k] else GcEvent(0, 0)
  }

  function GcList(gc: seq<nat>, store: seq<GcEvent>): (events: seq<GcEvent>)
    ensures |events| == |gc| && forall i :: 0 <= i < |events| ==> events[i] == GcAt(store, gc[i])
  {
    seq(|gc|, i requires 0 <= i < |gc| => GcAt(store, gc[i]))
  }

  // ---------- the whole step ----------

  /** What an export at event `e` reads: the storage with the charge of `traceEnd` made. */
  function Exported(s: State, e: Event): Snapshot {
    Snapshot(InfosAfter(s, e), s.children, s.processed, GcList(s.gc, s.gcStore))
  }

  function FilesAfter(s: State, e: Event): seq<TraceFile> {
    var w := Written(s, e);
    if w.None? then s.files else s.files + [TraceFile(s.outputCounter, w.value, Exported(s, e))]
  }

  function Step(s: State, e: Event): State {
    State(s.threshold,
          InfosAfter(s, e), InfoMarksAfter(s, e),
          ChildrenAfter(s, e), ChildMarksAfter(s, e),
          ProcessedAfter(s, e), ProcessedMarksAfter(s, e),
          OngoingAfter(s, e),
          GcAfter(s, e), GcStoreAfter(s, e), if e.MarkGc? then |s.gc| else s.gcUntil,
          CurrentAfter(s, e), RusageAfter(s, e), TracesAfter(s, e),
          if Written(s, e).Some? then s.outputCounter + 1 else s.outputCounter,
          FilesAfter(s, e))
  }

  /** The state after a run. */
  function Run(s: State, es: seq<Event>): State {
    if es == [] then s else Step(Run(s, es[..|es| - 1]), es[|es| - 1])
  }
}
