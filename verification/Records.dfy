/**
 The records the tracer keeps about coroutines, traces and garbage collections,
 and the part of the storage that an export reads.
 */
module Records {

  /** A `jlong` coroutine id. */
  type Id = int

  /** No coroutine. */
  const NOT_FOUND: Id := -1

  /** A `TraceTime`: nanoseconds of the steady clock, or 0 for "not yet". */
  type Time = int

  /** What a sample records for one frame. */
  type Instruction = int

  datatype StackFrame = StackFrame(base: string, frame: string)

  datatype Suspension = Suspension(start: Time, end: Time, frames: seq<StackFrame>)

  /** CPU time in microseconds and context switches. */
  datatype Usage = Usage(user: int, system: int, voluntary: int, involuntary: int)

  datatype CoroutineInfo = CoroutineInfo(
    start: Time,
    end: Time,
    lastResume: Time,
    wall: Time,
    usage: Usage,
    suspensions: seq<Suspension>)

  datatype TraceInfo = TraceInfo(coroutineId: Id, start: Time, end: Time)

  /** A `ProcessedTraceRecord`, without the thread name, which no export reads. */
  datatype Sample = Sample(time: Time, frames: seq<StackFrame>)

  datatype GcEvent = GcEvent(start: Time, end: Time)

  /** What `write_perfetto` reads from the storage. */
  datatype Snapshot = Snapshot(
    infos: map<Id, CoroutineInfo>,
    children: map<Id, seq<Id>>,
    processed: map<Id, seq<Sample>>,
    gcEvents: seq<GcEvent>)

  /** The processed samples of a coroutine. */
  function SamplesOf(processed: map<Id, seq<Sample>>, id: Id): seq<Sample> {
    if id in processed then processed[id] else []
  }
}
