/**
 From the raw queue to the samples of each coroutine: what `processTraces` groups,
 and runs of it with new records and the cleaning of processed samples.
 */
module Pipeline {
  import opened Basics
  import opened Records
  import Lifecycle

  /** A `RawCallTraceRecord`. */
  datatype RawRecord = RawRecord(time: Time, coroutineId: Id, instructions: seq<Instruction>)

  /** `resolve` stands for `processProfilerMethodInfo`. */
  function Frames(instructions: seq<Instruction>, resolve: Instruction -> StackFrame): (frames: seq<StackFrame>)
    ensures |frames| == |instructions|
    ensures forall i :: 0 <= i < |frames| ==> frames[i] == resolve(instructions[i])
  {
    seq(|instructions|, i requires 0 <= i < |instructions| => resolve(instructions[i]))
  }

  function Processed(r: RawRecord, resolve: Instruction -> StackFrame): Sample {
    Sample(r.time, Frames(r.instructions, resolve))
  }

  /** The samples of one coroutine among raw records, in order. */
  function SamplesAmong(raw: seq<RawRecord>, id: Id, resolve: Instruction -> StackFrame): seq<Sample> {
    if raw == [] then [] else
    var last := raw[|raw| - 1];
    SamplesAmong(raw[..|raw| - 1], id, resolve) + (if last.coroutineId == id then [Processed(last, resolve)] else [])
  }

  lemma {:induction false} SamplesConcat(a: seq<RawRecord>, b: seq<RawRecord>, id: Id,
                                         resolve: Instruction -> StackFrame)
    ensures SamplesAmong(a + b, id, resolve) == SamplesAmong(a, id, resolve) + SamplesAmong(b, id, resolve)
  {
    if b == [] {
      assert a + b == a;
    } else {
      assert (a + b)[..|a + b| - 1] == a + b[..|b| - 1];
      SamplesConcat(a, b[..|b| - 1], id, resolve);
    }
  }

  /** The list of one coroutine grows by its records, in order, and is created if there are any. */
  ghost predicate GroupedFor(before: map<Id, seq<Sample>>, raw: seq<RawRecord>, resolve: Instruction -> StackFrame,
                             after: map<Id, seq<Sample>>, id: Id)
  {
    && SamplesOf(after, id) == SamplesOf(before, id) + SamplesAmong(raw, id, resolve)
    && (id in after <==> id in before || SamplesAmong(raw, id, resolve) != [])
  }

  ghost predicate Grouped(before: map<Id, seq<Sample>>, raw: seq<RawRecord>, resolve: Instruction -> StackFrame,
                          after: map<Id, seq<Sample>>)
  {
    forall id :: GroupedFor(before, raw, resolve, after, id)
  }

  lemma {:induction false} NothingGrouped(before: map<Id, seq<Sample>>, resolve: Instruction -> StackFrame)
    ensures Grouped(before, [], resolve, before)
  {
  }

  lemma {:induction false} GroupedOneMore(before: map<Id, seq<Sample>>, raw: seq<RawRecord>, r: RawRecord,
                                          resolve: Instruction -> StackFrame, mid: map<Id, seq<Sample>>)
    requires Grouped(before, raw, resolve, mid)
    ensures Grouped(before, raw + [r], resolve, Lifecycle.WithSample(mid, r.coroutineId, Processed(r, resolve)))
  {
    hide Processed;
    var after := Lifecycle.WithSample(mid, r.coroutineId, Processed(r, resolve));
    assert (raw + [r])[..|raw|] == raw;
    forall id ensures GroupedFor(before, raw + [r], resolve, after, id) {
      assert GroupedFor(before, raw, resolve, mid, id);
    }
  }

  /** What processing the records does, as events. */
  function SampleEvents(raw: seq<RawRecord>, resolve: Instruction -> StackFrame): (es: seq<Lifecycle.Event>)
    ensures |es| == |raw|
  {
    seq(|raw|, i requires 0 <= i < |raw| => Lifecycle.SampleProcessed(raw[i].coroutineId, Processed(raw[i], resolve)))
  }

  lemma {:induction false} SampleEventsOneMore(raw: seq<RawRecord>, r: RawRecord, resolve: Instruction -> StackFrame)
    ensures SampleEvents(raw + [r], resolve)
         == SampleEvents(raw, resolve) + [Lifecycle.SampleProcessed(r.coroutineId, Processed(r, resolve))]
  {
  }

  // ---------- whole runs ----------

  /** Each is one locked call: `processTraces` pops a record and files it later. */
  datatype Op =
    | Add(record: RawRecord)
    | Pop
    | File
    | Clean(ids: set<Id>)

  /** `hand`: the record that has been popped and not yet filed. */
  datatype Store = Store(raw: seq<RawRecord>, hand: Option<RawRecord>, processed: map<Id, seq<Sample>>)

  /** A pop with a record in hand, or of an empty queue, and a filing with none do nothing. */
  function Apply(s: Store, op: Op, resolve: Instruction -> StackFrame): Store {
    match op
    case Add(r) => s.(raw := s.raw + [r])
    case Pop => if s.hand.Some? || s.raw == [] then s else s.(raw := s.raw[1..], hand := Some(s.raw[0]))
    case File =>
      if s.hand.None? then s else
      s.(hand := None,
        processed := Lifecycle.WithSample(s.processed, s.hand.value.coroutineId, Processed(s.hand.value, resolve)))
    case Clean(ids) => s.(processed := s.processed - ids)
  }

  function StoreAfter(ops: seq<Op>, resolve: Instruction -> StackFrame): Store {
    if ops == [] then Store([], None, map[]) else Apply(StoreAfter(ops[..|ops| - 1], resolve), ops[|ops| - 1], resolve)
  }

  function Added(ops: seq<Op>): seq<RawRecord> {
    if ops == [] then [] else
    Added(ops[..|ops| - 1]) + (if ops[|ops| - 1].Add? then [ops[|ops| - 1].record] else [])
  }

  /** The records that are not filed yet. */
  function Unfiled(s: Store): seq<RawRecord> {
    (if s.hand.Some? then [s.hand.value] else []) + s.raw
  }

  /** How many samples of a coroutine the cleaner has dropped. */
  function Dropped(ops: seq<Op>, id: Id, resolve: Instruction -> StackFrame): nat {
    if ops == [] then 0 else
    var front, op := ops[..|ops| - 1], ops[|ops| - 1];
    Dropped(front, id, resolve)
    + (if op.Clean? && id in op.ids then |SamplesOf(StoreAfter(front, resolve).processed, id)| else 0)
  }

  /**
   Over every run, with cleans also between the records of one drain, no sample is lost,
   duplicated or reordered: a coroutine's processed samples followed by those not filed
   yet are all that were added for it, less the oldest ones, which the cleaner dropped.
   */
  lemma {:induction false} NothingLost(ops: seq<Op>, resolve: Instruction -> StackFrame, id: Id)
    ensures Dropped(ops, id, resolve) <= |SamplesAmong(Added(ops), id, resolve)|
    ensures var s := StoreAfter(ops, resolve);
      SamplesOf(s.processed, id) + SamplesAmong(Unfiled(s), id, resolve)
      == SamplesAmong(Added(ops), id, resolve)[Dropped(ops, id, resolve)..]
  {
    hide SamplesAmong, SamplesOf, Apply, Unfiled;
    if ops != [] {
      var front, op := ops[..|ops| - 1], ops[|ops| - 1];
      NothingLost(front, resolve, id);
      LastStep(StoreAfter(front, resolve), op, resolve, id, Added(front), Dropped(front, id, resolve));
    } else {
      NothingYet(id, resolve);
    }
  }

  lemma {:induction false} NothingYet(id: Id, resolve: Instruction -> StackFrame)
    ensures var s := Store([], None, map[]);
      SamplesOf(s.processed, id) + SamplesAmong(Unfiled(s), id, resolve) == [] == SamplesAmong([], id, resolve)[0..]
  {
  }

  lemma {:induction false} LastStep(s: Store, op: Op, resolve: Instruction -> StackFrame, id: Id,
                                    added: seq<RawRecord>, dropped: nat)
    requires dropped <= |SamplesAmong(added, id, resolve)|
    requires SamplesOf(s.processed, id) + SamplesAmong(Unfiled(s), id, resolve)
          == SamplesAmong(added, id, resolve)[dropped..]
    ensures var t, all :=
      Apply(s, op, resolve), SamplesAmong(added + (if op.Add? then [op.record] else []), id, resolve);
      var d := dropped + (if op.Clean? && id in op.ids then |SamplesOf(s.processed, id)| else 0);
      d <= |all| && SamplesOf(t.processed, id) + SamplesAmong(Unfiled(t), id, resolve) == all[d..]
  {
    hide SamplesAmong, SamplesOf;
    var kept, raw, all :=
      SamplesOf(s.processed, id), SamplesAmong(Unfiled(s), id, resolve), SamplesAmong(added, id, resolve);
    var t := Apply(s, op, resolve);
    assert added + [] == added;
    match op {
      case Add(r) =>
        SamplesConcat(added, [r], id, resolve);
        SamplesConcat(Unfiled(s), [r], id, resolve);
        assert Unfiled(t) == Unfiled(s) + [r];
        AppendMore(kept, raw, SamplesAmong([r], id, resolve), all, dropped);
      case Pop =>
        assert Unfiled(t) == Unfiled(s);
      case File =>
        if s.hand.Some? { FiledMeans(s.processed, s.hand.value, s.raw, id, resolve); }
        assert Unfiled(t) == s.raw;
      case Clean(ids) =>
        CleanedMeans(s.processed, ids, id);
        if id in ids { DropKept(kept, raw, all, dropped); }
    }
  }

  /** Filing a record moves its sample from the records that are not filed to the processed ones. */
  lemma {:induction false} FiledMeans(processed: map<Id, seq<Sample>>, r: RawRecord, raw: seq<RawRecord>,
                                      id: Id, resolve: Instruction -> StackFrame)
    ensures SamplesOf(Lifecycle.WithSample(processed, r.coroutineId, Processed(r, resolve)), id)
            + SamplesAmong(raw, id, resolve)
         == SamplesOf(processed, id) + SamplesAmong([r] + raw, id, resolve)
  {
    hide Processed;
    SamplesConcat([r], raw, id, resolve);
    assert [r][..0] == [];
  }

  lemma {:induction false} AppendMore(kept: seq<Sample>, raw: seq<Sample>, more: seq<Sample>, all: seq<Sample>, d: nat)
    requires d <= |all| && kept + raw == all[d..]
    ensures kept + (raw + more) == (all + more)[d..]
  {
    assert kept + (raw + more) == kept + raw + more;
    assert (all + more)[d..] == all[d..] + more;
  }

  lemma {:induction false} DropKept(kept: seq<Sample>, raw: seq<Sample>, all: seq<Sample>, d: nat)
    requires d <= |all| && kept + raw == all[d..]
    ensures d + |kept| <= |all| && [] + raw == all[d + |kept|..]
  {
    assert (kept + raw)[|kept|..] == raw;
    assert |kept + raw| == |all| - d;
    assert all[d..][|kept|..] == all[d + |kept|..];
  }

  lemma {:induction false} CleanedMeans(processed: map<Id, seq<Sample>>, ids: set<Id>, id: Id)
    ensures SamplesOf(processed - ids, id) == if id in ids then [] else SamplesOf(processed, id)
  {
  }

  ghost predicate SortedByTime(ss: seq<Sample>) {
    forall i, j :: 0 <= i < j < |ss| ==> ss[i].time <= ss[j].time
  }

  ghost predicate RecordsSorted(raw: seq<RawRecord>) {
    forall i, j :: 0 <= i < j < |raw| ==> raw[i].time <= raw[j].time
  }

  lemma {:induction false} AmongSorted(raw: seq<RawRecord>, id: Id, resolve: Instruction -> StackFrame)
    requires RecordsSorted(raw)
    ensures SortedByTime(SamplesAmong(raw, id, resolve))
    ensures forall k :: 0 <= k < |SamplesAmong(raw, id, resolve)| ==>
              |raw| > 0 && SamplesAmong(raw, id, resolve)[k].time <= raw[|raw| - 1].time
  {
    if raw != [] { AmongSorted(raw[..|raw| - 1], id, resolve); }
  }

  /** If records are added in the order of their times, every coroutine's samples stay in that order. */
  lemma {:induction false} SamplesStaySorted(ops: seq<Op>, resolve: Instruction -> StackFrame, id: Id)
    requires RecordsSorted(Added(ops))
    ensures SortedByTime(SamplesOf(StoreAfter(ops, resolve).processed, id))
  {
    NothingLost(ops, resolve, id);
    AmongSorted(Added(ops), id, resolve);
    var all, d := SamplesAmong(Added(ops), id, resolve), Dropped(ops, id, resolve);
    var mine := SamplesOf(StoreAfter(ops, resolve).processed, id);
    assert mine == all[d..][..|mine|];
  }

  // ---------- what a filed sample holds ----------

  /** The records of one coroutine, in order. */
  function RecordsOf(raw: seq<RawRecord>, id: Id): (r: seq<RawRecord>)
    ensures forall k :: 0 <= k < |r| ==> r[k].coroutineId == id
  {
    if raw == [] then [] else
    RecordsOf(raw[..|raw| - 1], id) + (if raw[|raw| - 1].coroutineId == id then [raw[|raw| - 1]] else [])
  }

  /** The sample has the time of the record, and the frame of every instruction. */
  predicate Resolves(sample: Sample, r: RawRecord, resolve: Instruction -> StackFrame) {
    && sample.time == r.time
    && |sample.frames| == |r.instructions|
    && forall i :: 0 <= i < |r.instructions| ==> sample.frames[i] == resolve(r.instructions[i])
  }

  lemma {:induction false} AmongMeans(raw: seq<RawRecord>, id: Id, resolve: Instruction -> StackFrame)
    ensures |SamplesAmong(raw, id, resolve)| == |RecordsOf(raw, id)|
    ensures forall k :: 0 <= k < |RecordsOf(raw, id)| ==>
              Resolves(SamplesAmong(raw, id, resolve)[k], RecordsOf(raw, id)[k], resolve)
  {
    hide Resolves, Processed;
    if raw != [] {
      AmongMeans(raw[..|raw| - 1], id, resolve);
      ProcessedMeans(raw[|raw| - 1], resolve);
    }
  }

  lemma {:induction false} ProcessedMeans(r: RawRecord, resolve: Instruction -> StackFrame)
    ensures Resolves(Processed(r, resolve), r, resolve)
  {
  }

  /**
   Over every run: the `k`-th sample of a coroutine is that of the `k`-th record added for it
   after those that were dropped, with its time and the frames of its instructions.
   */
  lemma {:induction false} FiledSampleMeans(ops: seq<Op>, resolve: Instruction -> StackFrame, id: Id, k: nat)
    requires k < |SamplesOf(StoreAfter(ops, resolve).processed, id)|
    ensures var records, n := RecordsOf(Added(ops), id), Dropped(ops, id, resolve) + k;
      n < |records| && Resolves(SamplesOf(StoreAfter(ops, resolve).processed, id)[k], records[n], resolve)
  {
    hide StoreAfter, Added, Dropped, SamplesAmong, RecordsOf, Resolves, SamplesOf;
    NothingLost(ops, resolve, id);
    AmongMeans(Added(ops), id, resolve);
    var mine, s := SamplesOf(StoreAfter(ops, resolve).processed, id), StoreAfter(ops, resolve);
    var all, d := SamplesAmong(Added(ops), id, resolve), Dropped(ops, id, resolve);
    assert (mine + SamplesAmong(Unfiled(s), id, resolve))[k] == mine[k];
    assert all[d..][k] == all[d + k];
  }
}
