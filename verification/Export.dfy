/**
 The packet stream of `write_perfetto` as a function of the trace and the
 storage, and what holds of the whole stream.
 */
module Export {
  import opened Basics
  import opened Records
  import opened Packets
  import opened Traversal
  import opened VisitOrder
  import Decimal

  const NO_EVENT_NAME := ""

  function CoroutineName(id: Id): string {
    "coroutine#" + Decimal.ToString(id)
  }

  function FrameNames(frames: seq<StackFrame>): (names: seq<string>)
    ensures |names| == |frames|
  {
    seq(|frames|, i requires 0 <= i < |frames| => frames[i].base + ":" + frames[i].frame)
  }

  /** C++ integer division, which truncates toward zero. */
  function TruncatedDivision(a: int, b: int): int
    requires b > 0
  {
    if a >= 0 then a / b else -(-a / b)
  }

  /** The switch counts are annotated only when they are zero. */
  function Annotations(info: CoroutineInfo): seq<Annotation> {
    [Annotation("Wall CPU time ms", TruncatedDivision(info.wall, 1_000_000)),
     Annotation("User CPU time ms", TruncatedDivision(info.usage.user, 1_000)),
     Annotation("System CPU time ms", TruncatedDivision(info.usage.system, 1_000))]
    + (if info.usage.voluntary == 0 then [Annotation("Voluntary switches", info.usage.voluntary)] else [])
    + (if info.usage.involuntary == 0 then [Annotation("Involuntary switches", info.usage.involuntary)] else [])
  }

  /** A track with one slice. */
  function SliceTrack(sid: nat, track: nat, name: string, begin: Time, beginName: string, flowIds: seq<Id>,
                      annotations: seq<Annotation>, end: Time, callstack: seq<string>): seq<Packet>
  {
    [Descriptor(sid, name, track),
     Event(sid, begin, SliceBegin, beginName, track, flowIds, annotations, []),
     Event(sid, end, SliceEnd, NO_EVENT_NAME, track, [], [], callstack)]
  }

  /** Where a suspension's slice ends: at the trace's end while the suspension is open. */
  function SuspensionEnd(s: Suspension, traceEnd: Time): Time {
    if s.end != 0 then s.end else traceEnd
  }

  function SuspensionPackets(sid: nat, s: Suspension, name: string, traceEnd: Time, track: nat): seq<Packet> {
    SliceTrack(sid, track, name, s.start, "Suspension", [], [], SuspensionEnd(s, traceEnd), FrameNames(s.frames))
  }

  function SuspensionsPackets(sid: nat, ss: seq<Suspension>, name: string, traceEnd: Time, counter: nat): seq<Packet> {
    if ss == [] then [] else
    SuspensionsPackets(sid, ss[..|ss| - 1], name, traceEnd, counter)
    + SuspensionPackets(sid, ss[|ss| - 1], name, traceEnd, counter + |ss|)
  }

  /** A sample is shown if it has frames; its frames only if it lies in the trace. */
  function SamplePackets(sid: nat, sample: Sample, trace: TraceInfo, track: nat): seq<Packet> {
    if sample.frames == [] then [] else
    [Event(sid, sample.time, Instant, "Stack trace", track, [], [],
           if trace.start <= sample.time <= trace.end then FrameNames(sample.frames) else [])]
  }

  function SamplesPackets(sid: nat, samples: seq<Sample>, trace: TraceInfo, track: nat): seq<Packet> {
    if samples == [] then [] else
    SamplesPackets(sid, samples[..|samples| - 1], trace, track)
      + SamplePackets(sid, samples[|samples| - 1], trace, track)
  }

  /** The traced coroutine's slice spans the trace, another one's spans the coroutine. */
  function SliceBounds(trace: TraceInfo, info: CoroutineInfo, parent: Id): (Time, Time) {
    if parent == 0 then (trace.start, trace.end) else (info.start, info.end)
  }

  function OwnSlice(sid: nat, s: Snapshot, trace: TraceInfo, id: Id, parent: Id, track: nat): seq<Packet>
    requires id in s.infos
  {
    var info := s.infos[id];
    var bounds := SliceBounds(trace, info, parent);
    SliceTrack(sid, track, CoroutineName(id), bounds.0, CoroutineName(id),
               if parent == 0 then [id] else [parent, id], Annotations(info), bounds.1, [])
  }

  function SamplesTrack(sid: nat, s: Snapshot, trace: TraceInfo, id: Id, track: nat): seq<Packet> {
    [Descriptor(sid, "Samples", track)] + SamplesPackets(sid, SamplesOf(s.processed, id), trace, track)
  }

  /** Everything exported for one queue item: its slice, its samples, its suspensions. */
  function CoroutinePackets(sid: nat, s: Snapshot, trace: TraceInfo, id: Id, parent: Id, counter: nat): seq<Packet>
    requires id in s.infos
  {
    OwnSlice(sid, s, trace, id, parent, counter + 1)
    + SamplesTrack(sid, s, trace, id, counter + 2)
    + SuspensionsPackets(sid, s.infos[id].suspensions, CoroutineName(id), trace.end, counter + 2)
  }

  function TracksOf(s: Snapshot, id: Id): nat
    requires id in s.infos
  {
    2 + |s.infos[id].suspensions|
  }

  predicate Showable(s: Snapshot, items: seq<Path>) {
    forall k :: 0 <= k < |items| ==> |items[k]| > 0 && Last(items[k]) in s.infos
  }

  function TrackCount(s: Snapshot, items: seq<Path>): nat
    requires Showable(s, items)
  {
    if items == [] then 0 else
    TrackCount(s, items[..|items| - 1]) + TracksOf(s, Last(items[|items| - 1]))
  }

  function ItemsPackets(sid: nat, s: Snapshot, trace: TraceInfo, items: seq<Path>, counter: nat): seq<Packet>
    requires Showable(s, items)
  {
    if items == [] then [] else
    var front, p := items[..|items| - 1], items[|items| - 1];
    ItemsPackets(sid, s, trace, front, counter)
    + CoroutinePackets(sid, s, trace, Last(p), Parent(p), counter + TrackCount(s, front))
  }

  predicate InTrace(e: GcEvent, trace: TraceInfo) {
    e.start >= trace.start && e.end <= trace.end
  }

  function SelectedGc(events: seq<GcEvent>, trace: TraceInfo): seq<GcEvent> {
    if events == [] then [] else
    var e := events[|events| - 1];
    SelectedGc(events[..|events| - 1], trace) + (if InTrace(e, trace) then [e] else [])
  }

  function GcSlice(sid: nat, e: GcEvent, track: nat): seq<Packet> {
    SliceTrack(sid, track, "GC", e.start, "GC", [], [], e.end, [])
  }

  function GcPackets(sid: nat, events: seq<GcEvent>, counter: nat): seq<Packet> {
    if events == [] then [] else
    GcPackets(sid, events[..|events| - 1], counter) + GcSlice(sid, events[|events| - 1], counter + |events|)
  }

  function TraceSlice(trace: TraceInfo): seq<Packet> {
    SliceTrack(SEQUENCE_ID, 1, "Trace", trace.start, "Trace", [], [Annotation("Trace", 0)], trace.end, [])
  }

  /** The stream of `write_perfetto`. */
  ghost function Stream(s: Snapshot, trace: TraceInfo): seq<Packet> {
    var gc := SelectedGc(s.gcEvents, trace);
    TraceSlice(trace) + GcPackets(SEQUENCE_ID, gc, 1)
      + ItemsPackets(SEQUENCE_ID, s, trace, Emitted(s, trace.coroutineId), 1 + |gc|)
  }

  // ---------- well-formedness ----------

  lemma {:induction false} SliceTrackFragment(ps: seq<Packet>, track: nat)
    requires track > 0 && |ps| == 3
    requires ps[0].Descriptor? && ps[0].uuid == track
    requires ps[1].Event? && ps[1].kind == SliceBegin && ps[1].track == track
    requires ps[2].Event? && ps[2].kind == SliceEnd && ps[2].track == track
    requires forall p :: p in ps ==> p.sequenceId == SEQUENCE_ID
    ensures Fragment(ps, track - 1, track)
    ensures SlicesOrdered(ps) <==> ps[1].timestamp <= ps[2].timestamp
  {
    assert ps[..1] == [ps[0]] && ps[..2] == [ps[0], ps[1]] && ps == [ps[0], ps[1], ps[2]];
    assert [ps[0]][..0] == [] && [ps[0], ps[1]][..1] == [ps[0]] && [ps[0], ps[1], ps[2]][..2] == [ps[0], ps[1]];
    assert Declared([]) == [];
    assert Declared([ps[0]]) == [track];
    assert Declared([ps[0], ps[1]]) == [track];
    forall t: nat ensures EventsOf(ps, t) == if t == track then [ps[1], ps[2]] else [] {
      assert EventsOf([], t) == [];
      assert EventsOf([ps[0]], t) == [];
    }
    if SlicesOrdered(ps) { assert SliceOrdered(EventsOf(ps, track)); }
  }

  lemma {:induction false} SampleEvents(samples: seq<Sample>, trace: TraceInfo, track: nat)
    ensures Declared(SamplesPackets(SEQUENCE_ID, samples, trace, track)) == []
    ensures forall p :: p in SamplesPackets(SEQUENCE_ID, samples, trace, track) ==>
              p.Event? && p.kind == Instant && p.track == track && p.sequenceId == SEQUENCE_ID
  {
    if samples != [] {
      var front, last :=
        SamplesPackets(SEQUENCE_ID, samples[..|samples| - 1], trace, track),
        SamplePackets(SEQUENCE_ID, samples[|samples| - 1], trace, track);
      SampleEvents(samples[..|samples| - 1], trace, track);
      DeclaredConcat(front, last);
    }
  }

  lemma {:induction false} InstantsFragment(head: Packet, tail: seq<Packet>, track: nat)
    requires track > 0 && head == Descriptor(SEQUENCE_ID, head.name, track) && Declared(tail) == []
    requires forall p :: p in tail ==> p.Event? && p.kind == Instant && p.track == track && p.sequenceId == SEQUENCE_ID
    ensures Fragment([head] + tail, track - 1, track) && SlicesOrdered([head] + tail)
  {
    var ps := [head] + tail;
    assert [head][..0] == [];
    assert Declared([head]) == [track];
    DeclaredConcat([head], tail);
    forall t: nat ensures OnlyInstants(EventsOf(ps, t)) && !IsSlice(EventsOf(ps, t)) {
      EventsConcat([head], tail, t);
      assert EventsOf([head], t) == [];
      EventsAmong(tail, t);
      assert |EventsOf(ps, t)| > 0 ==> EventsOf(ps, t)[0] in tail;
    }
    forall j | 0 <= j < |ps| && ps[j].Event? ensures ps[j].track in Declared(ps[..j]) {
      assert ps[j] in tail && ps[..j] == [head] + tail[..j - 1];
      DeclaredConcat([head], tail[..j - 1]);
    }
  }

  lemma {:induction false} EventsAmong(ps: seq<Packet>, t: nat)
    ensures forall e :: e in EventsOf(ps, t) ==> e in ps
  {
    if ps != [] { EventsAmong(ps[..|ps| - 1], t); }
  }

  lemma {:induction false} SamplesTrackFragment(s: Snapshot, trace: TraceInfo, id: Id, track: nat)
    requires track > 0
    ensures Fragment(SamplesTrack(SEQUENCE_ID, s, trace, id, track), track - 1, track)
    ensures SlicesOrdered(SamplesTrack(SEQUENCE_ID, s, trace, id, track))
  {
    hide Fragment, SlicesOrdered;
    SampleEvents(SamplesOf(s.processed, id), trace, track);
    InstantsFragment(Descriptor(SEQUENCE_ID, "Samples", track),
      SamplesPackets(SEQUENCE_ID, SamplesOf(s.processed, id), trace, track), track);
  }

  ghost predicate SuspensionsOrdered(ss: seq<Suspension>, traceEnd: Time) {
    forall k :: 0 <= k < |ss| ==> ss[k].start <= SuspensionEnd(ss[k], traceEnd)
  }

  lemma {:induction false} EmptyFragment(counter: nat)
    ensures Fragment([], counter, counter) && SlicesOrdered([])
  {
  }

  lemma {:induction false} SuspensionsFragment(ss: seq<Suspension>, name: string, traceEnd: Time, counter: nat)
    ensures Fragment(SuspensionsPackets(SEQUENCE_ID, ss, name, traceEnd, counter), counter, counter + |ss|)
    ensures SlicesOrdered(SuspensionsPackets(SEQUENCE_ID, ss, name, traceEnd, counter))
      <==> SuspensionsOrdered(ss, traceEnd)
  {
    hide Fragment, SlicesOrdered;
    if ss == [] {
      EmptyFragment(counter);
    } else {
      var front, last := ss[..|ss| - 1], ss[|ss| - 1];
      var track := counter + |ss|;
      SuspensionsFragment(front, name, traceEnd, counter);
      SliceTrackFragment(SuspensionPackets(SEQUENCE_ID, last, name, traceEnd, track), track);
      FragmentConcat(SuspensionsPackets(SEQUENCE_ID, front, name, traceEnd, counter),
        SuspensionPackets(SEQUENCE_ID, last, name, traceEnd, track),
                     counter, track - 1, track);
      assert forall k :: 0 <= k < |front| ==> front[k] == ss[k];
    }
  }

  /** When the slices exported for one queue item begin before they end. */
  ghost predicate ItemOrdered(s: Snapshot, trace: TraceInfo, p: Path)
    requires |p| > 0 && Last(p) in s.infos
  {
    var info := s.infos[Last(p)];
    var bounds := SliceBounds(trace, info, Parent(p));
    bounds.0 <= bounds.1 && SuspensionsOrdered(info.suspensions, trace.end)
  }

  lemma {:induction false} CoroutineFragment(s: Snapshot, trace: TraceInfo, p: Path, counter: nat)
    requires |p| > 0 && Last(p) in s.infos
    ensures Fragment(CoroutinePackets(SEQUENCE_ID, s, trace, Last(p), Parent(p), counter), counter, counter
      + TracksOf(s, Last(p)))
    ensures SlicesOrdered(CoroutinePackets(SEQUENCE_ID, s, trace, Last(p), Parent(p), counter))
      <==> ItemOrdered(s, trace, p)
  {
    hide Fragment, SlicesOrdered, SamplesTrack, SuspensionsPackets, SuspensionsOrdered, Annotations, CoroutineName;
    var id, parent := Last(p), Parent(p);
    var own, samples := OwnSlice(SEQUENCE_ID, s, trace, id, parent, counter + 1),
      SamplesTrack(SEQUENCE_ID, s, trace, id, counter + 2);
    var suspensions := SuspensionsPackets(SEQUENCE_ID, s.infos[id].suspensions, CoroutineName(id), trace.end,
      counter + 2);
    SliceTrackFragment(own, counter + 1);
    SamplesTrackFragment(s, trace, id, counter + 2);
    FragmentConcat(own, samples, counter, counter + 1, counter + 2);
    SuspensionsFragment(s.infos[id].suspensions, CoroutineName(id), trace.end, counter + 2);
    FragmentConcat(own + samples, suspensions, counter, counter + 2, counter + TracksOf(s, id));
  }

  lemma {:induction false} ItemsFragment(s: Snapshot, trace: TraceInfo, items: seq<Path>, counter: nat)
    requires Showable(s, items)
    ensures Fragment(ItemsPackets(SEQUENCE_ID, s, trace, items, counter), counter, counter + TrackCount(s, items))
    ensures SlicesOrdered(ItemsPackets(SEQUENCE_ID, s, trace, items, counter))
      <==> forall k :: 0 <= k < |items| ==> ItemOrdered(s, trace, items[k])
  {
    hide Fragment, SlicesOrdered, CoroutinePackets, ItemOrdered, TracksOf;
    if items == [] {
      EmptyFragment(counter);
    } else {
      var front, p := items[..|items| - 1], items[|items| - 1];
      var mid := counter + TrackCount(s, front);
      ItemsFragment(s, trace, front, counter);
      CoroutineFragment(s, trace, p, mid);
      FragmentConcat(ItemsPackets(SEQUENCE_ID, s, trace, front, counter),
        CoroutinePackets(SEQUENCE_ID, s, trace, Last(p), Parent(p), mid),
                     counter, mid, mid + TracksOf(s, Last(p)));
      assert forall k :: 0 <= k < |front| ==> front[k] == items[k];
    }
  }

  lemma {:induction false} GcFragment(events: seq<GcEvent>, counter: nat)
    ensures Fragment(GcPackets(SEQUENCE_ID, events, counter), counter, counter + |events|)
    ensures SlicesOrdered(GcPackets(SEQUENCE_ID, events, counter))
      <==> forall k :: 0 <= k < |events| ==> events[k].start <= events[k].end
  {
    hide Fragment, SlicesOrdered;
    if events == [] {
      EmptyFragment(counter);
    } else {
      var front, e, track := events[..|events| - 1], events[|events| - 1], counter + |events|;
      GcFragment(front, counter);
      SliceTrackFragment(GcSlice(SEQUENCE_ID, e, track), track);
      FragmentConcat(GcPackets(SEQUENCE_ID, front, counter), GcSlice(SEQUENCE_ID, e, track), counter, track - 1, track);
      assert forall k :: 0 <= k < |front| ==> front[k] == events[k];
    }
  }

  ghost function StreamTracks(s: Snapshot, trace: TraceInfo): nat {
    1 + |SelectedGc(s.gcEvents, trace)| + TrackCount(s, Emitted(s, trace.coroutineId))
  }

  /**
   Every exported stream is well formed, for every storage content: tracks are
   numbered 1..n in order of declaration, declared before use, and hold one slice
   or only instants; n counts the trace, the selected collections and, for every
   shown coroutine, its slice, its samples and its suspensions.
   */
  lemma {:induction false} StreamWellFormed(s: Snapshot, trace: TraceInfo)
    ensures WellFormed(Stream(s, trace), StreamTracks(s, trace))
    ensures SlicesOrdered(Stream(s, trace)) <==> StreamOrdered(s, trace)
  {
    hide Fragment, SlicesOrdered, GcPackets, ItemsPackets, TrackCount, ItemOrdered, SelectedGc;
    var gc := SelectedGc(s.gcEvents, trace);
    var items := Emitted(s, trace.coroutineId);
    SliceTrackFragment(TraceSlice(trace), 1);
    GcFragment(gc, 1);
    FragmentConcat(TraceSlice(trace), GcPackets(SEQUENCE_ID, gc, 1), 0, 1, 1 + |gc|);
    ItemsFragment(s, trace, items, 1 + |gc|);
    FragmentConcat(TraceSlice(trace) + GcPackets(SEQUENCE_ID, gc, 1),
      ItemsPackets(SEQUENCE_ID, s, trace, items, 1 + |gc|),
                   0, 1 + |gc|, 1 + |gc| + TrackCount(s, items));
  }

  /** The records from which all exported slices come begin before they end. */
  ghost predicate StreamOrdered(s: Snapshot, trace: TraceInfo) {
    && trace.start <= trace.end
    && (forall k :: 0 <= k < |SelectedGc(s.gcEvents, trace)| ==>
          SelectedGc(s.gcEvents, trace)[k].start <= SelectedGc(s.gcEvents, trace)[k].end)
    && (forall k :: 0 <= k < |Emitted(s, trace.coroutineId)| ==>
          ItemOrdered(s, trace, Emitted(s, trace.coroutineId)[k]))
  }

  // ---------- what is on a track ----------

  lemma {:induction false} SuspensionEvents(s: Suspension, name: string, traceEnd: Time, track: nat)
    ensures EventsOf(SuspensionPackets(SEQUENCE_ID, s, name, traceEnd, track), track)
      == SuspensionPackets(SEQUENCE_ID, s, name, traceEnd, track)[1..]
  {
    var ps := SuspensionPackets(SEQUENCE_ID, s, name, traceEnd, track);
    assert ps[..2] == [ps[0], ps[1]] && ps[..2][..1] == [ps[0]] && [ps[0]][..0] == [];
    assert EventsOf([ps[0]], track) == [];
    assert EventsOf(ps[..2], track) == [ps[1]];
  }

  /**
   Every suspension has a track of its own, in the order of the list, with its begin and its
   end; one that is still open ends with the trace.
   */
  lemma {:induction false} SuspensionOnItsTrack(ss: seq<Suspension>, name: string, traceEnd: Time, counter: nat, k: nat)
    requires k < |ss|
    ensures var track := counter + 1 + k;
      var es := EventsOf(SuspensionsPackets(SEQUENCE_ID, ss, name, traceEnd, counter), track);
      && |es| == 2
      && es[0] == Event(1, ss[k].start, SliceBegin, "Suspension", track, [], [], [])
      && es[1] == Event(1, if ss[k].end != 0 then ss[k].end else traceEnd, SliceEnd, "", track, [], [], es[1].callstack)
      && |es[1].callstack| == |ss[k].frames|
      && forall i :: 0 <= i < |ss[k].frames| ==>
           es[1].callstack[i] == ss[k].frames[i].base + ":" + ss[k].frames[i].frame
  {
    hide Fragment, EventsOf, SlicesOrdered;
    var front, last, track := ss[..|ss| - 1], ss[|ss| - 1], counter + |ss|;
    var a, b := SuspensionsPackets(SEQUENCE_ID, front, name, traceEnd, counter),
      SuspensionPackets(SEQUENCE_ID, last, name, traceEnd, track);
    EventsConcat(a, b, counter + 1 + k);
    SuspensionsFragment(front, name, traceEnd, counter);
    SliceTrackFragment(b, track);
    if k == |front| {
      FragmentTracks(a, counter, track - 1, track);
      SuspensionEvents(last, name, traceEnd, track);
    } else {
      FragmentTracks(b, track - 1, track, counter + 1 + k);
      SuspensionOnItsTrack(front, name, traceEnd, counter, k);
    }
  }

  /** Frames are exported only for samples that lie in the trace, and for all of those. */
  lemma {:induction false} FramesOnlyInTrace(samples: seq<Sample>, trace: TraceInfo, track: nat)
    ensures forall p :: p in SamplesPackets(SEQUENCE_ID, samples, trace, track) ==>
              p.Event? && (p.callstack != [] <==> trace.start <= p.timestamp <= trace.end)
    ensures |SamplesPackets(SEQUENCE_ID, samples, trace, track)| == NonEmptySamples(samples)
  {
    if samples != [] {
      FramesOnlyInTrace(samples[..|samples| - 1], trace, track);
      var last := SamplePackets(SEQUENCE_ID, samples[|samples| - 1], trace, track);
      assert last != [] ==> |FrameNames(samples[|samples| - 1].frames)| > 0;
    }
  }

  function NonEmptySamples(samples: seq<Sample>): nat {
    if samples == [] then 0 else
    NonEmptySamples(samples[..|samples| - 1]) + (if samples[|samples| - 1].frames == [] then 0 else 1)
  }

  /** A count of context switches is exported exactly if it is zero. */
  lemma {:induction false} SwitchesShownIffZero(info: CoroutineInfo)
    ensures (exists a :: a in Annotations(info) && a.name == "Voluntary switches") <==> info.usage.voluntary == 0
    ensures (exists a :: a in Annotations(info) && a.name == "Involuntary switches") <==> info.usage.involuntary == 0
  {
    hide TruncatedDivision;
    assert "Wall CPU time ms"[0] == 'W' && "User CPU time ms"[0] == 'U' && "System CPU time ms"[0] == 'S';
    assert "Voluntary switches"[0] == 'V' && "Involuntary switches"[0] == 'I';
    if info.usage.voluntary == 0 { assert Annotation("Voluntary switches", 0) in Annotations(info); }
    if info.usage.involuntary == 0 { assert Annotation("Involuntary switches", 0) in Annotations(info); }
  }

  // ---------- which coroutines a stream shows ----------

  /** The coroutines whose slices begin in a stream, read off the flow ids of the packets. */
  function CoroutinesIn(ps: seq<Packet>): seq<Id> {
    if ps == [] then [] else
    var p := ps[|ps| - 1];
    CoroutinesIn(ps[..|ps| - 1])
    + (if p.Event? && p.kind == SliceBegin && p.flowIds != [] then [p.flowIds[|p.flowIds| - 1]] else [])
  }

  lemma {:induction false} CoroutinesConcat(a: seq<Packet>, b: seq<Packet>)
    ensures CoroutinesIn(a + b) == CoroutinesIn(a) + CoroutinesIn(b)
  {
    if b == [] {
      assert a + b == a;
    } else {
      assert (a + b)[..|a + b| - 1] == a + b[..|b| - 1];
      CoroutinesConcat(a, b[..|b| - 1]);
    }
  }

  lemma {:induction false} NoCoroutines(ps: seq<Packet>)
    requires forall p :: p in ps && p.Event? ==> p.flowIds == []
    ensures CoroutinesIn(ps) == []
  {
    if ps != [] { NoCoroutines(ps[..|ps| - 1]); }
  }

  lemma {:induction false} SamplesHaveNoFlow(samples: seq<Sample>, trace: TraceInfo, track: nat)
    ensures forall p :: p in SamplesPackets(SEQUENCE_ID, samples, trace, track) ==> p.Event? && p.flowIds == []
  {
    if samples != [] { SamplesHaveNoFlow(samples[..|samples| - 1], trace, track); }
  }

  lemma {:induction false} SuspensionsHaveNoFlow(ss: seq<Suspension>, name: string, traceEnd: Time, counter: nat)
    ensures forall p ::
      p in SuspensionsPackets(SEQUENCE_ID, ss, name, traceEnd, counter) && p.Event? ==> p.flowIds == []
  {
    if ss != [] { SuspensionsHaveNoFlow(ss[..|ss| - 1], name, traceEnd, counter); }
  }

  lemma {:induction false} GcHaveNoFlow(events: seq<GcEvent>, counter: nat)
    ensures forall p :: p in GcPackets(SEQUENCE_ID, events, counter) && p.Event? ==> p.flowIds == []
  {
    if events != [] { GcHaveNoFlow(events[..|events| - 1], counter); }
  }

  lemma {:induction false} OwnSliceCoroutine(s: Snapshot, trace: TraceInfo, id: Id, parent: Id, track: nat)
    requires id in s.infos
    ensures CoroutinesIn(OwnSlice(SEQUENCE_ID, s, trace, id, parent, track)) == [id]
  {
    var ps := OwnSlice(SEQUENCE_ID, s, trace, id, parent, track);
    assert ps == ps[..1] + [ps[1]] + ps[2..];
    NoCoroutines(ps[..1]);
    NoCoroutines(ps[2..]);
    assert [ps[1]][..0] == [];
    CoroutinesConcat(ps[..1], [ps[1]]);
    CoroutinesConcat(ps[..1] + [ps[1]], ps[2..]);
  }

  lemma {:induction false} CoroutinePacketsShow(s: Snapshot, trace: TraceInfo, id: Id, parent: Id, counter: nat)
    requires id in s.infos
    ensures CoroutinesIn(CoroutinePackets(SEQUENCE_ID, s, trace, id, parent, counter)) == [id]
  {
    hide SuspensionsPackets, SamplesPackets, OwnSlice, CoroutinesIn, CoroutineName, SamplesOf;
    var own, samples := OwnSlice(SEQUENCE_ID, s, trace, id, parent, counter + 1),
      SamplesTrack(SEQUENCE_ID, s, trace, id, counter + 2);
    var suspensions := SuspensionsPackets(SEQUENCE_ID, s.infos[id].suspensions, CoroutineName(id), trace.end,
      counter + 2);
    OwnSliceCoroutine(s, trace, id, parent, counter + 1);
    SamplesHaveNoFlow(SamplesOf(s.processed, id), trace, counter + 2);
    NoCoroutines(samples);
    SuspensionsHaveNoFlow(s.infos[id].suspensions, CoroutineName(id), trace.end, counter + 2);
    NoCoroutines(suspensions);
    CoroutinesConcat(own, samples);
    CoroutinesConcat(own + samples, suspensions);
  }

  lemma {:induction false} ItemsShow(s: Snapshot, trace: TraceInfo, items: seq<Path>, counter: nat)
    requires Showable(s, items)
    ensures CoroutinesIn(ItemsPackets(SEQUENCE_ID, s, trace, items, counter)) == LastIds(items)
  {
    hide CoroutinePackets, TrackCount, CoroutinesIn;
    if items == [] {
      NoCoroutines([]);
    } else {
      var front, p := items[..|items| - 1], items[|items| - 1];
      var packets := CoroutinePackets(SEQUENCE_ID, s, trace, Last(p), Parent(p), counter + TrackCount(s, front));
      ItemsShow(s, trace, front, counter);
      CoroutinePacketsShow(s, trace, Last(p), Parent(p), counter + TrackCount(s, front));
      CoroutinesConcat(ItemsPackets(SEQUENCE_ID, s, trace, front, counter), packets);
      assert LastIds(items) == LastIds(front) + [Last(p)];
    }
  }

  lemma {:induction false} StreamShows(s: Snapshot, trace: TraceInfo)
    ensures CoroutinesIn(Stream(s, trace)) == LastIds(Emitted(s, trace.coroutineId))
  {
    hide GcPackets, ItemsPackets, SelectedGc;
    var gc := SelectedGc(s.gcEvents, trace);
    var items := ItemsPackets(SEQUENCE_ID, s, trace, Emitted(s, trace.coroutineId), 1 + |gc|);
    GcHaveNoFlow(gc, 1);
    NoCoroutines(TraceSlice(trace) + GcPackets(SEQUENCE_ID, gc, 1));
    ItemsShow(s, trace, Emitted(s, trace.coroutineId), 1 + |gc|);
    CoroutinesConcat(TraceSlice(trace) + GcPackets(SEQUENCE_ID, gc, 1), items);
  }

  /** The stream shows exactly the coroutines reachable from the traced one. */
  lemma {:induction false} StreamShowsReachable(s: Snapshot, trace: TraceInfo, id: Id)
    ensures id in CoroutinesIn(Stream(s, trace)) <==> Reachable(s, trace.coroutineId, id)
  {
    var items := Emitted(s, trace.coroutineId);
    StreamShows(s, trace);
    ShownIffReachable(s, trace.coroutineId, id);
    if Shown(items, id) {
      var p :| p in items && |p| > 0 && Last(p) == id;
      var k :| 0 <= k < |items| && items[k] == p;
      assert CoroutinesIn(Stream(s, trace))[k] == id;
    }
    if id in CoroutinesIn(Stream(s, trace)) {
      var k :| 0 <= k < |items| && CoroutinesIn(Stream(s, trace))[k] == id;
      assert items[k] in items;
    }
  }

  /**
   The stream shows each coroutine once exactly if none is listed twice by coroutines
   before it in the order of the search.
   */
  lemma {:induction false} StreamShowsOnceIff(s: Snapshot, trace: TraceInfo)
    ensures Distinct(CoroutinesIn(Stream(s, trace))) <==> !Repeated(s, Order(s, trace.coroutineId))
  {
    hide Stream, CoroutinesIn, Emitted, Repeated, Order;
    StreamShows(s, trace);
    ShownOnceIff(s, trace.coroutineId);
  }

  /** With unique parents the stream shows each of them exactly once. */
  lemma {:induction false} StreamShowsOnce(s: Snapshot, trace: TraceInfo)
    requires UniqueParent(s.children)
    ensures Distinct(CoroutinesIn(Stream(s, trace)))
  {
    StreamShows(s, trace);
    ShownOnce(s, trace.coroutineId);
  }
}
