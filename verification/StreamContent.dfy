/**
 What every track of an exported stream holds, packet by packet, in terms of the
 fields of the records in the storage.
 */
module StreamContent {
  import opened Records
  import opened Packets
  import opened Traversal
  import opened Export
  import Decimal

  function TrackOf(p: Packet): nat {
    match p
    case Descriptor(_, _, uuid) => uuid
    case Event(_, _, _, _, track, _, _, _) => track
  }

  /** The packets that declare a track or put something on it, in order. */
  function PacketsOn(ps: seq<Packet>, t: nat): seq<Packet> {
    if ps == [] then [] else
    PacketsOn(ps[..|ps| - 1], t) + (if TrackOf(ps[|ps| - 1]) == t then [ps[|ps| - 1]] else [])
  }

  lemma {:induction false} PacketsOnConcat(a: seq<Packet>, b: seq<Packet>, t: nat)
    ensures PacketsOn(a + b, t) == PacketsOn(a, t) + PacketsOn(b, t)
  {
    if b == [] {
      assert a + b == a;
    } else {
      assert (a + b)[..|a + b| - 1] == a + b[..|b| - 1];
      PacketsOnConcat(a, b[..|b| - 1], t);
    }
  }

  lemma {:induction false} AllOn(ps: seq<Packet>, t: nat)
    requires forall p :: p in ps ==> TrackOf(p) == t
    ensures PacketsOn(ps, t) == ps
  {
    if ps != [] {
      AllOn(ps[..|ps| - 1], t);
      assert ps[|ps| - 1] in ps;
      assert ps == ps[..|ps| - 1] + [ps[|ps| - 1]];
    }
  }

  lemma {:induction false} NoneOn(ps: seq<Packet>, t: nat)
    requires forall p :: p in ps ==> TrackOf(p) != t
    ensures PacketsOn(ps, t) == []
  {
    if ps != [] {
      NoneOn(ps[..|ps| - 1], t);
      assert ps[|ps| - 1] in ps;
    }
  }

  lemma {:induction false} DescriptorDeclared(ps: seq<Packet>, p: Packet)
    requires p in ps && p.Descriptor?
    ensures p.uuid in Declared(ps)
  {
    var front := ps[..|ps| - 1];
    assert ps == front + [ps[|ps| - 1]];
    if p in front { DescriptorDeclared(front, p); }
  }

  /** A fragment holds nothing of tracks outside its range. */
  lemma {:induction false} OutsideRange(ps: seq<Packet>, lo: nat, hi: nat, t: nat)
    requires lo <= hi && Fragment(ps, lo, hi) && (t <= lo || hi < t)
    ensures PacketsOn(ps, t) == []
  {
    hide Declared, EventsOf;
    forall p | p in ps ensures TrackOf(p) != t {
      if p.Descriptor? {
        DescriptorDeclared(ps, p);
      } else {
        var j :| 0 <= j < |ps| && ps[j] == p;
        DeclaredPrefix(ps, j, p.track);
      }
    }
    NoneOn(ps, t);
  }

  lemma {:induction false} OnSplit(a: seq<Packet>, b: seq<Packet>, lo: nat, mid: nat, hi: nat, t: nat)
    requires lo <= mid <= hi && Fragment(a, lo, mid) && Fragment(b, mid, hi)
    ensures PacketsOn(a + b, t) == PacketsOn(if t <= mid then a else b, t)
  {
    hide Fragment, PacketsOn;
    PacketsOnConcat(a, b, t);
    if t <= mid { OutsideRange(b, mid, hi, t); } else { OutsideRange(a, lo, mid, t); }
  }

  // ---------- the pieces of one queue item ----------

  lemma {:induction false} SuspensionPiece(ss: seq<Suspension>, name: string, traceEnd: Time, counter: nat, k: nat)
    requires k < |ss|
    ensures PacketsOn(SuspensionsPackets(SEQUENCE_ID, ss, name, traceEnd, counter), counter + 1 + k)
      == SuspensionPackets(SEQUENCE_ID, ss[k], name, traceEnd, counter + 1 + k)
  {
    hide Fragment, PacketsOn, SlicesOrdered, SuspensionEnd;
    var front, last, t := ss[..|ss| - 1], ss[|ss| - 1], counter + 1 + k;
    var a := SuspensionsPackets(SEQUENCE_ID, front, name, traceEnd, counter);
    var b := SuspensionPackets(SEQUENCE_ID, last, name, traceEnd, counter + |ss|);
    SuspensionsFragment(front, name, traceEnd, counter);
    SliceTrackFragment(b, counter + |ss|);
    OnSplit(a, b, counter, counter + |front|, counter + |ss|, t);
    if k == |front| {
      AllOn(b, t);
    } else {
      SuspensionPiece(front, name, traceEnd, counter, k);
    }
  }

  lemma {:induction false} GcPiece(events: seq<GcEvent>, counter: nat, k: nat)
    requires k < |events|
    ensures PacketsOn(GcPackets(SEQUENCE_ID, events, counter), counter + 1 + k)
      == GcSlice(SEQUENCE_ID, events[k], counter + 1 + k)
  {
    hide Fragment, PacketsOn, SlicesOrdered;
    var front, last, t := events[..|events| - 1], events[|events| - 1], counter + 1 + k;
    var a, b := GcPackets(SEQUENCE_ID, front, counter), GcSlice(SEQUENCE_ID, last, counter + |events|);
    GcFragment(front, counter);
    SliceTrackFragment(b, counter + |events|);
    OnSplit(a, b, counter, counter + |front|, counter + |events|, t);
    if k == |front| { AllOn(b, t); } else { GcPiece(front, counter, k); }
  }

  lemma {:induction false} CoroutinePieces(s: Snapshot, trace: TraceInfo, id: Id, parent: Id, counter: nat)
    requires id in s.infos
    ensures var ps := CoroutinePackets(SEQUENCE_ID, s, trace, id, parent, counter);
      && PacketsOn(ps, counter + 1) == OwnSlice(SEQUENCE_ID, s, trace, id, parent, counter + 1)
      && PacketsOn(ps, counter + 2) == SamplesTrack(SEQUENCE_ID, s, trace, id, counter + 2)
      && forall j :: 0 <= j < |s.infos[id].suspensions| ==>
           PacketsOn(ps, counter + 3 + j) == SuspensionPackets(SEQUENCE_ID, s.infos[id].suspensions[j],
                                               CoroutineName(id), trace.end, counter + 3 + j)
  {
    hide Fragment, PacketsOn, SlicesOrdered, SuspensionsPackets, SuspensionPackets, CoroutineName;
    var own := OwnSlice(SEQUENCE_ID, s, trace, id, parent, counter + 1);
    var samples := SamplesTrack(SEQUENCE_ID, s, trace, id, counter + 2);
    var ss := s.infos[id].suspensions;
    var rest := SuspensionsPackets(SEQUENCE_ID, ss, CoroutineName(id), trace.end, counter + 2);
    OwnPiece(s, trace, id, parent, counter + 1);
    SamplesPiece(s, trace, id, counter + 2);
    SuspensionsFragment(ss, CoroutineName(id), trace.end, counter + 2);
    FragmentConcat(own, samples, counter, counter + 1, counter + 2);
    forall t: nat
      ensures PacketsOn(own + samples + rest, t)
        == PacketsOn(if t <= counter + 1 then own else if t <= counter + 2 then samples else rest, t)
    {
      OnSplit(own, samples, counter, counter + 1, counter + 2, t);
      OnSplit(own + samples, rest, counter, counter + 2, counter + 2 + |ss|, t);
    }
    forall j | 0 <= j < |ss|
      ensures PacketsOn(rest, counter + 3 + j)
        == SuspensionPackets(SEQUENCE_ID, ss[j], CoroutineName(id), trace.end, counter + 3 + j)
    {
      SuspensionPiece(ss, CoroutineName(id), trace.end, counter + 2, j);
    }
  }

  lemma {:induction false} OwnPiece(s: Snapshot, trace: TraceInfo, id: Id, parent: Id, track: nat)
    requires id in s.infos && track > 0
    ensures var own := OwnSlice(SEQUENCE_ID, s, trace, id, parent, track);
      Fragment(own, track - 1, track) && PacketsOn(own, track) == own
  {
    hide Fragment, SlicesOrdered, Annotations, CoroutineName;
    var own := OwnSlice(SEQUENCE_ID, s, trace, id, parent, track);
    SliceTrackFragment(own, track);
    AllOn(own, track);
  }

  lemma {:induction false} SamplesPiece(s: Snapshot, trace: TraceInfo, id: Id, track: nat)
    requires track > 0
    ensures var samples := SamplesTrack(SEQUENCE_ID, s, trace, id, track);
      Fragment(samples, track - 1, track) && PacketsOn(samples, track) == samples
  {
    hide Fragment, SlicesOrdered, SamplesPackets;
    var samples := SamplesTrack(SEQUENCE_ID, s, trace, id, track);
    SamplesTrackFragment(s, trace, id, track);
    SampleEvents(SamplesOf(s.processed, id), trace, track);
    AllOn(samples, track);
  }

  // ---------- the place of a queue item in the stream ----------

  lemma {:induction false} TrackCountGrows(s: Snapshot, items: seq<Path>, k: nat)
    requires Showable(s, items) && k < |items|
    ensures Showable(s, items[..k])
    ensures TrackCount(s, items[..k]) + TracksOf(s, Last(items[k])) <= TrackCount(s, items)
  {
    var front := items[..|items| - 1];
    if k == |front| {
      assert items[..k] == front;
    } else {
      assert front[..k] == items[..k];
      TrackCountGrows(s, front, k);
    }
  }

  lemma {:induction false} ItemPiece(s: Snapshot, trace: TraceInfo, items: seq<Path>, counter: nat, k: nat, t: nat)
    requires Showable(s, items) && k < |items| && Showable(s, items[..k])
    requires counter + TrackCount(s, items[..k]) < t
          <= counter + TrackCount(s, items[..k]) + TracksOf(s, Last(items[k]))
    ensures PacketsOn(ItemsPackets(SEQUENCE_ID, s, trace, items, counter), t)
      == PacketsOn(CoroutinePackets(SEQUENCE_ID, s, trace, Last(items[k]), Parent(items[k]),
                                    counter + TrackCount(s, items[..k])), t)
  {
    hide Fragment, PacketsOn, SlicesOrdered, CoroutinePackets, TracksOf;
    var front, p := items[..|items| - 1], items[|items| - 1];
    var mid := counter + TrackCount(s, front);
    var a := ItemsPackets(SEQUENCE_ID, s, trace, front, counter);
    var b := CoroutinePackets(SEQUENCE_ID, s, trace, Last(p), Parent(p), mid);
    ItemsFragment(s, trace, front, counter);
    CoroutineFragment(s, trace, p, mid);
    OnSplit(a, b, counter, mid, mid + TracksOf(s, Last(p)), t);
    if k == |front| {
      assert items[..k] == front;
    } else {
      assert front[..k] == items[..k];
      TrackCountGrows(s, front, k);
      ItemPiece(s, trace, front, counter, k, t);
    }
  }

  lemma {:induction false} EmittedShowable(s: Snapshot, root: Id, k: nat)
    requires k <= |Emitted(s, root)|
    ensures Showable(s, Emitted(s, root)) && Showable(s, Emitted(s, root)[..k])
  {
    hide Emitted;
    var items := Emitted(s, root);
    assert forall j :: 0 <= j < |items| ==> items[j] in items;
  }

  /** The first track of the `k`-th item: after the trace, the collections and the items before it. */
  ghost function FirstTrack(s: Snapshot, trace: TraceInfo, k: nat): (first: nat)
    requires k <= |Emitted(s, trace.coroutineId)|
    ensures first >= 2
  {
    EmittedShowable(s, trace.coroutineId, k);
    2 + InsideBefore(s.gcEvents, trace, |s.gcEvents|) + TrackCount(s, Emitted(s, trace.coroutineId)[..k])
  }

  /** The `k`-th item that the loop shows is `p`, and its tracks begin at `first`. */
  ghost predicate ItemAt(s: Snapshot, trace: TraceInfo, k: nat, p: Path, first: nat) {
    && k < |Emitted(s, trace.coroutineId)|
    && p == Emitted(s, trace.coroutineId)[k]
    && |p| > 0 && Last(p) in s.infos
    && first == FirstTrack(s, trace, k)
  }

  /** There is one for every shown item. */
  lemma {:induction false} ItemsArePlaced(s: Snapshot, trace: TraceInfo, k: nat)
    requires k < |Emitted(s, trace.coroutineId)|
    ensures ItemAt(s, trace, k, Emitted(s, trace.coroutineId)[k], FirstTrack(s, trace, k))
  {
    hide FirstTrack, Emitted;
    assert Emitted(s, trace.coroutineId)[k] in Emitted(s, trace.coroutineId);
  }

  lemma {:induction false} StreamPiece(s: Snapshot, trace: TraceInfo, k: nat, p: Path, first: nat, j: nat)
    requires ItemAt(s, trace, k, p, first) && j < 2 + |s.infos[Last(p)].suspensions|
    ensures PacketsOn(Stream(s, trace), first + j)
      == PacketsOn(CoroutinePackets(SEQUENCE_ID, s, trace, Last(p), Parent(p), first - 1), first + j)
  {
    hide Fragment, PacketsOn, SlicesOrdered, CoroutinePackets, ItemsPackets, GcPackets, Emitted, SelectedGc, TrackCount;
    var items, gc := Emitted(s, trace.coroutineId), SelectedGc(s.gcEvents, trace);
    EmittedShowable(s, trace.coroutineId, k);
    EmittedShowable(s, trace.coroutineId, |items|);
    SelectedCount(s.gcEvents, trace);
    HeadFragment(s, trace);
    ItemsFragment(s, trace, items, 1 + |gc|);
    OnSplit(TraceSlice(trace) + GcPackets(SEQUENCE_ID, gc, 1), ItemsPackets(SEQUENCE_ID, s, trace, items, 1 + |gc|),
            0, 1 + |gc|, 1 + |gc| + TrackCount(s, items), first + j);
    ItemPiece(s, trace, items, 1 + |gc|, k, first + j);
  }

  lemma {:induction false} HeadFragment(s: Snapshot, trace: TraceInfo)
    ensures var gc := SelectedGc(s.gcEvents, trace);
      && Fragment(TraceSlice(trace), 0, 1)
      && Fragment(GcPackets(SEQUENCE_ID, gc, 1), 1, 1 + |gc|)
      && Fragment(TraceSlice(trace) + GcPackets(SEQUENCE_ID, gc, 1), 0, 1 + |gc|)
  {
    hide Fragment, SlicesOrdered, GcPackets, SelectedGc;
    var gc := SelectedGc(s.gcEvents, trace);
    SliceTrackFragment(TraceSlice(trace), 1);
    GcFragment(gc, 1);
    FragmentConcat(TraceSlice(trace), GcPackets(SEQUENCE_ID, gc, 1), 0, 1, 1 + |gc|);
  }

  lemma {:induction false} HeadPiece(s: Snapshot, trace: TraceInfo, t: nat)
    requires t <= 1 + |SelectedGc(s.gcEvents, trace)|
    ensures PacketsOn(Stream(s, trace), t)
      == if t <= 1 then PacketsOn(TraceSlice(trace), t)
         else PacketsOn(GcPackets(SEQUENCE_ID, SelectedGc(s.gcEvents, trace), 1), t)
  {
    hide Fragment, PacketsOn, SlicesOrdered, ItemsPackets, GcPackets, Emitted, SelectedGc, TrackCount;
    var items, gc := Emitted(s, trace.coroutineId), SelectedGc(s.gcEvents, trace);
    EmittedShowable(s, trace.coroutineId, |items|);
    HeadFragment(s, trace);
    ItemsFragment(s, trace, items, 1 + |gc|);
    OnSplit(TraceSlice(trace) + GcPackets(SEQUENCE_ID, gc, 1), ItemsPackets(SEQUENCE_ID, s, trace, items, 1 + |gc|),
            0, 1 + |gc|, 1 + |gc| + TrackCount(s, items), t);
    OnSplit(TraceSlice(trace), GcPackets(SEQUENCE_ID, gc, 1), 0, 1, 1 + |gc|, t);
  }

  // ---------- the trace and the collections ----------

  /** Track 1 is the trace, from its start to its end. */
  lemma {:induction false} TraceOnTrack(s: Snapshot, trace: TraceInfo)
    ensures PacketsOn(Stream(s, trace), 1) ==
      [Descriptor(1, "Trace", 1),
       Event(1, trace.start, SliceBegin, "Trace", 1, [], [Annotation("Trace", 0)], []),
       Event(1, trace.end, SliceEnd, "", 1, [], [], [])]
  {
    hide Stream, PacketsOn, SelectedGc;
    HeadPiece(s, trace, 1);
    AllOn(TraceSlice(trace), 1);
  }

  /** How many of the first `n` collections start and end within the trace. */
  function InsideBefore(events: seq<GcEvent>, trace: TraceInfo, n: nat): nat
    requires n <= |events|
  {
    if n == 0 then 0 else
    InsideBefore(events, trace, n - 1)
    + (if events[n - 1].start >= trace.start && events[n - 1].end <= trace.end then 1 else 0)
  }

  lemma {:induction false} InsidePrefix(events: seq<GcEvent>, trace: TraceInfo, n: nat)
    requires n < |events|
    ensures InsideBefore(events[..|events| - 1], trace, n) == InsideBefore(events, trace, n)
  {
    if n > 0 { InsidePrefix(events, trace, n - 1); }
  }

  lemma {:induction false} SelectedCount(events: seq<GcEvent>, trace: TraceInfo)
    ensures |SelectedGc(events, trace)| == InsideBefore(events, trace, |events|)
  {
    if events != [] {
      SelectedCount(events[..|events| - 1], trace);
      InsidePrefix(events, trace, |events| - 1);
    }
  }

  lemma {:induction false} SelectedAt(events: seq<GcEvent>, trace: TraceInfo, i: nat)
    requires i < |events| && events[i].start >= trace.start && events[i].end <= trace.end
    ensures var k := InsideBefore(events, trace, i);
      k < |SelectedGc(events, trace)| && SelectedGc(events, trace)[k] == events[i]
  {
    var front := events[..|events| - 1];
    InsidePrefix(events, trace, i);
    if i == |front| { SelectedCount(front, trace); } else { SelectedAt(front, trace, i); }
  }

  /**
   Every listed collection that starts and ends within the trace has the next track after
   the trace's, in list order, with its start and its end; FirstTrack counts no others.
   */
  lemma {:induction false} CollectionOnTrack(s: Snapshot, trace: TraceInfo, i: nat)
    requires i < |s.gcEvents| && s.gcEvents[i].start >= trace.start && s.gcEvents[i].end <= trace.end
    ensures var t := 2 + InsideBefore(s.gcEvents, trace, i);
      && t < 2 + InsideBefore(s.gcEvents, trace, |s.gcEvents|)
      && PacketsOn(Stream(s, trace), t) ==
           [Descriptor(1, "GC", t),
            Event(1, s.gcEvents[i].start, SliceBegin, "GC", t, [], [], []),
            Event(1, s.gcEvents[i].end, SliceEnd, "", t, [], [], [])]
  {
    hide Stream, PacketsOn, SelectedGc, GcPackets;
    var k := InsideBefore(s.gcEvents, trace, i);
    SelectedAt(s.gcEvents, trace, i);
    SelectedCount(s.gcEvents, trace);
    HeadPiece(s, trace, 2 + k);
    GcPiece(SelectedGc(s.gcEvents, trace), 1, k);
  }

  // ---------- the coroutines ----------

  /** `v` is `n / unit`, truncated toward zero. */
  predicate Truncates(v: int, n: int, unit: int) {
    if n >= 0 then v * unit <= n < v * unit + unit else v * unit - unit < n <= v * unit
  }

  /** The running times in milliseconds, then the counts of switches that are zero. */
  predicate ShowsUsage(annotations: seq<Annotation>, info: CoroutineInfo) {
    && |annotations| >= 3
    && annotations[0].name == "Wall CPU time ms" && Truncates(annotations[0].value, info.wall, 1_000_000)
    && annotations[1].name == "User CPU time ms" && Truncates(annotations[1].value, info.usage.user, 1_000)
    && annotations[2].name == "System CPU time ms" && Truncates(annotations[2].value, info.usage.system, 1_000)
    && annotations[3..] == (if info.usage.voluntary == 0 then [Annotation("Voluntary switches", 0)] else [])
                         + (if info.usage.involuntary == 0 then [Annotation("Involuntary switches", 0)] else [])
  }

  lemma {:induction false} AnnotationsShowUsage(info: CoroutineInfo)
    ensures ShowsUsage(Annotations(info), info)
  {
  }

  /**
   The three packets of a coroutine's own track: the traced one, and a child of coroutine 0,
   from the start of the trace to its end, any other one over its own life.
   */
  predicate ShowsCoroutine(ps: seq<Packet>, info: CoroutineInfo, p: Path, trace: TraceInfo, t: nat)
    requires |p| > 0
  {
    var id, top := p[|p| - 1], |p| == 1 || p[|p| - 2] == 0;
    var name := "coroutine#" + Decimal.ToString(id);
    && |ps| == 3
    && ps[0] == Descriptor(1, name, t)
    && ps[1].Event? && ShowsUsage(ps[1].annotations, info)
    && ps[1] == Event(1, if top then trace.start else info.start, SliceBegin, name, t,
                      if top then [id] else [p[|p| - 2], id], ps[1].annotations, [])
    && ps[2] == Event(1, if top then trace.end else info.end, SliceEnd, "", t, [], [], [])
  }

  lemma {:induction false} OwnSliceShows(s: Snapshot, trace: TraceInfo, p: Path, t: nat)
    requires |p| > 0 && Last(p) in s.infos
    ensures ShowsCoroutine(OwnSlice(SEQUENCE_ID, s, trace, Last(p), Parent(p), t), s.infos[Last(p)], p, trace, t)
  {
    hide Annotations, ShowsUsage;
    AnnotationsShowUsage(s.infos[Last(p)]);
  }

  /** The first track of a shown item is its coroutine. */
  lemma {:induction false} CoroutineOnTrack(s: Snapshot, trace: TraceInfo, k: nat, p: Path, first: nat)
    requires ItemAt(s, trace, k, p, first)
    ensures ShowsCoroutine(PacketsOn(Stream(s, trace), first), s.infos[p[|p| - 1]], p, trace, first)
  {
    hide Stream, PacketsOn, CoroutinePackets, ShowsCoroutine, OwnSlice, SamplesTrack, SuspensionPackets,
      FirstTrack, Emitted;
    StreamPiece(s, trace, k, p, first, 0);
    CoroutinePieces(s, trace, Last(p), Parent(p), first - 1);
    OwnSliceShows(s, trace, p, first);
  }

  /** The names of the frames of a stack, or none. */
  predicate ShowsFrames(callstack: seq<string>, frames: seq<StackFrame>, shown: bool) {
    && |callstack| == (if shown then |frames| else 0)
    && forall i :: 0 <= i < |callstack| ==> callstack[i] == frames[i].base + ":" + frames[i].frame
  }

  lemma {:induction false} SampleAt(samples: seq<Sample>, trace: TraceInfo, track: nat, i: nat)
    requires i < |samples| && samples[i].frames != []
    ensures var ps, n := SamplesPackets(SEQUENCE_ID, samples, trace, track), NonEmptySamples(samples[..i]);
      && n < |ps|
      && ps[n].Event?
      && ShowsFrames(ps[n].callstack, samples[i].frames, trace.start <= samples[i].time <= trace.end)
      && ps[n] == Event(1, samples[i].time, Instant, "Stack trace", track, [], [], ps[n].callstack)
  {
    var front := samples[..|samples| - 1];
    if i == |front| {
      assert samples[..i] == front;
      FramesOnlyInTrace(front, trace, track);
    } else {
      assert front[..i] == samples[..i];
      SampleAt(front, trace, track, i);
    }
  }

  lemma {:induction false} SamplesOnTrack(s: Snapshot, trace: TraceInfo, k: nat, p: Path, first: nat)
    requires ItemAt(s, trace, k, p, first)
    ensures PacketsOn(Stream(s, trace), first + 1) == SamplesTrack(SEQUENCE_ID, s, trace, Last(p), first + 1)
  {
    hide Stream, PacketsOn, CoroutinePackets, OwnSlice, SamplesTrack, SuspensionPackets, FirstTrack, Emitted;
    StreamPiece(s, trace, k, p, first, 1);
    CoroutinePieces(s, trace, Last(p), Parent(p), first - 1);
  }

  /**
   The second track holds an instant for each of the coroutine's own processed samples that
   has frames, in order, at its time, and with its frames if that lies in the trace.
   */
  lemma {:induction false} SampleOnTrack(s: Snapshot, trace: TraceInfo, k: nat, p: Path, first: nat, i: nat)
    requires ItemAt(s, trace, k, p, first) && p[|p| - 1] in s.processed
    requires i < |s.processed[p[|p| - 1]]| && s.processed[p[|p| - 1]][i].frames != []
    ensures var samples, ps := s.processed[p[|p| - 1]], PacketsOn(Stream(s, trace), first + 1);
      var n := 1 + NonEmptySamples(samples[..i]);
      && n < |ps|
      && ps[n].Event?
      && ShowsFrames(ps[n].callstack, samples[i].frames, trace.start <= samples[i].time <= trace.end)
      && ps[n] == Event(1, samples[i].time, Instant, "Stack trace", first + 1, [], [], ps[n].callstack)
  {
    hide Stream, SamplesPackets, ShowsFrames, FirstTrack, Emitted, NonEmptySamples, PacketsOn;
    SamplesOnTrack(s, trace, k, p, first);
    SampleAt(s.processed[Last(p)], trace, first + 1, i);
  }

  /** Nothing else is on that track: its descriptor, and as many instants as there are such samples. */
  lemma {:induction false} SamplesTrackSize(s: Snapshot, trace: TraceInfo, k: nat, p: Path, first: nat)
    requires ItemAt(s, trace, k, p, first)
    ensures var id, ps := p[|p| - 1], PacketsOn(Stream(s, trace), first + 1);
      && |ps| == 1 + NonEmptySamples(if id in s.processed then s.processed[id] else [])
      && ps[0] == Descriptor(1, "Samples", first + 1)
  {
    hide Stream, PacketsOn, SamplesPackets, FirstTrack, Emitted, NonEmptySamples;
    SamplesOnTrack(s, trace, k, p, first);
    FramesOnlyInTrace(SamplesOf(s.processed, Last(p)), trace, first + 1);
  }

  /**
   The three packets of a suspension's track: from its start to its end or, while it is open,
   to the end of the trace, with its frames on the end.
   */
  predicate ShowsSuspension(ps: seq<Packet>, ss: Suspension, id: Id, traceEnd: Time, t: nat) {
    && |ps| == 3
    && ps[0] == Descriptor(1, "coroutine#" + Decimal.ToString(id), t)
    && ps[1] == Event(1, ss.start, SliceBegin, "Suspension", t, [], [], [])
    && ps[2].Event? && ShowsFrames(ps[2].callstack, ss.frames, true)
    && ps[2] == Event(1, if ss.end != 0 then ss.end else traceEnd, SliceEnd, "", t, [], [], ps[2].callstack)
  }

  lemma {:induction false} SuspensionPacketsShow(ss: Suspension, id: Id, traceEnd: Time, t: nat)
    ensures ShowsSuspension(SuspensionPackets(SEQUENCE_ID, ss, CoroutineName(id), traceEnd, t), ss, id, traceEnd, t)
  {
  }

  /** The tracks after that hold the coroutine's suspensions, in order. */
  lemma {:induction false} SuspensionOnTrack(s: Snapshot, trace: TraceInfo, k: nat, p: Path, first: nat, j: nat)
    requires ItemAt(s, trace, k, p, first) && j < |s.infos[p[|p| - 1]].suspensions|
    ensures var id, t := p[|p| - 1], first + 2 + j;
      ShowsSuspension(PacketsOn(Stream(s, trace), t), s.infos[id].suspensions[j], id, trace.end, t)
  {
    hide Stream, PacketsOn, CoroutinePackets, ShowsSuspension, OwnSlice, SamplesTrack, SuspensionPackets,
      FirstTrack, Emitted;
    StreamPiece(s, trace, k, p, first, 2 + j);
    CoroutinePieces(s, trace, Last(p), Parent(p), first - 1);
    assert first - 1 + 3 + j == first + 2 + j;
    SuspensionPacketsShow(s.infos[Last(p)].suspensions[j], Last(p), trace.end, first + 2 + j);
  }
}
