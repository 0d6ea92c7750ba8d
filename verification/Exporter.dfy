/**
 `write_perfetto` and its helpers as they run: packets are appended and the
 track counter is incremented in place, and a queue drives the traversal.
 */
module Exporter {
  import opened Records
  import opened Packets
  import opened Traversal
  import opened Export

  datatype QueueItem = QueueItem(coroutineId: Id, parentCoroutineId: Id)

  ghost predicate Represents(items: seq<QueueItem>, paths: seq<Path>) {
    |items| == |paths|
    && forall k :: 0 <= k < |paths| ==> |paths[k]| > 0 && items[k] == QueueItem(Last(paths[k]), Parent(paths[k]))
  }

  lemma {:induction false} NoSamples(sid: nat, trace: TraceInfo, track: nat)
    ensures SamplesPackets(sid, [], trace, track) == []
  {
  }

  lemma {:induction false} NothingShown(sid: nat, s: Snapshot, trace: TraceInfo, counter: nat)
    ensures TrackCount(s, []) == 0 && ItemsPackets(sid, s, trace, [], counter) == []
  {
  }

  lemma {:induction false} TraverseUnfold(s: Snapshot, root: Id, paths: seq<Path>, visited: set<Id>)
    requires |paths| > 0 && ValidQueue(s, root, paths, visited)
    ensures |paths[0]| > 0
    ensures var rest, now := Advance(s, paths, visited), visited + {Last(paths[0])};
      && ValidQueue(s, root, rest, now)
      && QueueWeight(s, rest) < QueueWeight(s, paths)
      && Traverse(s, root, paths, visited)
         == if Last(paths[0]) in s.infos then [paths[0]] + Traverse(s, root, rest, now)
           else Traverse(s, root, rest, now)
  {
    hide QueueWeight, Advance, Item;
    AdvanceValid(s, root, paths, visited);
    assert Item(s, root, paths[0], visited);
    ItemNotEmpty(s, root, paths[0], visited);
  }

  lemma {:induction false} ItemNotEmpty(s: Snapshot, root: Id, p: Path, visited: set<Id>)
    requires Item(s, root, p, visited)
    ensures |p| > 0
  {
  }

  lemma {:induction false} ShowOne(done: seq<Path>, p: Path, rest: seq<Path>)
    ensures done + ([p] + rest) == done + [p] + rest
  {
  }

  /** What one turn of the loop does to the queue. */
  lemma {:induction false} TurnOfTraversal(s: Snapshot, root: Id, paths: seq<Path>, visited: set<Id>, done: seq<Path>)
    requires |paths| > 0 && ValidQueue(s, root, paths, visited)
    ensures |paths[0]| > 0
    ensures var p := paths[0];
      var rest, now := Advance(s, paths, visited), visited + {Last(p)};
      && ValidQueue(s, root, rest, now)
      && QueueWeight(s, rest) < QueueWeight(s, paths)
      && done + Traverse(s, root, paths, visited)
         == (if Last(p) in s.infos then done + [p] else done) + Traverse(s, root, rest, now)
  {
    hide QueueWeight, Traverse, Advance, ValidQueue;
    TraverseUnfold(s, root, paths, visited);
    ShowOne(done, paths[0], Traverse(s, root, Advance(s, paths, visited), visited + {Last(paths[0])}));
  }

  /** What showing one more item adds to the stream. */
  lemma {:induction false} ItemsAppend(sid: nat, s: Snapshot, trace: TraceInfo, done: seq<Path>, p: Path, counter: nat)
    requires Showable(s, done) && |p| > 0 && Last(p) in s.infos
    ensures Showable(s, done + [p])
    ensures TrackCount(s, done + [p]) == TrackCount(s, done) + TracksOf(s, Last(p))
    ensures ItemsPackets(sid, s, trace, done + [p], counter) == ItemsPackets(sid, s, trace, done, counter)
              + CoroutinePackets(sid, s, trace, Last(p), Parent(p), counter + TrackCount(s, done))
  {
    hide CoroutinePackets, TracksOf;
    assert (done + [p])[..|done|] == done;
  }

  lemma {:induction false} GcAppend(sid: nat, events: seq<GcEvent>, e: GcEvent, counter: nat)
    ensures GcPackets(sid, events + [e], counter) == GcPackets(sid, events, counter)
      + GcSlice(sid, e, counter + |events| + 1)
  {
    assert (events + [e])[..|events|] == events;
  }

  lemma {:induction false} EndOfTraversal(s: Snapshot, root: Id, visited: set<Id>, done: seq<Path>)
    ensures done + Traverse(s, root, [], visited) == done
  {
  }

  /** One more child looked at. */
  lemma {:induction false} PushedOneMore(paths: seq<Path>, p: Path, kids: seq<Id>, i: nat, visited: set<Id>)
    requires |p| > 0 && i < |kids|
    ensures var before := paths + Pushed(p, kids[..i], visited);
      paths + Pushed(p, kids[..i + 1], visited) == if kids[i] in visited then before else before + [p + [kids[i]]]
  {
    assert kids[..i + 1][..i] == kids[..i];
    assert Last(kids[..i + 1]) == kids[i];
    var pushed := Pushed(p, kids[..i], visited);
    if kids[i] in visited {
      assert pushed + [] == pushed;
    } else {
      AppendOne(paths, pushed, p + [kids[i]]);
    }
  }

  lemma {:induction false} NothingPushed(p: Path, visited: set<Id>, paths: seq<Path>)
    requires |p| > 0
    ensures paths + Pushed(p, [], visited) == paths
  {
  }

  lemma {:induction false} AppendOne(a: seq<Path>, b: seq<Path>, q: Path)
    ensures a + (b + [q]) == a + b + [q]
  {
  }

  lemma {:induction false} RepresentsOneMore(items: seq<QueueItem>, paths: seq<Path>, p: Path, v: Id)
    requires Represents(items, paths) && |p| > 0
    ensures Represents(items + [QueueItem(v, Last(p))], paths + [p + [v]])
  {
    var q := p + [v];
    assert Last(q) == v && Parent(q) == Last(p);
  }

  /** Where the loop is: `done` have been shown, and the queue stands for `paths`. */
  ghost predicate AtTurn(s: Snapshot, root: Id, coroutines: seq<QueueItem>, paths: seq<Path>, visited: set<Id>,
                         done: seq<Path>)
  {
    && Represents(coroutines, paths)
    && ValidQueue(s, root, paths, visited)
    && Emitted(s, root) == done + Traverse(s, root, paths, visited)
  }

  lemma {:induction false} FirstTurn(s: Snapshot, root: Id)
    ensures AtTurn(s, root, [QueueItem(root, 0)], [[root]], {}, [])
  {
    hide Traverse;
  }

  lemma {:induction false} LastTurn(s: Snapshot, root: Id, paths: seq<Path>, visited: set<Id>, done: seq<Path>)
    requires AtTurn(s, root, [], paths, visited, done)
    ensures done == Emitted(s, root)
  {
    hide Emitted;
    assert paths == [];
    EndOfTraversal(s, root, visited, done);
  }

  lemma {:induction false} HeadOfQueue(s: Snapshot, root: Id, coroutines: seq<QueueItem>, paths: seq<Path>,
                                       visited: set<Id>, done: seq<Path>)
    requires AtTurn(s, root, coroutines, paths, visited, done) && coroutines != []
    ensures |paths| > 0 && |paths[0]| > 0 && coroutines[0] == QueueItem(Last(paths[0]), Parent(paths[0]))
    ensures Represents(coroutines[1..], paths[1..])
    ensures QueueWeight(s, Advance(s, paths, visited)) < QueueWeight(s, paths)
  {
    hide Traverse, Advance, QueueWeight, Emitted;
    AdvanceValid(s, root, paths, visited);
  }

  lemma {:induction false} NextTurn(s: Snapshot, root: Id, paths: seq<Path>, visited: set<Id>, done: seq<Path>,
                                    before: seq<QueueItem>, after: seq<QueueItem>)
    requires AtTurn(s, root, before, paths, visited, done) && |paths| > 0 && |paths[0]| > 0
    requires var p := paths[0];
      Represents(after, if Last(p) in s.infos then paths[1..] + Pushed(p, Children(s, Last(p)), visited + {Last(p)})
                        else paths[1..])
    ensures var p := paths[0];
      AtTurn(s, root, after, Advance(s, paths, visited), visited + {Last(p)},
             if Last(p) in s.infos then done + [p] else done)
  {
    hide Traverse, QueueWeight, Emitted, Represents, Pushed, Linked, Simple;
    TurnOfTraversal(s, root, paths, visited, done);
  }

  class TraceWriter {
    var packets: seq<Packet>
    var trackCounter: nat

    constructor ()
      ensures packets == [] && trackCounter == 0
    {
      packets := [];
      trackCounter := 0;
    }

    method AddSuspension(suspension: Suspension, name: string, sequenceId: nat, traceEnd: Time)
      modifies this
      ensures trackCounter == old(trackCounter) + 1
      ensures packets == old(packets) + SuspensionPackets(sequenceId, suspension, name, traceEnd, trackCounter)
    {
      trackCounter := trackCounter + 1;
      var trackId := trackCounter;
      packets := packets + [Descriptor(sequenceId, name, trackId)];
      packets := packets + [Event(sequenceId, suspension.start, SliceBegin, "Suspension", trackId, [], [], [])];
      var end := traceEnd;
      if suspension.end != 0 {
        end := suspension.end;
      }
      packets := packets + [Event(sequenceId, end, SliceEnd, NO_EVENT_NAME, trackId, [], [],
        FrameNames(suspension.frames))];
    }

    method AddSuspensions(suspensions: seq<Suspension>, name: string, sequenceId: nat, traceEnd: Time)
      modifies this
      ensures trackCounter == old(trackCounter) + |suspensions|
      ensures packets == old(packets) + SuspensionsPackets(sequenceId, suspensions, name, traceEnd, old(trackCounter))
    {
      assert suspensions[..0] == [];
      for i := 0 to |suspensions|
        invariant trackCounter == old(trackCounter) + i
        invariant packets == old(packets)
          + SuspensionsPackets(sequenceId, suspensions[..i], name, traceEnd, old(trackCounter))
      {
        assert suspensions[..i + 1][..i] == suspensions[..i];
        AddSuspension(suspensions[i], name, sequenceId, traceEnd);
      }
      assert suspensions[..|suspensions|] == suspensions;
    }

    method AddSample(sample: Sample, trace: TraceInfo, sequenceId: nat, trackId: nat)
      modifies this
      ensures trackCounter == old(trackCounter)
      ensures packets == old(packets) + SamplePackets(sequenceId, sample, trace, trackId)
    {
      if |sample.frames| > 0 {
        var callstack := [];
        for k := 0 to |sample.frames|
          invariant callstack == if trace.start <= sample.time <= trace.end then FrameNames(sample.frames)[..k] else []
        {
          if sample.time >= trace.start && sample.time <= trace.end {
            callstack := callstack + [sample.frames[k].base + ":" + sample.frames[k].frame];
          }
        }
        assert FrameNames(sample.frames)[..|sample.frames|] == FrameNames(sample.frames);
        packets := packets + [Event(sequenceId, sample.time, Instant, "Stack trace", trackId, [], [], callstack)];
      }
    }

    method AddCallStack(samples: seq<Sample>, trace: TraceInfo, sequenceId: nat, trackId: nat)
      modifies this
      ensures trackCounter == old(trackCounter)
      ensures packets == old(packets) + SamplesPackets(sequenceId, samples, trace, trackId)
    {
      hide SamplePackets;
      assert samples[..0] == [];
      for i := 0 to |samples|
        invariant trackCounter == old(trackCounter)
        invariant packets == old(packets) + SamplesPackets(sequenceId, samples[..i], trace, trackId)
      {
        assert samples[..i + 1][..i] == samples[..i];
        AddSample(samples[i], trace, sequenceId, trackId);
      }
      assert samples[..|samples|] == samples;
    }

    method AddGcEvent(e: GcEvent, sequenceId: nat)
      modifies this
      ensures trackCounter == old(trackCounter) + 1
      ensures packets == old(packets) + GcSlice(sequenceId, e, trackCounter)
    {
      trackCounter := trackCounter + 1;
      var trackId := trackCounter;
      packets := packets + [Descriptor(sequenceId, "GC", trackId)];
      packets := packets + [Event(sequenceId, e.start, SliceBegin, "GC", trackId, [], [], [])];
      packets := packets + [Event(sequenceId, e.end, SliceEnd, NO_EVENT_NAME, trackId, [], [], [])];
    }

    method AddGcInfo(trace: TraceInfo, s: Snapshot, sequenceId: nat)
      modifies this
      ensures trackCounter == old(trackCounter) + |SelectedGc(s.gcEvents, trace)|
      ensures packets == old(packets) + GcPackets(sequenceId, SelectedGc(s.gcEvents, trace), old(trackCounter))
    {
      hide GcSlice;
      assert s.gcEvents[..0] == [];
      for i := 0 to |s.gcEvents|
        invariant trackCounter == old(trackCounter) + |SelectedGc(s.gcEvents[..i], trace)|
        invariant packets == old(packets) + GcPackets(sequenceId, SelectedGc(s.gcEvents[..i], trace), old(trackCounter))
      {
        ghost var selected := SelectedGc(s.gcEvents[..i], trace);
        assert s.gcEvents[..i + 1][..i] == s.gcEvents[..i];
        var e := s.gcEvents[i];
        assert SelectedGc(s.gcEvents[..i + 1], trace) == if InTrace(e, trace) then selected + [e] else selected;
        if e.start >= trace.start && e.end <= trace.end {
          AddGcEvent(e, sequenceId);
          GcAppend(sequenceId, selected, e, old(trackCounter));
        }
      }
      assert s.gcEvents[..|s.gcEvents|] == s.gcEvents;
    }

    method AddOwnSlice(trace: TraceInfo, s: Snapshot, item: QueueItem, sequenceId: nat)
      requires item.coroutineId in s.infos
      modifies this
      ensures trackCounter == old(trackCounter) + 1
      ensures packets == old(packets) + OwnSlice(sequenceId, s, trace, item.coroutineId, item.parentCoroutineId,
        trackCounter)
    {
      hide Annotations, CoroutineName;
      var QueueItem(id, parent) := item;
      var info := s.infos[id];
      trackCounter := trackCounter + 1;
      var trackId := trackCounter;
      packets := packets + [Descriptor(sequenceId, CoroutineName(id), trackId)];
      var begin, flowIds, end := info.start, [parent, id], info.end;
      if parent == 0 {
        begin, flowIds, end := trace.start, [id], trace.end;
      }
      packets := packets + [Event(sequenceId, begin, SliceBegin, CoroutineName(id), trackId, flowIds,
        Annotations(info), [])];
      packets := packets + [Event(sequenceId, end, SliceEnd, NO_EVENT_NAME, trackId, [], [], [])];
    }

    /** The part of the loop of `add_trace_info` that emits packets for one queue item. */
    method AddCoroutine(trace: TraceInfo, s: Snapshot, item: QueueItem, sequenceId: nat)
      requires item.coroutineId in s.infos
      modifies this
      ensures trackCounter == old(trackCounter) + TracksOf(s, item.coroutineId)
      ensures packets == old(packets)
        + CoroutinePackets(sequenceId, s, trace, item.coroutineId, item.parentCoroutineId, old(trackCounter))
    {
      hide OwnSlice, SamplesPackets, SuspensionsPackets, CoroutineName;
      var id := item.coroutineId;
      AddOwnSlice(trace, s, item, sequenceId);
      ghost var own := packets;
      trackCounter := trackCounter + 1;
      packets := packets + [Descriptor(sequenceId, "Samples", trackCounter)];
      if id in s.processed {
        AddCallStack(s.processed[id], trace, sequenceId, trackCounter);
      } else {
        NoSamples(sequenceId, trace, trackCounter);
      }
      assert packets == own + SamplesTrack(sequenceId, s, trace, id, trackCounter);
      AddSuspensions(s.infos[id].suspensions, CoroutineName(id), sequenceId, trace.end);
    }

    method AddTraceInfo(trace: TraceInfo, s: Snapshot, sequenceId: nat)
      modifies this
      ensures trackCounter == old(trackCounter) + TrackCount(s, Emitted(s, trace.coroutineId))
      ensures packets == old(packets) + ItemsPackets(sequenceId, s, trace, Emitted(s, trace.coroutineId),
        old(trackCounter))
    {
      hide CoroutinePackets, TracksOf, ItemsPackets, TrackCount, QueueWeight, Advance, Pushed, Represents, AtTurn,
        Emitted;
      var coroutines := [QueueItem(trace.coroutineId, 0)];
      var visited: set<Id> := {};
      ghost var root, counter := trace.coroutineId, old(trackCounter);
      ghost var paths: seq<Path>, done: seq<Path> := [[root]], [];
      FirstTurn(s, root);
      NothingShown(sequenceId, s, trace, counter);
      while coroutines != []
        invariant AtTurn(s, root, coroutines, paths, visited, done) && Showable(s, done)
        invariant trackCounter == counter + TrackCount(s, done)
        invariant packets == old(packets) + ItemsPackets(sequenceId, s, trace, done, counter)
        decreases QueueWeight(s, paths)
      {
        HeadOfQueue(s, root, coroutines, paths, visited, done);
        ghost var p, before, seen := paths[0], coroutines, visited;
        var item := coroutines[0];
        visited := visited + {item.coroutineId};
        coroutines := coroutines[1..];
        if item.coroutineId in s.infos {
          AddCoroutine(trace, s, item, sequenceId);
          ItemsAppend(sequenceId, s, trace, done, p, counter);
          coroutines := PushChildren(s, item.coroutineId, coroutines, visited, p, paths[1..]);
          NextTurn(s, root, paths, seen, done, before, coroutines);
          done := done + [p];
        } else {
          NextTurn(s, root, paths, seen, done, before, coroutines);
        }
        paths := Advance(s, paths, seen);
      }
      LastTurn(s, root, paths, visited, done);
    }

    /** Appends the children of a coroutine that are not visited yet. */
    static method PushChildren(s: Snapshot, id: Id, coroutines: seq<QueueItem>, visited: set<Id>,
                               ghost p: Path, ghost paths: seq<Path>) returns (queue: seq<QueueItem>)
      requires |p| > 0 && Last(p) == id && Represents(coroutines, paths)
      ensures Represents(queue, paths + Pushed(p, Children(s, id), visited))
    {
      hide Pushed, Represents;
      queue := coroutines;
      NothingPushed(p, visited, paths);
      if id in s.children {
        var kids := s.children[id];
        assert kids[..0] == [];
        for i := 0 to |kids|
          invariant Represents(queue, paths + Pushed(p, kids[..i], visited))
        {
          PushedOneMore(paths, p, kids, i, visited);
          if kids[i] !in visited {
            RepresentsOneMore(queue, paths + Pushed(p, kids[..i], visited), p, kids[i]);
            queue := queue + [QueueItem(kids[i], id)];
          }
        }
        assert kids[..|kids|] == kids;
      }
    }

    /** The exported stream, up to its serialisation. */
    method WritePerfetto(trace: TraceInfo, s: Snapshot)
      requires packets == [] && trackCounter == 0
      modifies this
      ensures packets == Stream(s, trace) && trackCounter == StreamTracks(s, trace)
      ensures WellFormed(packets, trackCounter)
      ensures forall id :: id in CoroutinesIn(packets) <==> Reachable(s, trace.coroutineId, id)
    {
      hide GcPackets, ItemsPackets, SelectedGc, Fragment, TrackCount, CoroutinesIn, Reachable;
      trackCounter := trackCounter + 1;
      var trackId := trackCounter;
      packets := packets + [Descriptor(SEQUENCE_ID, "Trace", trackId)];
      packets := packets + [Event(SEQUENCE_ID, trace.start, SliceBegin, "Trace", trackId, [],
        [Annotation("Trace", 0)], [])];
      packets := packets + [Event(SEQUENCE_ID, trace.end, SliceEnd, NO_EVENT_NAME, trackId, [], [], [])];
      assert packets == TraceSlice(trace);
      AddGcInfo(trace, s, trackId);
      AddTraceInfo(trace, s, SEQUENCE_ID);
      StreamWellFormed(s, trace);
      forall id ensures id in CoroutinesIn(packets) <==> Reachable(s, trace.coroutineId, id) {
        StreamShowsReachable(s, trace, id);
      }
    }
  }
}
