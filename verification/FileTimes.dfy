/**
 Slices of the written trace files, in every run under a positive clock that
 never goes back: which of them begin before they end.
 */
module FileTimes {
  import opened Records
  import opened Lifecycle
  import opened Steps
  import opened Clock
  import opened WallTime
  import opened Packets
  import opened Traversal
  import opened Export

  /** A span that has begun by `now` and, if it has ended, ended after it began. */
  predicate Span(start: Time, end: Time, now: Time) {
    0 < start <= now && (end == 0 || start <= end <= now)
  }

  ghost predicate SuspensionSpans(ss: seq<Suspension>, now: Time) {
    forall k :: 0 <= k < |ss| ==> Span(ss[k].start, ss[k].end, now)
  }

  ghost predicate InfoSpans(info: CoroutineInfo, now: Time) {
    Span(info.start, info.end, now) && SuspensionSpans(info.suspensions, now)
  }

  ghost predicate AllInfoSpans(infos: map<Id, CoroutineInfo>, now: Time) {
    forall c :: c in infos ==> InfoSpans(infos[c], now)
  }

  ghost predicate GcSpans(gc: seq<nat>, store: seq<GcEvent>, now: Time) {
    && (forall k :: 0 <= k < |gc| ==> gc[k] < |store|)
    && (forall k :: 0 <= k < |store| ==> Span(store[k].start, store[k].end, now))
  }

  ghost predicate TraceSpans(ongoing: map<Id, TraceInfo>, now: Time) {
    forall c :: c in ongoing ==> 0 <= ongoing[c].start <= now
  }

  lemma {:induction false} LaterNow(info: CoroutineInfo, now: Time, later: Time)
    requires InfoSpans(info, now) && now <= later
    ensures InfoSpans(info, later)
  {
  }

  lemma {:induction false} LocalSpans(info: CoroutineInfo, e: Event, c: Id, now: Time, later: Time)
    requires InfoSpans(info, now) && 0 < now && After(e, now) && later == Max(Readings(e), now)
    ensures InfoSpans(Local(info, e, c), later)
  {
    LaterNow(info, now, later);
    match e {
      case Suspended(_, _, _, _, began, _) => assert Readings(e)[1] == began;
      case Resumed(_, _, _, _, ended) => assert Readings(e)[1] == ended;
      case Completed(_, _, _, ended, _) => assert Readings(e)[0] == ended;
      case _ =>
    }
  }

  lemma {:induction false} InfoSpansStep(s: State, e: Event, now: Time, later: Time)
    requires AllInfoSpans(s.infos, now) && 0 < now && After(e, now) && later == Max(Readings(e), now)
    ensures AllInfoSpans(Step(s, e).infos, later)
  {
    hide Step, Local, InfoSpans;
    forall c | c in Step(s, e).infos ensures InfoSpans(Step(s, e).infos[c], later) {
      StepLocal(s, e, c);
      if c in s.infos {
        TimesSpans(s.infos[c], now);
        LocalSpans(Times(s.infos[c]), e, c, now, later);
        TimesSpans(Step(s, e).infos[c], later);
      } else {
        NewInfoSpans(e, later);
      }
    }
  }

  lemma {:induction false} TimesSpans(info: CoroutineInfo, now: Time)
    ensures InfoSpans(Times(info), now) <==> InfoSpans(info, now)
  {
  }

  lemma {:induction false} NewInfoSpans(e: Event, later: Time)
    requires (e.Created? || e.TraceStarted?) && later > 0
    requires forall k :: 0 <= k < |Readings(e)| ==> 0 < Readings(e)[k] <= later
    ensures InfoSpans(NewInfo(e.start, e.resumed), later)
  {
    assert Readings(e)[0] == e.start;
  }

  lemma {:induction false} GcSpansStep(s: State, e: Event, now: Time, later: Time)
    requires GcSpans(s.gc, s.gcStore, now) && 0 < now && After(e, now) && later == Max(Readings(e), now)
    ensures GcSpans(Step(s, e).gc, Step(s, e).gcStore, later)
  {
    assert Step(s, e).gc == GcAfter(s, e) && Step(s, e).gcStore == GcStoreAfter(s, e);
    if e.GcStarted? || e.GcFinished? { assert Readings(e)[0] == e.at; }
  }

  lemma {:induction false} TraceSpansStep(s: State, e: Event, now: Time, later: Time)
    requires TraceSpans(s.ongoing, now) && 0 < now && After(e, now) && later == Max(Readings(e), now)
    ensures TraceSpans(Step(s, e).ongoing, later)
  {
    assert Step(s, e).ongoing == OngoingAfter(s, e);
    if e.TraceStarted? { assert Readings(e)[2] == e.begun; }
  }

  /** The content of a file at the end of its trace. */
  ghost predicate FileSpans(f: TraceFile) {
    && 0 <= f.trace.start <= f.trace.end
    && AllInfoSpans(f.content.infos, f.trace.end)
    && forall k :: 0 <= k < |f.content.gcEvents| ==>
         Span(f.content.gcEvents[k].start, f.content.gcEvents[k].end, f.trace.end)
  }

  lemma {:induction false} NewFileSpans(s: State, e: Event, now: Time)
    requires AllInfoSpans(s.infos, now) && GcSpans(s.gc, s.gcStore, now) && TraceSpans(s.ongoing, now)
    requires 0 < now && After(e, now) && Written(s, e).Some?
    ensures FileSpans(TraceFile(s.outputCounter, Written(s, e).value, Exported(s, e)))
  {
    hide InfosAfter, InfoSpans;
    assert e.TraceEnded? && Readings(e)[1] == e.finished && Written(s, e).value.end == e.finished;
    var f := TraceFile(s.outputCounter, Written(s, e).value, Exported(s, e));
    forall c | c in f.content.infos ensures InfoSpans(f.content.infos[c], e.finished) {
      InfoAtEnd(s, e, c);
      LaterNow(s.infos[c], now, e.finished);
    }
  }

  /** The end of a trace does not touch the spans. */
  lemma {:induction false} InfoAtEnd(s: State, e: Event, c: Id)
    requires e.TraceEnded? && c in InfosAfter(s, e)
    ensures c in s.infos
    ensures forall now: Time :: InfoSpans(InfosAfter(s, e)[c], now) <==> InfoSpans(s.infos[c], now)
  {
  }

  /** The spans hold in every state of every run, and in every file it writes. */
  lemma {:induction false} RunSpans(threshold: Time, es: seq<Event>, now: Time)
    requires now > 0 && Timed(es, now)
    ensures var s, t := Run(Init(threshold), es), Now(es, now);
      && AllInfoSpans(s.infos, t)
      && GcSpans(s.gc, s.gcStore, t)
      && TraceSpans(s.ongoing, t)
      && forall f :: f in s.files ==> FileSpans(f)
  {
    hide InfosAfter, AllInfoSpans, GcSpans, TraceSpans, FileSpans, Exported, After;
    if es == [] {
      InitSpans(threshold, now);
    } else {
      var front, e := es[..|es| - 1], es[|es| - 1];
      var s, before := Run(Init(threshold), front), Now(front, now);
      RunSpans(threshold, front, now);
      InfoSpansStep(s, e, before, Now(es, now));
      GcSpansStep(s, e, before, Now(es, now));
      TraceSpansStep(s, e, before, Now(es, now));
      if Written(s, e).Some? { NewFileSpans(s, e, before); }
      assert Run(Init(threshold), es).files == FilesAfter(s, e);
    }
  }

  lemma {:induction false} InitSpans(threshold: Time, now: Time)
    ensures AllInfoSpans(Init(threshold).infos, now) && GcSpans(Init(threshold).gc, Init(threshold).gcStore, now)
    ensures TraceSpans(Init(threshold).ongoing, now)
  {
  }

  /** Every shown coroutine but the traced one has completed, and so has every shown collection. */
  ghost predicate AllCompleted(s: Snapshot, trace: TraceInfo) {
    && (forall k :: 0 <= k < |Emitted(s, trace.coroutineId)| ==>
          var p := Emitted(s, trace.coroutineId)[k]; Parent(p) != 0 ==> s.infos[Last(p)].end != 0)
    && (forall k :: 0 <= k < |SelectedGc(s.gcEvents, trace)| ==> SelectedGc(s.gcEvents, trace)[k].end != 0)
  }

  lemma {:induction false} SelectedAmong(events: seq<GcEvent>, trace: TraceInfo)
    ensures forall e :: e in SelectedGc(events, trace) ==> e in events
  {
    if events != [] { SelectedAmong(events[..|events| - 1], trace); }
  }

  lemma {:induction false} ItemOrderedIff(s: Snapshot, trace: TraceInfo, p: Path)
    requires |p| > 0 && Last(p) in s.infos && InfoSpans(s.infos[Last(p)], trace.end) && trace.start <= trace.end
    ensures ItemOrdered(s, trace, p) <==> (Parent(p) != 0 ==> s.infos[Last(p)].end != 0)
  {
    var ss := s.infos[Last(p)].suspensions;
    assert SuspensionsOrdered(ss, trace.end) by {
      assert forall k :: 0 <= k < |ss| ==> Span(ss[k].start, ss[k].end, trace.end);
    }
  }

  lemma {:induction false} StreamOrderedIff(f: TraceFile)
    requires FileSpans(f)
    ensures StreamOrdered(f.content, f.trace) <==> AllCompleted(f.content, f.trace)
  {
    hide ItemOrdered, InfoSpans, Emitted;
    var s, trace := f.content, f.trace;
    var items := Emitted(s, trace.coroutineId);
    forall k | 0 <= k < |items|
      ensures ItemOrdered(s, trace, items[k]) <==> (Parent(items[k]) != 0 ==> s.infos[Last(items[k])].end != 0)
    {
      assert items[k] in items;
      ItemOrderedIff(s, trace, items[k]);
    }
    SelectedAmong(s.gcEvents, trace);
    var gc := SelectedGc(s.gcEvents, trace);
    forall k | 0 <= k < |gc| ensures gc[k].start <= gc[k].end <==> gc[k].end != 0 {
      assert gc[k] in s.gcEvents;
    }
  }

  /**
   In every file of every run all slices begin no later than they end, whether
   suspensions have ended or not, exactly if no shown child coroutine and no shown
   collection is unfinished: those are written with end 0.
   */
  lemma {:induction false} FileSlicesOrderedIff(threshold: Time, es: seq<Event>, now: Time, f: TraceFile)
    requires now > 0 && Timed(es, now) && f in Run(Init(threshold), es).files
    ensures SlicesOrdered(Stream(f.content, f.trace)) <==> AllCompleted(f.content, f.trace)
    ensures WellFormed(Stream(f.content, f.trace), StreamTracks(f.content, f.trace))
  {
    hide Step, SlicesOrdered, Stream, StreamTracks, Fragment, AllCompleted, StreamOrdered;
    RunSpans(threshold, es, now);
    StreamOrderedIff(f);
    StreamWellFormed(f.content, f.trace);
  }

  // ---------- files with unfinished records ----------

  /** A shown child that has not ended makes a slice that ends before it begins. */
  lemma {:induction false} UnfinishedChild(s: Snapshot, trace: TraceInfo, id: Id)
    requires Reachable(s, trace.coroutineId, id) && id != trace.coroutineId && 0 !in s.children
    requires id in s.infos && s.infos[id].end == 0 < s.infos[id].start
    ensures !SlicesOrdered(Stream(s, trace))
  {
    hide Stream, SlicesOrdered, Reachable;
    var root, items := trace.coroutineId, Emitted(s, trace.coroutineId);
    ShownIffReachable(s, root, id);
    TraverseSound(s, root, [[root]], {});
    var p :| p in items && |p| > 0 && Last(p) == id;
    assert Edge(s, p[|p| - 2], p[|p| - 1]);
    var k :| 0 <= k < |items| && items[k] == p;
    assert !ItemOrdered(s, trace, items[k]);
    StreamWellFormed(s, trace);
  }

  /** A coroutine is created and traced. */
  ghost function TracedState(): State {
    Init(0).(infos := map[5 := NewInfo(1, 1)], children := map[5 := []], ongoing := map[5 := TraceInfo(5, 2, 0)],
      traces := map[0 := 1])
  }

  lemma {:induction false} TracedRun()
    ensures Run(Init(0), [Created(0, 5, 1, 1), TraceStarted(0, 5, 0, 2, 2, 2)]) == TracedState()
  {
    hide Step, Run;
    var e, f := Created(0, 5, 1, 1), TraceStarted(0, 5, 0, 2, 2, 2);
    NothingRun(Init(0));
    RunOneMore(Init(0), [], e);
    RunOneMore(Init(0), [e], f);
    assert [] + [e] == [e] && [e] + [f] == [e, f];
    CreatedStep(Init(0), e);
    TraceStartedStep(Step(Init(0), e), f);
  }

  lemma {:induction false} ParentRun(usage: Rusage)
    ensures var s := Run(Init(0),
      [Created(0, 5, 1, 1), TraceStarted(0, 5, 0, 2, 2, 2), Resumed(0, 5, usage, 3, 3), Created(0, 6, 4, 4)]);
      && s.threshold == 0 && s.files == [] && s.ongoing == map[5 := TraceInfo(5, 2, 0)]
      && s.children == map[5 := [6], 6 := []]
      && s.infos.Keys == {5, 6} && s.infos[6] == NewInfo(4, 4)
  {
    hide Step, Run, Resume;
    var a, b, c, d := Created(0, 5, 1, 1), TraceStarted(0, 5, 0, 2, 2, 2), Resumed(0, 5, usage, 3, 3),
      Created(0, 6, 4, 4);
    var s := TracedState();
    TracedRun();
    RunOneMore(Init(0), [a, b], c);
    RunOneMore(Init(0), [a, b] + [c], d);
    assert [a, b] + [c] + [d] == [a, b, c, d];
    CoroutineStep(s, c);
    CreatedStep(Step(s, c), d);
    assert [] + [6] == [6];
  }

  /** A trace that ends while a child coroutine is alive writes the child with end 0. */
  lemma {:induction false} UnfinishedChildWritten(usage: Rusage)
    ensures var es := [Created(0, 5, 1, 1), TraceStarted(0, 5, 0, 2, 2, 2), Resumed(0, 5, usage, 3, 3),
      Created(0, 6, 4, 4)];
      var files := Run(Init(0), es + [TraceEnded(0, 5, 0, usage, 10, 10)]).files;
      && |files| == 1
      && 6 in CoroutinesIn(Stream(files[0].content, files[0].trace))
      && 6 in files[0].content.infos && files[0].content.infos[6].end == 0
      && !SlicesOrdered(Stream(files[0].content, files[0].trace))
  {
    hide Step, Run, Stream, CoroutinesIn, SlicesOrdered, Charge, GcList;
    var es := [Created(0, 5, 1, 1), TraceStarted(0, 5, 0, 2, 2, 2), Resumed(0, 5, usage, 3, 3), Created(0, 6, 4, 4)];
    var e := TraceEnded(0, 5, 0, usage, 10, 10);
    var s := Run(Init(0), es);
    ParentRun(usage);
    RunOneMore(Init(0), es, e);
    TraceEndedStep(s, e);
    var file := Step(s, e).files[0];
    assert InfoPath(file.content, 5, [5, 6], 6);
    StreamShowsReachable(file.content, file.trace, 6);
    UnfinishedChild(file.content, file.trace, 6);
  }

  /** A trace that ends during a collection writes the collection with end 0. */
  lemma {:induction false} UnfinishedCollectionWritten(usage: Rusage)
    ensures var es := [Created(0, 5, 1, 1), TraceStarted(0, 5, 0, 2, 2, 2), GcStarted(3),
      TraceEnded(0, 5, 0, usage, 10, 10)];
      var files := Run(Init(0), es).files;
      && |files| == 1
      && SelectedGc(files[0].content.gcEvents, files[0].trace) == [GcEvent(3, 0)]
      && !SlicesOrdered(Stream(files[0].content, files[0].trace))
  {
    hide Step, Run, Stream, SlicesOrdered;
    var a, b, c, d := Created(0, 5, 1, 1), TraceStarted(0, 5, 0, 2, 2, 2), GcStarted(3),
      TraceEnded(0, 5, 0, usage, 10, 10);
    TracedRun();
    RunOneMore(Init(0), [a, b], c);
    RunOneMore(Init(0), [a, b] + [c], d);
    assert [a, b] + [c] + [d] == [a, b, c, d];
    var s3 := Step(TracedState(), c);
    GcStartedStep(TracedState(), c);
    TraceEndedStep(s3, d);
    var file := Step(s3, d).files[0];
    assert file.content.gcEvents == [GcEvent(3, 0)];
    assert [GcEvent(3, 0)][..0] == [];
    StreamWellFormed(file.content, file.trace);
  }
}
