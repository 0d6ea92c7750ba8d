/** The step function of `Lifecycle` written out event by event, as changes of the state. */
module Steps {
  import opened Records
  import opened Lifecycle

  lemma {:induction false} CreatedStep(s: State, e: Event)
    requires e.Created?
    ensures var parent := CurrentOf(s, e.tid);
      Step(s, e) == s.(
        infos := WithInfo(s.infos, e.id, e.start, e.resumed),
        children := if parent !in s.children then s.children else
                    WithList(s.children[parent := s.children[parent] + [e.id]], e.id))
  {
  }

  lemma {:induction false} CoroutineStep(s: State, e: Event)
    requires e.Suspended? || e.Resumed? || e.Completed?
    ensures var current := s.current[e.tid := if e.Resumed? then e.id else NOT_FOUND];
      Step(s, e) == if e.id !in s.infos then s.(current := current) else s.(
        current := current,
        infos := s.infos[e.id :=
          match e
          case Suspended(_, _, _, charged, began, stack) => Suspend(s.infos[e.id], charged,
            Spent(s, e.tid, e.usage), began, stack)
          case Resumed(_, _, _, resumed, ended) => Resume(s.infos[e.id], resumed, ended)
          case Completed(_, _, _, ended, charged) => Complete(s.infos[e.id], ended, charged, Spent(s, e.tid, e.usage))],
        rusage := if e.Suspended? && s.infos[e.id].lastResume <= 0 then s.rusage else s.rusage[e.tid := e.usage])
  {
    hide Suspend, Resume, Complete;
  }

  lemma {:induction false} TraceStartedStep(s: State, e: Event)
    requires e.TraceStarted?
    ensures var c := Traced(e.id, e.self);
      Step(s, e) == s.(
        infos := if e.id == PLAIN_FUNCTION then WithInfo(s.infos, e.self, e.start, e.resumed) else s.infos,
        children := WithList(s.children, c),
        ongoing := if c in s.ongoing then s.ongoing else s.ongoing[c := TraceInfo(c, e.begun, 0)],
        traces := s.traces[e.tid := CountOf(s.traces, e.tid) + 1])
  {
  }

  /** The trace file that the end of a trace writes. */
  function WithFile(s: State, trace: TraceInfo): State {
    if trace.end - trace.start > s.threshold then
      s.(files := s.files + [TraceFile(s.outputCounter, trace,
        Snapshot(s.infos, s.children, s.processed, GcList(s.gc, s.gcStore)))],
         outputCounter := s.outputCounter + 1)
    else s
  }

  lemma {:induction false} TraceEndedStep(s: State, e: Event)
    requires e.TraceEnded?
    ensures var c, t := Traced(e.id, e.self), s.(traces := s.traces[e.tid := CountOf(s.traces, e.tid) - 1]);
      Step(s, e) == if c !in s.infos then t else
        var trace := OngoingAt(s.ongoing, c).(end := e.finished);
        WithFile(t.(infos := s.infos[c := Charge(s.infos[c], e.charged, Spent(s, e.tid, e.usage))],
                    rusage := s.rusage[e.tid := e.usage],
                    ongoing := s.ongoing[c := OngoingAt(s.ongoing, c)] - {trace.coroutineId}), trace)
  {
    hide Charge, GcList, Difference;
  }

  lemma {:induction false} GcStartedStep(s: State, e: Event)
    requires e.GcStarted?
    ensures Step(s, e) == s.(gc := s.gc + [|s.gcStore|], gcStore := s.gcStore + [GcEvent(e.at, 0)])
  {
  }

  lemma {:induction false} GcFinishedStep(s: State, now: Time)
    requires s.gc != []
    ensures var last := s.gc[|s.gc| - 1];
      Step(s, GcFinished(now)) == s.(
        gc := s.gc[1..] + [last],
        gcStore := if last < |s.gcStore| then s.gcStore[last := s.gcStore[last].(end := now)] else s.gcStore)
  {
  }

  lemma {:induction false} RunFour(s: State, a: Event, b: Event, c: Event, d: Event)
    ensures Run(s, [a, b, c, d]) == Step(Step(Step(Step(s, a), b), c), d)
  {
    hide Step;
    assert [] + [a] == [a] && [a] + [b] == [a, b] && [a, b] + [c] == [a, b, c] && [a, b, c] + [d] == [a, b, c, d];
    assert Run(s, []) == s;
    RunOneMore(s, [], a);
    RunOneMore(s, [a], b);
    RunOneMore(s, [a, b], c);
    RunOneMore(s, [a, b, c], d);
  }

  lemma {:induction false} NothingRun(s: State)
    ensures Run(s, []) == s
  {
  }

  lemma {:induction false} RunOneMore(s: State, es: seq<Event>, e: Event)
    ensures Run(s, es + [e]) == Step(Run(s, es), e)
  {
    assert (es + [e])[..|es|] == es;
  }
}
