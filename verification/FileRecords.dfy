/** Which trace files a run writes, and what they hold, read off the events of the run. */
module FileRecords {
  import opened Records
  import opened Lifecycle

  /** Whether a coroutine is being traced; `Stray` after the end of a trace that was not started. */
  datatype Status = NotTraced | TracedSince(at: Time) | Stray

  /** The coroutine that a trace event is about: the calling thread's own id for a plain function. */
  function About(e: Event): Id
    requires e.TraceStarted? || e.TraceEnded?
  {
    if e.id == -2 then e.self else e.id
  }

  /** The end of a stray trace, or of one that was not started, takes the entry of coroutine 0 away. */
  function StatusOf(threshold: Time, es: seq<Event>, c: Id): Status {
    if es == [] then NotTraced else
    var front, e := es[..|es| - 1], es[|es| - 1];
    var before := StatusOf(threshold, front, c);
    if e.TraceStarted? && About(e) == c && before.NotTraced? then TracedSince(e.begun)
    else if e.TraceEnded? && About(e) in Run(Init(threshold), front).infos then
      if About(e) == c then if before.TracedSince? || c == 0 then NotTraced else Stray
      else if c == 0 && !StatusOf(threshold, front, About(e)).TracedSince? then NotTraced
      else before
    else before
  }

  predicate Agrees(ongoing: map<Id, TraceInfo>, c: Id, status: Status) {
    match status
    case NotTraced => c !in ongoing
    case TracedSince(at) => c in ongoing && ongoing[c] == TraceInfo(c, at, 0)
    case Stray => c in ongoing && ongoing[c] == TraceInfo(0, 0, 0)
  }

  lemma {:induction false} OngoingStep(s: State, e: Event, c: Id, status: Status, other: Status)
    requires Agrees(s.ongoing, c, status) && (c == 0 ==> !status.Stray?)
    requires e.TraceEnded? ==> Agrees(s.ongoing, About(e), other) && (About(e) == 0 ==> !other.Stray?)
    ensures Agrees(Step(s, e).ongoing, c,
      if e.TraceStarted? && About(e) == c && status.NotTraced? then TracedSince(e.begun)
      else if e.TraceEnded? && About(e) in s.infos then
        if About(e) == c then if status.TracedSince? || c == 0 then NotTraced else Stray
        else if c == 0 && !other.TracedSince? then NotTraced
        else status
      else status)
  {
    assert Step(s, e).ongoing == OngoingAfter(s, e);
  }

  lemma {:induction false} NeverStrayZero(threshold: Time, es: seq<Event>)
    ensures !StatusOf(threshold, es, 0).Stray?
  {
    hide Run;
    if es != [] { NeverStrayZero(threshold, es[..|es| - 1]); }
  }

  /** In every run the map of ongoing traces holds exactly what the starts and ends so far say. */
  lemma {:induction false} OngoingExact(threshold: Time, es: seq<Event>, c: Id)
    ensures Agrees(Run(Init(threshold), es).ongoing, c, StatusOf(threshold, es, c))
  {
    hide Step, Agrees;
    if es == [] {
      NothingOngoing(threshold, c);
    } else {
      var front, e := es[..|es| - 1], es[|es| - 1];
      OngoingExact(threshold, front, c);
      NeverStrayZero(threshold, front);
      var other := NotTraced;
      if e.TraceEnded? {
        OngoingExact(threshold, front, About(e));
        other := StatusOf(threshold, front, About(e));
      }
      OngoingStep(Run(Init(threshold), front), e, c, StatusOf(threshold, front, c), other);
    }
  }

  lemma {:induction false} NothingOngoing(threshold: Time, c: Id)
    ensures Agrees(Init(threshold).ongoing, c, NotTraced)
  {
  }

  lemma {:induction false} ThresholdKept(threshold: Time, es: seq<Event>)
    ensures Run(Init(threshold), es).threshold == threshold
  {
    if es != [] { ThresholdKept(threshold, es[..|es| - 1]); }
  }

  /** The file that the end of a trace writes. */
  ghost predicate Writes(s: State, e: Event, status: Status, f: TraceFile)
    requires e.TraceEnded?
  {
    && f.number == s.outputCounter
    && f.trace == (if status.TracedSince? then TraceInfo(About(e), status.at, e.finished)
      else TraceInfo(0, 0, e.finished))
    && f.content.infos == Step(s, e).infos && f.content.children == s.children && f.content.processed == s.processed
    && |f.content.gcEvents| == |s.gc|
    && forall i :: 0 <= i < |s.gc| && s.gc[i] < |s.gcStore| ==> f.content.gcEvents[i] == s.gcStore[s.gc[i]]
  }

  /** Such an end is long enough, and its coroutine has an info. */
  predicate IsWritten(s: State, e: Event, status: Status, threshold: Time) {
    && e.TraceEnded?
    && About(e) in s.infos
    && e.finished - (if status.TracedSince? then status.at else 0) > threshold
  }

  lemma {:induction false} WrittenStep(s: State, e: Event, status: Status)
    requires e.TraceEnded? ==> Agrees(s.ongoing, About(e), status)
    ensures IsWritten(s, e, status, s.threshold) ==>
      |Step(s, e).files| == |s.files| + 1 && Step(s, e).files[..|s.files|] == s.files
      && Writes(s, e, status, Step(s, e).files[|s.files|])
    ensures !IsWritten(s, e, status, s.threshold) ==> Step(s, e).files == s.files
  {
    hide InfosAfter;
    assert Step(s, e).files == FilesAfter(s, e) && Step(s, e).infos == InfosAfter(s, e);
  }

  /**
   After every run: an event writes a file exactly if it ends a trace of a coroutine that has
   an info and the trace, from the reading of its start (or from 0 if it was not started) to
   that of its end, is longer than the threshold; the file holds that trace and the storage
   with the charge of the end made.
   */
  lemma {:induction false} FilesExact(threshold: Time, es: seq<Event>, e: Event)
    ensures var s := Run(Init(threshold), es);
      var status := if e.TraceEnded? then StatusOf(threshold, es, About(e)) else NotTraced;
      if IsWritten(s, e, status, threshold) then
        |Step(s, e).files| == |s.files| + 1 && Step(s, e).files[..|s.files|] == s.files
        && Writes(s, e, status, Step(s, e).files[|s.files|])
      else Step(s, e).files == s.files
  {
    hide Run, Step, StatusOf, Writes, Agrees;
    ThresholdKept(threshold, es);
    var status := if e.TraceEnded? then StatusOf(threshold, es, About(e)) else NotTraced;
    if e.TraceEnded? { OngoingExact(threshold, es, About(e)); }
    WrittenStep(Run(Init(threshold), es), e, status);
  }
}
