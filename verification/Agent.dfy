/** The theorems about runs, for the profiler object that has handled the events of a run. */
module Agent {
  import opened Basics
  import opened Records
  import opened Lifecycle
  import opened Clock
  import opened GcEvents
  import opened Profiling
  import opened ChildForest
  import opened TraceCounts
  import opened FileTimes
  import opened Packets
  import opened Export

  /**
   Lets a new profiler handle any well-defined events. With fresh ids each file shows every
   reachable coroutine exactly once; under a clock that never goes back the slices of a file
   are in order exactly if what it shows has ended; and the counters of running traces agree
   with the ongoing traces if every start and end is matched.
   */
  method Observe(threshold: Time, es: seq<Event>, ghost now: Time) returns (p: Profiler)
    requires WellDefined(es)
    ensures fresh(p) && p.Abs() == Run(Init(threshold), es)
    ensures forall f :: f in p.files ==> WellFormed(Stream(f.content, f.trace), StreamTracks(f.content, f.trace))
    ensures FreshIds(es) ==> forall f :: f in p.files ==> Distinct(CoroutinesIn(Stream(f.content, f.trace)))
    ensures now > 0 && Timed(es, now) ==>
      forall f :: f in p.files ==> (SlicesOrdered(Stream(f.content, f.trace)) <==> AllCompleted(f.content, f.trace))
    ensures AllMatched(Init(threshold), es) ==> SumCounts(p.traces) == |p.ongoing|
    ensures forall i :: 0 <= i < |p.files| ==> p.files[i].number == i
  {
    hide Run, Stream, StreamTracks, Fragment, CoroutinesIn, SlicesOrdered, AllCompleted, AllMatched, FreshIds,
      Timed, WellDefined;
    p := Profiler.HandleAll(threshold, es);
    BalancedFromStart(threshold, es);
    FileNumbers(threshold, es);
    forall f | f in p.files ensures WellFormed(Stream(f.content, f.trace), StreamTracks(f.content, f.trace)) {
      StreamWellFormed(f.content, f.trace);
    }
    if FreshIds(es) {
      forall f | f in p.files ensures Distinct(CoroutinesIn(Stream(f.content, f.trace))) {
        FilesShowOnce(threshold, es, f);
      }
    }
    if now > 0 && Timed(es, now) {
      forall f | f in p.files ensures SlicesOrdered(Stream(f.content, f.trace)) <==> AllCompleted(f.content, f.trace) {
        FileSlicesOrderedIff(threshold, es, now, f);
      }
    }
  }
}
