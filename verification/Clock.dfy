/** Runs whose clock readings are positive and never go back. */
module Clock {
  import opened Records
  import opened Lifecycle

  /** The readings a callback takes. */
  function Readings(e: Event): seq<Time> {
    match e
    case Created(_, _, start, resumed) => [start, resumed]
    case Suspended(_, _, _, charged, began, _) => [charged, began]
    case Resumed(_, _, _, resumed, ended) => [resumed, ended]
    case Completed(_, _, _, ended, charged) => [ended, charged]
    case TraceStarted(_, _, _, start, resumed, begun) => [start, resumed, begun]
    case TraceEnded(_, _, _, _, charged, finished) => [charged, finished]
    case GcStarted(at) => [at]
    case GcFinished(at) => [at]
    case _ => []
  }

  /** A callback's readings are in the order in which it takes them, where the code fixes one. */
  predicate InOrder(e: Event) {
    match e
    case Suspended(_, _, _, charged, began, _) => charged <= began
    case Resumed(_, _, _, resumed, ended) => resumed <= ended
    case Completed(_, _, _, ended, charged) => ended <= charged
    case TraceStarted(_, _, _, start, resumed, begun) => start <= begun && resumed <= begun
    case TraceEnded(_, _, _, _, charged, finished) => charged <= finished
    case _ => true
  }

  predicate Positive(e: Event) {
    forall k :: 0 <= k < |Readings(e)| ==> Readings(e)[k] > 0
  }

  ghost predicate PositiveClock(es: seq<Event>) {
    forall k :: 0 <= k < |es| ==> Positive(es[k])
  }

  function Max(rs: seq<Time>, least: Time): (m: Time)
    ensures m >= least && forall k :: 0 <= k < |rs| ==> rs[k] <= m
  {
    if rs == [] then least else
    var m := Max(rs[..|rs| - 1], least);
    if rs[|rs| - 1] > m then rs[|rs| - 1] else m
  }

  /** The latest reading of a run that starts at `now`. */
  function Now(es: seq<Event>, now: Time): (t: Time)
    ensures t >= now
  {
    if es == [] then now else Max(Readings(es[|es| - 1]), Now(es[..|es| - 1], now))
  }

  predicate After(e: Event, now: Time) {
    InOrder(e) && forall k :: 0 <= k < |Readings(e)| ==> Readings(e)[k] >= now
  }

  /** No reading is earlier than one taken by an earlier callback. */
  ghost predicate Timed(es: seq<Event>, now: Time) {
    es == [] || (Timed(es[..|es| - 1], now) && After(es[|es| - 1], Now(es[..|es| - 1], now)))
  }

  lemma {:induction false} TimedPositive(es: seq<Event>, now: Time)
    requires now > 0 && Timed(es, now)
    ensures PositiveClock(es)
  {
    hide Readings, InOrder;
    if es != [] {
      var front, e := es[..|es| - 1], es[|es| - 1];
      TimedPositive(front, now);
      assert Positive(e) by { assert After(e, Now(front, now)); }
      forall k | 0 <= k < |es| ensures Positive(es[k]) {
        if k < |front| { assert front[k] == es[k]; }
      }
    }
  }

  /** Every callback reads a later time than all callbacks before it. */
  ghost predicate StrictlyTimed(es: seq<Event>, now: Time) {
    es == [] ||
    var front, e := es[..|es| - 1], es[|es| - 1];
    && StrictlyTimed(front, now)
    && InOrder(e)
    && forall k :: 0 <= k < |Readings(e)| ==> Readings(e)[k] > Now(front, now)
  }

  lemma {:induction false} StrictlyTimedIsTimed(es: seq<Event>, now: Time)
    requires StrictlyTimed(es, now)
    ensures Timed(es, now)
  {
    hide Readings, InOrder;
    if es != [] { StrictlyTimedIsTimed(es[..|es| - 1], now); }
  }
}
