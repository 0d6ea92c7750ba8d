/**
 The list of garbage collections: `gcFinish` takes the last entry, removes the
 first and appends the last again, so collections are lost and doubled; and the
 cleaner can empty the list while a collection runs.
 */
module GcEvents {
  import opened Records
  import opened Lifecycle

  /** The clock readings of the starts, and of the finishes, in order. */
  function Starts(es: seq<Event>): seq<Time> {
    if es == [] then [] else Starts(es[..|es| - 1]) + (if es[|es| - 1].GcStarted? then [es[|es| - 1].at] else [])
  }

  function Ends(es: seq<Event>): seq<Time> {
    if es == [] then [] else Ends(es[..|es| - 1]) + (if es[|es| - 1].GcFinished? then [es[|es| - 1].at] else [])
  }

  function Started(es: seq<Event>): nat {
    |Starts(es)|
  }

  function Finished(es: seq<Event>): nat {
    |Ends(es)|
  }

  /** Collections start and finish in turn, among other events. */
  ghost predicate InTurn(es: seq<Event>) {
    es == [] ||
    var front, e := es[..|es| - 1], es[|es| - 1];
    && InTurn(front)
    && (e.GcStarted? ==> Started(front) == Finished(front))
    && (e.GcFinished? ==> Started(front) == Finished(front) + 1)
  }

  // ---------- the length of the list ----------

  /** A mark of the list waits for its clean. */
  predicate Marked(es: seq<Event>) {
    es != [] && (es[|es| - 1].MarkGc? || (!es[|es| - 1].CleanGc? && Marked(es[..|es| - 1])))
  }

  /** Marks and cleans of the list take turns, as in the cleaner's loop. */
  ghost predicate CleanerInTurn(es: seq<Event>) {
    es == [] ||
    var front, e := es[..|es| - 1], es[|es| - 1];
    && CleanerInTurn(front)
    && (e.MarkGc? ==> !Marked(front))
    && (e.CleanGc? ==> Marked(front))
  }

  /** The collections started since the last mark. */
  function SinceMark(es: seq<Event>): (n: nat)
    ensures n <= Started(es)
  {
    if es == [] || es[|es| - 1].MarkGc? then 0 else
    SinceMark(es[..|es| - 1]) + (if es[|es| - 1].GcStarted? then 1 else 0)
  }

  /** The collections started since the mark of the last clean. */
  function Listed(es: seq<Event>): (n: nat)
    ensures SinceMark(es) <= n <= Started(es)
  {
    if es == [] then 0 else
    var front, e := es[..|es| - 1], es[|es| - 1];
    if e.CleanGc? then SinceMark(front) else Listed(front) + (if e.GcStarted? then 1 else 0)
  }

  /** The list has one entry for every such collection, and a clean always finds what was counted. */
  lemma {:induction false} ListLength(threshold: Time, es: seq<Event>)
    requires CleanerInTurn(es)
    ensures |Run(Init(threshold), es).gc| == Listed(es)
    ensures Marked(es) ==> Run(Init(threshold), es).gcUntil + SinceMark(es) == |Run(Init(threshold), es).gc|
  {
    hide Step, Starts;
    if es != [] {
      var front, e := es[..|es| - 1], es[|es| - 1];
      ListLength(threshold, front);
      LengthStep(Run(Init(threshold), front), e);
    }
  }

  lemma {:induction false} LengthStep(s: State, e: Event)
    ensures var t := Step(s, e);
      && (t.gcUntil == if e.MarkGc? then |s.gc| else s.gcUntil)
      && (e.GcStarted? ==> |t.gc| == |s.gc| + 1)
      && (e.CleanGc? && s.gcUntil <= |s.gc| ==> |t.gc| == |s.gc| - s.gcUntil)
      && (!e.GcStarted? && !e.CleanGc? ==> |t.gc| == |s.gc|)
  {
    hide Step;
    GcStep(s, e);
  }

  lemma {:induction false} GcStep(s: State, e: Event)
    ensures Step(s, e).gc == GcAfter(s, e) && Step(s, e).gcStore == GcStoreAfter(s, e)
    ensures Step(s, e).gcUntil == if e.MarkGc? then |s.gc| else s.gcUntil
  {
  }

  ghost predicate MarkedAfter(es: seq<Event>, i: nat) {
    exists m :: i < m < |es| && es[m].MarkGc?
  }

  /** A mark and a clean come after the given place. */
  ghost predicate Cleaned(es: seq<Event>, i: nat) {
    exists k :: i < k < |es| && es[k].CleanGc? && MarkedAfter(es[..k], i)
  }

  lemma {:induction false} MarkedAfterStep(es: seq<Event>, i: nat)
    requires i < |es|
    ensures MarkedAfter(es, i) <==> i < |es| - 1 && (MarkedAfter(es[..|es| - 1], i) || es[|es| - 1].MarkGc?)
  {
    var front := es[..|es| - 1];
    if i < |front| && MarkedAfter(front, i) {
      var m :| i < m < |front| && front[m].MarkGc?;
      assert es[m].MarkGc?;
    }
    if MarkedAfter(es, i) {
      var m :| i < m < |es| && es[m].MarkGc?;
      assert m < |front| ==> front[m].MarkGc?;
    }
  }

  lemma {:induction false} CleanedStep(es: seq<Event>, i: nat)
    requires i < |es|
    ensures var front := es[..|es| - 1];
      Cleaned(es, i) <==> i < |front| && (Cleaned(front, i) || (es[|es| - 1].CleanGc? && MarkedAfter(front, i)))
  {
    var front := es[..|es| - 1];
    if i < |front| && Cleaned(front, i) {
      var k :| i < k < |front| && front[k].CleanGc? && MarkedAfter(front[..k], i);
      assert es[k].CleanGc? && es[..k] == front[..k];
    }
    if Cleaned(es, i) {
      var k :| i < k < |es| && es[k].CleanGc? && MarkedAfter(es[..k], i);
      assert k < |front| ==> front[k].CleanGc? && front[..k] == es[..k];
    }
  }

  lemma {:induction false} CleanedIsMarked(es: seq<Event>, i: nat)
    requires i < |es| && Cleaned(es, i)
    ensures MarkedAfter(es, i)
  {
    var k :| i < k < |es| && es[k].CleanGc? && MarkedAfter(es[..k], i);
    var m :| i < m < k && es[..k][m].MarkGc?;
    assert es[m].MarkGc?;
  }

  ghost predicate StartedUnmarked(es: seq<Event>) {
    exists i: nat :: i < |es| && es[i].GcStarted? && !MarkedAfter(es, i)
  }

  /** Some collection was started that no mark and clean have followed. */
  ghost predicate StartedUncleaned(es: seq<Event>) {
    exists i: nat :: i < |es| && es[i].GcStarted? && !Cleaned(es, i)
  }

  lemma {:induction false} SinceMarkIff(es: seq<Event>)
    ensures SinceMark(es) > 0 <==> StartedUnmarked(es)
  {
    if es != [] {
      var front, e := es[..|es| - 1], es[|es| - 1];
      SinceMarkIff(front);
      forall i: nat | i < |es|
        ensures MarkedAfter(es, i) <==> i < |front| && (MarkedAfter(front, i) || e.MarkGc?)
      {
        MarkedAfterStep(es, i);
      }
      assert forall i :: 0 <= i < |front| ==> front[i] == es[i];
      assert e.GcStarted? ==> !MarkedAfter(es, |front|);
    }
  }

  lemma {:induction false} ListedIff(es: seq<Event>)
    ensures Listed(es) > 0 <==> StartedUncleaned(es)
  {
    if es != [] {
      var front, e := es[..|es| - 1], es[|es| - 1];
      ListedIff(front);
      SinceMarkIff(front);
      forall i: nat | i < |es|
        ensures Cleaned(es, i) <==> i < |front| && (Cleaned(front, i) || (e.CleanGc? && MarkedAfter(front, i)))
        ensures i < |front| && Cleaned(front, i) ==> MarkedAfter(front, i)
      {
        CleanedStep(es, i);
        if i < |front| && Cleaned(front, i) { CleanedIsMarked(front, i); }
      }
      assert forall i :: 0 <= i < |front| ==> front[i] == es[i];
      assert e.GcStarted? ==> !Cleaned(es, |front|);
    }
  }

  /** A finish finds an entry exactly if some collection was started that was not cleaned away. */
  lemma {:induction false} FinishFindsIff(threshold: Time, es: seq<Event>)
    requires CleanerInTurn(es)
    ensures Run(Init(threshold), es).gc != [] <==> StartedUncleaned(es)
  {
    ListLength(threshold, es);
    ListedIff(es);
  }

  /** It can find none: the cleaner can mark and clean while the only collection runs. */
  lemma {:induction false} FinishOnEmptyList(threshold: Time)
    ensures var es := [GcStarted(1), MarkGc, CleanGc];
      CleanerInTurn(es) && InTurn(es + [GcFinished(2)]) && Run(Init(threshold), es).gc == []
  {
    var a: seq<Event> := [GcStarted(1)];
    var b: seq<Event> := [GcStarted(1), MarkGc];
    var es: seq<Event> := [GcStarted(1), MarkGc, CleanGc];
    assert a[..0] == [] && b[..1] == a && es[..2] == b && (es + [GcFinished(2)])[..3] == es;
    assert CleanerInTurn(a) && CleanerInTurn(b) && !Marked(a) && Marked(b);
    assert InTurn(a) && InTurn(b) && InTurn(es);
    assert Started(a) == Started(b) == Started(es) == 1 && Finished(a) == Finished(b) == Finished(es) == 0;
    assert Listed(es) == SinceMark(b) == 0;
    ListLength(threshold, es);
  }

  /** The list is never used in a way that `std::list` does not define. */
  ghost predicate WellDefined(es: seq<Event>) {
    es == [] ||
    var front, e := es[..|es| - 1], es[|es| - 1];
    && WellDefined(front)
    && (e.GcFinished? ==> StartedUncleaned(front))
    && (e.MarkGc? ==> !Marked(front))
    && (e.CleanGc? ==> Marked(front))
  }

  lemma {:induction false} WellDefinedCleaner(es: seq<Event>)
    requires WellDefined(es)
    ensures CleanerInTurn(es)
  {
    if es != [] { WellDefinedCleaner(es[..|es| - 1]); }
  }

  /** What finishes and cleans need in a well-defined run. */
  lemma {:induction false} NextIsDefined(threshold: Time, es: seq<Event>)
    requires es != [] && WellDefined(es)
    ensures var s, e := Run(Init(threshold), es[..|es| - 1]), es[|es| - 1];
      (e.GcFinished? ==> s.gc != []) && (e.CleanGc? ==> s.gcUntil <= |s.gc|)
  {
    var front := es[..|es| - 1];
    WellDefinedCleaner(front);
    ListLength(threshold, front);
    FinishFindsIff(threshold, front);
  }

  // ---------- the content of the list ----------

  /** The last `length` entries of the first `total` of 0, 0, 1, 1, 2, 2, ... */
  function Doubled(total: nat, length: nat): (list: seq<nat>)
    requires length <= total
    ensures |list| == length && forall i :: 0 <= i < length ==> list[i] == (total - length + i) / 2
  {
    seq(length, i requires 0 <= i < length => (total - length + i) / 2)
  }

  /** For every well-defined run, cleaning included: what the list holds. */
  lemma {:induction false} GcListExact(threshold: Time, es: seq<Event>)
    requires InTurn(es) && WellDefined(es)
    ensures Finished(es) <= Started(es) <= Finished(es) + 1
    ensures |Run(Init(threshold), es).gcStore| == Started(es)
    ensures Run(Init(threshold), es).gc == Doubled(Started(es) + Finished(es), Listed(es))
  {
    TurnCounts(es);
    if es == [] {
      NothingListed(threshold);
    } else {
      hide Step, Doubled, Listed, SinceMark, Starts, Ends, StartedUncleaned;
      var front, e := es[..|es| - 1], es[|es| - 1];
      GcListExact(threshold, front);
      WellDefinedCleaner(front);
      ListLength(threshold, front);
      NextIsDefined(threshold, es);
      assert es == front + [e];
      GcContentStep(Run(Init(threshold), front), e, front, es);
    }
  }

  lemma {:induction false} TurnCounts(es: seq<Event>)
    requires InTurn(es)
    ensures Finished(es) <= Started(es) <= Finished(es) + 1
  {
    if es != [] { TurnCounts(es[..|es| - 1]); }
  }

  lemma {:induction false} NothingListed(threshold: Time)
    ensures Run(Init(threshold), []).gc == Doubled(0, 0) && Run(Init(threshold), []).gcStore == []
    ensures Started([]) == Finished([]) == Listed([]) == 0
  {
  }

  lemma {:induction false} GcContentStep(s: State, e: Event, front: seq<Event>, es: seq<Event>)
    requires es == front + [e] && InTurn(es) && Started(front) >= Finished(front) && |s.gcStore| == Started(front)
    requires s.gc == Doubled(Started(front) + Finished(front), Listed(front))
    requires e.GcFinished? ==> s.gc != []
    requires e.CleanGc? ==> s.gcUntil + SinceMark(front) == |s.gc|
    ensures |Step(s, e).gcStore| == Started(es) && Step(s, e).gc == Doubled(Started(es) + Finished(es), Listed(es))
  {
    hide Step, Doubled, WellDefined, CleanerInTurn;
    assert es[..|es| - 1] == front;
    var total, length := Started(front) + Finished(front), Listed(front);
    GcStep(s, e);
    if e.GcStarted? {
      DoubledGrows(total, length);
    } else if e.GcFinished? {
      DoubledTurns(total, length);
    } else if e.CleanGc? {
      DoubledShrinks(total, length, s.gcUntil);
    }
  }

  lemma {:induction false} DoubledGrows(total: nat, length: nat)
    requires length <= total
    ensures Doubled(total, length) + [total / 2] == Doubled(total + 1, length + 1)
  {
  }

  lemma {:induction false} DoubledTurns(total: nat, length: nat)
    requires 0 < length <= total
    ensures Doubled(total, length)[length - 1] == (total - 1) / 2
    ensures total % 2 == 1 ==> Doubled(total, length)[1..] + [(total - 1) / 2] == Doubled(total + 1, length)
  {
  }

  lemma {:induction false} DoubledShrinks(total: nat, length: nat, count: nat)
    requires count <= length <= total
    ensures Doubled(total, length)[count..] == Doubled(total, length - count)
  {
  }

  /** The collections of a run: started when they started, and ended when they finished, if they did. */
  function Collections(starts: seq<Time>, ends: seq<Time>): (events: seq<GcEvent>)
    ensures |events| == |starts|
    ensures forall k :: 0 <= k < |starts| ==> events[k] == GcEvent(starts[k], if k < |ends| then ends[k] else 0)
  {
    seq(|starts|, k requires 0 <= k < |starts| => GcEvent(starts[k], if k < |ends| then ends[k] else 0))
  }

  /** Every finish ends its own collection, in every well-defined run. */
  lemma {:induction false} CollectionsExact(threshold: Time, es: seq<Event>)
    requires InTurn(es) && WellDefined(es)
    ensures Run(Init(threshold), es).gcStore == Collections(Starts(es), Ends(es))
  {
    if es != [] {
      var front, e := es[..|es| - 1], es[|es| - 1];
      CollectionsExact(threshold, front);
      GcListExact(threshold, front);
      NextIsDefined(threshold, es);
      CollectionsStep(Run(Init(threshold), front), e, front);
    }
  }

  lemma {:induction false} CollectionsStep(s: State, e: Event, front: seq<Event>)
    requires s.gcStore == Collections(Starts(front), Ends(front))
    requires s.gc == Doubled(Started(front) + Finished(front), Listed(front))
    requires e.GcStarted? ==> Started(front) == Finished(front)
    requires e.GcFinished? ==> Started(front) == Finished(front) + 1 && s.gc != []
    ensures Step(s, e).gcStore == Collections(
      Starts(front) + (if e.GcStarted? then [e.at] else []), Ends(front) + (if e.GcFinished? then [e.at] else []))
  {
    hide Step, Starts, Ends, Listed;
    GcStep(s, e);
  }

  /**
   So every listed collection has the span of its start and its finish, except the last
   started one while it runs, which has no end.
   */
  lemma {:induction false} ListedHaveEnded(threshold: Time, es: seq<Event>, i: nat)
    requires InTurn(es) && WellDefined(es) && i < |Run(Init(threshold), es).gc|
    ensures var s := Run(Init(threshold), es);
      var k := s.gc[i];
      && k < Started(es)
      && GcAt(s.gcStore, k) == GcEvent(Starts(es)[k], if k < Finished(es) then Ends(es)[k] else 0)
      && (k >= Finished(es) ==> k == Started(es) - 1 == Finished(es))
  {
    hide Run, InTurn, WellDefined, Starts, Ends, Listed;
    GcListExact(threshold, es);
    CollectionsExact(threshold, es);
  }

  /** Collections `from .. to - 1` are listed, once each. */
  ghost predicate ListedOnce(gc: seq<nat>, from: int, to: int) {
    |gc| == to - from && forall k: nat :: from <= k < to ==> k in gc
  }

  /** The collections since the mark of the last clean are listed once each exactly if there is at most one. */
  lemma {:induction false} ListedOnceIff(threshold: Time, es: seq<Event>)
    requires InTurn(es) && WellDefined(es) && Started(es) == Finished(es)
    ensures ListedOnce(Run(Init(threshold), es).gc, Started(es) - Listed(es), Started(es)) <==> Listed(es) <= 1
  {
    hide Run, InTurn, WellDefined, Started, Finished, Listed;
    GcListExact(threshold, es);
    DoubledOnceIff(Started(es), Listed(es));
  }

  lemma {:induction false} DoubledOnceIff(n: nat, length: nat)
    requires length <= n
    ensures ListedOnce(Doubled(2 * n, length), n - length, n) <==> length <= 1
  {
    var gc := Doubled(2 * n, length);
    assert length == 1 ==> gc[0] == n - 1;
    if length >= 2 {
      assert forall i :: 0 <= i < length ==> gc[i] > n - length;
      assert n - length !in gc;
    }
  }

  /** From two such collections on, the first is lost and the last is listed twice. */
  lemma {:induction false} FirstLostLastDoubled(threshold: Time, es: seq<Event>)
    requires InTurn(es) && WellDefined(es) && Started(es) == Finished(es) && Listed(es) >= 2
    ensures var gc, n, length := Run(Init(threshold), es).gc, Started(es), Listed(es);
      |gc| == length && n - length !in gc && gc[length - 1] == gc[length - 2] == n - 1
  {
    GcListExact(threshold, es);
  }
}
