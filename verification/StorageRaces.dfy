/**
 Check-then-act on the storage maps at the granularity of their locks:
 `getCoroutineInfo` and `addProcessedTrace` test for a key in one locked call and use
 it in a second one, and the cleaner can run between the two.
 */
module StorageRaces {
  import opened Basics
  import opened Records

  /** An entry, or the null pointer that a lookup of a missing key creates. */
  datatype Entry = Present | Null

  /** What follows the test: a creating `get`, a throwing `at`, or an `insert`. */
  datatype Use = Get | At | Insert

  datatype Pending = Pending(id: Id, use: Use)

  datatype Step =
    | Test(thread: Tid, id: Id, use: Use)   // contains
    | Act(thread: Tid)                      // the call that follows it
    | Mark
    | Clean

  datatype Table = Table(entries: map<Id, Entry>, marked: set<Id>, pending: map<Tid, Pending>)

  /** A thread acts after its own test, and tests again only then. */
  predicate Enabled(s: Table, step: Step) {
    match step
    case Test(t, _, _) => t !in s.pending
    case Act(t) => t in s.pending
    case _ => true
  }

  /** The key is looked up if the test finds it, and inserted if it does not. `at` of a missing key throws. */
  function Next(s: Table, step: Step): Table
    requires Enabled(s, step)
  {
    match step
    case Test(t, id, use) =>
      if (id in s.entries) == (use == Insert) then s else s.(pending := s.pending[t := Pending(id, use)])
    case Act(t) =>
      var Pending(id, use) := s.pending[t];
      var rest := s.(pending := s.pending - {t});
      if id in s.entries || use == At then rest
      else rest.(entries := s.entries[id := if use == Get then Null else Present])
    case Mark => s.(marked := s.marked + s.entries.Keys)
    case Clean => s.(entries := s.entries - s.marked, marked := {})
  }

  function TableAfter(steps: seq<Step>): Option<Table> {
    if steps == [] then Some(Table(map[], {}, map[])) else
    var before, step := TableAfter(steps[..|steps| - 1]), steps[|steps| - 1];
    if before.Some? && Enabled(before.value, step) then Some(Next(before.value, step)) else None
  }

  /** The step makes an entry for the key if there is none. */
  predicate Creates(s: Table, step: Step, id: Id) {
    step.Act? && step.thread in s.pending && s.pending[step.thread].id == id && s.pending[step.thread].use != At
  }

  predicate Removes(s: Table, step: Step, id: Id) {
    step.Clean? && id in s.marked
  }

  // ---------- an act that misses its key ----------

  /** The thread has not tested, nor anything created the key, since the given place. */
  ghost predicate UntouchedSince(steps: seq<Step>, k: nat, t: Tid, id: Id) {
    forall m :: k < m < |steps| ==>
      !(steps[m].Test? && steps[m].thread == t)
      && (TableAfter(steps[..m]).Some? ==> !Creates(TableAfter(steps[..m]).value, steps[m], id))
  }

  /** A clean of the marked key came after the thread's test, and nothing has created the key again. */
  ghost predicate CleanedBetween(steps: seq<Step>, t: Tid, id: Id) {
    exists k: nat ::
      && k < |steps|
      && TableAfter(steps[..k]).Some?
      && Removes(TableAfter(steps[..k]).value, steps[k], id)
      && UntouchedSince(steps, k, t, id)
  }

  lemma {:induction false} UntouchedStep(steps: seq<Step>, k: nat, t: Tid, id: Id)
    requires steps != [] && k < |steps| - 1
    ensures var front, step := steps[..|steps| - 1], steps[|steps| - 1];
      UntouchedSince(steps, k, t, id) <==>
        && UntouchedSince(front, k, t, id)
        && !(step.Test? && step.thread == t)
        && (TableAfter(front).Some? ==> !Creates(TableAfter(front).value, step, id))
  {
    hide TableAfter, Creates;
    var front := steps[..|steps| - 1];
    assert forall m :: 0 <= m < |front| ==> front[m] == steps[m] && front[..m] == steps[..m];
    assert steps[..|front|] == front;
  }

  lemma {:induction false} CleanedBetweenStep(steps: seq<Step>, t: Tid, id: Id)
    requires steps != [] && TableAfter(steps[..|steps| - 1]).Some?
    ensures var front, step := steps[..|steps| - 1], steps[|steps| - 1];
      var s := TableAfter(front).value;
      CleanedBetween(steps, t, id) <==>
        || Removes(s, step, id)
        || (CleanedBetween(front, t, id) && !(step.Test? && step.thread == t) && !Creates(s, step, id))
  {
    hide TableAfter, Creates, Removes;
    var n := |steps| - 1;
    var front, step := steps[..n], steps[n];
    var s := TableAfter(front).value;
    assert forall k :: 0 <= k < n ==> front[k] == steps[k] && front[..k] == steps[..k];
    if CleanedBetween(steps, t, id) {
      var k: nat :| k < |steps| && TableAfter(steps[..k]).Some? && Removes(TableAfter(steps[..k]).value, steps[k], id)
        && UntouchedSince(steps, k, t, id);
      if k < n { UntouchedStep(steps, k, t, id); }
    }
    if Removes(s, step, id) { assert UntouchedSince(steps, n, t, id); }
    if CleanedBetween(front, t, id) && !(step.Test? && step.thread == t) && !Creates(s, step, id) {
      var k: nat :| k < |front| && TableAfter(front[..k]).Some? && Removes(TableAfter(front[..k]).value, front[k], id)
        && UntouchedSince(front, k, t, id);
      UntouchedStep(steps, k, t, id);
    }
  }

  /** The thread's next act uses a key that its test found. */
  predicate Uses(s: Table, t: Tid, id: Id) {
    t in s.pending && s.pending[t].id == id && s.pending[t].use != Insert
  }

  lemma {:induction false} MissesStep(s: Table, step: Step, t: Tid, id: Id)
    requires Enabled(s, step) && Uses(Next(s, step), t, id)
    ensures Uses(s, t, id) || (step.Test? && step.thread == t && id in s.entries)
    ensures !(step.Test? && step.thread == t) ==> Uses(s, t, id)
    ensures id !in Next(s, step).entries <==>
      Removes(s, step, id) || (id !in s.entries && !(step.Test? && step.thread == t) && !Creates(s, step, id))
  {
  }

  /**
   Over all interleavings of lookups, insertions, marks and cleans by any threads: an act
   finds the key gone that its test had found, exactly if a clean of the marked key fell
   between the two and nothing has created the key since.
   */
  lemma {:induction false} ActMissesIff(steps: seq<Step>, s: Table, t: Tid, id: Id)
    requires TableAfter(steps) == Some(s) && Uses(s, t, id)
    ensures id !in s.entries <==> CleanedBetween(steps, t, id)
  {
    hide Next, Enabled, Creates, Removes, Uses, CleanedBetween;
    if steps == [] {
      NothingPending(t, id);
    } else {
      var front, step := steps[..|steps| - 1], steps[|steps| - 1];
      var before := TableAfter(front).value;
      MissesStep(before, step, t, id);
      CleanedBetweenStep(steps, t, id);
      if !(step.Test? && step.thread == t) { ActMissesIff(front, before, t, id); }
    }
  }

  lemma {:induction false} NothingPending(t: Tid, id: Id)
    ensures !Uses(Table(map[], {}, map[]), t, id)
  {
  }

  // ---------- null entries ----------

  /** The present entry was made by the lookup at the given place. */
  ghost predicate MadeByLookup(steps: seq<Step>, m: nat, id: Id) {
    && m < |steps|
    && TableAfter(steps[..m]).Some?
    && Misses(TableAfter(steps[..m]).value, steps[m], id)
    && forall j :: m < j <= |steps| ==> TableAfter(steps[..j]).Some? && id in TableAfter(steps[..j]).value.entries
  }

  /** A `get` of the key that the thread's test found and that is gone. */
  predicate Misses(s: Table, step: Step, id: Id) {
    step.Act? && step.thread in s.pending && s.pending[step.thread] == Pending(id, Get) && id !in s.entries
  }

  lemma {:induction false} NullStep(s: Table, step: Step, id: Id)
    requires Enabled(s, step) && id in Next(s, step).entries
    ensures Next(s, step).entries[id] == Null <==>
      Misses(s, step, id) || (id in s.entries && s.entries[id] == Null)
  {
  }

  lemma {:induction false} MadeByLookupStep(steps: seq<Step>, id: Id)
    requires steps != [] && TableAfter(steps).Some? && id in TableAfter(steps).value.entries
    ensures TableAfter(steps[..|steps| - 1]).Some?
    ensures var front, step := steps[..|steps| - 1], steps[|steps| - 1];
      (exists m: nat :: MadeByLookup(steps, m, id)) <==>
        || Misses(TableAfter(front).value, step, id)
        || (id in TableAfter(front).value.entries && exists m: nat :: MadeByLookup(front, m, id))
  {
    hide Misses, Next, Enabled;
    var n := |steps| - 1;
    var front, step := steps[..n], steps[n];
    assert steps[..n] == front && steps[..n + 1] == steps;
    assert TableAfter(front).Some?;
    assert forall k :: 0 <= k <= n ==> front[..k] == steps[..k];
    if exists m: nat :: MadeByLookup(steps, m, id) {
      var m: nat :| MadeByLookup(steps, m, id);
      if m < n {
        assert forall j :: m < j <= n ==> TableAfter(front[..j]) == TableAfter(steps[..j]);
        assert front[..n] == front;
        assert MadeByLookup(front, m, id);
      }
    }
    if Misses(TableAfter(front).value, step, id) {
      assert MadeByLookup(steps, n, id);
    } else if id in TableAfter(front).value.entries && exists m: nat :: MadeByLookup(front, m, id) {
      var m: nat :| MadeByLookup(front, m, id);
      forall j | m < j <= |steps| ensures TableAfter(steps[..j]).Some? && id in TableAfter(steps[..j]).value.entries {
        if j <= n { assert TableAfter(steps[..j]) == TableAfter(front[..j]); }
      }
      assert MadeByLookup(steps, m, id);
    }
  }

  /**
   Over all interleavings: an entry is the null pointer exactly if a lookup that missed
   its key made it and it has stayed since. So an insertion does not replace it, and only
   a clean ends it.
   */
  lemma {:induction false} NullIff(steps: seq<Step>, s: Table, id: Id)
    requires TableAfter(steps) == Some(s) && id in s.entries
    ensures s.entries[id] == Null <==> exists m: nat :: MadeByLookup(steps, m, id)
  {
    hide Next, Enabled, Misses, MadeByLookup;
    if steps != [] {
      var front, step := steps[..|steps| - 1], steps[|steps| - 1];
      var before := TableAfter(front).value;
      NullStep(before, step, id);
      MadeByLookupStep(steps, id);
      if id in before.entries { NullIff(front, before, id); }
    }
  }

  /** It happens: the cleaner runs between the two calls, and a later creation finds the key taken. */
  lemma {:induction false} NullEntryStays(id: Id)
    ensures var steps := [Test(0, id, Insert), Act(0), Test(1, id, Get), Mark, Clean, Act(1), Test(0, id, Insert)];
      TableAfter(steps) == Some(Table(map[id := Null], {}, map[]))
  {
    var a, b, c, d, e, f, g := Test(0, id, Insert), Act(0), Test(1, id, Get), Mark, Clean, Act(1), Test(0, id, Insert);
    assert [a][..0] == [] && [a, b][..1] == [a] && [a, b, c][..2] == [a, b] && [a, b, c, d][..3] == [a, b, c];
    assert [a, b, c, d, e][..4] == [a, b, c, d] && [a, b, c, d, e, f][..5] == [a, b, c, d, e];
    assert [a, b, c, d, e, f, g][..6] == [a, b, c, d, e, f];
    assert TableAfter([a]) == Some(Table(map[], {}, map[0 := Pending(id, Insert)]));
    assert TableAfter([a, b]) == Some(Table(map[id := Present], {}, map[]));
    assert TableAfter([a, b, c]) == Some(Table(map[id := Present], {}, map[1 := Pending(id, Get)]));
    assert {} + map[id := Present].Keys == {id};
    assert TableAfter([a, b, c, d]) == Some(Table(map[id := Present], {id}, map[1 := Pending(id, Get)]));
    assert TableAfter([a, b, c, d, e]) == Some(Table(map[], {}, map[1 := Pending(id, Get)]));
    assert TableAfter([a, b, c, d, e, f]) == Some(Table(map[id := Null], {}, map[]));
  }
}
