/**
 `ConcurrentCleanableMap`: a map whose entries are marked and later cleaned.
 Every operation holds the map's lock, so runs are sequences of operations by
 any threads.
 */
module CleanableMap {
  import opened Basics

  datatype Contents<K, V> = Contents(entries: map<K, V>, marked: set<K>)

  datatype Op<K, V> =
    | Insert(key: K, value: V)
    | Get(key: K, default: V)    // creates a missing entry
    | Erase(key: K)
    | Mark
    | Clean

  function Apply<K, V>(c: Contents<K, V>, op: Op<K, V>): Contents<K, V> {
    match op
    case Insert(k, v) => if k in c.entries then c else c.(entries := c.entries[k := v])
    case Get(k, v) => if k in c.entries then c else c.(entries := c.entries[k := v])
    case Erase(k) => c.(entries := c.entries - {k})
    case Mark => c.(marked := c.marked + c.entries.Keys)
    case Clean => Contents(c.entries - c.marked, {})
  }

  class ConcurrentCleanableMap<K(==), V> {
    var entries: map<K, V>
    var cleanList: seq<K>
    const default: V

    ghost function Abs(): Contents<K, V>
      reads this
    {
      Contents(entries, set k | k in cleanList)
    }

    constructor (default: V)
      ensures Abs() == Contents(map[], {}) && this.default == default
    {
      entries, cleanList, this.default := map[], [], default;
    }

    method InsertEntry(key: K, value: V) returns (inserted: bool)
      modifies `entries
      ensures Abs() == Apply(old(Abs()), Insert(key, value))
      ensures inserted <==> key !in old(entries)
      ensures inserted ==> entries[key] == value
      ensures !inserted ==> entries == old(entries)
    {
      inserted := key !in entries;
      if inserted {
        entries := entries[key := value];
      }
    }

    method GetEntry(key: K) returns (value: V)
      modifies `entries
      ensures Abs() == Apply(old(Abs()), Get(key, default))
      ensures key in entries && value == entries[key]
      ensures key !in old(entries) ==> value == default
    {
      if key !in entries {
        entries := entries[key := default];
      }
      value := entries[key];
    }

    method At(key: K) returns (value: Option<V>)
      ensures value == if key in entries then Some(entries[key]) else None
    {
      if key in entries {
        value := Some(entries[key]);
      } else {
        value := None;
      }
    }

    method EraseEntry(key: K) returns (erased: bool)
      modifies `entries
      ensures Abs() == Apply(old(Abs()), Erase(key))
      ensures erased <==> key in old(entries)
    {
      erased := key in entries;
      if erased {
        entries := entries - {key};
      }
      assert entries == old(entries) - {key};
    }

    method MarkCurrentValuesForClean()
      modifies `cleanList
      ensures Abs() == Apply(old(Abs()), Mark)
      ensures old(cleanList) <= cleanList && |cleanList| == |old(cleanList)| + |entries|
    {
      var rest := entries.Keys;
      while rest != {}
        invariant rest <= entries.Keys
        invariant (set k | k in cleanList) + rest == (set k | k in old(cleanList)) + entries.Keys
        invariant old(cleanList) <= cleanList && |cleanList| + |rest| == |old(cleanList)| + |entries|
        decreases |rest|
      {
        var key :| key in rest;
        cleanList := cleanList + [key];
        rest := rest - {key};
      }
    }

    method CleanMarked()
      modifies `entries, `cleanList
      ensures Abs() == Apply(old(Abs()), Clean)
      ensures cleanList == []
    {
      while cleanList != []
        invariant cleanList <= old(cleanList)
        invariant entries == old(entries) - (set i | |cleanList| <= i < |old(cleanList)| :: old(cleanList)[i])
        decreases |cleanList|
      {
        entries := entries - {cleanList[|cleanList| - 1]};
        cleanList := cleanList[..|cleanList| - 1];
      }
      assert (set i | 0 <= i < |old(cleanList)| :: old(cleanList)[i]) == (set k | k in old(cleanList));
    }
  }

  // ---------- runs ----------

  function Run<K, V>(ops: seq<Op<K, V>>): Contents<K, V> {
    if ops == [] then Contents(map[], {}) else Apply(Run(ops[..|ops| - 1]), ops[|ops| - 1])
  }

  /** The place of the last mark, if nothing was cleaned since. */
  function LastMark<K, V>(ops: seq<Op<K, V>>): (r: Option<nat>)
    ensures r.Some? ==> r.value < |ops| && ops[r.value].Mark?
  {
    if ops == [] then None
    else if ops[|ops| - 1].Mark? then Some(|ops| - 1)
    else if ops[|ops| - 1].Clean? then None
    else LastMark(ops[..|ops| - 1])
  }

  /** Marks and cleans take turns, as in the cleaner's loop. */
  ghost predicate InTurn<K, V>(ops: seq<Op<K, V>>) {
    ops == [] ||
    var front := ops[..|ops| - 1];
    && InTurn(front)
    && (ops[|ops| - 1].Mark? ==> LastMark(front).None?)
    && (ops[|ops| - 1].Clean? ==> LastMark(front).Some?)
  }

  /** The keys present at the last mark, if nothing was cleaned since. */
  function KeysAtMark<K, V>(ops: seq<Op<K, V>>): set<K> {
    var m := LastMark(ops);
    if m.None? then {} else Run(ops[..m.value]).entries.Keys
  }

  /** What is marked is what was present at the last mark. */
  lemma {:induction false} MarkedKeys<K, V>(ops: seq<Op<K, V>>)
    requires InTurn(ops)
    ensures Run(ops).marked == KeysAtMark(ops)
  {
    if ops != [] {
      var front, op := ops[..|ops| - 1], ops[|ops| - 1];
      MarkedKeys(front);
      var m := LastMark(front);
      if m.Some? { assert ops[..m.value] == front[..m.value]; }
    }
  }

  /**
   In every run in which marks and cleans take turns among inserts, lookups and
   erasures by any threads, a clean keeps an entry exactly if its key was absent at the
   mark before it.
   */
  lemma {:induction false} CleanKeepsExactly<K, V>(ops: seq<Op<K, V>>)
    requires InTurn(ops + [Clean])
    ensures var before, after := Run(ops).entries, Run(ops + [Clean]).entries;
      && (forall k :: k in after <==> k in before && k !in KeysAtMark(ops))
      && (forall k :: k in after ==> after[k] == before[k])
  {
    assert (ops + [Clean])[..|ops|] == ops;
    MarkedKeys(ops);
  }

  /** The place of the operation that created the present entry of a key. */
  ghost function Born<K, V>(ops: seq<Op<K, V>>, k: K): (r: nat)
    requires k in Run(ops).entries
    ensures r < |ops|
  {
    var front := ops[..|ops| - 1];
    if k in Run(front).entries then Born(front, k) else |front|
  }

  lemma {:induction false} PresentSinceBorn<K, V>(ops: seq<Op<K, V>>, k: K, i: nat)
    requires k in Run(ops).entries && Born(ops, k) < i <= |ops|
    ensures k in Run(ops[..i]).entries
  {
    if i == |ops| {
      assert ops[..i] == ops;
    } else {
      assert ops[..|ops| - 1][..i] == ops[..i];
      PresentSinceBorn(ops[..|ops| - 1], k, i);
    }
  }

  /** After a clean the map holds only entries that were inserted after the mark. */
  lemma {:induction false} SurvivorsAreNew<K, V>(ops: seq<Op<K, V>>, k: K)
    requires InTurn(ops + [Clean]) && k in Run(ops + [Clean]).entries
    ensures k in Run(ops).entries && LastMark(ops).Some? && LastMark(ops).value < Born(ops, k)
  {
    CleanKeepsExactly(ops);
    assert (ops + [Clean])[..|ops|] == ops;
    var m := LastMark(ops).value;
    MarkCreatesNothing(ops, m);
    if Born(ops, k) <= m { PresentSinceBorn(ops, k, m + 1); }
  }

  lemma {:induction false} MarkCreatesNothing<K, V>(ops: seq<Op<K, V>>, m: nat)
    requires m < |ops| && ops[m].Mark?
    ensures Run(ops[..m + 1]).entries == Run(ops[..m]).entries
  {
    assert ops[..m + 1][..m] == ops[..m];
  }

  /** The key was erased after the given place. */
  ghost predicate ErasedSince<K, V>(ops: seq<Op<K, V>>, k: K, m: nat) {
    exists i :: m <= i < |ops| && ops[i] == Erase(k)
  }

  lemma {:induction false} KeptUnlessErased<K, V>(ops: seq<Op<K, V>>, k: K, m: nat)
    requires m <= |ops| && k in Run(ops[..m]).entries && !ErasedSince(ops, k, m)
    requires forall i :: m <= i < |ops| ==> !ops[i].Clean?
    ensures k in Run(ops).entries && (m < |ops| ==> k in Run(ops[..|ops| - 1]).entries)
    ensures Born(ops, k) < m
  {
    if m == |ops| {
      assert ops[..m] == ops;
    } else {
      var front := ops[..|ops| - 1];
      assert front[..m] == ops[..m];
      assert forall i :: 0 <= i < |front| ==> front[i] == ops[i];
      assert !ErasedSince(front, k, m);
      KeptUnlessErased(front, k, m);
      assert ops[|ops| - 1] != Erase(k);
    }
  }

  lemma {:induction false} NoCleanSinceMark<K, V>(ops: seq<Op<K, V>>)
    requires LastMark(ops).Some?
    ensures forall i :: LastMark(ops).value <= i < |ops| ==> !ops[i].Clean?
  {
    if !ops[|ops| - 1].Mark? { NoCleanSinceMark(ops[..|ops| - 1]); }
  }

  lemma {:induction false} ErasedMeansReborn<K, V>(ops: seq<Op<K, V>>, k: K, i: nat)
    requires i < |ops| && ops[i] == Erase(k) && k in Run(ops).entries
    ensures i < Born(ops, k)
  {
    assert ops[..i + 1][..i] == ops[..i];
    assert k !in Run(ops[..i + 1]).entries;
    if Born(ops, k) <= i { PresentSinceBorn(ops, k, i + 1); }
  }

  /**
   An entry that a clean removes has lived since before the mark, so for a whole
   interval, exactly if its key was not erased in between.
   */
  lemma {:induction false} RemovedIsOldIff<K, V>(ops: seq<Op<K, V>>, k: K)
    requires InTurn(ops + [Clean]) && k in Run(ops).entries && k !in Run(ops + [Clean]).entries
    ensures LastMark(ops).Some?
    ensures Born(ops, k) < LastMark(ops).value <==> !ErasedSince(ops, k, LastMark(ops).value)
  {
    CleanKeepsExactly(ops);
    assert (ops + [Clean])[..|ops|] == ops;
    var m := LastMark(ops).value;
    NoCleanSinceMark(ops);
    if !ErasedSince(ops, k, m) {
      KeptUnlessErased(ops, k, m);
    } else {
      var i :| m <= i < |ops| && ops[i] == Erase(k);
      ErasedMeansReborn(ops, k, i);
    }
  }

  /** The condition is needed: a key that is erased and inserted again after the mark loses its new entry. */
  lemma {:induction false} ReinsertedIsCleaned<K, V>(k: K, v: V, w: V)
    ensures var ops := [Insert(k, v), Mark, Erase(k), Insert(k, w)];
      && InTurn(ops + [Clean])
      && k in Run(ops).entries && Run(ops).entries[k] == w && k !in Run(ops + [Clean]).entries
      && LastMark(ops) == Some(1) && Born(ops, k) == 3
  {
    var a: seq<Op<K, V>> := [Insert(k, v)];
    var b: seq<Op<K, V>> := [Insert(k, v), Mark];
    var c: seq<Op<K, V>> := [Insert(k, v), Mark, Erase(k)];
    var ops: seq<Op<K, V>> := [Insert(k, v), Mark, Erase(k), Insert(k, w)];
    assert a[..0] == [] && b[..1] == a && c[..2] == b && ops[..3] == c && (ops + [Clean])[..4] == ops;
    assert Run(a) == Contents(map[k := v], {});
    assert Run(b) == Contents(map[k := v], {k});
    assert Run(c) == Contents(map[], {k});
    assert Run(ops) == Contents(map[k := w], {k});
    assert LastMark(a) == None && LastMark(b) == LastMark(c) == Some(1);
    assert InTurn(a) && InTurn(b) && InTurn(c) && InTurn(ops);
  }
}
