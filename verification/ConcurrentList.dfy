/**
 `ConcurrentList`: a list with marking and cleaning by count, and the two-step
 `pop_front`, which checks for emptiness under one lock and pops under another.
 */
module ConcurrentList {
  import opened Basics

  /** `visited` are the elements of the list that pass the filter, in order; `at` are their places. */
  ghost predicate Picks<T>(visited: seq<T>, list: seq<T>, keep: T -> bool, at: seq<int>) {
    && |at| == |visited|
    && (forall k :: 0 <= k < |at| ==> 0 <= at[k] < |list| && visited[k] == list[at[k]])
    && (forall j, k :: 0 <= j < k < |at| ==> at[j] < at[k])
    && forall i :: 0 <= i < |list| ==> (keep(list[i]) <==> i in at)
  }

  class List<T> {
    var list: seq<T>
    var cleanUntil: nat

    constructor ()
      ensures list == [] && cleanUntil == 0
    {
      list, cleanUntil := [], 0;
    }

    method PushBack(value: T)
      modifies `list
      ensures list == old(list) + [value]
    {
      list := list + [value];
    }

    /** `pop_front` with no other thread between its two steps. */
    method PopFront() returns (value: Option<T>)
      modifies `list
      ensures old(list) == [] ==> value == None && list == []
      ensures old(list) != [] ==> value == Some(old(list)[0]) && list == old(list)[1..]
    {
      if list == [] {
        value := None;
      } else {
        value := Some(list[0]);
        list := list[1..];
      }
    }

    /** The first element that satisfies the predicate. */
    method Find(wanted: T -> bool) returns (found: Option<T>)
      ensures found.None? <==> forall i :: 0 <= i < |list| ==> !wanted(list[i])
      ensures found.Some? ==> exists k ::
        0 <= k < |list| && found.value == list[k] && wanted(list[k]) && forall i :: 0 <= i < k ==> !wanted(list[i])
    {
      for k := 0 to |list|
        invariant forall i :: 0 <= i < k ==> !wanted(list[i])
      {
        if wanted(list[k]) {
          return Some(list[k]);
        }
      }
      found := None;
    }

    /** `forEachFiltered`, collecting the elements that the callback would get. */
    method ForEachFiltered(keep: T -> bool) returns (visited: seq<T>)
      ensures exists at :: Picks(visited, list, keep, at)
    {
      visited := [];
      ghost var at: seq<int> := [];
      for k := 0 to |list|
        invariant |at| == |visited|
        invariant forall j :: 0 <= j < |at| ==> 0 <= at[j] < k && visited[j] == list[at[j]]
        invariant forall i, j :: 0 <= i < j < |at| ==> at[i] < at[j]
        invariant forall i :: 0 <= i < k ==> (keep(list[i]) <==> i in at)
      {
        if keep(list[k]) {
          visited := visited + [list[k]];
          at := at + [k];
        }
      }
      assert Picks(visited, list, keep, at);
    }

    method MarkForClean()
      modifies `cleanUntil
      ensures cleanUntil == |list|
    {
      cleanUntil := |list|;
    }

    /** `pop_front` of an empty `std::list` is undefined, so enough elements must be left. */
    method Clean()
      requires cleanUntil <= |list|
      modifies `list
      ensures list == old(list)[cleanUntil..]
    {
      for i := 0 to cleanUntil
        invariant list == old(list)[i..]
      {
        list := list[1..];
      }
    }
  }

  // ---------- retention by count ----------

  datatype Change<T> = Push(value: T) | Pop

  /** The list after a sequence of changes; popping an empty list changes nothing. */
  function After<T>(list: seq<T>, changes: seq<Change<T>>): seq<T> {
    if changes == [] then list else
    var before := After(list, changes[..|changes| - 1]);
    match changes[|changes| - 1]
    case Push(x) => before + [x]
    case Pop => if before == [] then before else before[1..]
  }

  function PushedBy<T>(changes: seq<Change<T>>): seq<T> {
    if changes == [] then [] else
    PushedBy(changes[..|changes| - 1]) + (if changes[|changes| - 1].Push? then [changes[|changes| - 1].value] else [])
  }

  function PopsIn<T>(changes: seq<Change<T>>): nat {
    if changes == [] then 0 else PopsIn(changes[..|changes| - 1]) + (if changes[|changes| - 1].Pop? then 1 else 0)
  }

  /** Never more elements are popped than there are. */
  ghost predicate Enough<T>(list: seq<T>, changes: seq<Change<T>>) {
    changes == [] ||
    (Enough(list, changes[..|changes| - 1])
      && (changes[|changes| - 1].Pop? ==> After(list, changes[..|changes| - 1]) != []))
  }

  /** Elements leave in the order in which they entered. */
  lemma {:induction false} FirstInFirstOut<T>(list: seq<T>, changes: seq<Change<T>>)
    requires Enough(list, changes)
    ensures PopsIn(changes) <= |list + PushedBy(changes)|
    ensures After(list, changes) == (list + PushedBy(changes))[PopsIn(changes)..]
  {
    if changes != [] {
      var front, c := changes[..|changes| - 1], changes[|changes| - 1];
      FirstInFirstOut(list, front);
      var all, n := list + PushedBy(front), PopsIn(front);
      match c {
        case Push(x) =>
          assert list + PushedBy(changes) == all + [x];
          assert (all + [x])[n..] == all[n..] + [x];
        case Pop =>
          assert PushedBy(changes) == PushedBy(front);
          assert all[n..][1..] == all[n + 1..];
      }
    }
  }

  /**
   A clean that finds enough elements removes as many as the list had at the mark. What
   it leaves are the elements pushed since the mark exactly if nothing was popped since
   then; otherwise it removes an element pushed after the mark for every one popped.
   */
  lemma {:induction false} CleanAfterMark<T>(atMark: seq<T>, changes: seq<Change<T>>)
    requires Enough(atMark, changes) && |atMark| <= |After(atMark, changes)|
    ensures PopsIn(changes) <= |PushedBy(changes)|
    ensures After(atMark, changes)[|atMark|..] == PushedBy(changes)[PopsIn(changes)..]
    ensures After(atMark, changes)[|atMark|..] == PushedBy(changes) <==> PopsIn(changes) == 0
  {
    FirstInFirstOut(atMark, changes);
    var pushed, n := PushedBy(changes), PopsIn(changes);
    assert (atMark + pushed)[n..][|atMark|..] == pushed[n..];
    assert |pushed[n..]| == |pushed| - n;
  }

  /** A new element can be lost: one element is popped and two are pushed, and the clean removes one of these. */
  lemma {:induction false} CleanRemovesNew<T>(x: T, y: T, z: T)
    ensures var changes := [Pop, Push(y), Push(z)];
      Enough([x], changes) && After([x], changes) == [y, z] && After([x], changes)[1..] == [z]
  {
    var a: seq<Change<T>>, b: seq<Change<T>>, c: seq<Change<T>> := [Pop], [Pop, Push(y)], [Pop, Push(y), Push(z)];
    assert a[..0] == [] && b[..1] == a && c[..2] == b;
    assert After([x], []) == [x] && After([x], a) == [] && After([x], b) == [y];
    assert Enough([x], a) && Enough([x], b);
  }

  /** A clean finds as many elements as were counted exactly if no more were popped than pushed since. */
  lemma {:induction false} CleanFindsEnoughIff<T>(atMark: seq<T>, changes: seq<Change<T>>)
    requires Enough(atMark, changes)
    ensures |atMark| <= |After(atMark, changes)| <==> PopsIn(changes) <= |PushedBy(changes)|
  {
    FirstInFirstOut(atMark, changes);
  }

  // ---------- pop_front at the granularity of its locks ----------

  datatype Step<T> =
    | Enter(value: T)           // push_back by some producer
    | Check(thread: Tid)     // the emptiness check of pop_front
    | Take(thread: Tid)      // the pop of pop_front

  /** `checked`: threads that found the list not empty and have not popped yet. */
  datatype Queue<T> = Queue(list: seq<T>, checked: set<Tid>, entered: seq<T>, taken: seq<T>)

  function Empty<T>(): Queue<T> {
    Queue([], {}, [], [])
  }

  /** A pop happens after a successful check of the same thread; a new check not before it. */
  predicate Enabled<T>(q: Queue<T>, step: Step<T>) {
    match step
    case Enter(_) => true
    case Check(t) => t !in q.checked
    case Take(t) => t in q.checked
  }

  /** Taking from an empty list is undefined; here it leaves the queue as it is. */
  function Next<T>(q: Queue<T>, step: Step<T>): Queue<T> {
    match step
    case Enter(x) => q.(list := q.list + [x], entered := q.entered + [x])
    case Check(t) => if q.list == [] then q else q.(checked := q.checked + {t})
    case Take(t) =>
      if q.list == [] then q
      else q.(list := q.list[1..], checked := q.checked - {t}, taken := q.taken + [q.list[0]])
  }

  ghost predicate IsRun<T>(steps: seq<Step<T>>) {
    steps == [] || (IsRun(steps[..|steps| - 1]) && Enabled(QueueAfter(steps[..|steps| - 1]), steps[|steps| - 1]))
  }

  function QueueAfter<T>(steps: seq<Step<T>>): Queue<T> {
    if steps == [] then Empty() else Next(QueueAfter(steps[..|steps| - 1]), steps[|steps| - 1])
  }

  ghost predicate OneConsumer<T>(steps: seq<Step<T>>, t: Tid) {
    forall k :: 0 <= k < |steps| && !steps[k].Enter? ==> steps[k].thread == t
  }

  /**
   With one consumer and any number of producers, over all interleavings, the pop never
   meets an empty list, and what has been taken is a prefix of what was entered.
   */
  lemma {:induction false} OneConsumerSafe<T>(steps: seq<Step<T>>, t: Tid)
    requires IsRun(steps) && OneConsumer(steps, t)
    ensures var q := QueueAfter(steps);
      && (q.checked == {} || (q.checked == {t} && q.list != []))
      && q.taken + q.list == q.entered
  {
    if steps != [] {
      var front := steps[..|steps| - 1];
      assert forall k :: 0 <= k < |front| ==> front[k] == steps[k];
      OneConsumerSafe(front, t);
    }
  }

  /** The consumer is told "empty" exactly if everything entered so far has been taken. */
  lemma {:induction false} CheckAnswers<T>(steps: seq<Step<T>>, t: Tid)
    requires IsRun(steps + [Check(t)]) && OneConsumer(steps, t)
    ensures var q := QueueAfter(steps);
      t !in QueueAfter(steps + [Check(t)]).checked <==> q.taken == q.entered
  {
    assert (steps + [Check(t)])[..|steps|] == steps;
    OneConsumerSafe(steps, t);
  }

  /** Two consumers are not safe: both can pass the check on the same element. */
  lemma {:induction false} TwoConsumersUnsafe<T>(x: T, t: Tid, u: Tid)
    requires t != u
    ensures var steps := [Enter(x), Check(t), Check(u), Take(t)];
      IsRun(steps) && Enabled(QueueAfter(steps), Take(u)) && QueueAfter(steps).list == []
  {
    var s1: seq<Step<T>>, s2: seq<Step<T>> := [Enter(x)], [Enter(x), Check(t)];
    var s3: seq<Step<T>>, s4: seq<Step<T>> := [Enter(x), Check(t), Check(u)], [Enter(x), Check(t), Check(u), Take(t)];
    assert s1[..0] == [] && s2[..1] == s1 && s3[..2] == s2 && s4[..3] == s3;
    assert IsRun<T>([]) && QueueAfter<T>([]) == Empty();
    assert IsRun(s1) && QueueAfter(s1) == Queue([x], {}, [x], []);
    assert IsRun(s2) && QueueAfter(s2) == Queue([x], {t}, [x], []);
    assert IsRun(s3) && QueueAfter(s3) == Queue([x], {t, u}, [x], []);
    assert IsRun(s4) && QueueAfter(s4) == Queue([], {u}, [x], [x]);
  }

  /** Only the given threads check and take. */
  ghost predicate Consumers<T>(steps: seq<Step<T>>, consumers: set<Tid>) {
    forall k :: 0 <= k < |steps| && !steps[k].Enter? ==> steps[k].thread in consumers
  }

  /** A thread that passed the check finds an element to pop. */
  predicate NeverEmptyTake<T>(q: Queue<T>) {
    q.checked != {} ==> q.list != []
  }

  /** Over all interleavings the pop never meets an empty list, exactly if there is at most one consumer. */
  lemma {:induction false} SafeIffOneConsumer<T(!new)>(consumers: set<Tid>, x: T)
    ensures |consumers| <= 1 <==>
      forall steps: seq<Step<T>> ::
        IsRun(steps) && Consumers(steps, consumers) ==> NeverEmptyTake(QueueAfter(steps))
  {
    if |consumers| <= 1 {
      forall steps: seq<Step<T>> | IsRun(steps) && Consumers(steps, consumers)
        ensures NeverEmptyTake(QueueAfter(steps)) {
        var t := Only(consumers);
        OneConsumerSafe(steps, t);
      }
    } else {
      var t, u := Two(consumers);
      var steps := [Enter(x), Check(t), Check(u), Take(t)];
      TwoConsumersUnsafe(x, t, u);
      assert IsRun(steps) && Consumers(steps, consumers) && !NeverEmptyTake(QueueAfter(steps));
    }
  }

  lemma {:induction false} Only(consumers: set<Tid>) returns (t: Tid)
    requires |consumers| <= 1
    ensures forall u :: u in consumers ==> u == t
  {
    if exists u :: u in consumers {
      t :| t in consumers;
      assert |consumers - {t}| == 0;
      assert forall u :: u in consumers && u != t ==> u in consumers - {t};
    } else {
      t := 0;
    }
  }

  lemma {:induction false} Two(consumers: set<Tid>) returns (t: Tid, u: Tid)
    requires |consumers| > 1
    ensures t in consumers && u in consumers && t != u
  {
    t := Member(consumers);
    u := Member(consumers - {t});
  }

  lemma {:induction false} Member(threads: set<Tid>) returns (t: Tid)
    requires |threads| > 0
    ensures t in threads
  {
    assert (forall u :: u !in threads) ==> threads == {};
    t :| t in threads;
  }
}
