/**
 The worklist of `add_trace_info`: a first-in first-out queue over the child
 map in which an id is marked visited when it leaves the queue but tested when
 it enters, so one id can be queued and expanded more than once.

 A queue item is described here by the path from the traced coroutine along
 which it was reached; the item of the code is the last id of the path together
 with the one before it. The paths are simple, and that is what bounds the run.
 */
module Traversal {
  import opened Records

  type Path = seq<Id>

  function Last(p: Path): Id
    requires |p| > 0
  {
    p[|p| - 1]
  }

  /** The `parent_coroutine_id` of the item: 0 for the traced coroutine. */
  function Parent(p: Path): Id
    requires |p| > 0
  {
    if |p| == 1 then 0 else p[|p| - 2]
  }

  predicate Edge(s: Snapshot, u: Id, v: Id) {
    u in s.infos && u in s.children && v in s.children[u]
  }

  /** Consecutive ids are parent and child, and every id but the last has an info. */
  ghost predicate Linked(s: Snapshot, p: Path) {
    forall i :: 0 <= i < |p| - 1 ==> Edge(s, p[i], p[i + 1])
  }

  ghost predicate Simple(p: Path) {
    forall i, j :: 0 <= i < j < |p| ==> p[i] != p[j]
  }

  /** What holds of an item in the queue while `visited` have left it. */
  ghost predicate Item(s: Snapshot, root: Id, p: Path, visited: set<Id>) {
    && |p| > 0
    && p[0] == root
    && Linked(s, p)
    && Simple(p)
    && (forall i :: 0 <= i < |p| - 1 ==> p[i] in visited)
  }

  ghost predicate ValidQueue(s: Snapshot, root: Id, queue: seq<Path>, visited: set<Id>) {
    forall k :: 0 <= k < |queue| ==> Item(s, root, queue[k], visited)
  }

  /** The children of the last id of `p` that are not visited, as paths, in order. */
  ghost function Pushed(p: Path, kids: seq<Id>, visited: set<Id>): (r: seq<Path>)
    requires |p| > 0
    ensures |r| <= |kids|
    ensures forall q :: q in r ==> |q| == |p| + 1 && q[..|p|] == p && Last(q) in kids && Last(q) !in visited
  {
    if kids == [] then [] else
    Pushed(p, kids[..|kids| - 1], visited)
    + (if Last(kids) in visited then [] else [p + [Last(kids)]])
  }

  function Children(s: Snapshot, id: Id): seq<Id> {
    if id in s.children then s.children[id] else []
  }

  /** The queue after its head has been dequeued and handled. */
  ghost function Advance(s: Snapshot, queue: seq<Path>, visited: set<Id>): seq<Path>
    requires |queue| > 0 && |queue[0]| > 0
  {
    var v := Last(queue[0]);
    if v in s.infos then queue[1..] + Pushed(queue[0], Children(s, v), visited + {v}) else queue[1..]
  }

  // ---------- termination ----------

  ghost function Fanout(children: map<Id, seq<Id>>): (b: nat)
    ensures forall id :: id in children ==> |children[id]| <= b
  {
    if !exists id :: id in children then 0 else
    var id :| id in children;
    var rest := Fanout(children - {id});
    assert forall k :: k in children ==> k == id || (k in children - {id} && (children - {id})[k] == children[k]);
    if rest < |children[id]| then |children[id]| else rest
  }

  /** Size of a tree of the given fanout and height: a bound on what one item can cause. */
  ghost function Weight(fanout: nat, height: nat): (w: nat)
    ensures w > 0
  {
    if height == 0 then 1 else 1 + fanout * Weight(fanout, height - 1)
  }

  ghost function ItemWeight(s: Snapshot, p: Path): nat {
    Weight(Fanout(s.children), if |p| <= |s.children| then |s.children| + 1 - |p| else 0)
  }

  ghost function QueueWeight(s: Snapshot, queue: seq<Path>): nat {
    if queue == [] then 0 else QueueWeight(s, queue[..|queue| - 1]) + ItemWeight(s, queue[|queue| - 1])
  }

  lemma {:induction false} QueueWeightConcat(s: Snapshot, a: seq<Path>, b: seq<Path>)
    ensures QueueWeight(s, a + b) == QueueWeight(s, a) + QueueWeight(s, b)
  {
    if b == [] {
      assert a + b == a;
    } else {
      assert (a + b)[..|a + b| - 1] == a + b[..|b| - 1];
      QueueWeightConcat(s, a, b[..|b| - 1]);
    }
  }

  lemma {:induction false} OneMoreTimes(n: nat, w: nat)
    requires n > 0
    ensures (n - 1) * w + w == n * w
  {
  }

  lemma {:induction false} UniformWeight(s: Snapshot, queue: seq<Path>, w: nat)
    requires forall q :: q in queue ==> ItemWeight(s, q) == w
    ensures QueueWeight(s, queue) == |queue| * w
  {
    hide ItemWeight;
    if queue != [] {
      UniformWeight(s, queue[..|queue| - 1], w);
      assert queue[|queue| - 1] in queue;
      OneMoreTimes(|queue|, w);
    }
  }

  /** A list without repetition of elements of a set is no longer than the set. */
  lemma {:induction false} SimpleLength(p: Path, keys: set<Id>)
    requires Simple(p) && forall i :: 0 <= i < |p| ==> p[i] in keys
    ensures |p| <= |keys|
  {
    if p != [] {
      SimpleLength(p[..|p| - 1], keys - {Last(p)});
    }
  }

  lemma {:induction false} PushedItems(s: Snapshot, root: Id, p: Path, visited: set<Id>)
    requires Item(s, root, p, visited) && Last(p) in s.infos
    ensures ValidQueue(s, root, Pushed(p, Children(s, Last(p)), visited + {Last(p)}), visited + {Last(p)})
  {
    var now := visited + {Last(p)};
    var pushed := Pushed(p, Children(s, Last(p)), now);
    forall k | 0 <= k < |pushed| ensures Item(s, root, pushed[k], now) {
      var q := pushed[k];
      assert q in pushed;
      assert q[..|p|] == p;
      assert forall i :: 0 <= i < |p| ==> q[i] == p[i];
      assert Edge(s, q[|p| - 1], q[|p|]);
    }
  }

  /** An expanded path visits only ids with a child list. */
  lemma {:induction false} PathLength(s: Snapshot, p: Path)
    requires |p| > 0 && Simple(p) && Linked(s, p) && Last(p) in s.children
    ensures |p| <= |s.children|
  {
    forall i | 0 <= i < |p| ensures p[i] in s.children.Keys {
      if i < |p| - 1 { assert Edge(s, p[i], p[i + 1]); }
    }
    SimpleLength(p, s.children.Keys);
  }

  lemma {:induction false} WeightOfChildren(fanout: nat, height: nat, count: nat)
    requires count <= fanout
    ensures count * Weight(fanout, height) < Weight(fanout, height + 1)
  {
    var w := Weight(fanout, height);
    assert count * w <= fanout * w;
  }

  lemma {:induction false} ChildWeight(s: Snapshot, p: Path, q: Path)
    requires |q| == |p| + 1 && |p| <= |s.children|
    ensures ItemWeight(s, q) == Weight(Fanout(s.children), |s.children| - |p|)
  {
  }

  lemma {:induction false} BatchLight(s: Snapshot, p: Path, batch: seq<Path>)
    requires 0 < |p| <= |s.children| && |batch| <= Fanout(s.children)
    requires forall q :: q in batch ==> |q| == |p| + 1
    ensures QueueWeight(s, batch) < ItemWeight(s, p)
  {
    var fanout, height := Fanout(s.children), |s.children| - |p|;
    forall q | q in batch ensures ItemWeight(s, q) == Weight(fanout, height) {
      ChildWeight(s, p, q);
    }
    UniformWeight(s, batch, Weight(fanout, height));
    WeightOfChildren(fanout, height, |batch|);
  }

  lemma {:induction false} PushedLight(s: Snapshot, p: Path, visited: set<Id>)
    requires |p| > 0 && Simple(p) && Linked(s, p)
    ensures QueueWeight(s, Pushed(p, Children(s, Last(p)), visited)) < ItemWeight(s, p)
  {
    if Last(p) in s.children {
      PathLength(s, p);
      BatchLight(s, p, Pushed(p, Children(s, Last(p)), visited));
    }
  }

  /** The queue without its head. */
  lemma {:induction false} TailWeight(s: Snapshot, queue: seq<Path>)
    requires |queue| > 0
    ensures QueueWeight(s, queue) == ItemWeight(s, queue[0]) + QueueWeight(s, queue[1..])
  {
    hide ItemWeight;
    assert queue == [queue[0]] + queue[1..];
    QueueWeightConcat(s, [queue[0]], queue[1..]);
    assert [queue[0]][..0] == [];
    assert QueueWeight(s, []) == 0;
  }

  lemma {:induction false} LightWithoutHead(s: Snapshot, queue: seq<Path>, more: seq<Path>)
    requires |queue| > 0
    requires QueueWeight(s, more) < ItemWeight(s, queue[0])
    ensures QueueWeight(s, queue[1..] + more) < QueueWeight(s, queue)
  {
    hide ItemWeight, QueueWeight;
    TailWeight(s, queue);
    QueueWeightConcat(s, queue[1..], more);
  }

  lemma {:induction false} StillItem(s: Snapshot, root: Id, p: Path, visited: set<Id>, now: set<Id>)
    requires Item(s, root, p, visited) && visited <= now
    ensures Item(s, root, p, now)
  {
    hide Linked, Simple;
  }

  lemma {:induction false} ValidConcat(s: Snapshot, root: Id, a: seq<Path>, b: seq<Path>, visited: set<Id>)
    requires ValidQueue(s, root, a, visited) && ValidQueue(s, root, b, visited)
    ensures ValidQueue(s, root, a + b, visited)
  {
    hide Item;
  }

  lemma {:induction false} TailValid(s: Snapshot, root: Id, queue: seq<Path>, visited: set<Id>, now: set<Id>)
    requires |queue| > 0 && ValidQueue(s, root, queue, visited) && visited <= now
    ensures ValidQueue(s, root, queue[1..], now)
  {
    hide Item;
    forall k | 0 <= k < |queue[1..]| ensures Item(s, root, queue[1..][k], now) {
      assert Item(s, root, queue[k + 1], visited);
      StillItem(s, root, queue[k + 1], visited, now);
    }
  }

  lemma {:induction false} Weighs(s: Snapshot, p: Path)
    ensures QueueWeight(s, []) < ItemWeight(s, p)
  {
  }

  /** One turn of the loop keeps the queue valid and makes it lighter. */
  lemma {:induction false} AdvanceValid(s: Snapshot, root: Id, queue: seq<Path>, visited: set<Id>)
    requires |queue| > 0 && ValidQueue(s, root, queue, visited)
    ensures ValidQueue(s, root, Advance(s, queue, visited), visited + {Last(queue[0])})
    ensures QueueWeight(s, Advance(s, queue, visited)) < QueueWeight(s, queue)
  {
    var p := queue[0];
    assert Item(s, root, p, visited);
    var v, now := Last(p), visited + {Last(p)};
    hide QueueWeight, ItemWeight, Pushed, Linked, Simple;
    TailValid(s, root, queue, visited, now);
    if v in s.infos {
      PushedItems(s, root, p, visited);
      ValidConcat(s, root, queue[1..], Pushed(p, Children(s, v), now), now);
      PushedLight(s, p, now);
      LightWithoutHead(s, queue, Pushed(p, Children(s, v), now));
    } else {
      assert queue[1..] + [] == queue[1..];
      Weighs(s, p);
      LightWithoutHead(s, queue, []);
    }
  }

  /** The items that get a track, in order, when the loop runs from the given queue. */
  ghost function Traverse(s: Snapshot, root: Id, queue: seq<Path>, visited: set<Id>): (r: seq<Path>)
    requires ValidQueue(s, root, queue, visited)
    ensures forall p :: p in r ==> |p| > 0 && Last(p) in s.infos
    decreases QueueWeight(s, queue)
  {
    if queue == [] then [] else
    AdvanceValid(s, root, queue, visited);
    var rest := Traverse(s, root, Advance(s, queue, visited), visited + {Last(queue[0])});
    if Last(queue[0]) in s.infos then [queue[0]] + rest else rest
  }

  /** The items that get a track when coroutine `root` is traced. */
  ghost function Emitted(s: Snapshot, root: Id): (r: seq<Path>)
    ensures forall p :: p in r ==> |p| > 0 && Last(p) in s.infos
  {
    Traverse(s, root, [[root]], {})
  }

  /** All items that leave the queue, in order. */
  ghost function Visits(s: Snapshot, root: Id, queue: seq<Path>, visited: set<Id>): (r: seq<Path>)
    requires ValidQueue(s, root, queue, visited)
    ensures forall k :: 0 <= k < |r| ==> |r[k]| > 0
    decreases QueueWeight(s, queue)
  {
    if queue == [] then [] else
    AdvanceValid(s, root, queue, visited);
    [queue[0]] + Visits(s, root, Advance(s, queue, visited), visited + {Last(queue[0])})
  }

  /**
   The loop makes at most as many turns as the queue weighs, and it shows exactly the
   items that leave the queue and have an info.
   */
  lemma {:induction false} TraverseBound(s: Snapshot, root: Id, queue: seq<Path>, visited: set<Id>)
    requires ValidQueue(s, root, queue, visited)
    ensures |Visits(s, root, queue, visited)| <= QueueWeight(s, queue)
    ensures forall p :: p in Traverse(s, root, queue, visited)
              <==> p in Visits(s, root, queue, visited) && Last(p) in s.infos
    decreases QueueWeight(s, queue)
  {
    if queue != [] {
      AdvanceValid(s, root, queue, visited);
      TraverseBound(s, root, Advance(s, queue, visited), visited + {Last(queue[0])});
    }
  }

  ghost function LastIds(items: seq<Path>): (ids: seq<Id>)
    requires forall k :: 0 <= k < |items| ==> |items[k]| > 0
    ensures |ids| == |items| && forall k :: 0 <= k < |items| ==> ids[k] == Last(items[k])
  {
    seq(|items|, k requires 0 <= k < |items| => Last(items[k]))
  }

  // ---------- what is reached ----------

  /** A chain of children from `root` to `id` on which every coroutine has an info. */
  ghost predicate InfoPath(s: Snapshot, root: Id, p: Path, id: Id) {
    |p| > 0 && p[0] == root && Last(p) == id && id in s.infos && Linked(s, p)
  }

  ghost predicate Reachable(s: Snapshot, root: Id, id: Id) {
    exists p :: InfoPath(s, root, p, id)
  }

  /** The emitted items end in reachable coroutines. */
  lemma {:induction false} TraverseSound(s: Snapshot, root: Id, queue: seq<Path>, visited: set<Id>)
    requires ValidQueue(s, root, queue, visited)
    ensures forall p :: p in Traverse(s, root, queue, visited) ==> Linked(s, p) && Simple(p) && p[0] == root
    decreases QueueWeight(s, queue)
  {
    if queue != [] {
      AdvanceValid(s, root, queue, visited);
      TraverseSound(s, root, Advance(s, queue, visited), visited + {Last(queue[0])});
    }
  }

  /** Ids whose expansion has begun have all their children visited or queued. */
  ghost predicate Covered(s: Snapshot, queue: seq<Path>, visited: set<Id>) {
    forall u, v :: u in visited && Edge(s, u, v) ==> v in visited || Queued(queue, v)
  }

  ghost predicate Queued(queue: seq<Path>, v: Id) {
    exists k :: 0 <= k < |queue| && |queue[k]| > 0 && Last(queue[k]) == v
  }

  lemma {:induction false} PushedComplete(p: Path, kids: seq<Id>, visited: set<Id>, v: Id)
    requires |p| > 0 && v in kids && v !in visited
    ensures Queued(Pushed(p, kids, visited), v)
  {
    if v in kids[..|kids| - 1] {
      PushedComplete(p, kids[..|kids| - 1], visited, v);
      var k :| 0 <= k < |Pushed(p, kids[..|kids| - 1], visited)| && Last(Pushed(p, kids[..|kids| - 1], visited)[k])
        == v;
      assert Last(Pushed(p, kids, visited)[k]) == v;
    } else {
      assert kids == kids[..|kids| - 1] + [Last(kids)];
      assert Last(Pushed(p, kids, visited)[|Pushed(p, kids, visited)| - 1]) == v;
    }
  }

  lemma {:induction false} QueuedConcat(a: seq<Path>, b: seq<Path>, v: Id)
    requires Queued(a, v) || Queued(b, v)
    ensures Queued(a + b, v)
  {
    if Queued(a, v) {
      var k :| 0 <= k < |a| && |a[k]| > 0 && Last(a[k]) == v;
      assert (a + b)[k] == a[k];
    } else {
      var k :| 0 <= k < |b| && |b[k]| > 0 && Last(b[k]) == v;
      assert (a + b)[|a| + k] == b[k];
    }
  }

  lemma {:induction false} AdvanceCovered(s: Snapshot, root: Id, queue: seq<Path>, visited: set<Id>)
    requires |queue| > 0 && ValidQueue(s, root, queue, visited) && Covered(s, queue, visited)
    ensures Covered(s, Advance(s, queue, visited), visited + {Last(queue[0])})
  {
    var h := Last(queue[0]);
    var now := visited + {h};
    forall u, v | u in now && Edge(s, u, v) ensures v in now || Queued(Advance(s, queue, visited), v) {
      if v !in now {
        if u == h {
          PushedComplete(queue[0], Children(s, h), now, v);
          QueuedConcat(queue[1..], Pushed(queue[0], Children(s, h), now), v);
        } else {
          StillQueued(queue, v);
          if h in s.infos { QueuedConcat(queue[1..], Pushed(queue[0], Children(s, h), now), v); }
        }
      }
    }
  }

  lemma {:induction false} StillQueued(queue: seq<Path>, v: Id)
    requires |queue| > 0 && |queue[0]| > 0 && Queued(queue, v) && v != Last(queue[0])
    ensures Queued(queue[1..], v)
  {
    var k :| 0 <= k < |queue| && |queue[k]| > 0 && Last(queue[k]) == v;
    assert queue[1..][k - 1] == queue[k];
  }

  /** The coroutines that get a track. */
  ghost predicate Shown(r: seq<Path>, id: Id) {
    exists p :: p in r && |p| > 0 && Last(p) == id
  }

  /**
   From a covered queue, every id with an info that is visited later is shown,
   and the ids visited in the end are closed under children.
   */
  lemma {:induction false} TraverseCloses(s: Snapshot, root: Id, queue: seq<Path>, visited: set<Id>)
    returns (finally: set<Id>)
    requires ValidQueue(s, root, queue, visited) && Covered(s, queue, visited)
    ensures visited <= finally
    ensures forall k :: 0 <= k < |queue| ==> Last(queue[k]) in finally
    ensures forall id :: id in finally - visited && id in s.infos ==> Shown(Traverse(s, root, queue, visited), id)
    ensures forall u, v :: u in finally && Edge(s, u, v) ==> v in finally
    decreases QueueWeight(s, queue)
  {
    if queue == [] {
      finally := visited;
      forall u, v | u in finally && Edge(s, u, v) ensures v in finally {
        assert !Queued(queue, v);
      }
    } else {
      var h := Last(queue[0]);
      AdvanceValid(s, root, queue, visited);
      AdvanceCovered(s, root, queue, visited);
      var next := Advance(s, queue, visited);
      finally := TraverseCloses(s, root, next, visited + {h});
      forall k | 0 <= k < |queue| ensures Last(queue[k]) in finally {
        if k > 0 { assert next[k - 1] == queue[k]; }
      }
      var rest := Traverse(s, root, next, visited + {h});
      var all := Traverse(s, root, queue, visited);
      forall id | id in finally - visited && id in s.infos ensures Shown(all, id) {
        if id == h {
          assert queue[0] in all;
        } else {
          var p :| p in rest && |p| > 0 && Last(p) == id;
          assert p in all;
        }
      }
    }
  }

  lemma {:induction false} ClosedReaches(s: Snapshot, p: Path, closed: set<Id>)
    requires |p| > 0 && p[0] in closed && Linked(s, p)
    requires forall u, v :: u in closed && Edge(s, u, v) ==> v in closed
    ensures Last(p) in closed
  {
    if |p| > 1 {
      ClosedReaches(s, p[..|p| - 1], closed);
      assert Edge(s, p[|p| - 2], p[|p| - 1]);
    }
  }

  /**
   On every child map, with sharing, repetition and cycles allowed, the
   coroutines given a track are exactly the reachable ones.
   */
  lemma {:induction false} ShownIffReachable(s: Snapshot, root: Id, id: Id)
    ensures Shown(Emitted(s, root), id) <==> Reachable(s, root, id)
  {
    if Shown(Emitted(s, root), id) {
      TraverseSound(s, root, [[root]], {});
      var p :| p in Emitted(s, root) && |p| > 0 && Last(p) == id;
      assert InfoPath(s, root, p, id);
    }
    if Reachable(s, root, id) {
      var p :| InfoPath(s, root, p, id);
      var closed := TraverseCloses(s, root, [[root]], {});
      assert Last([[root]][0]) in closed;
      ClosedReaches(s, p, closed);
    }
  }

  // ---------- a coroutine that is shown twice ----------

  lemma {:induction false} TraverseStep(s: Snapshot, root: Id, queue: seq<Path>, visited: set<Id>, next: seq<Path>,
                                        now: set<Id>)
    requires |queue| > 0 && ValidQueue(s, root, queue, visited)
    requires Last(queue[0]) in s.infos && now == visited + {Last(queue[0])}
    requires next == queue[1..] + Pushed(queue[0], Children(s, Last(queue[0])), now)
    ensures ValidQueue(s, root, next, now)
    ensures Traverse(s, root, queue, visited) == [queue[0]] + Traverse(s, root, next, now)
  {
    AdvanceValid(s, root, queue, visited);
  }

  /** A child shared by two siblings is shown twice. */
  lemma {:induction false} SharedChildShownTwice(s: Snapshot, r: Id, a: Id, b: Id, c: Id)
    requires r != a && r != b && r != c && a != b && a != c && b != c && {r, a, b, c} <= s.infos.Keys
    requires Children(s, r) == [a, b] && Children(s, a) == Children(s, b) == [c] && Children(s, c) == []
    ensures |Emitted(s, r)| == 5 && Emitted(s, r)[3] == [r, a, c] && Emitted(s, r)[4] == [r, b, c]
  {
    SharedChildRoot(s, r, a, b);
    SharedChildSiblings(s, r, a, b, c);
  }

  lemma {:induction false} SharedChildRoot(s: Snapshot, r: Id, a: Id, b: Id)
    requires r != a && r != b && r in s.infos && Children(s, r) == [a, b]
    ensures ValidQueue(s, r, [[r, a], [r, b]], {r})
    ensures Emitted(s, r) == [[r]] + Traverse(s, r, [[r, a], [r, b]], {r})
  {
    PushTwo([r], a, b, {r}, [r, a], [r, b]);
    assert [[r]][1..] + [[r, a], [r, b]] == [[r, a], [r, b]];
    TraverseStep(s, r, [[r]], {}, [[r, a], [r, b]], {r});
  }

  lemma {:induction false} SharedChildSiblings(s: Snapshot, r: Id, a: Id, b: Id, c: Id)
    requires r != a && r != b && r != c && a != b && a != c && b != c && {a, b, c} <= s.infos.Keys
    requires Children(s, a) == Children(s, b) == [c] && Children(s, c) == []
    requires ValidQueue(s, r, [[r, a], [r, b]], {r})
    ensures var t := Traverse(s, r, [[r, a], [r, b]], {r}); |t| == 4 && t[2] == [r, a, c] && t[3] == [r, b, c]
  {
    PushOne([r, a], c, {r, a}, [r, a, c]);
    assert [[r, a], [r, b]][1..] + [[r, a, c]] == [[r, b], [r, a, c]];
    TraverseStep(s, r, [[r, a], [r, b]], {r}, [[r, b], [r, a, c]], {r, a});
    SharedChildLast(s, r, a, b, c);
  }

  lemma {:induction false} SharedChildLast(s: Snapshot, r: Id, a: Id, b: Id, c: Id)
    requires c !in {r, a, b} && {b, c} <= s.infos.Keys
    requires Children(s, b) == [c] && Children(s, c) == []
    requires ValidQueue(s, r, [[r, b], [r, a, c]], {r, a})
    ensures var t := Traverse(s, r, [[r, b], [r, a, c]], {r, a}); |t| == 3 && t[1] == [r, a, c] && t[2] == [r, b, c]
  {
    PushOne([r, b], c, {r, a, b}, [r, b, c]);
    assert [[r, b], [r, a, c]][1..] + [[r, b, c]] == [[r, a, c], [r, b, c]];
    TraverseStep(s, r, [[r, b], [r, a, c]], {r, a}, [[r, a, c], [r, b, c]], {r, a, b});
    TraverseLeaves(s, r, [[r, a, c], [r, b, c]], {r, a, b});
  }

  /** Items without children are shown in the order of the queue. */
  lemma {:induction false} TraverseLeaves(s: Snapshot, root: Id, queue: seq<Path>, visited: set<Id>)
    requires ValidQueue(s, root, queue, visited)
    requires forall p :: p in queue ==> Last(p) in s.infos && Children(s, Last(p)) == []
    ensures Traverse(s, root, queue, visited) == queue
    decreases |queue|
  {
    if queue != [] {
      var now := visited + {Last(queue[0])};
      TraverseStep(s, root, queue, visited, queue[1..], now);
      TraverseLeaves(s, root, queue[1..], now);
    }
  }

  lemma {:induction false} PushOne(p: Path, v: Id, visited: set<Id>, q: Path)
    requires |p| > 0 && v !in visited && q == p + [v]
    ensures Pushed(p, [v], visited) == [q]
  {
    assert [v][..0] == [];
    assert Pushed(p, [], visited) == [];
  }

  lemma {:induction false} PushTwo(p: Path, u: Id, v: Id, visited: set<Id>, q: Path, r: Path)
    requires |p| > 0 && u !in visited && v !in visited && q == p + [u] && r == p + [v]
    ensures Pushed(p, [u, v], visited) == [q, r]
  {
    assert [u, v][..1] == [u];
    PushOne(p, u, visited, q);
  }
}
