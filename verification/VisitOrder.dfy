/**
 When the worklist shows every coroutine once. The order in which coroutines first
 leave the queue is that of a plain breadth-first search, which marks ids when they
 are queued; whether an id is queued twice depends on how often the coroutines before
 it in that order list it.
 */
module VisitOrder {
  import opened Basics
  import opened Records
  import opened Traversal

  // ---------- the reference search ----------

  /** Appends the ids that are not there yet, each once. */
  function Extend(order: seq<Id>, ids: seq<Id>): seq<Id> {
    if ids == [] then order else
    var more, id := Extend(order, ids[..|ids| - 1]), Last(ids);
    if id in more then more else more + [id]
  }

  lemma {:induction false} ExtendGrows(order: seq<Id>, ids: seq<Id>)
    ensures order <= Extend(order, ids)
    ensures Distinct(order) ==> Distinct(Extend(order, ids))
  {
    if ids != [] { ExtendGrows(order, ids[..|ids| - 1]); }
  }

  lemma {:induction false} ExtendMember(order: seq<Id>, ids: seq<Id>, id: Id)
    ensures id in Extend(order, ids) <==> id in order || id in ids
  {
    if ids != [] {
      assert ids == ids[..|ids| - 1] + [Last(ids)];
      ExtendMember(order, ids[..|ids| - 1], id);
    }
  }

  lemma {:induction false} ExtendConcat(order: seq<Id>, a: seq<Id>, b: seq<Id>)
    ensures Extend(order, a + b) == Extend(Extend(order, a), b)
  {
    if b == [] {
      assert a + b == a;
    } else {
      assert (a + b)[..|a + b| - 1] == a + b[..|b| - 1];
      ExtendConcat(order, a, b[..|b| - 1]);
    }
  }

  lemma {:induction false} ExtendNothing(order: seq<Id>, ids: seq<Id>)
    requires forall id :: id in ids ==> id in order
    ensures Extend(order, ids) == order
  {
    if ids != [] { ExtendNothing(order, ids[..|ids| - 1]); }
  }

  lemma {:induction false} ExtendOne(order: seq<Id>, id: Id)
    ensures Extend(order, [id]) == if id in order then order else order + [id]
  {
    assert [id][..0] == [];
  }

  /** The children that the search follows. */
  function Kids(s: Snapshot, id: Id): seq<Id> {
    if id in s.infos then Children(s, id) else []
  }

  ghost function Universe(s: Snapshot, root: Id): set<Id> {
    {root} + set u, v | u in s.children.Keys && v in s.children[u] :: v
  }

  lemma {:induction false} ChildInUniverse(s: Snapshot, root: Id, u: Id, v: Id)
    requires v in Children(s, u)
    ensures v in Universe(s, root)
  {
    assert u in s.children.Keys && v in s.children[u];
  }

  ghost predicate Searching(s: Snapshot, root: Id, order: seq<Id>, k: nat) {
    k <= |order| && Distinct(order) && forall i :: 0 <= i < |order| ==> order[i] in Universe(s, root)
  }

  lemma {:induction false} SearchingStep(s: Snapshot, root: Id, order: seq<Id>, k: nat)
    requires Searching(s, root, order, k) && k < |order|
    ensures Searching(s, root, Extend(order, Kids(s, order[k])), k + 1)
    ensures k < |Universe(s, root)|
  {
    SimpleLength(order, Universe(s, root));
    var next := Extend(order, Kids(s, order[k]));
    ExtendGrows(order, Kids(s, order[k]));
    forall i | 0 <= i < |next| ensures next[i] in Universe(s, root) {
      assert next[i] in next;
      ExtendMember(order, Kids(s, order[k]), next[i]);
      if next[i] in order {
        var m :| 0 <= m < |order| && order[m] == next[i];
      } else {
        ChildInUniverse(s, root, order[k], next[i]);
      }
    }
  }

  /** Breadth-first search: `order[..k]` have been expanded, the rest are queued. */
  ghost function Search(s: Snapshot, root: Id, order: seq<Id>, k: nat): (r: seq<Id>)
    requires Searching(s, root, order, k)
    ensures order <= r && Distinct(r)
    decreases |Universe(s, root)| - k
  {
    if k == |order| then order else
    SearchingStep(s, root, order, k);
    ExtendGrows(order, Kids(s, order[k]));
    Search(s, root, Extend(order, Kids(s, order[k])), k + 1)
  }

  /** The ids found from `root`, in the order in which breadth-first search visits them. */
  ghost function Order(s: Snapshot, root: Id): (r: seq<Id>)
    ensures Distinct(r)
  {
    assert root in Universe(s, root);
    Search(s, root, [root], 0)
  }

  // ---------- the worklist follows the search ----------

  /** `done` have left the queue and `waiting` are in it, duplicates included. */
  ghost predicate Follows(visited: set<Id>, done: seq<Id>, waiting: seq<Id>, order: seq<Id>, k: nat) {
    && k <= |order|
    && (forall id :: id in visited <==> id in done)
    && Extend([], done) == order[..k]
    && Extend([], done + waiting) == order
  }

  lemma {:induction false} ExtendPushed(order: seq<Id>, p: Path, kids: seq<Id>, visited: set<Id>)
    requires |p| > 0 && forall id :: id in visited ==> id in order
    ensures Extend(order, LastIds(Pushed(p, kids, visited))) == Extend(order, kids)
  {
    hide Extend;
    if kids != [] {
      var front, id := kids[..|kids| - 1], Last(kids);
      ExtendPushed(order, p, front, visited);
      var pushed := Pushed(p, front, visited);
      assert kids == front + [id];
      ExtendConcat(order, front, [id]);
      ExtendOne(Extend(order, front), id);
      if id in visited {
        assert Pushed(p, kids, visited) == pushed;
        ExtendMember(order, front, id);
      } else {
        assert Pushed(p, kids, visited) == pushed + [p + [id]];
        LastIdsConcat(pushed, [p + [id]]);
        assert LastIds([p + [id]]) == [id];
        ExtendConcat(order, LastIds(pushed), [id]);
      }
    } else {
      ExtendNothing(order, []);
      assert LastIds([]) == [];
    }
  }

  lemma {:induction false} LastIdsConcat(a: seq<Path>, b: seq<Path>)
    requires forall k :: 0 <= k < |a| ==> |a[k]| > 0
    requires forall k :: 0 <= k < |b| ==> |b[k]| > 0
    ensures LastIds(a + b) == LastIds(a) + LastIds(b)
  {
  }

  /** The ids that a turn of the loop queues. */
  ghost function Queues(s: Snapshot, p: Path, visited: set<Id>): (r: seq<Path>)
    requires |p| > 0
    ensures forall k :: 0 <= k < |r| ==> |r[k]| > 0
  {
    if Last(p) in s.infos then Pushed(p, Children(s, Last(p)), visited + {Last(p)}) else []
  }

  lemma {:induction false} AdvanceIds(s: Snapshot, root: Id, queue: seq<Path>, visited: set<Id>, done: seq<Id>)
    requires |queue| > 0 && ValidQueue(s, root, queue, visited)
    ensures ValidQueue(s, root, Advance(s, queue, visited), visited + {Last(queue[0])})
    ensures done + [Last(queue[0])] + LastIds(Advance(s, queue, visited))
         == done + LastIds(queue) + LastIds(Queues(s, queue[0], visited))
  {
    hide Pushed, QueueWeight, Linked, Simple;
    AdvanceValid(s, root, queue, visited);
    var v, queues := Last(queue[0]), Queues(s, queue[0], visited);
    assert Advance(s, queue, visited) == queue[1..] + queues;
    LastIdsConcat([queue[0]], queue[1..]);
    assert queue == [queue[0]] + queue[1..] && LastIds([queue[0]]) == [v];
    LastIdsConcat(queue[1..], queues);
    IdsRegroup(done, v, LastIds(queue[1..]), LastIds(queues));
  }

  lemma {:induction false} IdsRegroup(done: seq<Id>, v: Id, a: seq<Id>, b: seq<Id>)
    ensures done + [v] + (a + b) == done + ([v] + a) + b
  {
  }

  /** What the search has found once the head of the queue is handled. */
  ghost function Found(s: Snapshot, order: seq<Id>, v: Id, visited: set<Id>): seq<Id> {
    if v in visited then order else Extend(order, Kids(s, v))
  }

  lemma {:induction false} FollowsStep(s: Snapshot, root: Id, queue: seq<Path>, visited: set<Id>, done: seq<Id>,
                                       order: seq<Id>, k: nat)
    requires |queue| > 0 && ValidQueue(s, root, queue, visited) && Covered(s, queue, visited)
    requires Follows(visited, done, LastIds(queue), order, k)
    ensures var v := Last(queue[0]);
      && (v !in visited ==> k < |order| && order[k] == v)
      && ValidQueue(s, root, Advance(s, queue, visited), visited + {v})
      && Follows(visited + {v}, done + [v], LastIds(Advance(s, queue, visited)),
                 Found(s, order, v, visited), if v in visited then k else k + 1)
  {
    hide Extend, Advance, Covered, Linked, Simple, Follows, Queues;
    var v, waiting := Last(queue[0]), LastIds(queue);
    var queues := LastIds(Queues(s, queue[0], visited));
    AdvanceIds(s, root, queue, visited, done);
    var next := LastIds(Advance(s, queue, visited));
    if v in visited {
      FollowsMembers(visited, done, waiting, order, k);
      QueuesKnown(s, queue, visited, done, order);
      FollowsAgain(visited, done, waiting, order, k, queues, next);
    } else {
      FollowsMembers(visited, done, waiting, order, k);
      QueuesNew(s, queue[0], visited, done, waiting, order, k);
      FollowsNew(visited, done, waiting, order, k, queues, next);
    }
  }

  lemma {:induction false} FollowsMembers(visited: set<Id>, done: seq<Id>, waiting: seq<Id>, order: seq<Id>, k: nat)
    requires Follows(visited, done, waiting, order, k)
    ensures forall id :: id in visited <==> id in done
    ensures forall id :: id in done || id in waiting <==> id in order
    ensures forall id :: id in done <==> id in order[..k]
  {
    hide Extend;
    forall id ensures id in done || id in waiting <==> id in order {
      ExtendMember([], done + waiting, id);
    }
    forall id ensures id in done <==> id in order[..k] {
      ExtendMember([], done, id);
    }
  }

  /** The head of the queue has been visited before. */
  lemma {:induction false} FollowsAgain(visited: set<Id>, done: seq<Id>, waiting: seq<Id>, order: seq<Id>, k: nat,
                                        queues: seq<Id>, next: seq<Id>)
    requires waiting != [] && waiting[0] in visited && Follows(visited, done, waiting, order, k)
    requires done + [waiting[0]] + next == done + waiting + queues && forall id :: id in queues ==> id in order
    ensures Follows(visited + {waiting[0]}, done + [waiting[0]], next, order, k)
  {
    hide Extend;
    var v := waiting[0];
    FollowsMembers(visited, done, waiting, order, k);
    ExtendConcat([], done, [v]);
    ExtendOne(order[..k], v);
    ExtendConcat([], done + waiting, queues);
    ExtendNothing(order, queues);
  }

  /** The head of the queue is visited for the first time. */
  lemma {:induction false} FollowsNew(visited: set<Id>, done: seq<Id>, waiting: seq<Id>, order: seq<Id>, k: nat,
                                      queues: seq<Id>, next: seq<Id>)
    requires waiting != [] && waiting[0] !in visited && Follows(visited, done, waiting, order, k)
    requires done + [waiting[0]] + next == done + waiting + queues
    ensures k < |order| && order[k] == waiting[0]
    ensures Follows(visited + {waiting[0]}, done + [waiting[0]], next, Extend(order, queues), k + 1)
  {
    hide Extend;
    var v := waiting[0];
    FollowsMembers(visited, done, waiting, order, k);
    HeadIsNext(done, waiting, order, k);
    ExtendConcat([], done, [v]);
    ExtendOne(order[..k], v);
    ExtendConcat([], done + waiting, queues);
    ExtendGrows(order, queues);
    assert Extend(order, queues)[..k + 1] == order[..k] + [v];
  }

  lemma {:induction false} QueuesNew(s: Snapshot, p: Path, visited: set<Id>, done: seq<Id>, waiting: seq<Id>,
                                     order: seq<Id>, k: nat)
    requires |p| > 0 && waiting != [] && waiting[0] == Last(p) && Follows(visited, done, waiting, order, k)
    ensures Extend(order, LastIds(Queues(s, p, visited))) == Extend(order, Kids(s, Last(p)))
  {
    hide Extend, Pushed;
    FollowsMembers(visited, done, waiting, order, k);
    if Last(p) in s.infos {
      ExtendPushed(order, p, Children(s, Last(p)), visited + {Last(p)});
    } else {
      assert LastIds([]) == [];
    }
  }

  lemma {:induction false} HeadIsNext(done: seq<Id>, waiting: seq<Id>, order: seq<Id>, k: nat)
    requires waiting != [] && k <= |order| && Extend([], done) == order[..k] && Extend([], done + waiting) == order
    requires waiting[0] !in order[..k]
    ensures k < |order| && order[k] == waiting[0]
  {
    hide Extend;
    assert done + waiting == done + [waiting[0]] + waiting[1..];
    ExtendConcat([], done + [waiting[0]], waiting[1..]);
    ExtendConcat([], done, [waiting[0]]);
    ExtendOne(order[..k], waiting[0]);
    ExtendGrows(order[..k] + [waiting[0]], waiting[1..]);
    assert (order[..k] + [waiting[0]])[k] == waiting[0];
  }

  /** A coroutine that is expanded again queues only ids that were queued before. */
  lemma {:induction false} QueuesKnown(s: Snapshot, queue: seq<Path>, visited: set<Id>, done: seq<Id>, order: seq<Id>)
    requires |queue| > 0 && (forall k :: 0 <= k < |queue| ==> |queue[k]| > 0) && Last(queue[0]) in visited
    requires Covered(s, queue, visited) && (forall id :: id in visited <==> id in done)
    requires forall id :: id in done || id in LastIds(queue) <==> id in order
    ensures forall id :: id in LastIds(Queues(s, queue[0], visited)) ==> id in order
  {
    var v, queues := Last(queue[0]), Queues(s, queue[0], visited);
    forall id | id in LastIds(queues) ensures id in order {
      var m :| 0 <= m < |queues| && LastIds(queues)[m] == id;
      assert queues[m] in queues;
      assert Edge(s, v, id);
      if id !in visited {
        var q :| 0 <= q < |queue| && |queue[q]| > 0 && Last(queue[q]) == id;
        assert LastIds(queue)[q] == id;
      }
    }
  }

  /** The search goes on from where the worklist is. */
  lemma {:induction false} SearchFollows(s: Snapshot, root: Id, order: seq<Id>, k: nat, v: Id, visited: set<Id>)
    requires Searching(s, root, order, k) && (v !in visited ==> k < |order| && order[k] == v)
    ensures var next, l := Found(s, order, v, visited), if v in visited then k else k + 1;
      Searching(s, root, next, l) && Search(s, root, next, l) == Search(s, root, order, k)
  {
    if v !in visited { SearchingStep(s, root, order, k); }
  }

  lemma {:induction false} VisitsFollow(s: Snapshot, root: Id, queue: seq<Path>, visited: set<Id>, done: seq<Id>,
                                        order: seq<Id>, k: nat)
    requires ValidQueue(s, root, queue, visited) && Covered(s, queue, visited)
    requires Searching(s, root, order, k) && Follows(visited, done, LastIds(queue), order, k)
    ensures Extend([], done + LastIds(Visits(s, root, queue, visited))) == Search(s, root, order, k)
    decreases QueueWeight(s, queue)
  {
    hide Extend, Search, Searching, Covered, Follows, Visits, Advance, Linked, Simple, Found;
    if queue == [] {
      NoVisits(s, root, visited);
      NothingWaits(s, root, visited, done, order, k);
      assert done + [] == done;
    } else {
      var v, next := Last(queue[0]), Advance(s, queue, visited);
      AdvanceValid(s, root, queue, visited);
      AdvanceCovered(s, root, queue, visited);
      FollowsStep(s, root, queue, visited, done, order, k);
      SearchFollows(s, root, order, k, v, visited);
      VisitsFollow(s, root, next, visited + {v}, done + [v], Found(s, order, v, visited), if v in visited then k
        else k + 1);
      VisitsUnfold(s, root, queue, visited, done);
    }
  }

  lemma {:induction false} NoVisits(s: Snapshot, root: Id, visited: set<Id>)
    ensures LastIds(Visits(s, root, [], visited)) == []
  {
  }

  lemma {:induction false} VisitsUnfold(s: Snapshot, root: Id, queue: seq<Path>, visited: set<Id>, done: seq<Id>)
    requires |queue| > 0 && ValidQueue(s, root, queue, visited)
    ensures var v := Last(queue[0]);
      && ValidQueue(s, root, Advance(s, queue, visited), visited + {v})
      && done + LastIds(Visits(s, root, queue, visited))
         == done + [v] + LastIds(Visits(s, root, Advance(s, queue, visited), visited + {v}))
  {
    hide Advance, Linked, Simple;
    AdvanceValid(s, root, queue, visited);
    var rest := Visits(s, root, Advance(s, queue, visited), visited + {Last(queue[0])});
    LastIdsConcat([queue[0]], rest);
    assert LastIds([queue[0]]) == [Last(queue[0])];
    IdsAssoc(done, Last(queue[0]), LastIds(rest));
  }

  lemma {:induction false} IdsAssoc(done: seq<Id>, v: Id, rest: seq<Id>)
    ensures done + ([v] + rest) == done + [v] + rest
  {
  }

  lemma {:induction false} NothingWaits(s: Snapshot, root: Id, visited: set<Id>, done: seq<Id>, order: seq<Id>, k: nat)
    requires Searching(s, root, order, k) && Follows(visited, done, LastIds([]), order, k)
    ensures Extend([], done) == order == Search(s, root, order, k)
  {
    assert done + LastIds([]) == done;
  }

  lemma {:induction false} StartFollows(s: Snapshot, root: Id)
    ensures ValidQueue(s, root, [[root]], {}) && Covered(s, [[root]], {})
    ensures Searching(s, root, [root], 0) && Follows({}, [], LastIds([[root]]), [root], 0)
  {
    assert LastIds([[root]]) == [root];
    StartOrder(s, root);
  }

  lemma {:induction false} StartOrder(s: Snapshot, root: Id)
    ensures Searching(s, root, [root], 0) && Follows({}, [], [root], [root], 0)
  {
    assert [] + [root] == [root] && [root][..0] == [];
    assert root in Universe(s, root);
    ExtendOne([], root);
  }

  /** The ids leave the queue for the first time in the order of the search. */
  lemma {:induction false} FirstVisits(s: Snapshot, root: Id)
    ensures ValidQueue(s, root, [[root]], {})
    ensures Extend([], LastIds(Visits(s, root, [[root]], {}))) == Order(s, root)
  {
    StartFollows(s, root);
    VisitsFollow(s, root, [[root]], {}, [], [root], 0);
    var ids := LastIds(Visits(s, root, [[root]], {}));
    assert [] + ids == ids;
  }

  /** The search finds exactly the reachable coroutines, among ids without an info. */
  lemma {:induction false} OrderReachable(s: Snapshot, root: Id, id: Id)
    ensures id in Order(s, root) && id in s.infos <==> Reachable(s, root, id)
  {
    hide Order, Reachable, Visits, Traverse;
    FirstVisits(s, root);
    TraverseBound(s, root, [[root]], {});
    ShownIffReachable(s, root, id);
    var visits := Visits(s, root, [[root]], {});
    ExtendMember([], LastIds(visits), id);
    if id in Order(s, root) && id in s.infos {
      var m :| 0 <= m < |visits| && LastIds(visits)[m] == id;
      assert visits[m] in visits && visits[m] in Emitted(s, root);
    }
    if Shown(Emitted(s, root), id) {
      var p :| p in Emitted(s, root) && |p| > 0 && Last(p) == id;
      var m :| 0 <= m < |visits| && visits[m] == p;
      assert LastIds(visits)[m] == id;
    }
  }

  // ---------- how often a coroutine is shown ----------

  /** A coroutine before the `b`-th of the order, the `a`-th, lists it as its `i`-th child. */
  ghost predicate ListedBefore(s: Snapshot, order: seq<Id>, b: int, a: int, i: int) {
    && 0 <= a < b < |order|
    && order[a] in s.infos
    && 0 <= i < |Children(s, order[a])|
    && Children(s, order[a])[i] == order[b]
  }

  /** Some coroutine is listed twice by coroutines that come before it. */
  ghost predicate Repeated(s: Snapshot, order: seq<Id>) {
    exists b, a, i, c, j ::
      && ListedBefore(s, order, b, a, i)
      && ListedBefore(s, order, b, c, j)
      && order[b] in s.infos
      && (a != c || i != j)
  }

  /** Ids with an info do not occur twice. */
  ghost predicate OnceEach(s: Snapshot, ids: seq<Id>) {
    forall i, j :: 0 <= i < j < |ids| && ids[i] == ids[j] ==> ids[i] !in s.infos
  }

  lemma {:induction false} PushedTwice(p: Path, kids: seq<Id>, visited: set<Id>, m: nat, n: nat) returns (i: nat,
                                       j: nat)
    requires |p| > 0 && m < n < |Pushed(p, kids, visited)|
    ensures i < j < |kids| && kids[i] == Last(Pushed(p, kids, visited)[m]) && kids[j]
      == Last(Pushed(p, kids, visited)[n])
  {
    var front := kids[..|kids| - 1];
    var pushed := Pushed(p, front, visited);
    if n < |pushed| {
      i, j := PushedTwice(p, front, visited, m, n);
    } else {
      assert pushed[m] in pushed;
      i :| 0 <= i < |front| && front[i] == Last(pushed[m]);
      j := |kids| - 1;
    }
  }

  /** Where the ids that have left the queue, and those that are about to be queued, are in the order. */
  lemma {:induction false} PlaceOf(done: seq<Id>, order: seq<Id>, k: nat, all: seq<Id>, id: Id) returns (b: nat)
    requires k < |order| && Extend([], done) == order[..k] && order <= all && id in all
    ensures b < |all| && all[b] == id
    ensures id in done ==> b < k
    ensures id !in done && id != order[k] ==> k < b
  {
    ExtendMember([], done, id);
    if id in done {
      assert id in order[..k];
      b :| 0 <= b < k && order[..k][b] == id;
    } else {
      b :| 0 <= b < |all| && all[b] == id;
      assert id !in order[..k];
    }
  }

  /** An item in the queue that has not been visited was queued by a coroutine that has. */
  lemma {:induction false} QueuedBy(s: Snapshot, root: Id, queue: seq<Path>, visited: set<Id>, m: nat) returns (u: Id,
                                    i: nat)
    requires m < |queue| && ValidQueue(s, root, queue, visited)
    requires Last(queue[m]) !in visited && Last(queue[m]) != Last(queue[0])
    ensures u in visited && u in s.infos && i < |Children(s, u)| && Children(s, u)[i] == Last(queue[m])
  {
    var q := queue[m];
    assert Item(s, root, q, visited) && Item(s, root, queue[0], visited);
    assert |q| > 1;
    u := q[|q| - 2];
    assert Edge(s, u, q[|q| - 1]);
    i :| 0 <= i < |Children(s, u)| && Children(s, u)[i] == Last(q);
  }

  ghost predicate OnTrack(s: Snapshot, root: Id, queue: seq<Path>, visited: set<Id>, done: seq<Id>, order: seq<Id>,
                          k: nat, all: seq<Id>) {
    && ValidQueue(s, root, queue, visited)
    && Covered(s, queue, visited)
    && Searching(s, root, order, k)
    && Follows(visited, done, LastIds(queue), order, k)
    && Search(s, root, order, k) == all
  }

  lemma {:induction false} OnTrackStep(s: Snapshot, root: Id, queue: seq<Path>, visited: set<Id>, done: seq<Id>,
                                       order: seq<Id>, k: nat, all: seq<Id>)
    returns (next: seq<Id>, l: nat)
    requires OnTrack(s, root, queue, visited, done, order, k, all) && |queue| > 0
    ensures |queue[0]| > 0
    ensures var v := Last(queue[0]);
      && OnTrack(s, root, Advance(s, queue, visited), visited + {v}, done + [v], next, l, all)
      && (v in visited <==> v in done)
      && (v !in visited ==> k < |order| && order[k] == v && order <= all && Extend([], done) == order[..k])
      && (v !in visited ==> forall id :: id in Kids(s, v) ==> id in all)
      && QueueWeight(s, Advance(s, queue, visited)) < QueueWeight(s, queue)
  {
    hide Extend, Search, Searching, Covered, Linked, Simple, Advance;
    var v := Last(queue[0]);
    AdvanceValid(s, root, queue, visited);
    AdvanceCovered(s, root, queue, visited);
    FollowsStep(s, root, queue, visited, done, order, k);
    SearchFollows(s, root, order, k, v, visited);
    next, l := Found(s, order, v, visited), if v in visited then k else k + 1;
    if v !in visited {
      forall id | id in Kids(s, v) ensures id in all {
        ExtendMember(order, Kids(s, v), id);
        assert id in next && next <= all;
      }
    }
  }

  /** Two listings by coroutines that have been expanded once the head of the queue is. */
  lemma {:induction false} TwoListings(s: Snapshot, done: seq<Id>, order: seq<Id>, k: nat, all: seq<Id>, u: Id,
                                       i: nat, w: Id, j: nat, id: Id)
    requires k < |order| && Extend([], done) == order[..k] && order <= all && id in all
    requires (u in done || u == order[k]) && (w in done || w == order[k]) && id !in done && id != order[k]
    requires u in s.infos && i < |Children(s, u)| && Children(s, u)[i] == id && id in s.infos
    requires w in s.infos && j < |Children(s, w)| && Children(s, w)[j] == id && (u != w || i != j)
    ensures Repeated(s, all)
  {
    hide Extend;
    var b := PlaceOf(done, order, k, all, id);
    var a := PlaceBefore(done, order, k, all, u);
    var c := PlaceBefore(done, order, k, all, w);
    assert ListedBefore(s, all, b, a, i) && ListedBefore(s, all, b, c, j);
  }

  lemma {:induction false} PlaceBefore(done: seq<Id>, order: seq<Id>, k: nat, all: seq<Id>, u: Id) returns (a: nat)
    requires k < |order| && Extend([], done) == order[..k] && order <= all && (u in done || u == order[k])
    ensures a <= k && a < |all| && all[a] == u
  {
    ExtendMember([], done, u);
    if u in done {
      assert u in order[..k];
      a :| 0 <= a < k && order[..k][a] == u;
    } else {
      a := k;
    }
  }

  /** Without repeated listings no id with an info is queued twice. */
  lemma {:induction false} OnceStep(s: Snapshot, root: Id, queue: seq<Path>, visited: set<Id>, done: seq<Id>,
                                    order: seq<Id>, k: nat, all: seq<Id>)
    requires OnTrack(s, root, queue, visited, done, order, k, all) && |queue| > 0
    requires !Repeated(s, all) && OnceEach(s, done + LastIds(queue)) && Last(queue[0]) in s.infos
    ensures Last(queue[0]) !in done
    ensures OnceEach(s, done + LastIds(queue) + LastIds(Queues(s, queue[0], visited)))
  {
    hide Repeated, Extend, Search, Searching, Covered, Linked, Simple, Pushed;
    var v, waiting := Last(queue[0]), LastIds(queue);
    var queues := Queues(s, queue[0], visited);
    var more := LastIds(queues);
    HeadNotDone(s, done, waiting);
    forall m, n | 0 <= m < n < |more| && more[m] == more[n] ensures more[n] !in s.infos {
      NotPushedTwice(s, root, queue, visited, done, order, k, all, m, n);
    }
    forall m, n | 0 <= m < |waiting| && 0 <= n < |more| && waiting[m] == more[n] ensures more[n] !in s.infos {
      NotQueuedAgain(s, root, queue, visited, done, order, k, all, m, n);
    }
    forall n | 0 <= n < |more| ensures more[n] !in done {
      assert queues[n] in queues;
    }
    OnceConcat(s, done, waiting, more);
  }

  lemma {:induction false} OnceConcat(s: Snapshot, done: seq<Id>, waiting: seq<Id>, more: seq<Id>)
    requires OnceEach(s, done + waiting)
    requires forall m, n :: 0 <= m < n < |more| && more[m] == more[n] ==> more[n] !in s.infos
    requires forall m, n :: 0 <= m < |waiting| && 0 <= n < |more| && waiting[m] == more[n] ==> more[n] !in s.infos
    requires forall n :: 0 <= n < |more| ==> more[n] !in done
    ensures OnceEach(s, done + waiting + more)
  {
    var ids := done + waiting;
    forall m, n | 0 <= m < n < |ids + more| && (ids + more)[m] == (ids + more)[n] ensures (ids + more)[m] !in s.infos {
      if n < |ids| {
        assert ids[m] == ids[n];
      } else if m >= |ids| {
        assert more[m - |ids|] == more[n - |ids|];
      } else {
        assert ids[m] in done || ids[m] == waiting[m - |done|];
      }
    }
  }

  lemma {:induction false} HeadNotDone(s: Snapshot, done: seq<Id>, waiting: seq<Id>)
    requires OnceEach(s, done + waiting) && waiting != [] && waiting[0] in s.infos
    ensures waiting[0] !in done
  {
    forall m | 0 <= m < |done| ensures done[m] != waiting[0] {
      assert (done + waiting)[m] == done[m] && (done + waiting)[|done|] == waiting[0];
    }
  }

  lemma {:induction false} NotPushedTwice(s: Snapshot, root: Id, queue: seq<Path>, visited: set<Id>, done: seq<Id>,
                                          order: seq<Id>, k: nat, all: seq<Id>, m: nat, n: nat)
    requires OnTrack(s, root, queue, visited, done, order, k, all) && |queue| > 0
    requires Last(queue[0]) in s.infos && Last(queue[0]) !in done && !Repeated(s, all)
    requires var queues := Queues(s, queue[0], visited); m < n < |queues| && Last(queues[m]) == Last(queues[n])
    ensures Last(Queues(s, queue[0], visited)[n]) !in s.infos
  {
    hide Repeated, Extend, Search, Searching, Covered, Linked, Simple;
    var v, queues := Last(queue[0]), Queues(s, queue[0], visited);
    var next, l := OnTrackStep(s, root, queue, visited, done, order, k, all);
    var id := Last(queues[n]);
    assert queues[n] in queues;
    if id in s.infos {
      var i, j := PushedTwice(queue[0], Children(s, v), visited + {v}, m, n);
      TwoListings(s, done, order, k, all, v, i, v, j, id);
    }
  }

  lemma {:induction false} NotQueuedAgain(s: Snapshot, root: Id, queue: seq<Path>, visited: set<Id>, done: seq<Id>,
                                          order: seq<Id>, k: nat, all: seq<Id>, m: nat, n: nat)
    requires OnTrack(s, root, queue, visited, done, order, k, all) && |queue| > 0
    requires Last(queue[0]) in s.infos && Last(queue[0]) !in done && !Repeated(s, all)
    requires var queues := Queues(s, queue[0], visited);
      m < |queue| && n < |queues| && Last(queue[m]) == Last(queues[n])
    ensures Last(Queues(s, queue[0], visited)[n]) !in s.infos
  {
    hide Repeated, Extend, Search, Searching, Covered, Linked, Simple, Pushed;
    var v, kids, queues := Last(queue[0]), Children(s, Last(queue[0])), Queues(s, queue[0], visited);
    var next, l := OnTrackStep(s, root, queue, visited, done, order, k, all);
    var id := Last(queues[n]);
    assert queues[n] in queues;
    if id in s.infos {
      var u, i := QueuedBy(s, root, queue, visited, m);
      var j :| 0 <= j < |kids| && kids[j] == id;
      TwoListings(s, done, order, k, all, u, i, v, j, id);
    }
  }

  lemma {:induction false} OnceFrom(s: Snapshot, root: Id, queue: seq<Path>, visited: set<Id>, done: seq<Id>,
                                    order: seq<Id>, k: nat, all: seq<Id>)
    requires OnTrack(s, root, queue, visited, done, order, k, all) && !Repeated(s, all)
      && OnceEach(s, done + LastIds(queue))
    ensures Distinct(LastIds(Traverse(s, root, queue, visited)))
    ensures forall id :: id in LastIds(Traverse(s, root, queue, visited)) ==> id !in done
    decreases QueueWeight(s, queue)
  {
    hide Repeated, Extend, Search, Searching, Covered, Linked, Simple, Pushed, Follows;
    if queue != [] {
      var v := Last(queue[0]);
      var next, l := OnTrackStep(s, root, queue, visited, done, order, k, all);
      AdvanceIds(s, root, queue, visited, done);
      if v in s.infos {
        OnceStep(s, root, queue, visited, done, order, k, all);
      } else {
        assert done + LastIds(queue) + LastIds([]) == done + LastIds(queue);
      }
      OnceFrom(s, root, Advance(s, queue, visited), visited + {v}, done + [v], next, l, all);
      HeadShown(s, root, queue, visited);
      var rest := LastIds(Traverse(s, root, Advance(s, queue, visited), visited + {v}));
      assert v !in rest && forall id :: id in rest ==> id !in done by {
        assert v in done + [v] && forall id :: id in done ==> id in done + [v];
      }
    } else {
      assert LastIds(Traverse(s, root, [], visited)) == [];
    }
  }

  lemma {:induction false} HeadShown(s: Snapshot, root: Id, queue: seq<Path>, visited: set<Id>)
    requires |queue| > 0 && ValidQueue(s, root, queue, visited)
    ensures var v := Last(queue[0]);
      && ValidQueue(s, root, Advance(s, queue, visited), visited + {v})
      && LastIds(Traverse(s, root, queue, visited))
         == (if v in s.infos then [v] else []) + LastIds(Traverse(s, root, Advance(s, queue, visited), visited + {v}))
  {
    hide Linked, Simple, Pushed, Advance;
    AdvanceValid(s, root, queue, visited);
  }

  // ---------- repeated listings ----------

  function Occurrences(ids: seq<Id>, id: Id): nat {
    if ids == [] then 0 else Occurrences(ids[..|ids| - 1], id) + (if Last(ids) == id then 1 else 0)
  }

  lemma {:induction false} OccurrencesConcat(a: seq<Id>, b: seq<Id>, id: Id)
    ensures Occurrences(a + b, id) == Occurrences(a, id) + Occurrences(b, id)
  {
    if b == [] {
      assert a + b == a;
    } else {
      assert (a + b)[..|a + b| - 1] == a + b[..|b| - 1];
      OccurrencesConcat(a, b[..|b| - 1], id);
    }
  }

  lemma {:induction false} OccursOnce(ids: seq<Id>, i: nat)
    requires i < |ids|
    ensures Occurrences(ids, ids[i]) >= 1
  {
    if i < |ids| - 1 { OccursOnce(ids[..|ids| - 1], i); }
  }

  lemma {:induction false} OccursTwice(ids: seq<Id>, i: nat, j: nat)
    requires i < j < |ids| && ids[i] == ids[j]
    ensures Occurrences(ids, ids[i]) >= 2
  {
    if j < |ids| - 1 {
      OccursTwice(ids[..|ids| - 1], i, j);
    } else {
      OccursOnce(ids[..|ids| - 1], i);
    }
  }

  lemma {:induction false} DistinctOccurs(ids: seq<Id>, id: Id)
    requires Distinct(ids)
    ensures Occurrences(ids, id) <= if id in ids then 1 else 0
  {
    if ids != [] {
      assert ids == ids[..|ids| - 1] + [Last(ids)];
      DistinctOccurs(ids[..|ids| - 1], id);
    }
  }

  lemma {:induction false} PushedOccurrences(p: Path, kids: seq<Id>, visited: set<Id>, id: Id)
    requires |p| > 0 && id !in visited
    ensures Occurrences(LastIds(Pushed(p, kids, visited)), id) == Occurrences(kids, id)
  {
    hide Occurrences;
    if kids != [] {
      var front, kid := kids[..|kids| - 1], Last(kids);
      var pushed := Pushed(p, front, visited);
      PushedOccurrences(p, front, visited, id);
      assert kids == front + [kid];
      OccurrencesConcat(front, [kid], id);
      OccurrencesOfOne(kid, id);
      if kid in visited {
        assert Pushed(p, kids, visited) == pushed;
      } else {
        assert Pushed(p, kids, visited) == pushed + [p + [kid]];
        LastIdsConcat(pushed, [p + [kid]]);
        assert LastIds([p + [kid]]) == [kid];
        OccurrencesConcat(LastIds(pushed), [kid], id);
      }
    } else {
      assert LastIds([]) == [];
    }
  }

  /** A turn takes its head out of the queue and puts in what it queues. */
  lemma {:induction false} AdvanceOccurrences(s: Snapshot, root: Id, queue: seq<Path>, visited: set<Id>, id: Id)
    requires |queue| > 0 && ValidQueue(s, root, queue, visited)
    ensures ValidQueue(s, root, Advance(s, queue, visited), visited + {Last(queue[0])})
    ensures Occurrences(LastIds(Advance(s, queue, visited)), id) + (if Last(queue[0]) == id then 1 else 0)
      == Occurrences(LastIds(queue), id) + Occurrences(LastIds(Queues(s, queue[0], visited)), id)
  {
    hide Linked, Simple, Pushed, Occurrences, Advance, Queues;
    var v, ids := Last(queue[0]), LastIds(queue);
    AdvanceIds(s, root, queue, visited, []);
    assert [] + [v] == [v] && [] + ids == ids;
    OccurrencesConcat([v], LastIds(Advance(s, queue, visited)), id);
    OccurrencesConcat(ids, LastIds(Queues(s, queue[0], visited)), id);
    OccurrencesOfOne(v, id);
  }

  lemma {:induction false} ShownOccurrences(s: Snapshot, root: Id, queue: seq<Path>, visited: set<Id>, id: Id)
    requires |queue| > 0 && ValidQueue(s, root, queue, visited) && id in s.infos
    ensures ValidQueue(s, root, Advance(s, queue, visited), visited + {Last(queue[0])})
    ensures Occurrences(LastIds(Traverse(s, root, queue, visited)), id)
      == (if Last(queue[0]) == id then 1 else 0)
       + Occurrences(LastIds(Traverse(s, root, Advance(s, queue, visited), visited + {Last(queue[0])})), id)
  {
    hide Linked, Simple, Occurrences, Advance, Traverse;
    var v := Last(queue[0]);
    HeadShown(s, root, queue, visited);
    var rest := LastIds(Traverse(s, root, Advance(s, queue, visited), visited + {v}));
    OccurrencesConcat(if v in s.infos then [v] else [], rest, id);
    OccurrencesOfOne(v, id);
  }

  /** What is in the queue of an id with an info is shown, and more may be. */
  lemma {:induction false} QueuedAreShown(s: Snapshot, root: Id, queue: seq<Path>, visited: set<Id>, id: Id)
    requires ValidQueue(s, root, queue, visited) && id in s.infos
    ensures Occurrences(LastIds(Traverse(s, root, queue, visited)), id) >= Occurrences(LastIds(queue), id)
    decreases QueueWeight(s, queue)
  {
    hide Linked, Simple, Occurrences, Advance, Traverse, Queues, QueueWeight;
    if queue != [] {
      AdvanceValid(s, root, queue, visited);
      QueuedAreShown(s, root, Advance(s, queue, visited), visited + {Last(queue[0])}, id);
      ShownOccurrences(s, root, queue, visited, id);
      AdvanceOccurrences(s, root, queue, visited, id);
    } else {
      assert LastIds(queue) == [];
      OccurrencesOfOne(id, id);
    }
  }

  lemma {:induction false} OccurrencesOfOne(v: Id, id: Id)
    ensures Occurrences([], id) == 0 && Occurrences([v], id) == if v == id then 1 else 0
  {
    assert [v][..0] == [];
  }

  /** A visited coroutine with an info has `id` as its `i`-th child. */
  predicate Lists(s: Snapshot, visited: set<Id>, u: Id, i: int, id: Id) {
    u in visited && u in s.infos && 0 <= i < |Children(s, u)| && Children(s, u)[i] == id
  }

  /** An id that has not left the queue is in it for every listing of a visited coroutine, up to two. */
  ghost predicate QueuedForListings(s: Snapshot, visited: set<Id>, waiting: seq<Id>, id: Id) {
    && (forall u, i :: Lists(s, visited, u, i, id) ==> Occurrences(waiting, id) >= 1)
    && (forall u, i, w, j :: Lists(s, visited, u, i, id) && Lists(s, visited, w, j, id) && (u != w || i != j) ==>
          Occurrences(waiting, id) >= 2)
  }

  lemma {:induction false} ListingsStep(s: Snapshot, root: Id, queue: seq<Path>, visited: set<Id>, id: Id)
    requires |queue| > 0 && ValidQueue(s, root, queue, visited)
    requires id !in visited && id != Last(queue[0]) && QueuedForListings(s, visited, LastIds(queue), id)
    ensures ValidQueue(s, root, Advance(s, queue, visited), visited + {Last(queue[0])})
    ensures QueuedForListings(s, visited + {Last(queue[0])}, LastIds(Advance(s, queue, visited)), id)
  {
    hide Linked, Simple, Occurrences, Advance, QueuedForListings, Pushed;
    var v := Last(queue[0]);
    AdvanceOccurrences(s, root, queue, visited, id);
    if v in s.infos { PushedOccurrences(queue[0], Children(s, v), visited + {v}, id); }
    ListingsMore(s, visited, v, id, LastIds(queue), LastIds(Advance(s, queue, visited)));
  }

  lemma {:induction false} ListingsMore(s: Snapshot, visited: set<Id>, v: Id, id: Id, before: seq<Id>, after: seq<Id>)
    requires QueuedForListings(s, visited, before, id) && Occurrences(after, id) >= Occurrences(before, id)
    requires v in s.infos ==> Occurrences(after, id) == Occurrences(before, id) + Occurrences(Children(s, v), id)
    ensures QueuedForListings(s, visited + {v}, after, id)
  {
    hide Occurrences;
    var now := visited + {v};
    forall u, i | Lists(s, now, u, i, id) ensures Occurrences(after, id) >= 1 {
      if u in visited {
        assert Lists(s, visited, u, i, id);
      } else {
        OccursOnce(Children(s, v), i);
      }
    }
    forall u, i, w, j | Lists(s, now, u, i, id) && Lists(s, now, w, j, id) && (u != w || i != j)
      ensures Occurrences(after, id) >= 2
    {
      if u in visited && w in visited {
        assert Lists(s, visited, u, i, id) && Lists(s, visited, w, j, id);
      } else if u in visited {
        assert Lists(s, visited, u, i, id);
        OccursOnce(Children(s, v), j);
      } else if w in visited {
        assert Lists(s, visited, w, j, id);
        OccursOnce(Children(s, v), i);
      } else if i < j {
        OccursTwice(Children(s, v), i, j);
      } else {
        OccursTwice(Children(s, v), j, i);
      }
    }
  }

  lemma {:induction false} TwiceFrom(s: Snapshot, root: Id, queue: seq<Path>, visited: set<Id>, done: seq<Id>,
                                     order: seq<Id>, k: nat, all: seq<Id>, 
                                     b: int, a: int, i: int, c: int, j: int)
    requires OnTrack(s, root, queue, visited, done, order, k, all)
    requires ListedBefore(s, all, b, a, i) && ListedBefore(s, all, b, c, j) && (a != c || i != j) && all[b] in s.infos
    requires all[b] !in visited && QueuedForListings(s, visited, LastIds(queue), all[b])
    ensures Occurrences(LastIds(Traverse(s, root, queue, visited)), all[b]) >= 2
    decreases QueueWeight(s, queue)
  {
    hide Linked, Simple, Pushed, Occurrences, Extend, Covered, QueuedForListings, Searching;
    var id := all[b];
    if queue == [] {
      NothingWaits(s, root, visited, done, order, k);
      ExtendMember([], done, id);
    } else {
      var v, next := Last(queue[0]), Advance(s, queue, visited);
      var found, l := OnTrackStep(s, root, queue, visited, done, order, k, all);
      if v == id {
        ListedBeforeVisited(s, visited, done, order, k, all, b, a, i);
        ListedBeforeVisited(s, visited, done, order, k, all, b, c, j);
        TwoQueued(s, visited, LastIds(queue), all, a, i, c, j, id);
        QueuedAreShown(s, root, queue, visited, id);
      } else {
        ListingsStep(s, root, queue, visited, id);
        TwiceFrom(s, root, next, visited + {v}, done + [v], found, l, all, b, a, i, c, j);
        HeadShown(s, root, queue, visited);
        OccurrencesConcat(if v in s.infos then [v] else [], LastIds(Traverse(s, root, next, visited + {v})), id);
      }
    }
  }

  lemma {:induction false} ListedBeforeVisited(s: Snapshot, visited: set<Id>, done: seq<Id>, order: seq<Id>, k: nat,
                                               all: seq<Id>, b: int, a: int, i: int)
    requires k < |order| && order <= all && Distinct(all) && Extend([], done) == order[..k]
      && ListedBefore(s, all, b, a, i)
    requires order[k] == all[b] && forall id :: id in visited <==> id in done
    ensures Lists(s, visited, all[a], i, all[b])
  {
    assert all[k] == all[b];
    assert order[..k][a] == all[a];
    ExtendMember([], done, all[a]);
  }

  lemma {:induction false} TwoQueued(s: Snapshot, visited: set<Id>, waiting: seq<Id>, all: seq<Id>, a: int, i: int,
                                     c: int, j: int, id: Id)
    requires Distinct(all) && 0 <= a < |all| && 0 <= c < |all| && QueuedForListings(s, visited, waiting, id)
    requires Lists(s, visited, all[a], i, id) && Lists(s, visited, all[c], j, id) && (a != c || i != j)
    ensures Occurrences(waiting, id) >= 2
  {
    assert all[a] != all[c] || i != j;
  }

  // ---------- exactly when every coroutine is shown once ----------

  /**
   Every coroutine is shown at most once exactly if none is listed twice by coroutines
   before it in the order of the search. Listings by itself, by later ones, by ones that
   are not reached or have no info, and of ids without an info do no harm.
   */
  lemma {:induction false} ShownOnceIff(s: Snapshot, root: Id)
    ensures Distinct(LastIds(Emitted(s, root))) <==> !Repeated(s, Order(s, root))
  {
    hide Extend, Covered, Occurrences, Searching, Search, Follows, Traverse;
    var all := Order(s, root);
    StartFollows(s, root);
    assert OnTrack(s, root, [[root]], {}, [], [root], 0, all);
    if Repeated(s, all) {
      var b, a, i, c, j :| ListedBefore(s, all, b, a, i) && ListedBefore(s, all, b, c, j)
        && all[b] in s.infos && (a != c || i != j);
      assert QueuedForListings(s, {}, LastIds([[root]]), all[b]);
      TwiceFrom(s, root, [[root]], {}, [], [root], 0, all, b, a, i, c, j);
      if Distinct(LastIds(Emitted(s, root))) { DistinctOccurs(LastIds(Emitted(s, root)), all[b]); }
    } else {
      assert OnceEach(s, [] + LastIds([[root]]));
      OnceFrom(s, root, [[root]], {}, [], [root], 0, all);
    }
  }

  /** No id is listed twice as a child, by one parent or by two. */
  ghost predicate UniqueParent(children: map<Id, seq<Id>>) {
    forall u, v, i, j | u in children && v in children && 0 <= i < |children[u]| && 0 <= j < |children[v]| ::
      children[u][i] == children[v][j] ==> u == v && i == j
  }

  /** In particular every coroutine is shown at most once if each has one parent. */
  lemma {:induction false} ShownOnce(s: Snapshot, root: Id)
    requires UniqueParent(s.children)
    ensures Distinct(LastIds(Emitted(s, root)))
  {
    var all := Order(s, root);
    ShownOnceIff(s, root);
    if Repeated(s, all) {
      var b, a, i, c, j :| ListedBefore(s, all, b, a, i) && ListedBefore(s, all, b, c, j)
        && all[b] in s.infos && (a != c || i != j);
    }
  }
}
