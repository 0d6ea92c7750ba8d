/**
 The child map over runs in which created coroutine ids are fresh: a forest
 ordered by first appearance, also after cleaning, so every trace file shows
 each coroutine once.
 */
module ChildForest {
  import opened Basics
  import opened Records
  import opened Lifecycle
  import opened Traversal
  import opened VisitOrder
  import opened Export

  /** The id that an event brings into the child map. */
  function Introduced(e: Event): Option<Id> {
    match e
    case Created(_, id, _, _) => Some(id)
    case TraceStarted(_, id, self, _, _, _) => Some(Traced(id, self))
    case _ => None
  }

  /** The ids of a run in the order in which they first appear. */
  function Appeared(es: seq<Event>): seq<Id> {
    if es == [] then [] else
    var before, intro := Appeared(es[..|es| - 1]), Introduced(es[|es| - 1]);
    if intro.Some? && intro.value !in before then before + [intro.value] else before
  }

  /** Every created id is new. */
  ghost predicate FreshIds(es: seq<Event>) {
    forall k :: 0 <= k < |es| && es[k].Created? ==> es[k].id !in Appeared(es[..k])
  }

  /** `u` comes before `v` in `order`. */
  ghost predicate Before(order: seq<Id>, u: Id, v: Id) {
    exists i, j :: 0 <= i < j < |order| && order[i] == u && order[j] == v
  }

  ghost predicate Forest(children: map<Id, seq<Id>>, order: seq<Id>) {
    && UniqueParent(children)
    && (forall u :: u in children ==> u in order)
    && (forall u, i :: u in children && 0 <= i < |children[u]| ==> Before(order, u, children[u][i]))
  }

  lemma {:induction false} BeforeGrows(order: seq<Id>, more: seq<Id>, u: Id, v: Id)
    requires Before(order, u, v)
    ensures Before(order + more, u, v)
  {
    var i, j :| 0 <= i < j < |order| && order[i] == u && order[j] == v;
    assert (order + more)[i] == u && (order + more)[j] == v;
  }

  lemma {:induction false} BeforeNew(order: seq<Id>, u: Id, v: Id)
    requires u in order
    ensures Before(order + [v], u, v)
  {
    var i :| 0 <= i < |order| && order[i] == u;
    assert (order + [v])[i] == u && (order + [v])[|order|] == v;
  }

  lemma {:induction false} ForestGrows(children: map<Id, seq<Id>>, order: seq<Id>, more: seq<Id>)
    requires Forest(children, order)
    ensures Forest(children, order + more)
  {
    forall u, i | u in children && 0 <= i < |children[u]| ensures Before(order + more, u, children[u][i]) {
      BeforeGrows(order, more, u, children[u][i]);
    }
  }

  lemma {:induction false} ForestWithList(children: map<Id, seq<Id>>, order: seq<Id>, id: Id)
    requires Forest(children, order) && id in order
    ensures Forest(WithList(children, id), order)
  {
    if id !in children {
      var more := WithList(children, id);
      forall u, i | u in more && 0 <= i < |more[u]| ensures Before(order, u, more[u][i]) {
        assert more[u] == children[u];
      }
    }
  }

  lemma {:induction false} ListedIdsOrdered(children: map<Id, seq<Id>>, order: seq<Id>, u: Id, i: int)
    requires Forest(children, order) && u in children && 0 <= i < |children[u]|
    ensures children[u][i] in order
  {
    assert Before(order, u, children[u][i]);
  }

  /** A fresh id becomes the last child of its parent. */
  lemma {:induction false} ForestWithChild(children: map<Id, seq<Id>>, order: seq<Id>, parent: Id, id: Id)
    requires Forest(children, order) && parent in children && id !in order
    ensures Forest(children[parent := children[parent] + [id]], order + [id])
  {
    var more := children[parent := children[parent] + [id]];
    forall u, i | u in children && 0 <= i < |children[u]| ensures children[u][i] != id {
      ListedIdsOrdered(children, order, u, i);
    }
    forall u, v, i, j | u in more && v in more && 0 <= i < |more[u]| && 0 <= j < |more[v]| && more[u][i] == more[v][j]
      ensures u == v && i == j
    {
      assert more[u][i] == id || (i < |children[u]| && more[u][i] == children[u][i]);
      assert more[v][j] == id || (j < |children[v]| && more[v][j] == children[v][j]);
    }
    forall u, i | u in more && 0 <= i < |more[u]| ensures Before(order + [id], u, more[u][i]) {
      if i < |children[u]| {
        assert more[u][i] == children[u][i];
        BeforeGrows(order, [id], u, children[u][i]);
      } else {
        BeforeNew(order, parent, id);
      }
    }
  }

  lemma {:induction false} ForestStep(s: State, e: Event, order: seq<Id>)
    requires Forest(s.children, order)
    requires e.Created? ==> e.id !in order
    ensures var intro := Introduced(e);
      Forest(Step(s, e).children, if intro.Some? && intro.value !in order then order + [intro.value] else order)
  {
    hide Forest;
    assert Step(s, e).children == ChildrenAfter(s, e);
    match e {
      case Created(tid, id, _, _) =>
        var parent := CurrentOf(s, tid);
        ForestGrows(s.children, order, [id]);
        if parent in s.children {
          ForestWithChild(s.children, order, parent, id);
          ForestWithList(s.children[parent := s.children[parent] + [id]], order + [id], id);
        }
      case TraceStarted(_, id, self, _, _, _) =>
        var c := Traced(id, self);
        if c in order {
          ForestWithList(s.children, order, c);
        } else {
          ForestGrows(s.children, order, [c]);
          ForestWithList(s.children, order + [c], c);
        }
      case CleanChildren => ForestCleaned(s.children, order, s.childMarks);
      case _ =>
    }
  }

  lemma {:induction false} ForestCleaned(children: map<Id, seq<Id>>, order: seq<Id>, marks: set<Id>)
    requires Forest(children, order)
    ensures Forest(children - marks, order)
  {
  }

  /** In every run with fresh ids the child map is a forest ordered by first appearance. */
  lemma {:induction false} FreshRunsGiveForests(threshold: Time, es: seq<Event>)
    requires FreshIds(es)
    ensures Forest(Run(Init(threshold), es).children, Appeared(es))
  {
    hide Step;
    if es != [] {
      var front := es[..|es| - 1];
      FreshPrefix(es);
      FreshRunsGiveForests(threshold, front);
      ForestStep(Run(Init(threshold), front), es[|es| - 1], Appeared(front));
    }
  }

  lemma {:induction false} FreshPrefix(es: seq<Event>)
    requires es != [] && FreshIds(es)
    ensures FreshIds(es[..|es| - 1]) && (es[|es| - 1].Created? ==> es[|es| - 1].id !in Appeared(es[..|es| - 1]))
  {
    var front := es[..|es| - 1];
    assert forall k :: 0 <= k < |front| ==> front[k] == es[k] && front[..k] == es[..k];
  }

  /** Such a map has no cycles: ids along a chain of children come ever later. */
  lemma {:induction false} ChainsRise(children: map<Id, seq<Id>>, order: seq<Id>, p: seq<Id>)
    requires Forest(children, order) && |p| > 1
    requires Distinct(order)
    requires forall k :: 0 <= k < |p| - 1 ==> p[k] in children && p[k + 1] in children[p[k]]
    ensures Before(order, p[0], p[|p| - 1]) && p[0] != p[|p| - 1]
  {
    var last := |p| - 1;
    assert p[last - 1] in children && p[last] in children[p[last - 1]];
    var i :| 0 <= i < |children[p[last - 1]]| && children[p[last - 1]][i] == p[last];
    assert Before(order, p[last - 1], p[last]);
    if last > 1 {
      ChainsRise(children, order, p[..last]);
      BeforeTransitive(order, p[0], p[last - 1], p[last]);
    }
  }

  lemma {:induction false} BeforeTransitive(order: seq<Id>, u: Id, v: Id, w: Id)
    requires Before(order, u, v) && Before(order, v, w)
    requires Distinct(order)
    ensures Before(order, u, w)
  {
    var i, j :| 0 <= i < j < |order| && order[i] == u && order[j] == v;
    var k, l :| 0 <= k < l < |order| && order[k] == v && order[l] == w;
    assert j == k;
  }

  lemma {:induction false} AppearedDistinct(es: seq<Event>)
    ensures Distinct(Appeared(es))
  {
    if es != [] { AppearedDistinct(es[..|es| - 1]); }
  }

  /** In every run with fresh ids no chain of children returns to where it started. */
  lemma {:induction false} NoCycles(threshold: Time, es: seq<Event>, p: seq<Id>)
    requires FreshIds(es) && |p| > 1
    requires var children := Run(Init(threshold), es).children;
      forall k :: 0 <= k < |p| - 1 ==> p[k] in children && p[k + 1] in children[p[k]]
    ensures p[0] != p[|p| - 1] && Before(Appeared(es), p[0], p[|p| - 1])
  {
    hide Forest, Before, Run, Appeared, FreshIds;
    FreshRunsGiveForests(threshold, es);
    AppearedDistinct(es);
    ChainsRise(Run(Init(threshold), es).children, Appeared(es), p);
  }

  // ---------- children of traced coroutines ----------

  /** The storage as an export would read it now. */
  ghost function Current(s: State): Snapshot {
    Snapshot(s.infos, s.children, s.processed, GcList(s.gc, s.gcStore))
  }

  /**
   A coroutine that is created while its thread runs a coroutine that a trace of `root`
   shows, and that can have children, is shown by the trace too.
   */
  lemma {:induction false} CreatedIsShown(s: State, e: Event, root: Id)
    requires e.Created? && CurrentOf(s, e.tid) in s.children && Reachable(Current(s), root, CurrentOf(s, e.tid))
    ensures Reachable(Current(Step(s, e)), root, e.id)
  {
    var parent, now, before := CurrentOf(s, e.tid), Current(Step(s, e)), Current(s);
    assert now.infos == InfosAfter(s, e) && now.children == ChildrenAfter(s, e);
    var p :| InfoPath(before, root, p, parent);
    forall u, v | Edge(before, u, v) ensures Edge(now, u, v) {
      assert u in now.children && (now.children[u] == s.children[u] || now.children[u] == s.children[u] + [e.id]);
    }
    assert now.children[parent] == s.children[parent] + [e.id];
    assert e.id in now.children[parent];
    var q := p + [e.id];
    forall i | 0 <= i < |q| - 1 ensures Edge(now, q[i], q[i + 1]) {
      if i < |p| - 1 { assert Edge(before, p[i], p[i + 1]); }
    }
    assert InfoPath(now, root, q, e.id);
  }

  // ---------- trace files ----------

  lemma {:induction false} FilesHaveUniqueParents(threshold: Time, es: seq<Event>)
    requires FreshIds(es)
    ensures forall f :: f in Run(Init(threshold), es).files ==> UniqueParent(f.content.children)
  {
    hide InfosAfter, UniqueParent;
    if es != [] {
      var front := es[..|es| - 1];
      FreshPrefix(es);
      FilesHaveUniqueParents(threshold, front);
      ForestIsUnique(threshold, front);
      assert Run(Init(threshold), es).files == FilesAfter(Run(Init(threshold), front), es[|es| - 1]);
    }
  }

  lemma {:induction false} ForestIsUnique(threshold: Time, es: seq<Event>)
    requires FreshIds(es)
    ensures UniqueParent(Run(Init(threshold), es).children)
  {
    hide Step;
    FreshRunsGiveForests(threshold, es);
  }

  /** Every file written in a run with fresh ids shows each reachable coroutine exactly once. */
  lemma {:induction false} FilesShowOnce(threshold: Time, es: seq<Event>, f: TraceFile)
    requires FreshIds(es) && f in Run(Init(threshold), es).files
    ensures var shown := CoroutinesIn(Stream(f.content, f.trace));
      && Distinct(shown)
      && (forall id :: id in shown <==> Reachable(f.content, f.trace.coroutineId, id))
  {
    hide Step, CoroutinesIn, Stream, Reachable;
    FilesHaveUniqueParents(threshold, es);
    StreamShowsOnce(f.content, f.trace);
    forall id ensures id in CoroutinesIn(Stream(f.content, f.trace))
      <==> Reachable(f.content, f.trace.coroutineId, id) {
      StreamShowsReachable(f.content, f.trace, id);
    }
  }
}
