/** The route builder of core/Node.go: Dijkstra with lazy deletion, and next hops read off the predecessors. */
module Routers {
  import opened Common
  import opened Graph

  const MAX_INT64: int := 0x7FFF_FFFF_FFFF_FFFF

  datatype Item = Item(nodeId: Id, cost: int)

  datatype RouteEntry = RouteEntry(localChannelID: string, nextHopNodeID: Id)

  type RoutingTable = map<Id, seq<RouteEntry>>

  /** Adding one link to a shortest distance never overflows: the only sums the route builder forms. */
  ghost predicate NoOverflow(g: LinkSet, s: Id) {
    forall w, u, v :: Shortest(g, w, s, u) && HasLink(g, u, v) ==> WalkCost(g, w) + Cost(g, u, v) < MAX_INT64
  }

  ghost predicate AllReachable(g: LinkSet, s: Id) {
    forall t :: t in Nodes(g) ==> Reachable(g, s, t)
  }

  // ---------------------------------------------------------------------------
  // The search and its invariant
  // ---------------------------------------------------------------------------

  type Dist = map<Id, int>
  type Prev = map<Id, Id>

  /** Proof-only companions of the search: when a node was visited, and a walk that explains its distance. */
  datatype Trace = Trace(order: map<Id, nat>, tree: map<Id, seq<Id>>)

  /** A finite distance is the cost of a walk, and comes from the predecessor's. */
  ghost predicate Reached(g: LinkSet, s: Id, dist: Dist, prev: Prev, visited: set<Id>, tr: Trace, v: Id) {
    v in dist && dist[v] < MAX_INT64 ==>
      && v in tr.tree && IsWalk(g, tr.tree[v], s, v) && WalkCost(g, tr.tree[v]) == dist[v]
      && (v != s ==> v in prev && prev[v] in visited && prev[v] in dist && HasLink(g, prev[v], v)
                     && dist[v] == dist[prev[v]] + Cost(g, prev[v], v))
  }

  /** All links out of `u`, those to `todo` aside, have been taken into account. */
  ghost predicate Settled(g: LinkSet, dist: Dist, u: Id, todo: set<Id>) {
    && u in dist && dist[u] < MAX_INT64
    && forall v :: HasLink(g, u, v) && v !in todo ==>
         v in dist && dist[u] + Cost(g, u, v) < MAX_INT64 && dist[v] <= dist[u] + Cost(g, u, v)
  }

  ghost predicate Queued(dist: Dist, visited: set<Id>, pq: multiset<Item>, v: Id) {
    v in dist && v !in visited && dist[v] < MAX_INT64 ==> Item(v, dist[v]) in pq
  }

  ghost predicate ItemOk(dist: Dist, visited: set<Id>, x: Item) {
    && x.nodeId in dist && dist[x.nodeId] <= x.cost < MAX_INT64
    && forall u :: u in visited && u in dist ==> dist[u] <= x.cost
  }

  ghost predicate Ordered(s: Id, prev: Prev, visited: set<Id>, tr: Trace, v: Id) {
    v in visited ==>
      && v in tr.order && tr.order[v] < |visited|
      && (v != s ==> v in prev && prev[v] in visited && prev[v] in tr.order && tr.order[prev[v]] < tr.order[v])
  }

  ghost predicate DistInv(g: LinkSet, s: Id, dist: Dist, prev: Prev, visited: set<Id>) {
    && dist.Keys == Nodes(g) + {s} && visited <= dist.Keys
    && dist[s] == 0 && s !in prev
    && (forall v :: v in dist ==> 0 <= dist[v] <= MAX_INT64)
    && (forall v :: v in prev ==> v in dist && dist[v] < MAX_INT64)
  }

  ghost predicate AllReached(g: LinkSet, s: Id, dist: Dist, prev: Prev, visited: set<Id>, tr: Trace) {
    forall v :: v in dist ==> Reached(g, s, dist, prev, visited, tr, v)
  }

  ghost predicate QueueInv(dist: Dist, visited: set<Id>, pq: multiset<Item>) {
    && (forall v :: v in dist ==> Queued(dist, visited, pq, v))
    && (forall x :: x in pq ==> ItemOk(dist, visited, x))
  }

  ghost predicate AllSettled(g: LinkSet, dist: Dist, visited: set<Id>, current: Id, todo: set<Id>) {
    forall u :: u in visited ==> Settled(g, dist, u, if u == current then todo else {})
  }

  ghost predicate AllOrdered(s: Id, prev: Prev, visited: set<Id>, tr: Trace) {
    forall v :: v in visited ==> Ordered(s, prev, visited, tr, v)
  }

  /** The state of the search while the links of `current` to `todo` are still to be looked at. */
  ghost predicate SearchInv(g: LinkSet, s: Id, dist: Dist, prev: Prev, visited: set<Id>, pq: multiset<Item>, tr: Trace,
                            current: Id, todo: set<Id>)
  {
    && DistInv(g, s, dist, prev, visited)
    && AllReached(g, s, dist, prev, visited, tr)
    && QueueInv(dist, visited, pq)
    && AllSettled(g, dist, visited, current, todo)
    && AllOrdered(s, prev, visited, tr)
  }

  lemma LinkEndsAreNodes(g: LinkSet, u: Id, v: Id)
    requires HasLink(g, u, v)
    ensures u in Nodes(g) && v in Nodes(g)
  {
  }

  /**
   * No walk beats the queue: to a visited node it costs at least that node's distance, to any other at least
   * the least cost in the queue.
   */
  lemma {:induction false} WalksCostAtLeast(g: LinkSet, s: Id, dist: Dist, prev: Prev, visited: set<Id>, pq: multiset<Item>,
                                            least: int, w: seq<Id>)
    requires WellFormed(g) && DistInv(g, s, dist, prev, visited) && QueueInv(dist, visited, pq)
    requires AllSettled(g, dist, visited, s, {})
    requires forall x :: x in pq ==> least <= x.cost
    requires pq != multiset{} ==> exists x :: x in pq && x.cost == least
    requires IsPath(g, w) && w[0] == s
    ensures w[|w| - 1] in dist
    ensures
      var v := w[|w| - 1];
      if v in visited then WalkCost(g, w) >= dist[v] else WalkCost(g, w) >= least && pq != multiset{}
    decreases |w|
  {
    var v := w[|w| - 1];
    assert v in dist ==> Queued(dist, visited, pq, v);
    if |w| > 1 {
      var y := w[|w| - 2];
      WalkInit(g, w);
      WalksCostAtLeast(g, s, dist, prev, visited, pq, least, w[..|w| - 1]);
      assert HasLink(g, y, v);
      LinkEndsAreNodes(g, y, v);
      if y in visited {
        assert Settled(g, dist, y, {});
      } else {
        var x :| x in pq && x.cost == least;
        assert ItemOk(dist, visited, x);
      }
    }
  }

  /** A node popped for the first time has its true distance. */
  lemma PoppedIsShortest(g: LinkSet, s: Id, dist: Dist, prev: Prev, visited: set<Id>, pq: multiset<Item>, tr: Trace, item: Item)
    requires WellFormed(g) && SearchInv(g, s, dist, prev, visited, pq, tr, s, {})
    requires item in pq && forall x :: x in pq ==> item.cost <= x.cost
    requires item.nodeId !in visited
    ensures item.nodeId in dist && dist[item.nodeId] == item.cost
    ensures item.nodeId in tr.tree && Shortest(g, tr.tree[item.nodeId], s, item.nodeId)
    ensures WalkCost(g, tr.tree[item.nodeId]) == item.cost
  {
    var u := item.nodeId;
    assert ItemOk(dist, visited, item) && Queued(dist, visited, pq, u);
    assert Reached(g, s, dist, prev, visited, tr, u);
    forall w | IsWalk(g, w, s, u)
      ensures item.cost <= WalkCost(g, w)
    {
      WalksCostAtLeast(g, s, dist, prev, visited, pq, item.cost, w);
    }
  }

  function LinksOut(g: LinkSet, u: Id): set<Id> {
    if u in g then g[u].Keys else {}
  }

  lemma VisitSettled(g: LinkSet, dist: Dist, visited: set<Id>, u: Id)
    requires AllSettled(g, dist, visited, u, {}) && u in dist && dist[u] < MAX_INT64 && u !in visited
    ensures AllSettled(g, dist, visited + {u}, u, LinksOut(g, u))
  {
    forall x | x in visited + {u}
      ensures Settled(g, dist, x, if x == u then LinksOut(g, u) else {})
    {
      if x == u {
        assert forall v :: HasLink(g, u, v) ==> v in LinksOut(g, u);
      } else {
        assert Settled(g, dist, x, {});
      }
    }
  }

  lemma VisitQueue(dist: Dist, visited: set<Id>, pq: multiset<Item>, item: Item)
    requires QueueInv(dist, visited, pq)
    requires item in pq && forall x :: x in pq ==> item.cost <= x.cost
    requires item.nodeId in dist && dist[item.nodeId] == item.cost
    ensures QueueInv(dist, visited + {item.nodeId}, pq - multiset{item})
  {
    var visited', pq' := visited + {item.nodeId}, pq - multiset{item};
    forall v | v in dist ensures Queued(dist, visited', pq', v) {
      assert Queued(dist, visited, pq, v);
    }
    forall x | x in pq' ensures ItemOk(dist, visited', x) {
      assert x in pq && ItemOk(dist, visited, x);
    }
  }

  lemma VisitOrdered(s: Id, prev: Prev, visited: set<Id>, tr: Trace, u: Id)
    requires AllOrdered(s, prev, visited, tr) && u !in visited
    requires u != s ==> u in prev && prev[u] in visited
    ensures AllOrdered(s, prev, visited + {u}, tr.(order := tr.order[u := |visited|]))
  {
    forall v | v in visited + {u}
      ensures Ordered(s, prev, visited + {u}, tr.(order := tr.order[u := |visited|]), v)
    {
      assert v in visited ==> Ordered(s, prev, visited, tr, v);
      assert u != s ==> Ordered(s, prev, visited, tr, prev[u]);
    }
  }

  lemma VisitKeepsInv(g: LinkSet, s: Id, dist: Dist, prev: Prev, visited: set<Id>, pq: multiset<Item>, tr: Trace, item: Item)
    requires WellFormed(g) && SearchInv(g, s, dist, prev, visited, pq, tr, s, {})
    requires item in pq && forall x :: x in pq ==> item.cost <= x.cost
    requires item.nodeId !in visited
    ensures
      var u := item.nodeId;
      SearchInv(g, s, dist, prev, visited + {u}, pq - multiset{item}, tr.(order := tr.order[u := |visited|]), u, LinksOut(g, u))
  {
    var u := item.nodeId;
    PoppedIsShortest(g, s, dist, prev, visited, pq, tr, item);
    assert ItemOk(dist, visited, item);
    assert Reached(g, s, dist, prev, visited, tr, u);
    VisitSettled(g, dist, visited, u);
    VisitQueue(dist, visited, pq, item);
    VisitOrdered(s, prev, visited, tr, u);
    forall v | v in dist
      ensures Reached(g, s, dist, prev, visited + {u}, tr.(order := tr.order[u := |visited|]), v)
    {
      assert Reached(g, s, dist, prev, visited, tr, v);
    }
  }

  // ---------------------------------------------------------------------------
  // Looking at one link
  // ---------------------------------------------------------------------------

  /** The links of `u` are being looked at: `u` was visited last, and no sum it takes part in overflows. */
  ghost predicate Relaxing(g: LinkSet, dist: Dist, visited: set<Id>, u: Id) {
    && u in visited && u in dist
    && (forall x :: x in visited && x in dist ==> dist[x] <= dist[u])
    && (forall v :: HasLink(g, u, v) ==> dist[u] + Cost(g, u, v) < MAX_INT64)
  }

  lemma SkipSettled(g: LinkSet, dist: Dist, visited: set<Id>, u: Id, todo: set<Id>, v: Id)
    requires WellFormed(g) && AllSettled(g, dist, visited, u, todo) && Relaxing(g, dist, visited, u)
    requires v in dist && HasLink(g, u, v) && dist[v] <= dist[u] + Cost(g, u, v)
    ensures AllSettled(g, dist, visited, u, todo - {v})
  {
    forall x | x in visited
      ensures Settled(g, dist, x, if x == u then todo - {v} else {})
    {
      assert Settled(g, dist, x, if x == u then todo else {});
    }
  }

  lemma LowerSettled(g: LinkSet, dist: Dist, visited: set<Id>, u: Id, todo: set<Id>, v: Id, cost: int)
    requires AllSettled(g, dist, visited, u, todo) && Relaxing(g, dist, visited, u)
    requires v in dist && v !in visited && HasLink(g, u, v) && cost == dist[u] + Cost(g, u, v) && cost < dist[v]
    ensures AllSettled(g, dist[v := cost], visited, u, todo - {v})
  {
    forall x | x in visited
      ensures Settled(g, dist[v := cost], x, if x == u then todo - {v} else {})
    {
      assert Settled(g, dist, x, if x == u then todo else {});
    }
  }

  lemma LowerQueue(dist: Dist, visited: set<Id>, pq: multiset<Item>, u: Id, v: Id, cost: int)
    requires QueueInv(dist, visited, pq)
    requires forall x :: x in visited && x in dist ==> dist[x] <= cost
    requires v in dist && v !in visited && cost < dist[v] && cost < MAX_INT64
    ensures QueueInv(dist[v := cost], visited, pq + multiset{Item(v, cost)})
  {
    var dist', pq' := dist[v := cost], pq + multiset{Item(v, cost)};
    forall y | y in dist' ensures Queued(dist', visited, pq', y) {
      assert Queued(dist, visited, pq, y);
    }
    forall x | x in pq' ensures ItemOk(dist', visited, x) {
      assert x in pq ==> ItemOk(dist, visited, x);
    }
  }

  lemma LowerReached(g: LinkSet, s: Id, dist: Dist, prev: Prev, visited: set<Id>, tr: Trace, u: Id, v: Id, cost: int)
    requires AllReached(g, s, dist, prev, visited, tr)
    requires u in visited && u in dist && dist[u] < MAX_INT64 && v in dist && v !in visited && v != s
    requires HasLink(g, u, v) && cost == dist[u] + Cost(g, u, v)
    ensures u in tr.tree
    ensures AllReached(g, s, dist[v := cost], prev[v := u], visited, tr.(tree := tr.tree[v := tr.tree[u] + [v]]))
  {
    assert Reached(g, s, dist, prev, visited, tr, u);
    WalkSnoc(g, tr.tree[u], v);
    var tr' := tr.(tree := tr.tree[v := tr.tree[u] + [v]]);
    forall y | y in dist
      ensures Reached(g, s, dist[v := cost], prev[v := u], visited, tr', y)
    {
      assert Reached(g, s, dist, prev, visited, tr, y);
    }
  }

  lemma LowerOrdered(s: Id, prev: Prev, visited: set<Id>, tr: Trace, u: Id, v: Id, tree: map<Id, seq<Id>>)
    requires AllOrdered(s, prev, visited, tr) && v !in visited
    ensures AllOrdered(s, prev[v := u], visited, tr.(tree := tree))
  {
    forall x | x in visited ensures Ordered(s, prev[v := u], visited, tr.(tree := tree), x) {
      assert Ordered(s, prev, visited, tr, x);
    }
  }

  lemma LowerDist(g: LinkSet, s: Id, dist: Dist, prev: Prev, visited: set<Id>, u: Id, v: Id, cost: int)
    requires DistInv(g, s, dist, prev, visited)
    requires s in visited && v !in visited && v in dist && 0 <= cost < dist[v]
    ensures DistInv(g, s, dist[v := cost], prev[v := u], visited)
  {
    assert dist[v := cost].Keys == dist.Keys;
  }

  lemma LowerRelaxing(g: LinkSet, dist: Dist, visited: set<Id>, u: Id, v: Id, cost: int)
    requires Relaxing(g, dist, visited, u) && v in dist && v !in visited
    ensures Relaxing(g, dist[v := cost], visited, u)
  {
  }

  /** Together: a shorter way to `v` over `u` was found. */
  lemma LowerKeepsInv(g: LinkSet, s: Id, dist: Dist, prev: Prev, visited: set<Id>, pq: multiset<Item>, tr: Trace,
                      u: Id, todo: set<Id>, v: Id, cost: int)
    requires SearchInv(g, s, dist, prev, visited, pq, tr, u, todo) && Relaxing(g, dist, visited, u)
    requires WellFormed(g) && s in visited && v !in visited && HasLink(g, u, v) && v in dist
    requires cost == dist[u] + Cost(g, u, v) && cost < dist[v]
    ensures u in tr.tree
    ensures
      && SearchInv(g, s, dist[v := cost], prev[v := u], visited, pq + multiset{Item(v, cost)},
                   tr.(tree := tr.tree[v := tr.tree[u] + [v]]), u, todo - {v})
      && Relaxing(g, dist[v := cost], visited, u)
  {
    assert dist[u] >= 0 && dist[u] < MAX_INT64 && cost >= dist[u];
    LowerDist(g, s, dist, prev, visited, u, v, cost);
    LowerSettled(g, dist, visited, u, todo, v, cost);
    LowerQueue(dist, visited, pq, u, v, cost);
    LowerReached(g, s, dist, prev, visited, tr, u, v, cost);
    LowerOrdered(s, prev, visited, tr, u, v, tr.tree[v := tr.tree[u] + [v]]);
    LowerRelaxing(g, dist, visited, u, v, cost);
  }

  /** Or not: `v` was visited before, or is as near already. */
  lemma SkipKeepsInv(g: LinkSet, s: Id, dist: Dist, prev: Prev, visited: set<Id>, pq: multiset<Item>, tr: Trace,
                     u: Id, todo: set<Id>, v: Id)
    requires SearchInv(g, s, dist, prev, visited, pq, tr, u, todo) && Relaxing(g, dist, visited, u)
    requires WellFormed(g) && HasLink(g, u, v) && v in dist
    requires v in visited || dist[v] <= dist[u] + Cost(g, u, v)
    ensures SearchInv(g, s, dist, prev, visited, pq, tr, u, todo - {v})
  {
    SkipSettled(g, dist, visited, u, todo, v);
  }

  lemma LinkedIsKnown(g: LinkSet, s: Id, dist: Dist, prev: Prev, visited: set<Id>, u: Id, v: Id)
    requires DistInv(g, s, dist, prev, visited) && HasLink(g, u, v)
    ensures u in dist && v in dist
  {
    LinkEndsAreNodes(g, u, v);
  }

  lemma RelaxedInv(g: LinkSet, s: Id, dist: Dist, prev: Prev, visited: set<Id>, pq: multiset<Item>, tr: Trace, u: Id)
    requires SearchInv(g, s, dist, prev, visited, pq, tr, u, {})
    ensures SearchInv(g, s, dist, prev, visited, pq, tr, s, {})
  {
    forall x | x in visited ensures Settled(g, dist, x, if x == s then {} else {}) {
      assert Settled(g, dist, x, if x == u then {} else {});
    }
  }

  // ---------------------------------------------------------------------------
  // The search
  // ---------------------------------------------------------------------------

  /** `heap.Pop`: some item of least cost. */
  method Pop(pq: multiset<Item>) returns (item: Item)
    requires pq != multiset{}
    ensures item in pq && forall x :: x in pq ==> item.cost <= x.cost
  {
    item :| item in pq;
    var rest := pq - multiset{item};
    while rest != multiset{}
      invariant item in pq && rest <= pq
      invariant forall x :: x in pq && x !in rest ==> item.cost <= x.cost
      decreases |rest|
    {
      var x :| x in rest;
      if x.cost < item.cost {
        item := x;
      }
      rest := rest - multiset{x};
    }
  }

  /** The inner loop: the links of `u`, in any order. */
  method Relax(g: LinkSet, ghost s: Id, dist0: Dist, prev0: Prev, visited: set<Id>, pq0: multiset<Item>, u: Id, ghost tr0: Trace)
    returns (dist: Dist, prev: Prev, pq: multiset<Item>, ghost tr: Trace)
    requires WellFormed(g) && SearchInv(g, s, dist0, prev0, visited, pq0, tr0, u, LinksOut(g, u))
    requires Relaxing(g, dist0, visited, u) && s in visited
    ensures SearchInv(g, s, dist, prev, visited, pq, tr, s, {})
  {
    dist, prev, pq, tr := dist0, prev0, pq0, tr0;
    var todo := LinksOut(g, u);
    while todo != {}
      invariant todo <= LinksOut(g, u)
      invariant SearchInv(g, s, dist, prev, visited, pq, tr, u, todo)
      invariant Relaxing(g, dist, visited, u)
      decreases |todo|
    {
      var neighbor :| neighbor in todo;
      assert HasLink(g, u, neighbor);
      LinkedIsKnown(g, s, dist, prev, visited, u, neighbor);
      if neighbor !in visited {
        var newCost := dist[u] + Cost(g, u, neighbor);
        if newCost < dist[neighbor] {
          LowerKeepsInv(g, s, dist, prev, visited, pq, tr, u, todo, neighbor, newCost);
          dist := dist[neighbor := newCost];
          prev := prev[neighbor := u];
          pq := pq + multiset{Item(neighbor, newCost)};
          tr := tr.(tree := tr.tree[neighbor := tr.tree[u] + [neighbor]]);
        } else {
          SkipKeepsInv(g, s, dist, prev, visited, pq, tr, u, todo, neighbor);
        }
      } else {
        SkipKeepsInv(g, s, dist, prev, visited, pq, tr, u, todo, neighbor);
      }
      todo := todo - {neighbor};
    }
    RelaxedInv(g, s, dist, prev, visited, pq, tr, u);
  }

  /** What the search has found out when the queue is empty. */
  ghost predicate Solved(g: LinkSet, s: Id, dist: Dist, prev: Prev, visited: set<Id>, tr: Trace) {
    && DistInv(g, s, dist, prev, visited)
    && AllReached(g, s, dist, prev, visited, tr)
    && AllOrdered(s, prev, visited, tr)
    && (forall t :: t in dist ==> (t in visited <==> dist[t] < MAX_INT64))
    && (forall t :: t in dist ==> (t in visited <==> Reachable(g, s, t)))
    && (forall t :: t in visited ==> t in tr.tree && Shortest(g, tr.tree[t], s, t))
  }

  lemma EmptyQueueSolves(g: LinkSet, s: Id, dist: Dist, prev: Prev, visited: set<Id>, tr: Trace)
    requires WellFormed(g) && SearchInv(g, s, dist, prev, visited, multiset{}, tr, s, {})
    ensures Solved(g, s, dist, prev, visited, tr)
  {
    forall t | t in dist
      ensures t in visited <==> dist[t] < MAX_INT64
      ensures t in visited ==> t in tr.tree && Shortest(g, tr.tree[t], s, t)
      ensures t in visited <==> Reachable(g, s, t)
    {
      assert Queued(dist, visited, multiset{}, t) && Reached(g, s, dist, prev, visited, tr, t);
      assert t in visited ==> Settled(g, dist, t, {});
      forall w | IsWalk(g, w, s, t)
        ensures t in visited && dist[t] <= WalkCost(g, w)
      {
        WalksCostAtLeast(g, s, dist, prev, visited, multiset{}, 0, w);
      }
    }
  }

  /** Finite exactly where there is a walk, and then the cost of every shortest one. */
  ghost predicate TrueDistances(g: LinkSet, s: Id, dist: Dist) {
    && (forall t :: t in dist ==> (dist[t] < MAX_INT64 <==> Reachable(g, s, t)))
    && (forall t, w :: t in dist && Shortest(g, w, s, t) ==> dist[t] == WalkCost(g, w))
  }

  lemma SolvedIsTrue(g: LinkSet, s: Id, dist: Dist, prev: Prev, visited: set<Id>, tr: Trace)
    requires Solved(g, s, dist, prev, visited, tr)
    ensures dist.Keys == Nodes(g) + {s} && TrueDistances(g, s, dist)
  {
    forall t, w | t in dist && Shortest(g, w, s, t) ensures dist[t] == WalkCost(g, w) {
      assert Reachable(g, s, t) && t in visited;
      assert Reached(g, s, dist, prev, visited, tr, t);
    }
  }

  /** Every end of a link starts at the largest distance. */
  method UnknownDistances(g: LinkSet) returns (dist: Dist)
    requires WellFormed(g)
    ensures dist.Keys == Nodes(g) && AllUnknown(dist)
  {
    dist := map[];
    var sources := g.Keys;
    ghost var done: set<Id> := {};
    while sources != {}
      invariant done + sources == g.Keys
      invariant dist.Keys == EndsOf(g, done)
      invariant AllUnknown(dist)
      decreases |sources|
    {
      var u :| u in sources;
      EndsOfOneMore(g, done, u);
      assert forall t :: t in g[u] ==> HasLink(g, u, t);
      dist := MarkLinks(u, g[u], dist);
      done, sources := done + {u}, sources - {u};
    }
  }

  ghost predicate AllUnknown(dist: Dist) {
    forall v :: v in dist ==> dist[v] == MAX_INT64
  }

  method MarkLinks(u: Id, links: map<Id, Link>, dist0: Dist) returns (dist: Dist)
    requires AllUnknown(dist0)
    requires forall t :: t in links ==> links[t].source == u && links[t].target == t
    ensures AllUnknown(dist)
    ensures dist.Keys == dist0.Keys + WithSource(u, links.Keys)
  {
    dist := dist0;
    var targets := links.Keys;
    while targets != {}
      invariant targets <= links.Keys && AllUnknown(dist)
      invariant forall v :: v in dist <==> v in dist0 || (v in links && v !in targets) || (v == u && targets != links.Keys)
      decreases |targets|
    {
      var t :| t in targets;
      var link := links[t];
      assert link.source == u && link.target == t;
      dist := MarkLink(link, dist);
      targets := targets - {t};
    }
    assert forall v :: v in WithSource(u, links.Keys) <==> v in links || (v == u && links.Keys != {});
  }

  method MarkLink(link: Link, dist0: Dist) returns (dist: Dist)
    requires AllUnknown(dist0)
    ensures AllUnknown(dist) && dist.Keys == dist0.Keys + {link.source, link.target}
  {
    dist := dist0[link.source := MAX_INT64];
    dist := dist[link.target := MAX_INT64];
  }

  function WithSource(u: Id, targets: set<Id>): set<Id> {
    if targets == {} then {} else targets + {u}
  }

  function LinkEnds(g: LinkSet, u: Id): set<Id>
    requires u in g
  {
    WithSource(u, g[u].Keys)
  }

  lemma EndsOfOneMore(g: LinkSet, us: set<Id>, u: Id)
    requires u in g
    ensures EndsOf(g, us + {u}) == EndsOf(g, us) + LinkEnds(g, u)
  {
    if g[u].Keys != {} {
      var v :| v in g[u].Keys;
      assert u in EndsOf(g, us + {u});
    }
    forall x ensures x in EndsOf(g, us + {u}) <==> x in EndsOf(g, us) || x in LinkEnds(g, u) {
    }
  }

  lemma StartInv(g: LinkSet, s: Id, dist: Dist)
    requires dist.Keys == Nodes(g) && AllUnknown(dist)
    ensures SearchInv(g, s, dist[s := 0], map[], {}, multiset{Item(s, 0)}, Trace(map[], map[s := [s]]), s, {})
  {
    assert IsWalk(g, [s], s, s) && WalkCost(g, [s]) == 0;
  }

  /** Lazy deletion: an item of a node visited before carries nothing. */
  lemma DropStale(dist: Dist, visited: set<Id>, pq: multiset<Item>, item: Item)
    requires QueueInv(dist, visited, pq) && item in pq && item.nodeId in visited
    ensures QueueInv(dist, visited, pq - multiset{item})
  {
    var pq' := pq - multiset{item};
    forall v | v in dist ensures Queued(dist, visited, pq', v) {
      assert Queued(dist, visited, pq, v);
    }
    forall x | x in pq' ensures ItemOk(dist, visited, x) {
      assert x in pq && ItemOk(dist, visited, x);
    }
  }

  lemma DropStaleInv(g: LinkSet, s: Id, dist: Dist, prev: Prev, visited: set<Id>, pq: multiset<Item>, tr: Trace, item: Item)
    requires SearchInv(g, s, dist, prev, visited, pq, tr, s, {}) && item in pq && item.nodeId in visited
    ensures SearchInv(g, s, dist, prev, visited, pq - multiset{item}, tr, s, {})
  {
    DropStale(dist, visited, pq, item);
  }

  lemma OneFewer(all: set<Id>, visited: set<Id>, u: Id)
    requires u in all && u !in visited
    ensures |all - (visited + {u})| < |all - visited|
  {
    assert all - (visited + {u}) == (all - visited) - {u};
  }

  lemma VisitRelaxing(g: LinkSet, s: Id, dist: Dist, prev: Prev, visited: set<Id>, pq: multiset<Item>, tr: Trace, item: Item)
    requires WellFormed(g) && NoOverflow(g, s) && SearchInv(g, s, dist, prev, visited, pq, tr, s, {})
    requires item in pq && forall x :: x in pq ==> item.cost <= x.cost
    requires item.nodeId !in visited
    ensures Relaxing(g, dist, visited + {item.nodeId}, item.nodeId)
  {
    PoppedIsShortest(g, s, dist, prev, visited, pq, tr, item);
    assert ItemOk(dist, visited, item);
  }

  method ShortestPaths(g: LinkSet, s: Id) returns (dist: Dist, prev: Prev, ghost reached: set<Id>, ghost tr: Trace)
    requires WellFormed(g) && NoOverflow(g, s)
    ensures Solved(g, s, dist, prev, reached, tr)
    ensures dist.Keys == Nodes(g) + {s} && TrueDistances(g, s, dist)
  {
    dist := UnknownDistances(g);
    StartInv(g, s, dist);
    dist := dist[s := 0];
    prev := map[];
    var visited: set<Id> := {};
    var pq := multiset{Item(s, 0)};
    tr := Trace(map[], map[s := [s]]);
    ghost var all := dist.Keys;
    while pq != multiset{}
      invariant SearchInv(g, s, dist, prev, visited, pq, tr, s, {}) && dist.Keys == all
      invariant s in visited || pq == multiset{Item(s, 0)}
      decreases |all - visited|, |pq|
    {
      var currentItem := Pop(pq);
      assert ItemOk(dist, visited, currentItem);
      if currentItem.nodeId in visited {
        DropStaleInv(g, s, dist, prev, visited, pq, tr, currentItem);
        pq := pq - multiset{currentItem};
      } else {
        OneFewer(all, visited, currentItem.nodeId);
        dist, prev, visited, pq, tr := Visit(g, s, dist, prev, visited, pq, currentItem, tr);
      }
    }
    EmptyQueueSolves(g, s, dist, prev, visited, tr);
    SolvedIsTrue(g, s, dist, prev, visited, tr);
    reached := visited;
  }

  /** The body of the main loop for a node popped for the first time. */
  method Visit(g: LinkSet, ghost s: Id, dist0: Dist, prev0: Prev, visited0: set<Id>, pq0: multiset<Item>, currentItem: Item,
               ghost tr0: Trace)
    returns (dist: Dist, prev: Prev, visited: set<Id>, pq: multiset<Item>, ghost tr: Trace)
    requires WellFormed(g) && NoOverflow(g, s) && SearchInv(g, s, dist0, prev0, visited0, pq0, tr0, s, {})
    requires currentItem in pq0 && forall x :: x in pq0 ==> currentItem.cost <= x.cost
    requires currentItem.nodeId !in visited0 && (s in visited0 || currentItem.nodeId == s)
    ensures SearchInv(g, s, dist, prev, visited, pq, tr, s, {})
    ensures dist.Keys == dist0.Keys && visited == visited0 + {currentItem.nodeId} && currentItem.nodeId in dist0
  {
    var currentNode := currentItem.nodeId;
    assert ItemOk(dist0, visited0, currentItem);
    VisitKeepsInv(g, s, dist0, prev0, visited0, pq0, tr0, currentItem);
    VisitRelaxing(g, s, dist0, prev0, visited0, pq0, tr0, currentItem);
    tr := tr0.(order := tr0.order[currentNode := |visited0|]);
    visited := visited0 + {currentNode};
    dist, prev, pq, tr := Relax(g, s, dist0, prev0, visited, pq0 - multiset{currentItem}, currentNode, tr);
  }
}
