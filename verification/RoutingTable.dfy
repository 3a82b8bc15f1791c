/** Next hops from predecessors, and the routing table of a node (core/Node.go). */
module RoutingTables {
  import opened Common
  import opened Graph
  import opened Routers

  /** `h` is the first node after `s` on some shortest walk to `t`. */
  ghost predicate FirstHop(g: LinkSet, s: Id, t: Id, h: Id) {
    exists w :: Shortest(g, w, s, t) && |w| >= 2 && w[1] == h
  }

  /** A table with exactly one entry for every other node: the first hop of a shortest walk, and the channel of that link. */
  ghost predicate RoutesShortest(g: LinkSet, s: Id, table: RoutingTable) {
    && table.Keys == Nodes(g) - {s}
    && forall t :: t in table ==> RouteOk(g, s, t, table[t])
  }

  ghost predicate RouteOk(g: LinkSet, s: Id, t: Id, routes: seq<RouteEntry>) {
    && |routes| == 1
    && HasLink(g, s, routes[0].nextHopNodeID)
    && routes[0].localChannelID == g[s][routes[0].nextHopNodeID].channel
    && FirstHop(g, s, t, routes[0].nextHopNodeID)
  }

  /** Reading a missing key of `prev` gives the empty string. */
  function Previous(prev: Prev, v: Id): Id {
    if v in prev then prev[v] else ""
  }

  /** The nodes walked back over so far are the end of a walk to `target` that costs what its distance says. */
  ghost predicate WalkedBack(g: LinkSet, s: Id, dist: Dist, target: Id, reached: set<Id>, tr: Trace, path: seq<Id>) {
    && path != [] && IsWalk(g, path, path[0], target)
    && path[0] in reached && path[0] != s && path[0] in tr.order && path[0] in dist && target in dist
    && dist[path[0]] + WalkCost(g, path) == dist[target]
  }

  lemma StartWalkBack(g: LinkSet, s: Id, dist: Dist, prev: Prev, target: Id, reached: set<Id>, tr: Trace)
    requires Solved(g, s, dist, prev, reached, tr) && target in reached && target != s
    ensures WalkedBack(g, s, dist, target, reached, tr, [target])
  {
    StepBack(g, s, dist, prev, target, reached, tr);
    assert WalkCost(g, [target]) == 0;
  }

  lemma WalkBackFurther(g: LinkSet, s: Id, dist: Dist, prev: Prev, target: Id, reached: set<Id>, tr: Trace, path: seq<Id>)
    requires Solved(g, s, dist, prev, reached, tr) && WalkedBack(g, s, dist, target, reached, tr, path)
    requires Previous(prev, path[0]) != s
    ensures
      var p := Previous(prev, path[0]);
      WalkedBack(g, s, dist, target, reached, tr, [p] + path) && tr.order[p] < tr.order[path[0]]
  {
    StepBack(g, s, dist, prev, path[0], reached, tr);
    WalkCons(g, Previous(prev, path[0]), path);
  }

  lemma PrependStart(g: LinkSet, s: Id, path: seq<Id>, target: Id) returns (w: seq<Id>)
    requires path != [] && IsWalk(g, path, path[0], target) && HasLink(g, s, path[0])
    ensures IsWalk(g, w, s, target) && |w| >= 2 && w[1] == path[0]
    ensures WalkCost(g, w) == Cost(g, s, path[0]) + WalkCost(g, path)
  {
    WalkCons(g, s, path);
    w := [s] + path;
  }

  lemma SecondIsFirstHop(g: LinkSet, s: Id, t: Id, w: seq<Id>)
    requires Shortest(g, w, s, t) && |w| >= 2
    ensures FirstHop(g, s, t, w[1])
  {
  }

  lemma WalkBackDone(g: LinkSet, s: Id, dist: Dist, prev: Prev, target: Id, reached: set<Id>, tr: Trace, path: seq<Id>)
    requires Solved(g, s, dist, prev, reached, tr) && WalkedBack(g, s, dist, target, reached, tr, path)
    requires target in reached && Previous(prev, path[0]) == s
    ensures FirstHop(g, s, target, path[0])
  {
    StepBack(g, s, dist, prev, path[0], reached, tr);
    SourceIsZero(g, s, dist, prev, reached, tr);
    var w := PrependStart(g, s, path, target);
    CheapestIsShortest(g, s, dist, prev, target, reached, tr, w);
    SecondIsFirstHop(g, s, target, w);
  }

  lemma SourceIsZero(g: LinkSet, s: Id, dist: Dist, prev: Prev, reached: set<Id>, tr: Trace)
    requires Solved(g, s, dist, prev, reached, tr)
    ensures s in dist && dist[s] == 0
  {
  }

  /** The walk back from `target`, as long as the predecessor is not the source. */
  method WalkBack(g: LinkSet, s: Id, ghost dist: Dist, prev: Prev, target: Id, ghost reached: set<Id>, ghost tr: Trace)
    returns (path: seq<Id>)
    requires Solved(g, s, dist, prev, reached, tr)
    requires target in reached && target != s
    ensures path != [] && FirstHop(g, s, target, path[0])
  {
    StartWalkBack(g, s, dist, prev, target, reached, tr);
    path := [target];
    while Previous(prev, path[0]) != s
      invariant WalkedBack(g, s, dist, target, reached, tr, path)
      decreases tr.order[path[0]]
    {
      WalkBackFurther(g, s, dist, prev, target, reached, tr, path);
      path := [Previous(prev, path[0])] + path;
    }
    WalkBackDone(g, s, dist, prev, target, reached, tr, path);
  }

  lemma StepBack(g: LinkSet, s: Id, dist: Dist, prev: Prev, v: Id, reached: set<Id>, tr: Trace)
    requires Solved(g, s, dist, prev, reached, tr) && v in reached && v != s
    ensures v in prev && prev[v] in reached && prev[v] in dist && v in dist && HasLink(g, prev[v], v)
    ensures dist[v] == dist[prev[v]] + Cost(g, prev[v], v)
    ensures v in tr.order && prev[v] in tr.order && tr.order[prev[v]] < tr.order[v]
  {
    assert Reached(g, s, dist, prev, reached, tr, v) && Ordered(s, prev, reached, tr, v);
  }

  lemma CheapestIsShortest(g: LinkSet, s: Id, dist: Dist, prev: Prev, t: Id, reached: set<Id>, tr: Trace, w: seq<Id>)
    requires Solved(g, s, dist, prev, reached, tr) && t in reached && t in dist
    requires IsWalk(g, w, s, t) && WalkCost(g, w) == dist[t]
    ensures Shortest(g, w, s, t)
  {
    assert Reached(g, s, dist, prev, reached, tr, t);
  }

  /** `n` steps back through `prev`. */
  function StepsBack(prev: Prev, v: Id, n: nat): Id
    decreases n
  {
    if n == 0 then v else StepsBack(prev, Previous(prev, v), n - 1)
  }

  lemma {:induction false} ReachedWalksBack(g: LinkSet, s: Id, dist: Dist, prev: Prev, v: Id, reached: set<Id>, tr: Trace)
    returns (n: nat)
    requires Solved(g, s, dist, prev, reached, tr) && v in reached && v in tr.order
    ensures StepsBack(prev, v, n) == s
    decreases tr.order[v]
  {
    if v == s {
      n := 0;
    } else {
      StepBack(g, s, dist, prev, v, reached, tr);
      n := ReachedWalksBack(g, s, dist, prev, prev[v], reached, tr);
      n := n + 1;
      assert StepsBack(prev, v, n) == StepsBack(prev, prev[v], n - 1);
    }
  }

  lemma {:induction false} NowhereStaysNowhere(prev: Prev, n: nat)
    requires "" !in prev
    ensures StepsBack(prev, "", n) == ""
    decreases n
  {
    if n > 0 {
      NowhereStaysNowhere(prev, n - 1);
    }
  }

  /**
   * The walk back from a node of the link set ever meets the source exactly when that node is reachable; for a node
   * that is not, the loop of the route builder never ends.
   */
  lemma WalkBackEndsIff(g: LinkSet, s: Id, dist: Dist, prev: Prev, t: Id, reached: set<Id>, tr: Trace)
    requires Solved(g, s, dist, prev, reached, tr) && t in dist && s != "" && "" !in Nodes(g)
    ensures (exists n: nat :: StepsBack(prev, t, n) == s) <==> Reachable(g, s, t)
  {
    if t in reached {
      assert Ordered(s, prev, reached, tr, t);
      var n := ReachedWalksBack(g, s, dist, prev, t, reached, tr);
    } else {
      assert t !in prev && "" !in prev && s in reached;
      forall n: nat ensures StepsBack(prev, t, n) != s {
        if n > 0 {
          NowhereStaysNowhere(prev, n - 1);
        }
      }
    }
  }

  lemma FirstLink(g: LinkSet, w: seq<Id>)
    requires IsPath(g, w) && |w| > 1
    ensures HasLink(g, w[0], w[1])
  {
    assert HasLink(g, w[0], w[0 + 1]);
  }

  lemma WalkStays(g: LinkSet, s: Id, w: seq<Id>, t: Id)
    requires (forall v :: !HasLink(g, s, v)) && IsWalk(g, w, s, t)
    ensures w == [s] && t == s
  {
    if |w| > 1 {
      FirstLink(g, w);
    }
  }

  lemma StayingIsFree(g: LinkSet, s: Id)
    requires forall v :: !HasLink(g, s, v)
    ensures IsWalk(g, [s], s, s) && WalkCost(g, [s]) == 0 && Shortest(g, [s], s, s)
    ensures forall t :: Reachable(g, s, t) <==> t == s
  {
    assert IsWalk(g, [s], s, s);
    forall w, t | IsWalk(g, w, s, t) ensures w == [s] && t == s {
      WalkStays(g, s, w, t);
    }
  }

  /** A source no link leaves: only it is ever visited. */
  lemma NowhereToGo(g: LinkSet, s: Id, dist: Dist, tr: Trace)
    requires forall v :: !HasLink(g, s, v)
    requires dist.Keys == Nodes(g) + {s} && dist[s] == 0 && forall t :: t in dist && t != s ==> dist[t] == MAX_INT64
    requires s in tr.order && tr.order[s] == 0 && s in tr.tree && tr.tree[s] == [s]
    ensures Solved(g, s, dist, map[], {s}, tr)
  {
    StayingIsFree(g, s);
    forall t | t in dist ensures Reached(g, s, dist, map[], {s}, tr, t) {
    }
  }

  /** A node without links of its own that still knows those of others: its search ends, and no walk back does. */
  lemma LoneSourceNeverEnds(g: LinkSet, s: Id, t: Id) returns (dist: Dist, prev: Prev, reached: set<Id>, tr: Trace)
    requires (forall v :: !HasLink(g, s, v)) && t in Nodes(g) && t != s && s != "" && "" !in Nodes(g)
    ensures Solved(g, s, dist, prev, reached, tr) && t in dist
    ensures forall n: nat :: StepsBack(prev, t, n) != s
  {
    var far := map v | v in Nodes(g) :: MAX_INT64;
    dist, prev, reached, tr := far[s := 0], map[], {s}, Trace(map[s := 0], map[s := [s]]);
    NowhereToGo(g, s, dist, tr);
    WalkBackEndsIff(g, s, dist, prev, t, reached, tr);
    forall w | IsWalk(g, w, s, t) ensures false {
      WalkStays(g, s, w, t);
    }
  }

  /** The least case: a single link, seen from a third node. */
  lemma ThirdNodeNeverEnds(x: Id, y: Id, z: Id, link: Link) returns (dist: Dist, prev: Prev, reached: set<Id>, tr: Trace)
    requires x != z && y != z && x != "" && y != "" && z != "" && link.source == x && link.target == y && link.cost >= 0
    ensures WellFormed(map[x := map[y := link]]) && Solved(map[x := map[y := link]], z, dist, prev, reached, tr)
    ensures forall n: nat :: StepsBack(prev, y, n) != z
  {
    var g := map[x := map[y := link]];
    assert x in g.Keys && x in g && y in g[x];
    dist, prev, reached, tr := LoneSourceNeverEnds(g, z, y);
  }

  lemma SubsetOfSameSize<T>(a: set<T>, b: set<T>)
    requires a <= b && |a| == |b|
    ensures a == b
  {
    assert |b| == |a| + |b - a|;
  }

  lemma SameEntries(a: RoutingTable, b: RoutingTable)
    requires |a| == |b| && forall t :: t in a ==> t in b && a[t] == b[t]
    ensures a == b
  {
    assert |a.Keys| == |a| && |b.Keys| == |b|;
    SubsetOfSameSize(a.Keys, b.Keys);
  }

  /** `table` routes every node of `all` but those still `left`. */
  ghost predicate RoutedSoFar(g: LinkSet, s: Id, table: RoutingTable, all: set<Id>, left: set<Id>) {
    && left <= all && table.Keys == all - left
    && forall t :: t in table ==> RouteOk(g, s, t, table[t])
  }

  lemma FirstHopIsLinked(g: LinkSet, s: Id, t: Id, h: Id)
    requires FirstHop(g, s, t, h)
    ensures HasLink(g, s, h)
  {
    var w :| Shortest(g, w, s, t) && |w| >= 2 && w[1] == h;
    assert HasLink(g, w[0], w[0 + 1]);
  }

  method RouteVia(g: LinkSet, s: Id, ghost dist: Dist, prev: Prev, target: Id, ghost reached: set<Id>, ghost tr: Trace)
    returns (routes: seq<RouteEntry>)
    requires Solved(g, s, dist, prev, reached, tr) && target in reached && target != s
    ensures RouteOk(g, s, target, routes)
  {
    var path := WalkBack(g, s, dist, prev, target, reached, tr);
    var nextHop := path[0];
    var localChannelID := "";
    if HasLink(g, s, nextHop) {
      localChannelID := g[s][nextHop].channel;
    }
    FirstHopIsLinked(g, s, target, nextHop);
    routes := [RouteEntry(localChannelID, nextHop)];
  }

  lemma AllAreReached(g: LinkSet, s: Id, dist: Dist, prev: Prev, reached: set<Id>, tr: Trace)
    requires Solved(g, s, dist, prev, reached, tr) && AllReachable(g, s)
    ensures dist.Keys - {s} <= reached && dist.Keys - {s} == Nodes(g) - {s}
  {
    forall t | t in dist.Keys - {s} ensures t in reached {
      assert t in Nodes(g) && Reachable(g, s, t);
    }
  }

  lemma AddRoute(g: LinkSet, s: Id, table: RoutingTable, all: set<Id>, left: set<Id>, t: Id, routes: seq<RouteEntry>)
    requires RoutedSoFar(g, s, table, all, left) && t in left && RouteOk(g, s, t, routes)
    ensures RoutedSoFar(g, s, table[t := routes], all, left - {t}) && |left - {t}| < |left|
  {
    assert table[t := routes].Keys == all - (left - {t});
  }

  /** The loop over all targets, in any order. */
  method RouteAll(g: LinkSet, s: Id, dist: Dist, prev: Prev, ghost reached: set<Id>, ghost tr: Trace) returns (temp: RoutingTable)
    requires Solved(g, s, dist, prev, reached, tr) && dist.Keys - {s} <= reached
    ensures RoutedSoFar(g, s, temp, dist.Keys - {s}, {})
  {
    temp := map[];
    var targets := dist.Keys - {s};
    while targets != {}
      invariant RoutedSoFar(g, s, temp, dist.Keys - {s}, targets)
      decreases |targets|
    {
      var target :| target in targets;
      var routes := RouteVia(g, s, dist, prev, target, reached, tr);
      AddRoute(g, s, temp, dist.Keys - {s}, targets, target, routes);
      temp := temp[target := routes];
      targets := targets - {target};
    }
  }
}
