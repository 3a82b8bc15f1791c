/** Link sets as weighted graphs: walks, their costs, and what a shortest one is (core/Node.go, core/Link.go). */
module Graph {
  import opened Common

  datatype Link = Link(source: Id, target: Id, cost: int, channel: string)

  type LinkSet = map<Id, map<Id, Link>>

  predicate HasLink(g: LinkSet, u: Id, v: Id) {
    u in g && v in g[u]
  }

  function Cost(g: LinkSet, u: Id, v: Id): int
    requires HasLink(g, u, v)
  {
    g[u][v].cost
  }

  /** Every link is filed under its own two ends, and no link has a negative cost. */
  ghost predicate WellFormed(g: LinkSet) {
    forall u, v :: HasLink(g, u, v) ==> g[u][v].source == u && g[u][v].target == v && g[u][v].cost >= 0
  }

  /** Both ends of every link out of `us`. */
  ghost function EndsOf(g: LinkSet, us: set<Id>): set<Id> {
    (set u, v | u in us && u in g && v in g[u] :: u) + (set u, v | u in us && u in g && v in g[u] :: v)
  }

  ghost function Nodes(g: LinkSet): set<Id> {
    EndsOf(g, g.Keys)
  }

  ghost predicate IsPath(g: LinkSet, w: seq<Id>) {
    w != [] && forall i :: 0 <= i < |w| - 1 ==> HasLink(g, w[i], w[i + 1])
  }

  ghost predicate IsWalk(g: LinkSet, w: seq<Id>, s: Id, t: Id) {
    IsPath(g, w) && w[0] == s && w[|w| - 1] == t
  }

  ghost function WalkCost(g: LinkSet, w: seq<Id>): int
    requires IsPath(g, w)
    decreases |w|
  {
    if |w| == 1 then 0 else WalkCost(g, w[..|w| - 1]) + Cost(g, w[|w| - 2], w[|w| - 1])
  }

  ghost predicate Shortest(g: LinkSet, w: seq<Id>, s: Id, t: Id) {
    && IsWalk(g, w, s, t)
    && forall v :: IsWalk(g, v, s, t) ==> WalkCost(g, w) <= WalkCost(g, v)
  }

  ghost predicate Reachable(g: LinkSet, s: Id, t: Id) {
    exists w :: IsWalk(g, w, s, t)
  }

  lemma WalkSnoc(g: LinkSet, w: seq<Id>, v: Id)
    requires IsPath(g, w) && HasLink(g, w[|w| - 1], v)
    ensures IsPath(g, w + [v]) && WalkCost(g, w + [v]) == WalkCost(g, w) + Cost(g, w[|w| - 1], v)
  {
    assert (w + [v])[..|w|] == w;
  }

  lemma WalkInit(g: LinkSet, w: seq<Id>)
    requires IsPath(g, w) && |w| > 1
    ensures IsPath(g, w[..|w| - 1])
    ensures WalkCost(g, w) == WalkCost(g, w[..|w| - 1]) + Cost(g, w[|w| - 2], w[|w| - 1])
  {
  }

  lemma {:induction false} WalkCons(g: LinkSet, u: Id, w: seq<Id>)
    requires IsPath(g, w) && HasLink(g, u, w[0])
    ensures IsPath(g, [u] + w) && WalkCost(g, [u] + w) == Cost(g, u, w[0]) + WalkCost(g, w)
    decreases |w|
  {
    var uw := [u] + w;
    assert forall i :: 0 <= i < |uw| - 1 ==> uw[i] == (if i == 0 then u else w[i - 1]) && uw[i + 1] == w[i];
    if |w| == 1 {
      assert uw[..1] == [u];
      assert WalkCost(g, [u]) == 0;
    } else {
      WalkInit(g, w);
      WalkCons(g, u, w[..|w| - 1]);
      assert uw[..|w|] == [u] + w[..|w| - 1];
    }
  }

  lemma {:induction false} WalkCostNonNegative(g: LinkSet, w: seq<Id>)
    requires WellFormed(g) && IsPath(g, w)
    ensures WalkCost(g, w) >= 0
    decreases |w|
  {
    if |w| > 1 {
      WalkInit(g, w);
      WalkCostNonNegative(g, w[..|w| - 1]);
    }
  }

  /** The rest of a shortest walk is a shortest walk from its second node. */
  lemma TailIsShortest(g: LinkSet, w: seq<Id>, s: Id, t: Id)
    requires Shortest(g, w, s, t) && |w| > 1
    ensures Shortest(g, w[1..], w[1], t)
    ensures WalkCost(g, w) == Cost(g, s, w[1]) + WalkCost(g, w[1..])
  {
    assert w == [s] + w[1..];
    assert IsPath(g, w[1..]) by {
      forall i | 0 <= i < |w[1..]| - 1 ensures HasLink(g, w[1..][i], w[1..][i + 1]) {
        assert HasLink(g, w[i + 1], w[i + 1 + 1]);
      }
    }
    WalkCons(g, s, w[1..]);
    forall v | IsWalk(g, v, w[1], t)
      ensures WalkCost(g, w[1..]) <= WalkCost(g, v)
    {
      WalkCons(g, s, v);
      assert IsWalk(g, [s] + v, s, t);
    }
  }
}
