/** Walks along the directed edges of a graph, potentials that bound their
    weights from below, and the first edge between two vertices: what the
    shortest-path components read their results against. */
module Walks {
  import opened Common
  import opened GraphModel

  /** `es` walks along edges of `edges`, each in its own orientation, from
      `a` to `b`. */
  predicate Chained(edges: seq<Edge>, es: seq<Edge>, a: string, b: string) {
    (forall i :: 0 <= i < |es| ==> es[i] in edges)
    && (forall i :: 0 <= i < |es| - 1 ==> es[i].target == es[i + 1].source)
    && (if es == [] then a == b else es[0].source == a && es[|es| - 1].target == b)
  }

  lemma ChainedSnoc(edges: seq<Edge>, es: seq<Edge>, a: string, b: string, e: Edge)
    requires Chained(edges, es, a, b) && e in edges && e.source == b
    ensures Chained(edges, es + [e], a, e.target)
    ensures TotalWeight(es + [e]) == TotalWeight(es) + e.weight
  {
    var fs := es + [e];
    forall i | 0 <= i < |fs| - 1
      ensures fs[i].target == fs[i + 1].source
    {
      if i < |es| - 1 {
        assert fs[i] == es[i] && fs[i + 1] == es[i + 1];
      }
    }
    TotalWeightAppend(es, [e]);
  }

  lemma ChainedTail(edges: seq<Edge>, es: seq<Edge>, a: string, b: string)
    requires Chained(edges, es, a, b) && es != []
    ensures Chained(edges, es[1..], es[0].target, b)
  {
    if |es| > 1 {
      assert es[0].target == es[1].source;
    }
  }

  /** A potential under which no edge has a negative reduced weight
      `w + pot[u] - pot[v]`; with one, no cycle is negative. */
  predicate Feasible(g: Graph, pot: map<string, int>) {
    (forall v :: v in g.vertices ==> v in pot)
    && forall e :: e in g.edges ==> e.source in pot && e.target in pot && pot[e.target] <= pot[e.source] + e.weight
  }

  /** No walk weighs less than the potential difference of its ends. */
  lemma {:induction false} WalkFloor(g: Graph, pot: map<string, int>, es: seq<Edge>, a: string, b: string)
    requires Feasible(g, pot) && Chained(g.edges, es, a, b) && a in pot && b in pot
    ensures pot[b] - pot[a] <= TotalWeight(es)
  {
    if es != [] {
      var e := es[0];
      assert e in g.edges;
      ChainedTail(g.edges, es, a, b);
      WalkFloor(g, pot, es[1..], e.target, b);
    }
  }

  /** So every cycle weighs at least zero. */
  lemma CycleNonNegative(g: Graph, pot: map<string, int>, es: seq<Edge>, a: string)
    requires Feasible(g, pot) && Chained(g.edges, es, a, a) && a in pot
    ensures TotalWeight(es) >= 0
  {
    WalkFloor(g, pot, es, a, a);
  }

  /** A potential under which no edge leaving a vertex reachable from `s`
      has a negative reduced weight; edges out of unreachable vertices are
      free.  With one, no cycle reached from `s` is negative
      (`ReachedCycleNonNegative`); when none is, the shortest distances
      from `s` are one. */
  ghost predicate FeasibleFrom(g: Graph, s: string, pot: map<string, int>) {
    (forall v :: v in g.vertices ==> v in pot)
    && forall e, pre :: e in g.edges && Chained(g.edges, pre, s, e.source) ==>
         e.source in pot && e.target in pot && pot[e.target] <= pot[e.source] + e.weight
  }

  /** A potential for the whole graph is one from every vertex. */
  lemma FeasibleEverywhere(g: Graph, s: string, pot: map<string, int>)
    requires Feasible(g, pot)
    ensures FeasibleFrom(g, s, pot)
  {
  }

  /** No walk from a vertex reached from `s` weighs less than the potential
      difference of its ends. */
  lemma {:induction false} WalkFloorFrom(g: Graph, s: string, pot: map<string, int>, pre: seq<Edge>,
                                         es: seq<Edge>, a: string, b: string)
    requires FeasibleFrom(g, s, pot) && Chained(g.edges, pre, s, a) && Chained(g.edges, es, a, b)
    requires a in pot && b in pot
    ensures pot[b] - pot[a] <= TotalWeight(es)
    decreases |es|
  {
    if es != [] {
      var e := es[0];
      assert e in g.edges && e.source == a;
      ChainedSnoc(g.edges, pre, s, a, e);
      ChainedTail(g.edges, es, a, b);
      WalkFloorFrom(g, s, pot, pre + [e], es[1..], e.target, b);
    }
  }

  /** So every cycle through a vertex reached from `s` weighs at least zero. */
  lemma ReachedCycleNonNegative(g: Graph, s: string, pot: map<string, int>, pre: seq<Edge>, es: seq<Edge>, a: string)
    requires FeasibleFrom(g, s, pot) && Chained(g.edges, pre, s, a) && Chained(g.edges, es, a, a) && a in pot
    ensures TotalWeight(es) >= 0
  {
    WalkFloorFrom(g, s, pot, pre, es, a, a);
  }

  /** A negative cycle `a -> b -> a` that the start `s` cannot reach: no
      potential covers the whole graph, yet the zero potential is feasible
      from `s`, since no edge leaves `s`. */
  lemma UnreachedNegativeCycle(s: string, a: string, b: string)
    requires s != a && s != b && a != b
    ensures var g := Graph([s, a, b], [Edge(a, b, -1), Edge(b, a, -1)], map[]);
            (forall pot :: !Feasible(g, pot))
            && FeasibleFrom(g, s, map[s := 0, a := 0, b := 0])
  {
    var g := Graph([s, a, b], [Edge(a, b, -1), Edge(b, a, -1)], map[]);
    forall pot
      ensures !Feasible(g, pot)
    {
      // the two edges ask pot[b] <= pot[a] - 1 and pot[a] <= pot[b] - 1
      assert Edge(a, b, -1) in g.edges && Edge(b, a, -1) in g.edges;
    }
    forall pre, v | Chained(g.edges, pre, s, v)
      ensures v == s
    {
      NoWayOut(g.edges, s, pre, v);
    }
  }

  /** With no edge leaving `s`, every walk from `s` stays at `s`. */
  lemma NoWayOut(edges: seq<Edge>, s: string, pre: seq<Edge>, v: string)
    requires (forall e :: e in edges ==> e.source != s) && Chained(edges, pre, s, v)
    ensures pre == [] && v == s
  {
  }

  /** Two walks meeting at `b` make one. */
  lemma ChainedAppend(edges: seq<Edge>, es1: seq<Edge>, es2: seq<Edge>, a: string, b: string, c: string)
    requires Chained(edges, es1, a, b) && Chained(edges, es2, b, c)
    ensures Chained(edges, es1 + es2, a, c)
    ensures TotalWeight(es1 + es2) == TotalWeight(es1) + TotalWeight(es2)
  {
    var fs := es1 + es2;
    forall i | 0 <= i < |fs| - 1
      ensures fs[i].target == fs[i + 1].source
    {
      if i < |es1| - 1 {
        assert fs[i] == es1[i] && fs[i + 1] == es1[i + 1];
      } else if i == |es1| - 1 {
        assert fs[i] == es1[i] && fs[i + 1] == es2[0];
      } else {
        assert fs[i] == es2[i - |es1|] && fs[i + 1] == es2[i + 1 - |es1|];
      }
    }
    if es1 == [] {
      assert fs == es2;
    } else if es2 == [] {
      assert fs == es1;
    }
    TotalWeightAppend(es1, es2);
  }

  /** The first `y` edges of a walk are a walk to the end of edge `y - 1`. */
  lemma ChainedPrefix(edges: seq<Edge>, es: seq<Edge>, a: string, b: string, y: nat)
    requires Chained(edges, es, a, b) && 0 < y <= |es|
    ensures Chained(edges, es[..y], a, es[y - 1].target)
  {
    var fs := es[..y];
    forall i | 0 <= i < |fs| - 1
      ensures fs[i].target == fs[i + 1].source
    {
      assert fs[i] == es[i] && fs[i + 1] == es[i + 1];
    }
  }

  /** The edges from `x` on are a walk from the end of edge `x - 1`. */
  lemma ChainedSuffix(edges: seq<Edge>, es: seq<Edge>, a: string, b: string, x: nat)
    requires Chained(edges, es, a, b) && 0 < x < |es|
    ensures Chained(edges, es[x..], es[x - 1].target, b)
  {
    var fs := es[x..];
    forall i | 0 <= i < |fs| - 1
      ensures fs[i].target == fs[i + 1].source
    {
      assert fs[i] == es[x + i] && fs[i + 1] == es[x + i + 1];
    }
  }

  /** The edges `x` to `y - 1` are a walk from the end of edge `x - 1` to
      the end of edge `y - 1`. */
  lemma ChainedMiddle(edges: seq<Edge>, es: seq<Edge>, a: string, b: string, x: nat, y: nat)
    requires Chained(edges, es, a, b) && 0 < x <= y <= |es|
    ensures Chained(edges, es[x..y], es[x - 1].target, es[y - 1].target)
  {
    var fs := es[x..y];
    forall i | 0 <= i < |fs| - 1
      ensures fs[i].target == fs[i + 1].source
    {
      assert fs[i] == es[x + i] && fs[i + 1] == es[x + i + 1];
    }
  }

  lemma ChainedInit(edges: seq<Edge>, es: seq<Edge>, a: string, b: string)
    requires Chained(edges, es, a, b) && es != []
    ensures Chained(edges, es[..|es| - 1], a, es[|es| - 1].source)
  {
    var init := es[..|es| - 1];
    if init != [] {
      assert init[|init| - 1] == es[|es| - 2];
    }
  }

  /** The first edge of `edges` from `a` to `b`, the one the inner `for`
      stops at. */
  function FirstEdge(edges: seq<Edge>, a: string, b: string): (r: Option<Edge>)
    ensures r.Some? ==> r.value in edges && r.value.source == a && r.value.target == b
    ensures r.None? <==> forall e :: e in edges ==> !(e.source == a && e.target == b)
  {
    if edges == [] then None
    else if edges[0].source == a && edges[0].target == b then Some(edges[0])
    else FirstEdge(edges[1..], a, b)
  }

  /** The inner `for` with its `break`. */
  method FindEdge(edges: seq<Edge>, a: string, b: string) returns (r: Option<Edge>)
    ensures r == FirstEdge(edges, a, b)
  {
    r := None;
    var j := 0;
    while j < |edges|
      invariant j <= |edges| && FirstEdge(edges, a, b) == FirstEdge(edges[j..], a, b)
    {
      assert edges[j..][1..] == edges[j + 1..];
      if edges[j].source == a && edges[j].target == b {
        r := Some(edges[j]);
        return;
      }
      j := j + 1;
    }
  }
}
