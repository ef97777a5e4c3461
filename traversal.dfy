/** Vocabulary of the traversal trees that BFS and DFS return: walks over the
    adjacency map in either edge orientation, the discovery order of a tree
    given as a list of edges, and the facts linking the two. */
module Traversal {
  import opened Common
  import opened GraphModel

  /** The adjacency list of `v`, empty when it has none (`getOrDefault`). */
  function ListOf(adj: map<string, seq<Edge>>, v: string): seq<Edge> {
    if v in adj then adj[v] else []
  }

  /** One step from `u` to `w` over an incident edge, either orientation. */
  predicate Step(adj: map<string, seq<Edge>>, u: string, w: string) {
    exists e :: e in ListOf(adj, u) && Other(e, u) == w
  }

  predicate IsWalk(adj: map<string, seq<Edge>>, p: seq<string>) {
    |p| > 0 && forall i :: 0 <= i < |p| - 1 ==> Step(adj, p[i], p[i + 1])
  }

  ghost predicate Reachable(adj: map<string, seq<Edge>>, s: string, v: string) {
    exists p :: IsWalk(adj, p) && p[0] == s && p[|p| - 1] == v
  }

  /** Discovery order of a traversal tree: the start, then each edge's target. */
  function Order(start: string, es: seq<Edge>): (o: seq<string>)
    ensures |o| == |es| + 1 && o[0] == start
  {
    if es == [] then [start] else Order(start, es[..|es| - 1]) + [es[|es| - 1].target]
  }

  lemma {:induction false} OrderTargets(start: string, es: seq<Edge>, i: nat)
    requires i < |es|
    ensures Order(start, es)[i + 1] == es[i].target
  {
    if i < |es| - 1 {
      OrderTargets(start, es[..|es| - 1], i);
    }
  }

  /** A tree edge copies an incident edge of its source: the target is the
      other endpoint and the weight is the same. */
  predicate FromAdjacency(adj: map<string, seq<Edge>>, t: Edge) {
    exists e :: e in ListOf(adj, t.source) && Other(e, t.source) == t.target && e.weight == t.weight
  }

  /** The position of the first entry of `l` that leads from `u` to `n`,
      or `|l|` when none does. */
  function FirstLead(l: seq<Edge>, u: string, n: string): (k: nat)
    ensures k <= |l|
    ensures k < |l| ==> Other(l[k], u) == n
    ensures forall m :: 0 <= m < k ==> Other(l[m], u) != n
  {
    if l == [] then 0
    else if Other(l[0], u) == n then 0
    else
      var k := FirstLead(l[1..], u, n);
      assert forall m :: 0 < m < k + 1 ==> l[m] == l[1..][m - 1];
      1 + k
  }

  /** A scan that reaches `l[j]` having passed only entries leading
      elsewhere finds the first entry leading to its target. */
  lemma FirstLeadAt(l: seq<Edge>, u: string, j: nat)
    requires j < |l| && forall m :: 0 <= m < j ==> Other(l[m], u) != Other(l[j], u)
    ensures FirstLead(l, u, Other(l[j], u)) == j
  {
  }

  /** A tree edge copies the first entry of its source's list that leads
      to its target: the scan marks the target there and skips it later. */
  predicate FirstCopy(adj: map<string, seq<Edge>>, t: Edge) {
    var l := ListOf(adj, t.source);
    var k := FirstLead(l, t.source, t.target);
    k < |l| && l[k].weight == t.weight
  }

  /** The children of one source come in the order of its list. */
  predicate ListOrdered(adj: map<string, seq<Edge>>, es: seq<Edge>) {
    forall i, j :: 0 <= i < j < |es| && es[i].source == es[j].source ==>
      FirstLead(ListOf(adj, es[i].source), es[i].source, es[i].target)
        < FirstLead(ListOf(adj, es[j].source), es[j].source, es[j].target)
  }

  /** Every edge leaves a vertex discovered before it, reaches a vertex not
      yet discovered, and copies an incident edge. */
  predicate TreeEdges(adj: map<string, seq<Edge>>, start: string, es: seq<Edge>) {
    if es == [] then true
    else
      var init := es[..|es| - 1];
      var t := es[|es| - 1];
      TreeEdges(adj, start, init) && t.source in Order(start, init)
      && t.target !in Order(start, init) && FromAdjacency(adj, t)
  }

  /** No vertex is discovered twice. */
  lemma {:induction false} TreeDistinct(adj: map<string, seq<Edge>>, start: string, es: seq<Edge>)
    requires TreeEdges(adj, start, es)
    ensures Distinct(Order(start, es))
  {
    if es != [] {
      var init := es[..|es| - 1];
      TreeDistinct(adj, start, init);
    }
  }

  /** Every edge of a tree leaves an earlier vertex and copies an incident
      edge. */
  lemma {:induction false} TreeEdgeShape(adj: map<string, seq<Edge>>, start: string, es: seq<Edge>, i: nat)
    requires TreeEdges(adj, start, es) && i < |es|
    ensures es[i].source in Order(start, es)[..i + 1] && FromAdjacency(adj, es[i])
  {
    var init := es[..|es| - 1];
    if i < |init| {
      TreeEdgeShape(adj, start, init, i);
      assert Order(start, init)[..i + 1] == Order(start, es)[..i + 1];
    } else {
      assert Order(start, init) == Order(start, es)[..i + 1];
    }
  }

  /** Every neighbour of a vertex of `s` is in `s`. */
  predicate ClosedUnder(adj: map<string, seq<Edge>>, s: seq<string>) {
    forall u, e :: u in s && e in ListOf(adj, u) ==> Other(e, u) in s
  }

  /** A set closed under steps holds everything reachable from its members. */
  lemma ClosedHasReachable(adj: map<string, seq<Edge>>, s: seq<string>, start: string, v: string)
    requires start in s && ClosedUnder(adj, s)
    requires Reachable(adj, start, v)
    ensures v in s
  {
    var p :| IsWalk(adj, p) && p[0] == start && p[|p| - 1] == v;
    var i := 0;
    while i < |p| - 1
      invariant 0 <= i < |p| && p[i] in s
    {
      assert Step(adj, p[i], p[i + 1]);
      i := i + 1;
    }
  }

  lemma WalkExtend(adj: map<string, seq<Edge>>, p: seq<string>, w: string)
    requires IsWalk(adj, p) && Step(adj, p[|p| - 1], w)
    ensures IsWalk(adj, p + [w])
  {
    var q := p + [w];
    forall i | 0 <= i < |q| - 1
      ensures Step(adj, q[i], q[i + 1])
    {
      if i < |p| - 1 {
        assert q[i] == p[i] && q[i + 1] == p[i + 1];
      }
    }
  }

  /** Every vertex of a traversal tree is reachable from its start. */
  lemma {:induction false} TreeReachable(adj: map<string, seq<Edge>>, start: string, es: seq<Edge>, v: string)
    requires TreeEdges(adj, start, es)
    requires v in Order(start, es)
    ensures Reachable(adj, start, v)
  {
    if es == [] {
      assert IsWalk(adj, [start]);
    } else {
      var init := es[..|es| - 1];
      var t := es[|es| - 1];
      if v in Order(start, init) {
        TreeReachable(adj, start, init, v);
      } else {
        TreeReachable(adj, start, init, t.source);
        var p :| IsWalk(adj, p) && p[0] == start && p[|p| - 1] == t.source;
        var e :| e in ListOf(adj, t.source) && Other(e, t.source) == t.target && e.weight == t.weight;
        WalkExtend(adj, p, v);
        assert (p + [v])[0] == start;
      }
    }
  }

  /** A closed traversal tree holds exactly the reachable vertices, each once. */
  lemma TreeIsReachableSet(adj: map<string, seq<Edge>>, start: string, es: seq<Edge>)
    requires TreeEdges(adj, start, es) && ClosedUnder(adj, Order(start, es))
    ensures forall v :: v in Order(start, es) <==> Reachable(adj, start, v)
  {
    forall v
      ensures v in Order(start, es) <==> Reachable(adj, start, v)
    {
      if v in Order(start, es) {
        TreeReachable(adj, start, es, v);
      }
      if Reachable(adj, start, v) {
        ClosedHasReachable(adj, Order(start, es), start, v);
      }
    }
  }

  /** The triangle A-B, A-C, B-C as incidence lists, each edge listed
      under both of its endpoints. */
  function Triangle(): (adj: map<string, seq<Edge>>)
    ensures AdjClosed(adj)
  {
    map["A" := [Edge("A", "B", 1), Edge("A", "C", 1)],
        "B" := [Edge("A", "B", 1), Edge("B", "C", 1)],
        "C" := [Edge("A", "C", 1), Edge("B", "C", 1)]]
  }
}
