/** Prim's minimum spanning tree (`Prim.getPrim`): from the start, repeatedly
    take the lightest edge whose source is visited and whose target is not.
    Only the source-to-target orientation of an edge crosses the cut. */
module Prim {
  import opened Common
  import opened GraphModel
  import opened GraphUtils
  import opened Traversal

  /** The edge leaves the visited vertices in its own orientation. */
  predicate Crossing(e: Edge, visited: seq<string>) {
    e.source in visited && e.target !in visited
  }

  /** Reference definition of the scan of `getClosestEdge`: the first of the
      lightest crossing edges, `None` (Java `null`) when none crosses. */
  function Lightest(edges: seq<Edge>, visited: seq<string>): Option<Edge> {
    if edges == [] then None
    else
      var best := Lightest(edges[..|edges| - 1], visited);
      var e := edges[|edges| - 1];
      if Crossing(e, visited) && (best.None? || e.weight < best.value.weight) then Some(e) else best
  }

  /** `Lightest` finds a crossing edge of least weight, and finds none
      exactly when no edge crosses. */
  lemma {:induction false} LightestSpec(edges: seq<Edge>, visited: seq<string>)
    ensures Lightest(edges, visited).None? <==> forall e :: e in edges ==> !Crossing(e, visited)
    ensures Lightest(edges, visited).Some? ==>
              var c := Lightest(edges, visited).value;
              c in edges && Crossing(c, visited)
              && forall e :: e in edges && Crossing(e, visited) ==> c.weight <= e.weight
  {
    if edges != [] {
      var init := edges[..|edges| - 1];
      LightestSpec(init, visited);
      assert edges == init + [edges[|edges| - 1]];
    }
  }

  /** Ties go to the earliest edge: every crossing edge before the chosen one
      is strictly heavier. */
  lemma {:induction false} LightestEarliest(edges: seq<Edge>, visited: seq<string>)
    requires Lightest(edges, visited).Some?
    ensures exists k :: 0 <= k < |edges| && edges[k] == Lightest(edges, visited).value
              && forall m :: 0 <= m < k && Crossing(edges[m], visited) ==>
                   edges[m].weight > Lightest(edges, visited).value.weight
  {
    var init := edges[..|edges| - 1];
    var best := Lightest(init, visited);
    var e := edges[|edges| - 1];
    var c := Lightest(edges, visited).value;
    if Crossing(e, visited) && (best.None? || e.weight < best.value.weight) {
      LightestSpec(init, visited);
      var k := |edges| - 1;
      forall m | 0 <= m < k && Crossing(edges[m], visited)
        ensures edges[m].weight > c.weight
      {
        assert edges[m] in init;
      }
    } else {
      LightestEarliest(init, visited);
      var k :| 0 <= k < |init| && init[k] == c
               && forall m :: 0 <= m < k && Crossing(init[m], visited) ==> init[m].weight > c.weight;
      assert edges[k] == c;
    }
  }

  /** `getClosestEdge`: one pass over the edge array, keeping the first of
      the strictly lightest crossing edges. */
  method GetClosestEdge(edges: seq<Edge>, visited: seq<string>) returns (closest: Option<Edge>)
    ensures closest == Lightest(edges, visited)
    ensures closest.None? <==> forall e :: e in edges ==> !Crossing(e, visited)
    ensures closest.Some? ==> closest.value in edges && Crossing(closest.value, visited)
    ensures closest.Some? ==> forall e :: e in edges && Crossing(e, visited) ==>
              closest.value.weight <= e.weight
  {
    closest := None;
    var i := 0;
    while i < |edges|
      invariant i <= |edges|
      invariant closest == Lightest(edges[..i], visited)
    {
      var edge := edges[i];
      assert edges[..i + 1][..i] == edges[..i];
      if edge.source in visited && edge.target !in visited {
        if closest.None? || edge.weight < closest.value.weight {
          closest := Some(edge);
        }
      }
      i := i + 1;
    }
    assert edges[..i] == edges;
    LightestSpec(edges, visited);
  }

  /** The edges Prim's loop has taken: each is the lightest crossing edge for
      the vertices visited before it. */
  predicate PrimSteps(edges: seq<Edge>, start: string, es: seq<Edge>) {
    if es == [] then true
    else
      var init := es[..|es| - 1];
      PrimSteps(edges, start, init) && Lightest(edges, Order(start, init)) == Some(es[|es| - 1])
  }

  /** One step along an edge, in its own orientation. */
  predicate ForwardStep(edges: seq<Edge>, u: string, w: string) {
    exists e :: e in edges && e.source == u && e.target == w
  }

  predicate IsForwardWalk(edges: seq<Edge>, p: seq<string>) {
    |p| > 0 && forall i :: 0 <= i < |p| - 1 ==> ForwardStep(edges, p[i], p[i + 1])
  }

  ghost predicate ForwardReachable(edges: seq<Edge>, s: string, v: string) {
    exists p :: IsForwardWalk(edges, p) && p[0] == s && p[|p| - 1] == v
  }

  /** What `getPrim` returns for a connected graph: one lightest crossing edge
      per step, reaching every vertex exactly once. */
  ghost predicate PrimTree(g: Graph, start: string, es: seq<Edge>) {
    PrimSteps(g.edges, start, es) && Distinct(Order(start, es))
    && (forall v :: v in Order(start, es) <==> v in g.vertices)
    && |es| == |g.vertices| - 1
  }

  /** Every vertex reached by the steps is forward-reachable from the start. */
  lemma {:induction false} PrimStepsReachable(edges: seq<Edge>, start: string, es: seq<Edge>, v: string)
    requires PrimSteps(edges, start, es) && v in Order(start, es)
    ensures ForwardReachable(edges, start, v)
  {
    if es == [] {
      assert IsForwardWalk(edges, [start]);
    } else {
      var init := es[..|es| - 1];
      var t := es[|es| - 1];
      if v in Order(start, init) {
        PrimStepsReachable(edges, start, init, v);
      } else {
        LightestSpec(edges, Order(start, init));
        PrimStepsReachable(edges, start, init, t.source);
        var p :| IsForwardWalk(edges, p) && p[0] == start && p[|p| - 1] == t.source;
        var q := p + [v];
        assert ForwardStep(edges, t.source, v);
        assert IsForwardWalk(edges, q) by {
          forall i | 0 <= i < |q| - 1
            ensures ForwardStep(edges, q[i], q[i + 1])
          {
            if i < |p| - 1 {
              assert q[i] == p[i] && q[i + 1] == p[i + 1];
            }
          }
        }
        assert q[0] == start;
      }
    }
  }

  /** With no crossing edge, the visited vertices hold everything reachable. */
  lemma NoCrossingClosed(edges: seq<Edge>, visited: seq<string>, start: string, v: string)
    requires start in visited && forall e :: e in edges ==> !Crossing(e, visited)
    requires ForwardReachable(edges, start, v)
    ensures v in visited
  {
    var p :| IsForwardWalk(edges, p) && p[0] == start && p[|p| - 1] == v;
    var i := 0;
    while i < |p| - 1
      invariant 0 <= i < |p| && p[i] in visited
    {
      assert ForwardStep(edges, p[i], p[i + 1]);
      i := i + 1;
    }
  }

  /** The state of Prim's loop. */
  ghost predicate PrimState(g: Graph, start: string, visited: seq<string>, es: seq<Edge>) {
    visited == Order(start, es) && Distinct(visited)
    && (forall x :: x in visited ==> x in g.vertices)
    && PrimSteps(g.edges, start, es)
  }

  /** Taking the lightest crossing edge adds one new vertex. */
  lemma TakeEdge(g: Graph, start: string, visited: seq<string>, es: seq<Edge>, c: Edge)
    requires forall e :: e in g.edges ==> e.source in g.vertices && e.target in g.vertices
    requires PrimState(g, start, visited, es)
    requires Lightest(g.edges, visited) == Some(c)
    ensures c.target !in visited
    ensures PrimState(g, start, visited + [c.target], es + [c])
  {
    LightestSpec(g.edges, visited);
    assert (es + [c])[..|es|] == es;
  }

  /** A step with no crossing edge before every vertex is visited leaves a
      vertex out of reach. */
  lemma Disconnected(g: Graph, start: string, visited: seq<string>, es: seq<Edge>)
    requires Distinct(g.vertices)
    requires PrimState(g, start, visited, es) && |visited| != |g.vertices|
    requires forall e :: e in g.edges ==> !Crossing(e, visited)
    ensures exists v :: v in g.vertices && !ForwardReachable(g.edges, start, v)
  {
    DistinctWithin(visited, g.vertices);
    assert exists v :: v in g.vertices && v !in visited by {
      if forall v :: v in g.vertices ==> v in visited {
        DistinctWithin(g.vertices, visited);
      }
    }
    var v :| v in g.vertices && v !in visited;
    if ForwardReachable(g.edges, start, v) {
      NoCrossingClosed(g.edges, visited, start, v);
    }
  }

  /** Once every vertex is visited the steps form the tree, and every vertex
      is reachable from the start. */
  lemma Connected(g: Graph, start: string, visited: seq<string>, es: seq<Edge>)
    requires Distinct(g.vertices)
    requires PrimState(g, start, visited, es) && |visited| == |g.vertices|
    ensures PrimTree(g, start, es)
    ensures forall v :: v in g.vertices ==> ForwardReachable(g.edges, start, v)
  {
    DistinctWithin(visited, g.vertices);
    forall v | v in g.vertices
      ensures ForwardReachable(g.edges, start, v)
    {
      PrimStepsReachable(g.edges, start, es, v);
    }
  }

  /** `getPrim`: look the start up, then grow the tree one lightest crossing
      edge at a time; a step with no crossing edge before every vertex is
      visited raises "This is a disconnected graph".  The graph is as the
      builders make it: distinct vertex names, every endpoint a vertex. */
  method GetPrim(g: Graph, startName: string) returns (r: Result<seq<Edge>>)
    requires Distinct(g.vertices)
    requires forall e :: e in g.edges ==> e.source in g.vertices && e.target in g.vertices
    ensures Lookup(g.vertices, startName).Err? ==>
              r == Err(Lookup(g.vertices, startName).error)
    ensures Lookup(g.vertices, startName).Ok? ==>
              var s := Lookup(g.vertices, startName).value;
              (r.Err? <==> exists v :: v in g.vertices && !ForwardReachable(g.edges, s, v))
              && (r.Err? ==> r.error == "This is a disconnected graph")
              && (r.Ok? ==> PrimTree(g, s, r.value))
  {
    var found := SearchVertex(g.vertices, startName);
    if found.Err? {
      return Err(found.error);
    }
    var start := found.value;
    var visited: seq<string> := [start];
    var es: seq<Edge> := [];
    while |visited| != |g.vertices|
      invariant PrimState(g, start, visited, es)
      decreases |g.vertices| - |visited|
    {
      DistinctWithin(visited, g.vertices);
      var closest := GetClosestEdge(g.edges, visited);
      if closest.None? {
        Disconnected(g, start, visited, es);
        return Err("This is a disconnected graph");
      }
      TakeEdge(g, start, visited, es, closest.value);
      es := es + [closest.value];
      if closest.value.target !in visited {
        visited := visited + [closest.value.target];
      }
    }
    Connected(g, start, visited, es);
    return Ok(es);
  }
}
