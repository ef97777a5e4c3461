/** Dijkstra's shortest paths (`Dijkstra.computeDijkstra`, `getDijkstra`,
    `getDijkstraFinalMatrix`).  Edges are undirected: an edge is relaxed from
    whichever endpoint is polled.  The priority queue keeps its keys current
    (a lowered vertex is removed and re-added), so polling returns some vertex
    of least distance; which one among equals is left open. */
module Dijkstra {
  import opened Common
  import opened GraphModel
  import opened GraphUtils

  predicate Touches(e: Edge, u: string) {
    e.source == u || e.target == u
  }

  /** The edge joins `a` and `b`, in either orientation. */
  predicate Joins(e: Edge, a: string, b: string) {
    (e.source == a && e.target == b) || (e.source == b && e.target == a)
  }

  /** The heaviest weight of the edges, 0 for none. */
  function MaxWeight(edges: seq<Edge>): (m: int)
    ensures m >= 0
    ensures forall e :: e in edges ==> e.weight <= m
  {
    if edges == [] then 0
    else
      var init := edges[..|edges| - 1];
      var w := edges[|edges| - 1].weight;
      var m := MaxWeight(init);
      assert forall e :: e in edges ==> e in init || e == edges[|edges| - 1];
      if w > m then w else m
  }

  function VertexSet(g: Graph): set<string> {
    set v | v in g.vertices
  }

  /** The graphs the algorithm is run on: non-negative weights (which the
      algorithm needs to terminate), every endpoint a vertex, and no sum
      `dist[u] + w` that could pass `Integer.MAX_VALUE`. */
  predicate Bounded(g: Graph) {
    (forall e :: e in g.edges ==> 0 <= e.weight && e.source in g.vertices && e.target in g.vertices)
    && |g.vertices| * MaxWeight(g.edges) < MaxValue
  }

  /** The initial distances: 0 at the start, the sentinel elsewhere. */
  method InitDist(vertices: seq<string>, start: string) returns (dist: map<string, int>)
    requires start in vertices
    ensures dist.Keys == set v | v in vertices
    ensures dist[start] == 0
    ensures forall v :: v in dist && v != start ==> dist[v] == MaxValue
  {
    dist := map[];
    var i := 0;
    while i < |vertices|
      invariant i <= |vertices|
      invariant dist.Keys == set v | v in vertices[..i]
      invariant forall v :: v in dist ==> dist[v] == MaxValue
    {
      assert vertices[..i + 1] == vertices[..i] + [vertices[i]];
      dist := dist[vertices[i] := MaxValue];
      i := i + 1;
    }
    assert vertices[..i] == vertices;
    dist := dist[start := 0];
  }

  // ---------------------------------------------------------------------
  // The state of the main loop.  `settled` lists the polled vertices in
  // polling order; it is ghost and only serves the proof.

  ghost predicate DistOk(g: Graph, start: string, dist: map<string, int>) {
    dist.Keys == VertexSet(g) && start in dist && dist[start] == 0
    && forall v :: v in dist ==> 0 <= dist[v] <= MaxValue
  }

  /** A vertex has a finite distance exactly when it was polled or is queued;
      no polled vertex is queued again. */
  ghost predicate Frontier(dist: map<string, int>, pq: set<string>, settled: seq<string>) {
    pq <= dist.Keys && Distinct(settled)
    && (forall x :: x in settled ==> x in dist && x !in pq)
    && (forall v :: v in dist ==> (dist[v] != MaxValue <==> v in settled || v in pq))
  }

  /** Polled vertices are no farther than queued ones. */
  ghost predicate Ordered(dist: map<string, int>, pq: set<string>, settled: seq<string>) {
    forall s, x :: s in settled && x in pq && s in dist && x in dist ==> dist[s] <= dist[x]
  }

  /** The i-th polled vertex is at most i heaviest edges away; a queued one at
      most |settled| of them. */
  ghost predicate Bounds(dist: map<string, int>, pq: set<string>, settled: seq<string>, w: int) {
    (forall i :: 0 <= i < |settled| && settled[i] in dist ==> dist[settled[i]] <= i * w)
    && (forall x :: x in pq && x in dist ==> dist[x] <= |settled| * w)
  }

  /** The distance of `v` is that of `p` plus the weight of an edge joining them. */
  ghost predicate PrevEdge(edges: seq<Edge>, dist: map<string, int>, p: string, v: string)
    requires p in dist && v in dist
  {
    exists e :: e in edges && Joins(e, p, v) && dist[v] == dist[p] + e.weight
  }

  /** `prev` names, for every reached vertex but the start, a polled neighbour
      through which its distance was last lowered, polled before it. */
  ghost predicate PrevOk(g: Graph, start: string, dist: map<string, int>, prev: map<string, string>,
                         settled: seq<string>) {
    (forall v :: v in prev ==>
       v in dist && v != start && prev[v] in settled && prev[v] in dist && dist[v] != MaxValue
       && PrevEdge(g.edges, dist, prev[v], v))
    && (forall v :: v in dist && dist[v] != MaxValue && v != start ==> v in prev)
    && (forall v :: v in prev && v in settled && prev[v] in settled ==>
          IndexOf(settled, prev[v]) < IndexOf(settled, v))
  }

  /** Every edge incident to `u` among `edges` has been relaxed. */
  ghost predicate RelaxedOver(edges: seq<Edge>, dist: map<string, int>, u: string) {
    u in dist
    && forall e :: e in edges && Touches(e, u) ==>
         Other(e, u) in dist && dist[Other(e, u)] <= dist[u] + e.weight
  }

  ghost predicate AllRelaxed(edges: seq<Edge>, dist: map<string, int>, settled: seq<string>, n: nat) {
    forall i :: 0 <= i < n && i < |settled| ==> RelaxedOver(edges, dist, settled[i])
  }

  /** What holds throughout the main loop. */
  ghost predicate Core(g: Graph, start: string, dist: map<string, int>, prev: map<string, string>,
                       pq: set<string>, settled: seq<string>) {
    DistOk(g, start, dist) && Frontier(dist, pq, settled) && Ordered(dist, pq, settled)
    && Bounds(dist, pq, settled, MaxWeight(g.edges))
    && PrevOk(g, start, dist, prev, settled)
  }

  /** At the head of the main loop: every polled vertex has been relaxed. */
  ghost predicate Settling(g: Graph, start: string, dist: map<string, int>, prev: map<string, string>,
                           pq: set<string>, settled: seq<string>) {
    Core(g, start, dist, prev, pq, settled) && AllRelaxed(g.edges, dist, settled, |settled|)
  }

  /** While the edges are scanned for `u`, the last polled vertex; the first
      `j` edges have been relaxed from it. */
  ghost predicate Scanning(g: Graph, start: string, dist: map<string, int>, prev: map<string, string>,
                           pq: set<string>, settled: seq<string>, j: nat) {
    |settled| > 0 && j <= |g.edges|
    && Core(g, start, dist, prev, pq, settled)
    && (forall s :: s in settled ==> dist[s] <= dist[settled[|settled| - 1]])
    && AllRelaxed(g.edges, dist, settled, |settled| - 1)
    && RelaxedOver(g.edges[..j], dist, settled[|settled| - 1])
  }

  lemma MulStep(k: nat, w: int)
    ensures (k + 1) * w == k * w + w
  {
  }

  lemma {:induction false} MulMono(i: nat, n: nat, w: nat)
    requires i <= n
    ensures i * w <= n * w
    decreases n - i
  {
    if i < n {
      MulMono(i + 1, n, w);
      MulStep(i, w);
    }
  }

  /** A non-empty finite set has an element of least distance. */
  lemma {:induction false} HasNearest(pq: set<string>, dist: map<string, int>)
    requires pq != {} && pq <= dist.Keys
    ensures exists u :: u in pq && forall x :: x in pq ==> dist[u] <= dist[x]
    decreases |pq|
  {
    var y :| y in pq;
    if pq != {y} {
      HasNearest(pq - {y}, dist);
      var u :| u in pq - {y} && forall x :: x in pq - {y} ==> dist[u] <= dist[x];
      if dist[y] < dist[u] {
        assert forall x :: x in pq ==> dist[y] <= dist[x];
      } else {
        assert forall x :: x in pq ==> dist[u] <= dist[x];
      }
    } else {
      assert forall x :: x in pq ==> x == y;
    }
  }

  lemma InitState(g: Graph, start: string, dist: map<string, int>)
    requires Bounded(g) && start in g.vertices
    requires dist.Keys == VertexSet(g) && dist[start] == 0
    requires forall v :: v in dist && v != start ==> dist[v] == MaxValue
    ensures Settling(g, start, dist, map[], {start}, [])
  {
  }

  /** Polled vertices all belong to the graph, so fewer than all are polled
      while one is still queued. */
  lemma PolledFew(g: Graph, start: string, dist: map<string, int>, pq: set<string>, settled: seq<string>,
                  u: string)
    requires DistOk(g, start, dist) && Frontier(dist, pq, settled) && u in pq
    ensures |settled| + 1 <= |g.vertices|
  {
    DistinctWithin(settled + [u], g.vertices);
  }

  /** Polling a nearest queued vertex starts its scan. */
  lemma PollStep(g: Graph, start: string, dist: map<string, int>, prev: map<string, string>,
                 pq: set<string>, settled: seq<string>, u: string)
    requires Bounded(g) && Settling(g, start, dist, prev, pq, settled)
    requires u in pq && forall x :: x in pq ==> dist[u] <= dist[x]
    ensures Scanning(g, start, dist, prev, pq - {u}, settled + [u], 0)
  {
    var s2 := settled + [u];
    PollFrontier(dist, pq, settled, u);
    PollBounds(dist, pq, settled, u, MaxWeight(g.edges));
    PollPrev(g, start, dist, prev, pq, settled, u);
    PollRelaxed(g.edges, dist, settled, u);
  }

  lemma PollFrontier(dist: map<string, int>, pq: set<string>, settled: seq<string>, u: string)
    requires Frontier(dist, pq, settled) && Ordered(dist, pq, settled)
    requires u in pq && forall x :: x in pq ==> dist[u] <= dist[x]
    ensures Frontier(dist, pq - {u}, settled + [u]) && Ordered(dist, pq - {u}, settled + [u])
    ensures forall s :: s in settled + [u] ==> dist[s] <= dist[u]
  {
  }

  lemma PollBounds(dist: map<string, int>, pq: set<string>, settled: seq<string>, u: string, w: int)
    requires Bounds(dist, pq, settled, w) && u in pq && u in dist && w >= 0
    ensures Bounds(dist, pq - {u}, settled + [u], w)
  {
    MulStep(|settled|, w);
  }

  lemma PollPrev(g: Graph, start: string, dist: map<string, int>, prev: map<string, string>,
                 pq: set<string>, settled: seq<string>, u: string)
    requires PrevOk(g, start, dist, prev, settled) && Frontier(dist, pq, settled) && u in pq
    ensures PrevOk(g, start, dist, prev, settled + [u])
  {
    var s2 := settled + [u];
    assert Distinct(s2);
    forall v | v in prev && v in s2 && prev[v] in s2
      ensures IndexOf(s2, prev[v]) < IndexOf(s2, v)
    {
      DistinctIndexOf(s2, IndexOf(settled, prev[v]));
      if v in settled {
        DistinctIndexOf(s2, IndexOf(settled, v));
      } else {
        DistinctIndexOf(s2, |settled|);
      }
    }
  }

  lemma PollRelaxed(edges: seq<Edge>, dist: map<string, int>, settled: seq<string>, u: string)
    requires AllRelaxed(edges, dist, settled, |settled|) && u in dist
    ensures AllRelaxed(edges, dist, settled + [u], |settled|)
    ensures RelaxedOver(edges[..0], dist, u)
  {
    var s2 := settled + [u];
    forall i | 0 <= i < |settled|
      ensures RelaxedOver(edges, dist, s2[i])
    {
      assert s2[i] == settled[i];
    }
    assert edges[..0] == [];
  }

  /** An edge that does not lower the neighbour's distance (or does not touch
      the polled vertex) leaves the state as it is. */
  lemma KeepStep(g: Graph, start: string, dist: map<string, int>, prev: map<string, string>,
                 pq: set<string>, settled: seq<string>, j: nat)
    requires Scanning(g, start, dist, prev, pq, settled, j) && j < |g.edges|
    requires var u := settled[|settled| - 1]; var e := g.edges[j];
             Touches(e, u) ==> Other(e, u) in dist && dist[Other(e, u)] <= dist[u] + e.weight
    ensures Scanning(g, start, dist, prev, pq, settled, j + 1)
  {
    RelaxedKeep(g.edges, dist, settled[|settled| - 1], j);
  }

  lemma RelaxedKeep(edges: seq<Edge>, dist: map<string, int>, u: string, j: nat)
    requires j < |edges| && RelaxedOver(edges[..j], dist, u)
    requires var e := edges[j];
             Touches(e, u) ==> Other(e, u) in dist && dist[Other(e, u)] <= dist[u] + e.weight
    ensures RelaxedOver(edges[..j + 1], dist, u)
  {
    assert edges[..j + 1] == edges[..j] + [edges[j]];
  }

  /** Lowering the neighbour `n` of the polled vertex keeps every part of the
      state but the relaxation facts. */
  lemma ImproveCore(g: Graph, start: string, dist: map<string, int>,
                    pq: set<string>, settled: seq<string>, n: string, alt: int)
    requires DistOk(g, start, dist) && Frontier(dist, pq, settled) && Ordered(dist, pq, settled)
    requires |settled| > 0 && forall s :: s in settled ==> dist[s] <= dist[settled[|settled| - 1]]
    requires n in dist && n !in settled && n != start
    requires 0 <= dist[settled[|settled| - 1]] <= alt < dist[n]
    ensures var d2 := dist[n := alt];
            DistOk(g, start, d2) && Frontier(d2, pq + {n}, settled) && Ordered(d2, pq + {n}, settled)
            && forall s :: s in settled ==> d2[s] <= d2[settled[|settled| - 1]]
  {
  }

  /** A vertex whose distance can still be lowered is neither polled nor
      the start. */
  lemma ImproveNew(g: Graph, start: string, dist: map<string, int>, prev: map<string, string>,
                   pq: set<string>, settled: seq<string>, j: nat, n: string, alt: int)
    requires Bounded(g) && Scanning(g, start, dist, prev, pq, settled, j) && j < |g.edges|
    requires var u := settled[|settled| - 1]; var e := g.edges[j];
             Touches(e, u) && n == Other(e, u) && alt == dist[u] + e.weight
             && n in dist && alt < dist[n]
    ensures n !in settled && n != start && 0 <= dist[settled[|settled| - 1]] <= alt
  {
    var u := settled[|settled| - 1];
    var e := g.edges[j];
    assert u in settled;
    assert 0 <= e.weight;
  }

  /** The lowered distance stays within `|settled|` heaviest edges. */
  lemma ImproveBounds(g: Graph, start: string, dist: map<string, int>, prev: map<string, string>,
                      pq: set<string>, settled: seq<string>, j: nat, n: string, alt: int)
    requires Bounded(g) && Scanning(g, start, dist, prev, pq, settled, j) && j < |g.edges|
    requires var u := settled[|settled| - 1]; var e := g.edges[j];
             Touches(e, u) && n == Other(e, u) && alt == dist[u] + e.weight
             && n in dist && alt < dist[n]
    ensures Bounds(dist[n := alt], pq + {n}, settled, MaxWeight(g.edges))
  {
    var u := settled[|settled| - 1];
    var e := g.edges[j];
    var w := MaxWeight(g.edges);
    assert u in settled;
    assert 0 <= e.weight <= w;
    DistinctIndexOf(settled, |settled| - 1);
    assert dist[u] <= (|settled| - 1) * w;
    MulStep(|settled| - 1, w);
  }

  lemma ImprovePrev(g: Graph, start: string, dist: map<string, int>, prev: map<string, string>,
                    pq: set<string>, settled: seq<string>, j: nat, n: string, alt: int)
    requires Bounded(g) && Scanning(g, start, dist, prev, pq, settled, j) && j < |g.edges|
    requires var u := settled[|settled| - 1]; var e := g.edges[j];
             Touches(e, u) && n == Other(e, u) && alt == dist[u] + e.weight
             && n in dist && alt < dist[n] && n !in settled && n != start
    ensures PrevOk(g, start, dist[n := alt], prev[n := settled[|settled| - 1]], settled)
  {
    var u := settled[|settled| - 1];
    var e := g.edges[j];
    var d2 := dist[n := alt];
    var p2 := prev[n := u];
    forall v | v in p2
      ensures v in d2 && v != start && p2[v] in settled && p2[v] in d2 && d2[v] != MaxValue
              && PrevEdge(g.edges, d2, p2[v], v)
    {
      if v == n {
        assert Joins(e, u, n);
      } else {
        var x :| x in g.edges && Joins(x, prev[v], v) && dist[v] == dist[prev[v]] + x.weight;
        assert d2[v] == d2[p2[v]] + x.weight;
      }
    }
  }

  lemma ImproveRelaxed(g: Graph, dist: map<string, int>, settled: seq<string>, j: nat, n: string, alt: int)
    requires |settled| > 0 && j < |g.edges|
    requires AllRelaxed(g.edges, dist, settled, |settled| - 1)
    requires RelaxedOver(g.edges[..j], dist, settled[|settled| - 1])
    requires var u := settled[|settled| - 1]; var e := g.edges[j];
             Touches(e, u) && n == Other(e, u) && alt == dist[u] + e.weight
             && n in dist && alt < dist[n] && n !in settled
    ensures AllRelaxed(g.edges, dist[n := alt], settled, |settled| - 1)
    ensures RelaxedOver(g.edges[..j + 1], dist[n := alt], settled[|settled| - 1])
  {
    var d2 := dist[n := alt];
    forall i | 0 <= i < |settled| - 1
      ensures RelaxedOver(g.edges, d2, settled[i])
    {
      assert RelaxedOver(g.edges, dist, settled[i]);
      assert settled[i] in settled;
    }
    assert g.edges[..j + 1] == g.edges[..j] + [g.edges[j]];
    assert settled[|settled| - 1] in settled;
  }

  /** Lowering the neighbour `n` of the polled vertex moves the scan on. */
  lemma ImproveStep(g: Graph, start: string, dist: map<string, int>, prev: map<string, string>,
                    pq: set<string>, settled: seq<string>, j: nat, n: string, alt: int)
    requires Bounded(g) && Scanning(g, start, dist, prev, pq, settled, j) && j < |g.edges|
    requires var u := settled[|settled| - 1]; var e := g.edges[j];
             Touches(e, u) && n == Other(e, u) && alt == dist[u] + e.weight
             && n in dist && alt < dist[n]
    ensures Scanning(g, start, dist[n := alt], prev[n := settled[|settled| - 1]], pq + {n}, settled, j + 1)
  {
    ImproveNew(g, start, dist, prev, pq, settled, j, n, alt);
    ImproveCore(g, start, dist, pq, settled, n, alt);
    ImproveBounds(g, start, dist, prev, pq, settled, j, n, alt);
    ImprovePrev(g, start, dist, prev, pq, settled, j, n, alt);
    ImproveRelaxed(g, dist, settled, j, n, alt);
  }

  /** Once every edge is scanned, the polled vertex joins the relaxed ones. */
  lemma ScanDone(g: Graph, start: string, dist: map<string, int>, prev: map<string, string>,
                 pq: set<string>, settled: seq<string>)
    requires Scanning(g, start, dist, prev, pq, settled, |g.edges|)
    ensures Settling(g, start, dist, prev, pq, settled)
  {
    RelaxedLast(g.edges, dist, settled);
  }

  lemma RelaxedLast(edges: seq<Edge>, dist: map<string, int>, settled: seq<string>)
    requires |settled| > 0 && AllRelaxed(edges, dist, settled, |settled| - 1)
    requires RelaxedOver(edges[..|edges|], dist, settled[|settled| - 1])
    ensures AllRelaxed(edges, dist, settled, |settled|)
  {
    assert edges[..|edges|] == edges;
  }

  // ---------------------------------------------------------------------
  // What the computation returns.

  datatype DijkstraResult = DijkstraResult(dist: map<string, int>, prev: map<string, string>)

  /** `prev` walks strictly back along `order`. */
  predicate PrevRanked(prev: map<string, string>, order: seq<string>) {
    forall v :: v in prev ==> v in order && prev[v] in order && IndexOf(order, prev[v]) < IndexOf(order, v)
  }

  /** `prev` is the predecessor of every reached vertex but the start, along
      an edge whose weight is the difference of their distances. */
  ghost predicate PrevTree(g: Graph, start: string, r: DijkstraResult, order: seq<string>) {
    (forall v :: v in r.prev ==>
       v in r.dist && v != start && r.prev[v] in r.dist && r.dist[v] != MaxValue
       && PrevEdge(g.edges, r.dist, r.prev[v], v))
    && (forall v :: v in r.dist && r.dist[v] != MaxValue && v != start ==> v in r.prev)
    && (forall v :: v in order ==> v in r.dist && r.dist[v] != MaxValue)
    && PrevRanked(r.prev, order)
  }

  /** Every edge at a reached vertex is relaxed, in both orientations. */
  ghost predicate AllEdgesRelaxed(g: Graph, dist: map<string, int>) {
    forall v, e :: v in dist && dist[v] != MaxValue && e in g.edges && Touches(e, v) ==>
      Other(e, v) in dist && dist[Other(e, v)] <= dist[v] + e.weight
  }

  /** The final state: the start at 0, every edge relaxed, no sum past the
      sentinel, and the predecessor tree. */
  ghost predicate Final(g: Graph, start: string, r: DijkstraResult, order: seq<string>) {
    DistOk(g, start, r.dist) && AllEdgesRelaxed(g, r.dist)
    && (forall v :: v in r.dist && r.dist[v] != MaxValue ==> r.dist[v] + MaxWeight(g.edges) < MaxValue)
    && PrevTree(g, start, r, order)
  }

  lemma FinishRelaxed(g: Graph, dist: map<string, int>, settled: seq<string>)
    requires Frontier(dist, {}, settled) && AllRelaxed(g.edges, dist, settled, |settled|)
    ensures AllEdgesRelaxed(g, dist)
  {
    forall v, e | v in dist && dist[v] != MaxValue && e in g.edges && Touches(e, v)
      ensures Other(e, v) in dist && dist[Other(e, v)] <= dist[v] + e.weight
    {
      assert RelaxedOver(g.edges, dist, settled[IndexOf(settled, v)]);
    }
  }

  lemma FinishBound(g: Graph, start: string, dist: map<string, int>, settled: seq<string>)
    requires Bounded(g) && DistOk(g, start, dist) && Frontier(dist, {}, settled)
    requires Bounds(dist, {}, settled, MaxWeight(g.edges))
    ensures forall v :: v in dist && dist[v] != MaxValue ==> dist[v] + MaxWeight(g.edges) < MaxValue
  {
    var w := MaxWeight(g.edges);
    DistinctWithin(settled, g.vertices);
    forall v | v in dist && dist[v] != MaxValue
      ensures dist[v] + w < MaxValue
    {
      var i := IndexOf(settled, v);
      MulMono(i, |g.vertices| - 1, w);
      MulStep(|g.vertices| - 1, w);
    }
  }

  lemma FinishPrev(g: Graph, start: string, dist: map<string, int>, prev: map<string, string>,
                   settled: seq<string>)
    requires Frontier(dist, {}, settled) && PrevOk(g, start, dist, prev, settled)
    ensures PrevTree(g, start, DijkstraResult(dist, prev), settled)
  {
  }

  lemma Finish(g: Graph, start: string, dist: map<string, int>, prev: map<string, string>,
               settled: seq<string>)
    requires Bounded(g) && Settling(g, start, dist, prev, {}, settled)
    ensures Final(g, start, DijkstraResult(dist, prev), settled)
  {
    FinishRelaxed(g, dist, settled);
    FinishBound(g, start, dist, settled);
    FinishPrev(g, start, dist, prev, settled);
  }

  /** One edge of the scan of `u`: when it touches `u` and `dist[u] + w` is
      below the neighbour's distance, lower it, record `u` as its
      predecessor and (re-)queue it. */
  method RelaxEdge(g: Graph, start: string, u: string, dist0: map<string, int>, prev0: map<string, string>,
                   pq0: set<string>, ghost settled: seq<string>, j: nat)
    returns (dist: map<string, int>, prev: map<string, string>, pq: set<string>)
    requires Bounded(g) && Scanning(g, start, dist0, prev0, pq0, settled, j) && j < |g.edges|
    requires u == settled[|settled| - 1]
    ensures Scanning(g, start, dist, prev, pq, settled, j + 1)
  {
    dist, prev, pq := dist0, prev0, pq0;
    var e := g.edges[j];
    ScanDomain(g, start, dist, prev, pq, settled, j);
    if e.source == u || e.target == u {
      var neighbor := if e.source == u then e.target else e.source;
      var alt := dist[u] + e.weight;
      if alt < dist[neighbor] {
        ImproveStep(g, start, dist, prev, pq, settled, j, neighbor, alt);
        assert (pq - {neighbor}) + {neighbor} == pq + {neighbor};
        dist := dist[neighbor := alt];
        prev := prev[neighbor := u];
        pq := (pq - {neighbor}) + {neighbor};
        return;
      }
    }
    KeepStep(g, start, dist, prev, pq, settled, j);
  }

  /** The endpoints the scan of `u` looks up have distances. */
  lemma ScanDomain(g: Graph, start: string, dist: map<string, int>, prev: map<string, string>, pq: set<string>,
                   settled: seq<string>, j: nat)
    requires Bounded(g) && Scanning(g, start, dist, prev, pq, settled, j) && j < |g.edges|
    ensures var u := settled[|settled| - 1]; var e := g.edges[j];
            u in dist && (Touches(e, u) ==> Other(e, u) in dist)
  {
  }

  /** The scan of every edge for the polled vertex `u`. */
  method ScanEdges(g: Graph, start: string, u: string, dist0: map<string, int>, prev0: map<string, string>,
                   pq0: set<string>, ghost settled: seq<string>)
    returns (dist: map<string, int>, prev: map<string, string>, pq: set<string>)
    requires Bounded(g) && Scanning(g, start, dist0, prev0, pq0, settled, 0)
    requires u == settled[|settled| - 1]
    ensures Settling(g, start, dist, prev, pq, settled)
  {
    dist, prev, pq := dist0, prev0, pq0;
    var j := 0;
    while j < |g.edges|
      invariant Scanning(g, start, dist, prev, pq, settled, j)
    {
      dist, prev, pq := RelaxEdge(g, start, u, dist, prev, pq, settled, j);
      j := j + 1;
    }
    ScanDone(g, start, dist, prev, pq, settled);
  }

  /** `computeDijkstra`: look the start up, then poll a nearest queued vertex
      and relax every edge incident to it, until the queue is empty. */
  method ComputeDijkstra(g: Graph, startName: string) returns (r: Result<DijkstraResult>, ghost order: seq<string>)
    requires Bounded(g)
    ensures Lookup(g.vertices, startName).Err? ==> r == Err(Lookup(g.vertices, startName).error)
    ensures Lookup(g.vertices, startName).Ok? ==>
              r.Ok? && Final(g, Lookup(g.vertices, startName).value, r.value, order)
  {
    order := [];
    var found := SearchVertex(g.vertices, startName);
    if found.Err? {
      return Err(found.error), order;
    }
    var start := found.value;
    var dist := InitDist(g.vertices, start);
    var prev: map<string, string> := map[];
    var pq: set<string> := {start};
    ghost var settled: seq<string> := [];
    InitState(g, start, dist);
    while pq != {}
      invariant Settling(g, start, dist, prev, pq, settled)
      decreases |g.vertices| - |settled|
    {
      HasNearest(pq, dist);
      var u :| u in pq && forall x :: x in pq ==> dist[u] <= dist[x];
      PolledFew(g, start, dist, pq, settled, u);
      PollStep(g, start, dist, prev, pq, settled, u);
      pq := pq - {u};
      settled := settled + [u];
      dist, prev, pq := ScanEdges(g, start, u, dist, prev, pq, settled);
    }
    Finish(g, start, dist, prev, settled);
    return Ok(DijkstraResult(dist, prev)), settled;
  }

  // ---------------------------------------------------------------------
  // Walks, and what the final distances mean.

  /** `es` walks along `vs`: its i-th edge joins the i-th and (i+1)-th vertex. */
  predicate EdgeWalk(edges: seq<Edge>, es: seq<Edge>, vs: seq<string>) {
    |vs| == |es| + 1 && forall i :: 0 <= i < |es| ==> es[i] in edges && Joins(es[i], vs[i], vs[i + 1])
  }

  ghost predicate Connects(edges: seq<Edge>, s: string, v: string) {
    exists es, vs :: EdgeWalk(edges, es, vs) && vs[0] == s && vs[|vs| - 1] == v
  }

  /** No walk from the start is shorter than the final distance of its end,
      and its end is reached. */
  lemma {:induction false} WalkLowerBound(g: Graph, start: string, r: DijkstraResult, order: seq<string>,
                                          es: seq<Edge>, vs: seq<string>)
    requires Final(g, start, r, order) && EdgeWalk(g.edges, es, vs) && vs[0] == start
    ensures vs[|vs| - 1] in r.dist && r.dist[vs[|vs| - 1]] != MaxValue
    ensures r.dist[vs[|vs| - 1]] <= TotalWeight(es)
  {
    if es != [] {
      var n := |es|;
      var es0 := es[..n - 1];
      var vs0 := vs[..n];
      assert EdgeWalk(g.edges, es0, vs0);
      WalkLowerBound(g, start, r, order, es0, vs0);
      var u := vs[n - 1];
      var e := es[n - 1];
      assert Joins(e, u, vs[n]);
      assert Touches(e, u) && Other(e, u) == vs[n];
      TotalWeightAppend(es0, [e]);
      assert es0 + [e] == es;
    }
  }

  /** The predecessor chain of `v`: `v`, its predecessor, and so on, down to a
      vertex with none. */
  function Rank(prev: map<string, string>, order: seq<string>, v: string): nat {
    if v in prev && v in order then IndexOf(order, v) + 1 else 0
  }

  function Chain(prev: map<string, string>, order: seq<string>, v: string): (c: seq<string>)
    requires PrevRanked(prev, order)
    ensures |c| > 0 && c[0] == v && c[|c| - 1] !in prev
    ensures forall i :: 0 <= i < |c| - 1 ==> c[i] in prev && prev[c[i]] == c[i + 1]
    decreases Rank(prev, order, v)
  {
    if v in prev then [v] + Chain(prev, order, prev[v]) else [v]
  }

  /** The edge the walk back takes from `b` to its predecessor `a`: the first
      edge joining them, and, when `tight`, whose weight also accounts for
      the difference of their distances. */
  predicate Fits(e: Edge, dist: map<string, int>, a: string, b: string, tight: bool) {
    Joins(e, a, b) && (tight ==> a in dist && b in dist && dist[b] == dist[a] + e.weight)
  }

  function Pick(edges: seq<Edge>, dist: map<string, int>, a: string, b: string, tight: bool): (o: Option<Edge>)
    ensures o.None? <==> forall e :: e in edges ==> !Fits(e, dist, a, b, tight)
    ensures o.Some? ==> o.value in edges && Fits(o.value, dist, a, b, tight)
  {
    if edges == [] then None
    else if Fits(edges[0], dist, a, b, tight) then Some(edges[0])
    else
      assert forall e :: e in edges ==> e == edges[0] || e in edges[1..];
      Pick(edges[1..], dist, a, b, tight)
  }

  /** The edges the walk back collects from `v`, before the list is reversed. */
  function Steps(edges: seq<Edge>, dist: map<string, int>, prev: map<string, string>, order: seq<string>,
                 v: string, tight: bool): seq<Edge>
    requires PrevRanked(prev, order)
    decreases Rank(prev, order, v)
  {
    if v !in prev then []
    else
      var rest := Steps(edges, dist, prev, order, prev[v], tight);
      match Pick(edges, dist, prev[v], v, tight)
      case Some(e) => [e] + rest
      case None => rest
  }

  /** Every vertex on the chain of a reached vertex is reached, and the chain
      ends at the start. */
  lemma {:induction false} ChainReached(g: Graph, start: string, r: DijkstraResult, order: seq<string>, v: string)
    requires PrevTree(g, start, r, order) && v in r.dist && r.dist[v] != MaxValue
    ensures var c := Chain(r.prev, order, v);
            c[|c| - 1] == start && forall x :: x in c ==> x in r.dist && r.dist[x] != MaxValue
    decreases Rank(r.prev, order, v)
  {
    if v in r.prev {
      ChainReached(g, start, r, order, r.prev[v]);
    }
  }

  /** Every recorded predecessor is joined to its vertex by an edge that
      accounts for the difference of their distances. */
  ghost predicate PrevLinks(edges: seq<Edge>, r: DijkstraResult) {
    forall v :: v in r.prev ==> v in r.dist && r.prev[v] in r.dist && PrevEdge(edges, r.dist, r.prev[v], v)
  }

  /** One step back from a vertex with a predecessor. */
  lemma StepBackOne(edges: seq<Edge>, r: DijkstraResult, order: seq<string>, v: string, tight: bool)
    requires PrevRanked(r.prev, order) && PrevLinks(edges, r) && v in r.prev
    ensures var p := r.prev[v]; var o := Pick(edges, r.dist, p, v, tight);
            o.Some? && Joins(o.value, p, v) && o.value in edges
            && Chain(r.prev, order, v) == [v] + Chain(r.prev, order, p)
            && Steps(edges, r.dist, r.prev, order, v, tight) == [o.value] + Steps(edges, r.dist, r.prev, order, p, tight)
  {
    var p := r.prev[v];
    var x :| x in edges && Joins(x, p, v) && r.dist[v] == r.dist[p] + x.weight;
    assert Fits(x, r.dist, p, v, tight);
  }

  /** The collected edges join consecutive vertices of the chain. */
  lemma {:induction false} StepsAlongChain(edges: seq<Edge>, r: DijkstraResult, order: seq<string>,
                                           v: string, tight: bool)
    requires PrevRanked(r.prev, order) && PrevLinks(edges, r)
    ensures var c := Chain(r.prev, order, v); var s := Steps(edges, r.dist, r.prev, order, v, tight);
            |s| == |c| - 1 && forall i :: 0 <= i < |s| ==> s[i] in edges && Joins(s[i], c[i + 1], c[i])
    decreases Rank(r.prev, order, v)
  {
    if v in r.prev {
      var p := r.prev[v];
      StepsAlongChain(edges, r, order, p, tight);
      StepBackOne(edges, r, order, v, tight);
      var c := Chain(r.prev, order, v);
      var s := Steps(edges, r.dist, r.prev, order, v, tight);
      var c1 := Chain(r.prev, order, p);
      var s1 := Steps(edges, r.dist, r.prev, order, p, tight);
      forall i | 0 < i < |s|
        ensures s[i] in edges && Joins(s[i], c[i + 1], c[i])
      {
        assert s[i] == s1[i - 1] && c[i] == c1[i - 1] && c[i + 1] == c1[i];
      }
    }
  }

  /** With `tight`, the weights of the walk back add up to the distance. */
  lemma {:induction false} StepsWeight(g: Graph, start: string, r: DijkstraResult, order: seq<string>, v: string)
    requires PrevTree(g, start, r, order) && start in r.dist && r.dist[start] == 0 && v in r.dist && r.dist[v] != MaxValue
    ensures TotalWeight(Steps(g.edges, r.dist, r.prev, order, v, true)) == r.dist[v]
    decreases Rank(r.prev, order, v)
  {
    if v in r.prev {
      var p := r.prev[v];
      StepsWeight(g, start, r, order, p);
      StepBackOne(g.edges, r, order, v, true);
      var o := Pick(g.edges, r.dist, p, v, true);
      var rest := Steps(g.edges, r.dist, r.prev, order, p, true);
      assert ([o.value] + rest)[1..] == rest;
    } else {
      assert v == start;
    }
  }


  /** The reversed edges of a reached vertex walk from the start to it. */
  lemma PathWalks(g: Graph, start: string, r: DijkstraResult, order: seq<string>, v: string, tight: bool)
    requires PrevTree(g, start, r, order) && start in r.dist && r.dist[start] == 0
    requires v in r.dist && r.dist[v] != MaxValue
    ensures var p := Reverse(Steps(g.edges, r.dist, r.prev, order, v, tight));
            var vs := Reverse(Chain(r.prev, order, v));
            EdgeWalk(g.edges, p, vs) && vs[0] == start && vs[|vs| - 1] == v
            && (tight ==> TotalWeight(p) == r.dist[v])
  {
    var s := Steps(g.edges, r.dist, r.prev, order, v, tight);
    ChainReached(g, start, r, order, v);
    StepsAlongChain(g.edges, r, order, v, tight);
    if tight {
      StepsWeight(g, start, r, order, v);
    }
    ReverseWalk(g.edges, s, Chain(r.prev, order, v));
    TotalWeightReverse(s);
  }

  /** Edges joining consecutive vertices of a list, read backwards, walk the
      reversed list. */
  lemma ReverseWalk(edges: seq<Edge>, s: seq<Edge>, c: seq<string>)
    requires |s| == |c| - 1 && forall i :: 0 <= i < |s| ==> s[i] in edges && Joins(s[i], c[i + 1], c[i])
    ensures EdgeWalk(edges, Reverse(s), Reverse(c))
  {
    var p := Reverse(s);
    var vs := Reverse(c);
    forall k | 0 <= k < |p|
      ensures p[k] in edges && Joins(p[k], vs[k], vs[k + 1])
    {
      var m := |s| - 1 - k;
      assert s[m] in edges && Joins(s[m], c[m + 1], c[m]);
      assert p[k] == s[m];
      assert vs[k] == c[m + 1] && vs[k + 1] == c[m];
    }
  }


  /** A vertex has a finite final distance exactly when a walk connects it to
      the start, and that distance is the least weight of such a walk. */
  lemma DistanceMeaning(g: Graph, start: string, r: DijkstraResult, order: seq<string>, v: string)
    requires Final(g, start, r, order) && v in r.dist
    ensures r.dist[v] != MaxValue <==> Connects(g.edges, start, v)
    ensures r.dist[v] != MaxValue ==>
              (exists es, vs :: EdgeWalk(g.edges, es, vs) && vs[0] == start && vs[|vs| - 1] == v
                                && TotalWeight(es) == r.dist[v])
              && forall es, vs :: EdgeWalk(g.edges, es, vs) && vs[0] == start && vs[|vs| - 1] == v ==>
                                    r.dist[v] <= TotalWeight(es)
  {
    if r.dist[v] != MaxValue {
      PathWalks(g, start, r, order, v, true);
      forall es, vs | EdgeWalk(g.edges, es, vs) && vs[0] == start && vs[|vs| - 1] == v
        ensures r.dist[v] <= TotalWeight(es)
      {
        WalkLowerBound(g, start, r, order, es, vs);
      }
    }
    if Connects(g.edges, start, v) {
      var es, vs :| EdgeWalk(g.edges, es, vs) && vs[0] == start && vs[|vs| - 1] == v;
      WalkLowerBound(g, start, r, order, es, vs);
    }
  }

  // ---------------------------------------------------------------------
  // `getDijkstra` and `getDijkstraFinalMatrix`.

  /** The scan for the edge joining `b` to its predecessor `a`; `tight`
      selects the corrected choice (see `Fits`). */
  method FindEdge(edges: seq<Edge>, dist: map<string, int>, a: string, b: string, tight: bool)
    returns (found: Option<Edge>)
    ensures found == Pick(edges, dist, a, b, tight)
  {
    var i := 0;
    while i < |edges|
      invariant i <= |edges|
      invariant Pick(edges, dist, a, b, tight) == Pick(edges[i..], dist, a, b, tight)
    {
      assert edges[i..][1..] == edges[i + 1..];
      if Fits(edges[i], dist, a, b, tight) {
        return Some(edges[i]);
      }
      i := i + 1;
    }
    return None;
  }

  lemma StepBack(edges: seq<Edge>, dist: map<string, int>, prev: map<string, string>, order: seq<string>,
                 v: string, tight: bool)
    requires PrevRanked(prev, order) && v in prev
    ensures Rank(prev, order, prev[v]) < Rank(prev, order, v)
    ensures var o := Pick(edges, dist, prev[v], v, tight);
            var rest := Steps(edges, dist, prev, order, prev[v], tight);
            Steps(edges, dist, prev, order, v, tight) == if o.Some? then [o.value] + rest else rest
  {
  }

  /** Follow `prev` back from `end`, collecting an edge per link, then reverse. */
  method WalkBack(edges: seq<Edge>, dist: map<string, int>, prev: map<string, string>, ghost order: seq<string>,
                  end: string, tight: bool) returns (path: seq<Edge>)
    requires PrevRanked(prev, order)
    ensures path == Reverse(Steps(edges, dist, prev, order, end, tight))
  {
    var acc: seq<Edge> := [];
    var current := end;
    while current in prev
      invariant acc + Steps(edges, dist, prev, order, current, tight) == Steps(edges, dist, prev, order, end, tight)
      decreases Rank(prev, order, current)
    {
      var predecessor := prev[current];
      var found := FindEdge(edges, dist, predecessor, current, tight);
      var rest := Steps(edges, dist, prev, order, predecessor, tight);
      StepBack(edges, dist, prev, order, current, tight);
      if found.Some? {
        assert acc + ([found.value] + rest) == (acc + [found.value]) + rest;
        acc := acc + [found.value];
      }
      current := predecessor;
    }
    assert acc + [] == acc;
    path := Reverse(acc);
  }

  /** `getDijkstra` with the choice of edge as a parameter: run the
      computation from the start, look the end up, walk back from it. */
  method GetDijkstraPath(g: Graph, startName: string, endName: string, tight: bool)
    returns (r: Result<seq<Edge>>, ghost res: DijkstraResult, ghost order: seq<string>)
    requires Bounded(g)
    ensures Lookup(g.vertices, startName).Err? ==> r == Err(Lookup(g.vertices, startName).error)
    ensures Lookup(g.vertices, startName).Ok? && Lookup(g.vertices, endName).Err? ==>
              r == Err(Lookup(g.vertices, endName).error)
    ensures Lookup(g.vertices, startName).Ok? && Lookup(g.vertices, endName).Ok? ==>
              Final(g, Lookup(g.vertices, startName).value, res, order)
              && r == Ok(Reverse(Steps(g.edges, res.dist, res.prev, order, Lookup(g.vertices, endName).value, tight)))
  {
    var computed;
    computed, order := ComputeDijkstra(g, startName);
    res := DijkstraResult(map[], map[]);
    if computed.Err? {
      return Err(computed.error), res, order;
    }
    var c := computed.value;
    res := c;
    var end := SearchVertex(g.vertices, endName);
    if end.Err? {
      return Err(end.error), res, order;
    }
    var path := WalkBack(g.edges, c.dist, c.prev, order, end.value, tight);
    return Ok(path), res, order;
  }

  /** What the walk back returns: nothing when the end is the start or is not
      connected to it, otherwise a walk from the start to the end; with
      `tight`, one of least weight. */
  lemma PathOutcome(g: Graph, start: string, res: DijkstraResult, order: seq<string>, end: string, tight: bool)
    requires Final(g, start, res, order) && end in g.vertices
    ensures var p := Reverse(Steps(g.edges, res.dist, res.prev, order, end, tight));
            (end == start || !Connects(g.edges, start, end) ==> p == [])
            && (Connects(g.edges, start, end) ==>
                  (exists vs :: EdgeWalk(g.edges, p, vs) && vs[0] == start && vs[|vs| - 1] == end)
                  && (tight ==> forall es, vs :: EdgeWalk(g.edges, es, vs) && vs[0] == start && vs[|vs| - 1] == end ==>
                                  TotalWeight(p) <= TotalWeight(es)))
  {
    assert end in res.dist;
    DistanceMeaning(g, start, res, order, end);
    if res.dist[end] != MaxValue {
      PathWalks(g, start, res, order, end, tight);
      if tight {
        PathWalks(g, start, res, order, end, true);
      }
    }
  }

  /** The walk-back outcome is decided by the lookups and the graph. */
  ghost predicate PathResult(g: Graph, startName: string, endName: string, r: Result<seq<Edge>>, shortest: bool) {
    (Lookup(g.vertices, startName).Err? ==> r == Err(Lookup(g.vertices, startName).error))
    && (Lookup(g.vertices, startName).Ok? && Lookup(g.vertices, endName).Err? ==>
          r == Err(Lookup(g.vertices, endName).error))
    && (Lookup(g.vertices, startName).Ok? && Lookup(g.vertices, endName).Ok? ==>
          var s := Lookup(g.vertices, startName).value;
          var t := Lookup(g.vertices, endName).value;
          r.Ok?
          && (t == s || !Connects(g.edges, s, t) ==> r.value == [])
          && (Connects(g.edges, s, t) ==>
                (exists vs :: EdgeWalk(g.edges, r.value, vs) && vs[0] == s && vs[|vs| - 1] == t)
                && (shortest ==> forall es, vs :: EdgeWalk(g.edges, es, vs) && vs[0] == s && vs[|vs| - 1] == t ==>
                                   TotalWeight(r.value) <= TotalWeight(es))))
  }

  /** `getDijkstra` as written: the first edge joining a vertex to its
      predecessor is taken, whatever its weight. */
  method GetDijkstraAsWritten(g: Graph, startName: string, endName: string) returns (r: Result<seq<Edge>>)
    requires Bounded(g)
    ensures PathResult(g, startName, endName, r, false)
  {
    ghost var res, order;
    r, res, order := GetDijkstraPath(g, startName, endName, false);
    if Lookup(g.vertices, startName).Ok? && Lookup(g.vertices, endName).Ok? {
      PathOutcome(g, Lookup(g.vertices, startName).value, res, order, Lookup(g.vertices, endName).value, false);
    }
  }

  /** `getDijkstra` taking, for each link, an edge whose weight accounts for
      the distances: a shortest walk from the start to the end. */
  method GetDijkstra(g: Graph, startName: string, endName: string) returns (r: Result<seq<Edge>>)
    requires Bounded(g)
    ensures PathResult(g, startName, endName, r, true)
  {
    ghost var res, order;
    r, res, order := GetDijkstraPath(g, startName, endName, true);
    if Lookup(g.vertices, startName).Ok? && Lookup(g.vertices, endName).Ok? {
      PathOutcome(g, Lookup(g.vertices, startName).value, res, order, Lookup(g.vertices, endName).value, true);
    }
  }

  /** The loop of `getDijkstraFinalMatrix`: one entry per key, keyed by name. */
  method CopyByName(dist: map<string, int>) returns (result: map<string, int>)
    ensures result == dist
  {
    result := map[];
    var keys := dist.Keys;
    while keys != {}
      invariant keys <= dist.Keys && result.Keys == dist.Keys - keys
      invariant forall v :: v in result ==> result[v] == dist[v]
      decreases |keys|
    {
      var v :| v in keys;
      result := result[v := dist[v]];
      keys := keys - {v};
    }
  }

  /** The final distances as a table: the sentinel exactly for the vertices
      no walk reaches, otherwise the weight of a walk from the start and at
      most the weight of any walk, so the least one. */
  ghost predicate DistanceTable(g: Graph, s: string, m: map<string, int>) {
    m.Keys == VertexSet(g) && s in m && m[s] == 0
    && (forall v :: v in m ==> (m[v] == MaxValue <==> !Connects(g.edges, s, v)))
    && (forall v :: v in m && m[v] != MaxValue ==>
          exists es, vs :: EdgeWalk(g.edges, es, vs) && vs[0] == s && vs[|vs| - 1] == v && TotalWeight(es) == m[v])
    && forall v, es, vs :: v in m && EdgeWalk(g.edges, es, vs) && vs[0] == s && vs[|vs| - 1] == v ==>
         m[v] <= TotalWeight(es)
  }

  lemma FinalTable(g: Graph, s: string, r: DijkstraResult, order: seq<string>)
    requires Final(g, s, r, order)
    ensures DistanceTable(g, s, r.dist)
  {
    forall v | v in r.dist
      ensures (r.dist[v] == MaxValue <==> !Connects(g.edges, s, v))
      ensures r.dist[v] != MaxValue ==>
                exists es, vs :: EdgeWalk(g.edges, es, vs) && vs[0] == s && vs[|vs| - 1] == v && TotalWeight(es) == r.dist[v]
    {
      DistanceMeaning(g, s, r, order, v);
    }
    forall v, es, vs | v in r.dist && EdgeWalk(g.edges, es, vs) && vs[0] == s && vs[|vs| - 1] == v
      ensures r.dist[v] <= TotalWeight(es)
    {
      WalkLowerBound(g, s, r, order, es, vs);
    }
  }

  /** `getDijkstraFinalMatrix`: the final distance of every vertex, by name. */
  method GetDijkstraFinalMatrix(g: Graph, startName: string) returns (r: Result<map<string, int>>)
    requires Bounded(g)
    ensures Lookup(g.vertices, startName).Err? ==> r == Err(Lookup(g.vertices, startName).error)
    ensures Lookup(g.vertices, startName).Ok? ==>
              r.Ok? && DistanceTable(g, Lookup(g.vertices, startName).value, r.value)
  {
    var computed;
    ghost var order;
    computed, order := ComputeDijkstra(g, startName);
    if computed.Err? {
      return Err(computed.error);
    }
    FinalTable(g, Lookup(g.vertices, startName).value, computed.value, order);
    var result := CopyByName(computed.value.dist);
    return Ok(result);
  }

  // ---------------------------------------------------------------------
  // Two parallel edges between the same vertices.

  /** `{"A": [{target: "B", distance: 5}, {target: "B", distance: 1}], "B": []}`. */
  function ParallelInput(): (d: Input)
    ensures ValidInput(d)
  {
    Input(["A", "B"], map["A" := [Neighbor("B", 5), Neighbor("B", 1)], "B" := []])
  }

  lemma ParallelEdges()
    ensures EdgesFrom(["A", "B"], ParallelInput().lists) == [Edge("A", "B", 5), Edge("A", "B", 1)]
  {
    var lists := ParallelInput().lists;
    assert ["A", "B"][..1] == ["A"];
    assert ["A"][..0] == [];
    assert EdgesOfKey("A", lists["A"]) == [Edge("A", "B", 5), Edge("A", "B", 1)];
  }

  lemma ParallelLookup()
    ensures Lookup(["A", "B"], "A") == Ok("A") && Lookup(["A", "B"], "B") == Ok("B")
  {
    assert EqualsIgnoreCase("A", "A") && EqualsIgnoreCase("B", "B");
    assert "A"[0] == 'A' && "B"[0] == 'B';
    assert FoldCase("A"[0]) != FoldCase("B"[0]);
  }

  lemma ParallelMaxWeight()
    ensures MaxWeight([Edge("A", "B", 5), Edge("A", "B", 1)]) == 5
  {
    var one := [Edge("A", "B", 5)];
    assert one[..0] == [];
    assert [Edge("A", "B", 5), Edge("A", "B", 1)][..1] == one;
  }

  method ParallelGraph() returns (g: Graph)
    ensures g.vertices == ["A", "B"] && g.edges == [Edge("A", "B", 5), Edge("A", "B", 1)]
    ensures Bounded(g)
    ensures Lookup(g.vertices, "A") == Ok("A") && Lookup(g.vertices, "B") == Ok("B")
  {
    g := FromMap(ParallelInput());
    ParallelEdges();
    ParallelLookup();
    ParallelBounded(g);
  }

  lemma ParallelBounded(g: Graph)
    requires g.vertices == ["A", "B"] && g.edges == [Edge("A", "B", 5), Edge("A", "B", 1)]
    ensures Bounded(g)
  {
    ParallelMaxWeight();
    assert g.vertices[0] == "A" && g.vertices[1] == "B";
    forall e | e in g.edges
      ensures 0 <= e.weight && e.source in g.vertices && e.target in g.vertices
    {
      assert e == g.edges[0] || e == g.edges[1];
    }
    assert |g.vertices| * MaxWeight(g.edges) == 10;
  }

  /** Whatever ties the queue breaks, the run from `A` on that graph reaches
      `B` at distance 1 through `A`. */
  lemma ParallelRun(g: Graph, res: DijkstraResult, order: seq<string>)
    requires g.vertices == ["A", "B"] && g.edges == [Edge("A", "B", 5), Edge("A", "B", 1)]
    requires Final(g, "A", res, order)
    ensures res.dist["A"] == 0 && res.dist["B"] == 1
    ensures "A" !in res.prev && "B" in res.prev && res.prev["B"] == "A"
  {
    assert "A" != "B" by { assert "A"[0] != "B"[0]; }
    TwoParallelRun(g, "A", "B", res, order);
  }

  /** The same for any two distinct names. */
  lemma TwoParallelRun(g: Graph, a: string, b: string, res: DijkstraResult, order: seq<string>)
    requires a != b && g.vertices == [a, b] && g.edges == [Edge(a, b, 5), Edge(a, b, 1)]
    requires Final(g, a, res, order)
    ensures res.dist[a] == 0 && res.dist[b] == 1
    ensures a !in res.prev && b in res.prev && res.prev[b] == a
  {
    TwoParallelReach(g, a, b, res, order);
    FinalPrev(g, a, res, order, b);
    var p := res.prev[b];
    assert p == a;
    var x :| x in g.edges && Joins(x, a, b) && res.dist[b] == res.dist[a] + x.weight;
  }

  /** What the final state says about one predecessor entry. */
  lemma FinalPrev(g: Graph, start: string, res: DijkstraResult, order: seq<string>, v: string)
    requires Final(g, start, res, order) && v in res.prev
    ensures v != start && v in res.dist && res.prev[v] in res.dist && res.prev[v] != v
    ensures PrevEdge(g.edges, res.dist, res.prev[v], v)
    ensures start !in res.prev
  {
    assert v in order && res.prev[v] in order && IndexOf(order, res.prev[v]) < IndexOf(order, v);
  }

  /** The edge of weight 1 bounds the distance of `b`, which is then
      reached and has a predecessor. */
  lemma TwoParallelReach(g: Graph, a: string, b: string, res: DijkstraResult, order: seq<string>)
    requires a != b && g.vertices == [a, b] && g.edges == [Edge(a, b, 5), Edge(a, b, 1)]
    requires Final(g, a, res, order)
    ensures a in res.dist && b in res.dist && res.dist[a] == 0 && res.dist[b] <= 1
    ensures b in res.prev
  {
    assert VertexSet(g) == {a, b};
    var e := Edge(a, b, 1);
    assert e in g.edges && Touches(e, a) && Other(e, a) == b;
  }

  /** The walk back from `B` in that run, with either choice of edge. */
  lemma ParallelSteps(g: Graph, res: DijkstraResult, order: seq<string>)
    requires g.vertices == ["A", "B"] && g.edges == [Edge("A", "B", 5), Edge("A", "B", 1)]
    requires Final(g, "A", res, order)
    ensures Reverse(Steps(g.edges, res.dist, res.prev, order, "B", false)) == [Edge("A", "B", 5)]
    ensures Reverse(Steps(g.edges, res.dist, res.prev, order, "B", true)) == [Edge("A", "B", 1)]
  {
    ParallelRun(g, res, order);
    ParallelPick(res.dist);
    ParallelChain(g.edges, res, order, false);
    ParallelChain(g.edges, res, order, true);
  }

  /** The first edge joining A and B is the heavy one; the first that also
      accounts for the distances is the light one. */
  lemma ParallelPick(dist: map<string, int>)
    requires "A" in dist && "B" in dist && dist["A"] == 0 && dist["B"] == 1
    ensures Pick([Edge("A", "B", 5), Edge("A", "B", 1)], dist, "A", "B", false) == Some(Edge("A", "B", 5))
    ensures Pick([Edge("A", "B", 5), Edge("A", "B", 1)], dist, "A", "B", true) == Some(Edge("A", "B", 1))
  {
    var es := [Edge("A", "B", 5), Edge("A", "B", 1)];
    assert Fits(es[0], dist, "A", "B", false);
    assert !Fits(es[0], dist, "A", "B", true);
    assert es[1..] == [Edge("A", "B", 1)];
    assert Fits(es[1], dist, "A", "B", true);
  }

  lemma ParallelChain(edges: seq<Edge>, res: DijkstraResult, order: seq<string>, tight: bool)
    requires PrevRanked(res.prev, order)
    requires "A" !in res.prev && "B" in res.prev && res.prev["B"] == "A"
    requires Pick(edges, res.dist, "A", "B", tight).Some?
    ensures var e := Pick(edges, res.dist, "A", "B", tight).value;
            Reverse(Steps(edges, res.dist, res.prev, order, "B", tight)) == [e]
  {
    var e := Pick(edges, res.dist, "A", "B", tight).value;
    assert Steps(edges, res.dist, res.prev, order, "A", tight) == [];
    assert Steps(edges, res.dist, res.prev, order, "B", tight) == [e];
    assert Reverse([e]) == [e];
  }


  /** As written, the walk back from `B` takes the first edge joining `A`
      and `B`, of weight 5, although `B` is at distance 1. */
  method ParallelEdgesAsWritten() returns (r: Result<seq<Edge>>)
    ensures r == Ok([Edge("A", "B", 5)])
  {
    var g := ParallelGraph();
    ghost var res, order;
    r, res, order := GetDijkstraPath(g, "A", "B", false);
    ParallelSteps(g, res, order);
  }

  /** With the corrected choice the same query returns the edge of weight 1. */
  method ParallelEdgesCorrected() returns (r: Result<seq<Edge>>)
    ensures r == Ok([Edge("A", "B", 1)])
  {
    var g := ParallelGraph();
    ghost var res, order;
    r, res, order := GetDijkstraPath(g, "A", "B", true);
    ParallelSteps(g, res, order);
  }
}
