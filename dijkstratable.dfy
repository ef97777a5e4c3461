/** The iteration table of Dijkstra's algorithm (`Dijkstra.getDijkstraTable`).
    Each polled, not yet visited vertex gives one row: the chosen vertex with
    its distance, then one cell per vertex.  The queue here admits duplicates
    and its keys go stale when a distance is lowered without re-queueing, so
    the vertex `poll` returns is left open: any queued vertex. */
module DijkstraTable {
  import opened Common
  import opened GraphModel
  import opened GraphUtils
  import opened Text
  import opened Dijkstra
  import opened LinkedMap

  // ---------------------------------------------------------------------
  // One row.

  /** `"(" + u + ", " + d + ")"`. */
  function Pair(u: string, d: int): string {
    "(" + u + ", " + IntToString(d) + ")"
  }

  /** The distance of `v` after relaxing, in order, every edge joining `u`
      and `v` from the distance `du` of `u`. */
  function RelaxVia(edges: seq<Edge>, u: string, v: string, du: int, d: int): int {
    if edges == [] then d
    else
      var m := RelaxVia(edges[..|edges| - 1], u, v, du, d);
      var e := edges[|edges| - 1];
      if Joins(e, u, v) && du + e.weight < m then du + e.weight else m
  }

  /** The relaxed distance is the least of the old one and of `du + w` over
      the joining edges. */
  lemma {:induction false} RelaxViaSpec(edges: seq<Edge>, u: string, v: string, du: int, d: int)
    ensures var r := RelaxVia(edges, u, v, du, d);
            r <= d && (forall e :: e in edges && Joins(e, u, v) ==> r <= du + e.weight)
            && (r == d || exists e :: e in edges && Joins(e, u, v) && r == du + e.weight)
  {
    if edges != [] {
      var init := edges[..|edges| - 1];
      RelaxViaSpec(init, u, v, du, d);
      assert edges == init + [edges[|edges| - 1]];
    }
  }

  /** The cell of `v` in the row of the chosen vertex `u`; `visited` already
      holds `u`. */
  function CellOf(edges: seq<Edge>, u: string, v: string, dist: map<string, int>, visited: set<string>): string
    requires u in dist && v in dist
  {
    if v == u then Pair(u, dist[u])
    else if v in visited then "-"
    else
      var d := RelaxVia(edges, u, v, dist[u], dist[v]);
      if d == MaxValue then "inf" else Pair(u, d)
  }

  /** The row of `u`: the "C" entry, then a cell per vertex, put in order. */
  function RowOf(vertices: seq<string>, edges: seq<Edge>, u: string, dist: map<string, int>, visited: set<string>): Row
    requires u in dist && forall v :: v in vertices ==> v in dist
  {
    if vertices == [] then [Entry("C", u + ", " + IntToString(dist[u]))]
    else
      var v := vertices[|vertices| - 1];
      Put(RowOf(vertices[..|vertices| - 1], edges, u, dist, visited), v, CellOf(edges, u, v, dist, visited))
  }

  /** The distances after the row of `u`: every unvisited vertex relaxed. */
  function AfterRow(vertices: seq<string>, edges: seq<Edge>, u: string, dist: map<string, int>, visited: set<string>)
    : map<string, int>
    requires u in dist
  {
    map v | v in dist :: if v != u && v !in visited && v in vertices then RelaxVia(edges, u, v, dist[u], dist[v]) else dist[v]
  }

  /** A row has the "C" key first, then exactly the vertices, each once; the
      cell of each vertex is `CellOf`, and "C" shows `u` and its distance
      unless a vertex is itself named "C". */
  lemma {:induction false} RowShape(vertices: seq<string>, edges: seq<Edge>, u: string, dist: map<string, int>,
                                    visited: set<string>)
    requires u in dist && forall v :: v in vertices ==> v in dist
    ensures var row := RowOf(vertices, edges, u, dist, visited);
            Keys(row)[0] == "C" && Distinct(Keys(row))
            && (forall q :: q in Keys(row) <==> q == "C" || q in vertices)
            && (forall v :: v in vertices ==> Get(row, v) == Some(CellOf(edges, u, v, dist, visited)))
            && ("C" !in vertices ==> Get(row, "C") == Some(u + ", " + IntToString(dist[u])))
  {
    if vertices != [] {
      var init := vertices[..|vertices| - 1];
      var v := vertices[|vertices| - 1];
      var prior := RowOf(init, edges, u, dist, visited);
      RowShape(init, edges, u, dist, visited);
      PutKeys(prior, v, CellOf(edges, u, v, dist, visited));
      forall q
        ensures Get(RowOf(vertices, edges, u, dist, visited), q) ==
                (if q == v then Some(CellOf(edges, u, v, dist, visited)) else Get(prior, q))
      {
        PutGet(prior, v, CellOf(edges, u, v, dist, visited), q);
      }
      assert forall q :: q in vertices <==> q in init || q == v;
    }
  }

  /** What the cell of an unvisited vertex other than `u` says: "inf" when no
      joining edge brought its distance below the sentinel, otherwise `u`
      with the least of its old distance and `dist[u] + w`. */
  lemma CellMeaning(edges: seq<Edge>, u: string, v: string, dist: map<string, int>, visited: set<string>)
    requires u in dist && v in dist && v != u && v !in visited
    ensures var d := RelaxVia(edges, u, v, dist[u], dist[v]);
            d <= dist[v] && (forall e :: e in edges && Joins(e, u, v) ==> d <= dist[u] + e.weight)
            && (d == dist[v] || exists e :: e in edges && Joins(e, u, v) && d == dist[u] + e.weight)
            && CellOf(edges, u, v, dist, visited) == (if d == MaxValue then "inf" else Pair(u, d))
  {
    RelaxViaSpec(edges, u, v, dist[u], dist[v]);
  }

  /** The inner edge loop for one unvisited vertex `v`: lower its distance
      through every edge joining it to `u`. */
  method RelaxCell(edges: seq<Edge>, u: string, v: string, dist0: map<string, int>)
    returns (dist: map<string, int>, oldDist: int)
    requires u in dist0 && v in dist0 && u != v
    ensures oldDist == RelaxVia(edges, u, v, dist0[u], dist0[v])
    ensures dist == dist0[v := oldDist]
  {
    dist := dist0;
    oldDist := dist[v];
    var i := 0;
    while i < |edges|
      invariant i <= |edges|
      invariant oldDist == RelaxVia(edges[..i], u, v, dist0[u], dist0[v])
      invariant dist == dist0[v := oldDist]
    {
      var e := edges[i];
      assert edges[..i + 1][..i] == edges[..i];
      if (e.source == u && e.target == v) || (e.target == u && e.source == v) {
        var alt := dist[u] + e.weight;
        if alt < oldDist {
          dist := dist[v := alt];
          oldDist := alt;
        }
      }
      i := i + 1;
    }
    assert edges[..i] == edges;
  }

  /** Adding the next vertex to the prefix of the row adds its cell and, for
      an unvisited vertex other than `u`, its relaxed distance. */
  lemma RowStep(vertices: seq<string>, edges: seq<Edge>, u: string, dist0: map<string, int>, visited: set<string>,
                k: nat)
    requires Distinct(vertices) && (forall v :: v in vertices ==> v in dist0) && u in dist0 && k < |vertices|
    ensures var v := vertices[k];
            RowOf(vertices[..k + 1], edges, u, dist0, visited)
              == Put(RowOf(vertices[..k], edges, u, dist0, visited), v, CellOf(edges, u, v, dist0, visited))
            && AfterRow(vertices[..k + 1], edges, u, dist0, visited)
               == (if v != u && v !in visited then
                     AfterRow(vertices[..k], edges, u, dist0, visited)[v := RelaxVia(edges, u, v, dist0[u], dist0[v])]
                   else AfterRow(vertices[..k], edges, u, dist0, visited))
            && AfterRow(vertices[..k], edges, u, dist0, visited)[u] == dist0[u]
            && AfterRow(vertices[..k], edges, u, dist0, visited)[v] == dist0[v]
  {
    var v := vertices[k];
    assert vertices[..k + 1][..k] == vertices[..k];
    assert v !in vertices[..k];
    AfterStep(vertices[..k + 1], edges, u, dist0, visited, v);
  }

  /** Relaxing one more vertex changes the distances at that vertex only. */
  lemma AfterStep(prefix: seq<string>, edges: seq<Edge>, u: string, dist0: map<string, int>, visited: set<string>,
                  v: string)
    requires |prefix| > 0 && v == prefix[|prefix| - 1] && v !in prefix[..|prefix| - 1]
    requires u in dist0 && v in dist0
    ensures var a := AfterRow(prefix, edges, u, dist0, visited);
            var b := AfterRow(prefix[..|prefix| - 1], edges, u, dist0, visited);
            a == (if v != u && v !in visited then b[v := RelaxVia(edges, u, v, dist0[u], dist0[v])] else b)
            && b[u] == dist0[u] && b[v] == dist0[v]
  {
    var init := prefix[..|prefix| - 1];
    var a := AfterRow(prefix, edges, u, dist0, visited);
    var b := AfterRow(init, edges, u, dist0, visited);
    var c := if v != u && v !in visited then b[v := RelaxVia(edges, u, v, dist0[u], dist0[v])] else b;
    assert forall x :: x in prefix <==> x in init || x == v;
    assert a.Keys == c.Keys;
    forall x | x in a
      ensures a[x] == c[x]
    {
    }
  }

  lemma AfterNone(vertices: seq<string>, edges: seq<Edge>, u: string, dist0: map<string, int>, visited: set<string>)
    requires u in dist0
    ensures RowOf(vertices[..0], edges, u, dist0, visited) == [Entry("C", u + ", " + IntToString(dist0[u]))]
    ensures AfterRow(vertices[..0], edges, u, dist0, visited) == dist0
  {
    assert vertices[..0] == [];
  }

  /** The row and the distances once the first `k` vertices are done. */
  predicate RowDone(vertices: seq<string>, edges: seq<Edge>, u: string, dist0: map<string, int>, visited: set<string>,
                    k: nat, row: Row, dist: map<string, int>)
  {
    k <= |vertices| && u in dist0 && (forall v :: v in vertices ==> v in dist0)
    && row == RowOf(vertices[..k], edges, u, dist0, visited)
    && dist == AfterRow(vertices[..k], edges, u, dist0, visited)
  }

  /** The cell of the k-th vertex, and the distances once it is relaxed. */
  method RowCell(vertices: seq<string>, edges: seq<Edge>, u: string, dist0: map<string, int>, visited: set<string>,
                 k: nat, row: Row, dist: map<string, int>) returns (row': Row, dist': map<string, int>)
    requires Distinct(vertices) && (forall v :: v in vertices ==> v in dist0) && u in visited && k < |vertices|
    requires RowDone(vertices, edges, u, dist0, visited, k, row, dist)
    ensures RowDone(vertices, edges, u, dist0, visited, k + 1, row', dist')
  {
    var v := vertices[k];
    RowStep(vertices, edges, u, dist0, visited, k);
    var cell;
    dist' := dist;
    if v == u {
      cell := Pair(u, dist[u]);
    } else if v in visited {
      cell := "-";
    } else {
      var oldDist;
      dist', oldDist := RelaxCell(edges, u, v, dist);
      cell := if oldDist == MaxValue then "inf" else Pair(u, oldDist);
    }
    row' := Put(row, v, cell);
  }

  /** The vertex loop of one row. */
  method BuildRow(vertices: seq<string>, edges: seq<Edge>, u: string, dist0: map<string, int>, visited: set<string>)
    returns (row: Row, dist: map<string, int>)
    requires Distinct(vertices) && (forall v :: v in vertices ==> v in dist0) && u in dist0 && u in visited
    ensures row == RowOf(vertices, edges, u, dist0, visited)
    ensures dist == AfterRow(vertices, edges, u, dist0, visited)
  {
    row := [Entry("C", u + ", " + IntToString(dist0[u]))];
    dist := dist0;
    AfterNone(vertices, edges, u, dist0, visited);
    var k := 0;
    while k < |vertices|
      invariant RowDone(vertices, edges, u, dist0, visited, k, row, dist)
    {
      row, dist := RowCell(vertices, edges, u, dist0, visited, k, row, dist);
      k := k + 1;
    }
    assert vertices[..k] == vertices;
  }

  // ---------------------------------------------------------------------
  // The queue and the table.

  function Visited(chosen: seq<string>): set<string> {
    set x | x in chosen
  }

  /** What the edge loop after a row queues for one edge: its target when it
      leaves `u`, else its source when it enters `u`, unless that end is
      visited. */
  function PushOne(e: Edge, u: string, visited: set<string>): multiset<string> {
    if e.source == u && e.target !in visited then multiset{e.target}
    else if e.target == u && e.source !in visited then multiset{e.source}
    else multiset{}
  }

  /** What the edge loop queues, in edge order. */
  function Pushed(edges: seq<Edge>, u: string, visited: set<string>): multiset<string> {
    if edges == [] then multiset{}
    else Pushed(edges[..|edges| - 1], u, visited) + PushOne(edges[|edges| - 1], u, visited)
  }

  /** With `u` visited, the queued vertices are exactly its unvisited
      neighbours. */
  lemma {:induction false} PushedSpec(edges: seq<Edge>, u: string, visited: set<string>, x: string)
    requires u in visited
    ensures x in Pushed(edges, u, visited) <==>
            x !in visited && exists e :: e in edges && Touches(e, u) && Other(e, u) == x
  {
    if edges != [] {
      var init := edges[..|edges| - 1];
      var e := edges[|edges| - 1];
      PushedSpec(init, u, visited, x);
      assert edges == init + [e];
      assert x in Pushed(edges, u, visited) <==>
             x in Pushed(init, u, visited) || (x !in visited && Touches(e, u) && Other(e, u) == x);
      if x !in visited && exists f :: f in edges && Touches(f, u) && Other(f, u) == x {
        var f :| f in edges && Touches(f, u) && Other(f, u) == x;
        if f != e {
          assert f in init;
        }
      }
    }
  }

  lemma PushedNext(edges: seq<Edge>, u: string, visited: set<string>, pq0: multiset<string>, i: nat)
    requires i < |edges|
    ensures pq0 + Pushed(edges[..i + 1], u, visited) == (pq0 + Pushed(edges[..i], u, visited)) + PushOne(edges[i], u, visited)
  {
    assert edges[..i + 1][..i] == edges[..i];
  }

  /** The edge loop after a row. */
  method PushNeighbours(edges: seq<Edge>, u: string, visited: set<string>, pq0: multiset<string>)
    returns (pq: multiset<string>)
    ensures pq == pq0 + Pushed(edges, u, visited)
  {
    pq := pq0;
    var i := 0;
    while i < |edges|
      invariant i <= |edges|
      invariant pq == pq0 + Pushed(edges[..i], u, visited)
    {
      var e := edges[i];
      PushedNext(edges, u, visited, pq0, i);
      if e.source == u && e.target !in visited {
        pq := pq + multiset{e.target};
      } else if e.target == u && e.source !in visited {
        pq := pq + multiset{e.source};
      }
      i := i + 1;
    }
    assert edges[..i] == edges;
  }

  /** The distances before the first row. */
  function Initial(g: Graph, start: string): map<string, int> {
    map v | v in VertexSet(g) :: if v == start then 0 else MaxValue
  }

  /** Row `i` is the row of `chosen[i]` on the distances `dists[i]`, which
      that row turns into `dists[i + 1]`. */
  ghost predicate RowAt(g: Graph, table: seq<Row>, chosen: seq<string>, dists: seq<map<string, int>>, i: nat)
    requires i < |chosen| && |table| == |chosen| && |dists| == |chosen| + 1
  {
    dists[i].Keys == VertexSet(g) && chosen[i] in dists[i]
    && dists[i + 1] == AfterRow(g.vertices, g.edges, chosen[i], dists[i], Visited(chosen[..i + 1]))
    && table[i] == RowOf(g.vertices, g.edges, chosen[i], dists[i], Visited(chosen[..i + 1]))
  }

  ghost predicate History(g: Graph, start: string, table: seq<Row>, chosen: seq<string>, dists: seq<map<string, int>>) {
    |dists| == |chosen| + 1 && |table| == |chosen| && dists[0] == Initial(g, start)
    && forall i :: 0 <= i < |chosen| ==> RowAt(g, table, chosen, dists, i)
  }

  /** `x` is the other end of an edge at one of the first `k` chosen vertices. */
  ghost predicate Linked(g: Graph, chosen: seq<string>, k: nat, x: string)
    requires k <= |chosen|
  {
    exists j, e :: 0 <= j < k && e in g.edges && Touches(e, chosen[j]) && Other(e, chosen[j]) == x
  }

  /** The queue: it starts as the start alone; it holds only the start and
      neighbours of chosen vertices; and every neighbour of a chosen vertex is
      chosen or still queued. */
  ghost predicate QueueState(g: Graph, start: string, chosen: seq<string>, pq: multiset<string>) {
    (chosen == [] ==> pq == multiset{start})
    && (forall x :: x in pq ==> x in VertexSet(g) && (x == start || Linked(g, chosen, |chosen|, x)))
    && (forall i, e :: 0 <= i < |chosen| && e in g.edges && Touches(e, chosen[i]) ==>
          Other(e, chosen[i]) in chosen || Other(e, chosen[i]) in pq)
  }

  /** The start is chosen first, each later vertex is a neighbour of an
      earlier one, and none twice. */
  ghost predicate ChosenOrder(g: Graph, start: string, chosen: seq<string>) {
    Distinct(chosen) && (forall x :: x in chosen ==> x in VertexSet(g))
    && (chosen != [] ==> chosen[0] == start)
    && forall k :: 0 < k < |chosen| ==> Linked(g, chosen, k, chosen[k])
  }

  ghost predicate TableState(g: Graph, start: string, dist: map<string, int>, visited: set<string>,
                             pq: multiset<string>, table: seq<Row>, chosen: seq<string>, dists: seq<map<string, int>>) {
    History(g, start, table, chosen, dists) && dist == dists[|chosen|] && dist.Keys == VertexSet(g)
    && visited == Visited(chosen) && ChosenOrder(g, start, chosen) && QueueState(g, start, chosen, pq)
  }

  lemma TableInit(g: Graph, start: string, dist: map<string, int>)
    requires start in g.vertices
    requires dist.Keys == VertexSet(g) && dist[start] == 0
    requires forall v :: v in dist && v != start ==> dist[v] == MaxValue
    ensures TableState(g, start, dist, {}, multiset{start}, [], [], [dist])
  {
    assert dist == Initial(g, start);
  }

  /** Polling a visited vertex only shrinks the queue. */
  lemma SkipStep(g: Graph, start: string, dist: map<string, int>, visited: set<string>, pq: multiset<string>,
                 table: seq<Row>, chosen: seq<string>, dists: seq<map<string, int>>, u: string)
    requires TableState(g, start, dist, visited, pq, table, chosen, dists)
    requires u in pq && u in visited
    ensures TableState(g, start, dist, visited, pq - multiset{u}, table, chosen, dists)
  {
    var pq2 := pq - multiset{u};
    forall i, e | 0 <= i < |chosen| && e in g.edges && Touches(e, chosen[i])
      ensures Other(e, chosen[i]) in chosen || Other(e, chosen[i]) in pq2
    {
      var x := Other(e, chosen[i]);
      if x != u && x in pq {
        assert x in pq2;
      }
    }
  }

  /** The order facts after choosing a new vertex. */
  lemma ChooseOrder(g: Graph, start: string, chosen: seq<string>, pq: multiset<string>, u: string)
    requires ChosenOrder(g, start, chosen) && QueueState(g, start, chosen, pq)
    requires u in pq && u !in chosen
    ensures ChosenOrder(g, start, chosen + [u])
  {
    var c2 := chosen + [u];
    forall i, j | 0 <= i < j < |c2|
      ensures c2[i] != c2[j]
    {
      if j < |chosen| {
        assert c2[i] == chosen[i] && c2[j] == chosen[j];
      } else {
        assert c2[i] == chosen[i];
      }
    }
    forall k | 0 < k < |c2|
      ensures Linked(g, c2, k, c2[k])
    {
      if k < |chosen| {
        assert Linked(g, chosen, k, chosen[k]);
        var j, e :| 0 <= j < k && e in g.edges && Touches(e, chosen[j]) && Other(e, chosen[j]) == chosen[k];
        assert c2[j] == chosen[j];
      } else {
        assert chosen != [] && u != start;
        var j, e :| 0 <= j < |chosen| && e in g.edges && Touches(e, chosen[j]) && Other(e, chosen[j]) == u;
        assert c2[j] == chosen[j];
      }
    }
  }

  /** The queue facts after the row of a new vertex and its pushes. */
  lemma ChooseQueue(g: Graph, start: string, chosen: seq<string>, pq: multiset<string>, u: string)
    requires EndpointsIn(g) && QueueState(g, start, chosen, pq) && u in pq && u !in chosen
    ensures QueueState(g, start, chosen + [u], (pq - multiset{u}) + Pushed(g.edges, u, Visited(chosen + [u])))
  {
    var c2 := chosen + [u];
    var vis := Visited(c2);
    var pq2 := (pq - multiset{u}) + Pushed(g.edges, u, vis);
    forall x | x in pq2
      ensures x in VertexSet(g) && (x == start || Linked(g, c2, |c2|, x))
    {
      PushedSpec(g.edges, u, vis, x);
      if x in Pushed(g.edges, u, vis) {
        var e :| e in g.edges && Touches(e, u) && Other(e, u) == x;
        assert c2[|chosen|] == u;
      } else {
        assert x in pq;
        if x != start {
          var j, e :| 0 <= j < |chosen| && e in g.edges && Touches(e, chosen[j]) && Other(e, chosen[j]) == x;
          assert c2[j] == chosen[j];
        }
      }
    }
    forall i, e | 0 <= i < |c2| && e in g.edges && Touches(e, c2[i])
      ensures Other(e, c2[i]) in c2 || Other(e, c2[i]) in pq2
    {
      var x := Other(e, c2[i]);
      PushedSpec(g.edges, u, vis, x);
      if i < |chosen| {
        assert c2[i] == chosen[i];
        if x !in c2 {
          assert x in pq && x != u;
        }
      }
    }
  }

  /** The history after the row of a new vertex. */
  lemma ChooseHistory(g: Graph, start: string, table: seq<Row>, chosen: seq<string>, dists: seq<map<string, int>>,
                      u: string, row: Row, dist2: map<string, int>)
    requires History(g, start, table, chosen, dists)
    requires dists[|chosen|].Keys == VertexSet(g) && u in VertexSet(g)
    requires dist2 == AfterRow(g.vertices, g.edges, u, dists[|chosen|], Visited(chosen + [u]))
    requires row == RowOf(g.vertices, g.edges, u, dists[|chosen|], Visited(chosen + [u]))
    ensures History(g, start, table + [row], chosen + [u], dists + [dist2])
  {
    var c2, t2, d2 := chosen + [u], table + [row], dists + [dist2];
    forall i | 0 <= i < |c2|
      ensures RowAt(g, t2, c2, d2, i)
    {
      if i < |chosen| {
        assert RowAt(g, table, chosen, dists, i);
        assert c2[..i + 1] == chosen[..i + 1];
        assert c2[i] == chosen[i] && t2[i] == table[i] && d2[i] == dists[i] && d2[i + 1] == dists[i + 1];
      } else {
        assert c2[..i + 1] == c2;
      }
    }
  }

  /** The rows and distances after the row of `u`. */
  lemma StepHistory(g: Graph, start: string, dist0: map<string, int>, visited: set<string>,
                    table: seq<Row>, chosen: seq<string>, dists: seq<map<string, int>>,
                    u: string, row: Row, dist: map<string, int>)
    requires History(g, start, table, chosen, dists) && dist0 == dists[|chosen|] && dist0.Keys == VertexSet(g)
    requires visited == Visited(chosen) && u in VertexSet(g)
    requires row == RowOf(g.vertices, g.edges, u, dist0, visited + {u})
    requires dist == AfterRow(g.vertices, g.edges, u, dist0, visited + {u})
    ensures History(g, start, table + [row], chosen + [u], dists + [dist])
    ensures dist == (dists + [dist])[|chosen + [u]|] && dist.Keys == VertexSet(g)
    ensures visited + {u} == Visited(chosen + [u])
  {
    assert Visited(chosen + [u]) == visited + {u};
    ChooseHistory(g, start, table, chosen, dists, u, row, dist);
  }

  /** The choices and the queue after the row of `u` and its pushes. */
  lemma StepQueue(g: Graph, start: string, visited: set<string>, pq0: multiset<string>, chosen: seq<string>,
                  u: string, pq: multiset<string>)
    requires EndpointsIn(g) && visited == Visited(chosen)
    requires ChosenOrder(g, start, chosen) && QueueState(g, start, chosen, pq0)
    requires u in pq0 && u !in visited
    requires pq == (pq0 - multiset{u}) + Pushed(g.edges, u, visited + {u})
    ensures ChosenOrder(g, start, chosen + [u]) && QueueState(g, start, chosen + [u], pq)
  {
    assert Visited(chosen + [u]) == visited + {u};
    ChooseOrder(g, start, chosen, pq0, u);
    ChooseQueue(g, start, chosen, pq0, u);
  }

  /** One row: the invariant holds again with `u` chosen. */
  lemma ChooseStep(g: Graph, start: string, dist0: map<string, int>, visited: set<string>, pq0: multiset<string>,
                   table: seq<Row>, chosen: seq<string>, dists: seq<map<string, int>>,
                   u: string, row: Row, dist: map<string, int>, pq: multiset<string>)
    requires EndpointsIn(g) && TableState(g, start, dist0, visited, pq0, table, chosen, dists)
    requires u in pq0 && u !in visited
    requires row == RowOf(g.vertices, g.edges, u, dist0, visited + {u})
    requires dist == AfterRow(g.vertices, g.edges, u, dist0, visited + {u})
    requires pq == (pq0 - multiset{u}) + Pushed(g.edges, u, visited + {u})
    ensures TableState(g, start, dist, visited + {u}, pq, table + [row], chosen + [u], dists + [dist])
  {
    StepHistory(g, start, dist0, visited, table, chosen, dists, u, row, dist);
    StepQueue(g, start, visited, pq0, chosen, u, pq);
  }

  lemma Shrinks(all: set<string>, visited: set<string>, u: string)
    requires u in all && u !in visited
    ensures |all - (visited + {u})| < |all - visited|
  {
    assert all - visited == (all - (visited + {u})) + {u};
  }

  lemma {:induction false} ChosenReach(g: Graph, start: string, chosen: seq<string>, k: nat)
    requires ChosenOrder(g, start, chosen) && k < |chosen|
    ensures Connects(g.edges, start, chosen[k])
  {
    if k == 0 {
      assert EdgeWalk(g.edges, [], [start]);
    } else {
      assert Linked(g, chosen, k, chosen[k]);
      var j, e :| 0 <= j < k && e in g.edges && Touches(e, chosen[j]) && Other(e, chosen[j]) == chosen[k];
      ChosenReach(g, start, chosen, j);
      var es, vs :| EdgeWalk(g.edges, es, vs) && vs[0] == start && vs[|vs| - 1] == chosen[j];
      var es2 := es + [e];
      var vs2 := vs + [chosen[k]];
      assert Joins(e, chosen[j], chosen[k]);
      assert EdgeWalk(g.edges, es2, vs2) by {
        forall i | 0 <= i < |es2|
          ensures es2[i] in g.edges && Joins(es2[i], vs2[i], vs2[i + 1])
        {
          if i < |es| {
            assert es2[i] == es[i] && vs2[i] == vs[i] && vs2[i + 1] == vs[i + 1];
          }
        }
      }
      assert vs2[0] == start;
    }
  }

  /** With the queue empty, the chosen vertices are exactly those a walk
      connects to the start. */
  lemma ChosenConnected(g: Graph, start: string, chosen: seq<string>, x: string)
    requires ChosenOrder(g, start, chosen) && QueueState(g, start, chosen, multiset{}) && chosen != []
    ensures x in chosen <==> Connects(g.edges, start, x)
  {
    if x in chosen {
      ChosenReach(g, start, chosen, IndexOf(chosen, x));
    }
    if Connects(g.edges, start, x) {
      var es, vs :| EdgeWalk(g.edges, es, vs) && vs[0] == start && vs[|vs| - 1] == x;
      var i := 0;
      while i < |es|
        invariant i <= |es| && vs[i] in chosen
      {
        var e := es[i];
        assert Joins(e, vs[i], vs[i + 1]);
        assert Touches(e, vs[i]) && Other(e, vs[i]) == vs[i + 1];
        var k := IndexOf(chosen, vs[i]);
        assert Touches(e, chosen[k]);
        i := i + 1;
      }
    }
  }

  /** `getDijkstraTable`: a row for each polled vertex not yet visited, then
      its unvisited neighbours queued, until the queue is empty.  The rows
      follow the choices `chosen`, which are exactly the vertices connected
      to the start, each once, the start first. */
  method GetDijkstraTable(g: Graph, startName: string)
    returns (r: Result<seq<Row>>, ghost chosen: seq<string>, ghost dists: seq<map<string, int>>)
    requires Distinct(g.vertices) && EndpointsIn(g)
    ensures Lookup(g.vertices, startName).Err? ==> r == Err(Lookup(g.vertices, startName).error)
    ensures Lookup(g.vertices, startName).Ok? ==>
              var s := Lookup(g.vertices, startName).value;
              r.Ok? && History(g, s, r.value, chosen, dists) && Distinct(chosen) && chosen != [] && chosen[0] == s
              && (forall x :: x in chosen <==> x in g.vertices && Connects(g.edges, s, x))
              && |r.value| <= |g.vertices|
  {
    chosen, dists := [], [];
    var found := SearchVertex(g.vertices, startName);
    if found.Err? {
      return Err(found.error), chosen, dists;
    }
    var start := found.value;
    var dist := InitDist(g.vertices, start);
    var visited: set<string> := {};
    var pq: multiset<string> := multiset{start};
    var table: seq<Row> := [];
    dists := [dist];
    TableInit(g, start, dist);
    while pq != multiset{}
      invariant TableState(g, start, dist, visited, pq, table, chosen, dists)
      decreases |VertexSet(g) - visited|, |pq|
    {
      var u :| u in pq;
      ghost var pq0, dist0 := pq, dist;
      pq := pq - multiset{u};
      if u in visited {
        SkipStep(g, start, dist, visited, pq0, table, chosen, dists, u);
        continue;
      }
      var row;
      row, dist := BuildRow(g.vertices, g.edges, u, dist, visited + {u});
      pq := PushNeighbours(g.edges, u, visited + {u}, pq);
      ChooseStep(g, start, dist0, visited, pq0, table, chosen, dists, u, row, dist, pq);
      Shrinks(VertexSet(g), visited, u);
      visited := visited + {u};
      table := table + [row];
      chosen := chosen + [u];
      dists := dists + [dist];
    }
    assert chosen != [];
    forall x
      ensures x in chosen <==> x in g.vertices && Connects(g.edges, start, x)
    {
      ChosenConnected(g, start, chosen, x);
    }
    DistinctWithin(chosen, g.vertices);
    return Ok(table), chosen, dists;
  }
}
