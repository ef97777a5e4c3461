/** Breadth-first traversal tree (`BFS.getBFS`): edges oriented from the
    dequeued vertex to each newly discovered neighbour, over the adjacency
    lists in either edge orientation. */
module BFS {
  import opened Common
  import opened GraphModel
  import opened GraphUtils
  import opened Traversal

  /** Edge sources appear in non-decreasing discovery (that is, dequeue)
      order. */
  predicate FifoSources(start: string, es: seq<Edge>) {
    forall i, j :: 0 <= i < j < |es| && es[i].source in Order(start, es)
                   && es[j].source in Order(start, es) ==>
      IndexOf(Order(start, es), es[i].source) <= IndexOf(Order(start, es), es[j].source)
  }

  /** Every vertex hangs under the earliest discovered vertex with an entry
      leading to it: no vertex discovered before an edge's source steps to
      its target.  This is what makes the tree grow layer by layer. */
  predicate EarliestParent(adj: map<string, seq<Edge>>, start: string, es: seq<Edge>) {
    forall i, k :: 0 <= i < |es| && es[i].source in Order(start, es)
                   && 0 <= k < IndexOf(Order(start, es), es[i].source) ==>
      !Step(adj, Order(start, es)[k], es[i].target)
  }

  /** What a finished breadth-first traversal from `start` returns: a tree
      over exactly the reachable vertices whose sources are taken in
      discovery order, each vertex under its earliest discovered neighbour,
      the children of a vertex in the order of its list, each over the
      first entry leading to it. */
  ghost predicate BfsTree(adj: map<string, seq<Edge>>, start: string, es: seq<Edge>) {
    TreeEdges(adj, start, es) && Distinct(Order(start, es))
    && ClosedUnder(adj, Order(start, es)) && FifoSources(start, es)
    && (forall v :: v in Order(start, es) <==> Reachable(adj, start, v))
    && EarliestParent(adj, start, es) && ListOrdered(adj, es)
    && (forall i :: 0 <= i < |es| ==> FirstCopy(adj, es[i]))
  }

  /** The layering facts the loops keep about the edges so far: the first
      entries are copied, children follow list order, and no vertex
      discovered before position `srcIdx[i]` steps to the target of edge
      `i`. */
  ghost predicate Layered(adj: map<string, seq<Edge>>, start: string, result: seq<Edge>, srcIdx: seq<nat>) {
    |srcIdx| == |result|
    && (forall i :: 0 <= i < |result| ==> FirstCopy(adj, result[i]))
    && ListOrdered(adj, result)
    && NoEarlierStep(adj, Order(start, result), result, srcIdx)
  }

  /** No vertex before position `srcIdx[i]` of `o` steps to the target of
      edge `i`. */
  ghost predicate NoEarlierStep(adj: map<string, seq<Edge>>, o: seq<string>, es: seq<Edge>, srcIdx: seq<nat>) {
    forall i, k :: 0 <= i < |es| && i < |srcIdx| && 0 <= k < srcIdx[i] && k < |o| ==>
      !Step(adj, o[k], es[i].target)
  }

  /** The state the queue loop keeps: `visited` is the set of discovered
      vertices, each discovered once, and `srcIdx[i]` is the discovery
      position, before `h`, of the source of edge `i`. */
  ghost predicate Discovered(adj: map<string, seq<Edge>>, start: string, visited: set<string>,
                             result: seq<Edge>, srcIdx: seq<nat>, h: nat) {
    var o := Order(start, result);
    Distinct(o) && h <= |o|
    && (forall x :: x in visited <==> x in o)
    && TreeEdges(adj, start, result)
    && |srcIdx| == |result|
    && (forall i :: 0 <= i < |result| ==> srcIdx[i] < h && o[srcIdx[i]] == result[i].source)
    && (forall i, j :: 0 <= i < j < |result| ==> srcIdx[i] <= srcIdx[j])
    && (forall x :: x in o ==> x == start || x in adj)
    && (start !in adj ==> result == [])
  }

  /** Every neighbour of the first `h` discovered vertices is discovered. */
  ghost predicate ExpandedUpTo(adj: map<string, seq<Edge>>, visited: set<string>, o: seq<string>, h: nat) {
    forall k, e :: 0 <= k < h && k < |o| && e in ListOf(adj, o[k]) ==> Other(e, o[k]) in visited
  }

  /** The state of the inner loop after the first `j` incident edges of
      `current`, the vertex at discovery position `head - 1`. */
  ghost predicate ExpandState(adj: map<string, seq<Edge>>, start: string, current: string,
                              edges: seq<Edge>, j: nat, visited0: set<string>, result0: seq<Edge>,
                              visited: set<string>, queue: seq<string>, result: seq<Edge>,
                              srcIdx: seq<nat>, head: nat) {
    j <= |edges| && 0 < head
    && Discovered(adj, start, visited, result, srcIdx, head)
    && current == Order(start, result)[head - 1]
    && ExpandedUpTo(adj, visited, Order(start, result), head - 1)
    && (forall k :: 0 <= k < j ==> Other(edges[k], current) in visited)
    && |result0| <= |result| && result[..|result0|] == result0
    && queue == Order(start, result)[head..]
    && visited0 <= visited <= visited0 + adj.Keys
    && (visited == visited0 ==> result == result0)
    && Layered(adj, start, result, srcIdx)
    && (forall i :: 0 <= i < |result| && result[i].source == current ==>
          FirstLead(edges, current, result[i].target) < j)
  }

  /** Discovering a new neighbour over `edges[j]` keeps the inner loop's
      state. */
  lemma ExpandNew(adj: map<string, seq<Edge>>, start: string, current: string,
                  edges: seq<Edge>, j: nat, visited0: set<string>, result0: seq<Edge>,
                  visited: set<string>, queue: seq<string>, result: seq<Edge>,
                  srcIdx: seq<nat>, head: nat)
    requires AdjClosed(adj) && current in adj && edges == adj[current] && j < |edges|
    requires ExpandState(adj, start, current, edges, j, visited0, result0, visited, queue, result, srcIdx, head)
    requires Other(edges[j], current) !in visited
    ensures var n := Other(edges[j], current);
            ExpandState(adj, start, current, edges, j + 1, visited0, result0, visited + {n},
                        queue + [n], result + [Edge(current, n, edges[j].weight)], srcIdx + [head - 1], head)
  {
    var edge := edges[j];
    var n := Other(edge, current);
    var t := Edge(current, n, edge.weight);
    var o := Order(start, result);
    assert edge in adj[current];
    DiscoverOne(adj, start, visited, result, srcIdx, head, current, edge);
    OrderSnoc(start, result, result0, t, head);
    ExpandedGrow(adj, visited, o, visited + {n}, o + [n], head - 1);
    ScannedSnoc(edges, j, current, visited, visited + {n});
    LayeredNew(adj, start, current, edges, j, visited, result, srcIdx, head);
    assert n in adj;
  }

  /** A neighbour first reached over `edges[j]` is reached over the first
      entry leading to it, after the children found earlier in the list,
      and no vertex expanded before `current` steps to it. */
  lemma LayeredNew(adj: map<string, seq<Edge>>, start: string, current: string,
                   edges: seq<Edge>, j: nat, visited: set<string>, result: seq<Edge>,
                   srcIdx: seq<nat>, head: nat)
    requires Discovered(adj, start, visited, result, srcIdx, head) && 0 < head
    requires current == Order(start, result)[head - 1] && edges == ListOf(adj, current) && j < |edges|
    requires ExpandedUpTo(adj, visited, Order(start, result), head - 1)
    requires forall k :: 0 <= k < j ==> Other(edges[k], current) in visited
    requires Other(edges[j], current) !in visited
    requires Layered(adj, start, result, srcIdx)
    requires forall i :: 0 <= i < |result| && result[i].source == current ==>
               FirstLead(edges, current, result[i].target) < j
    ensures var t := Edge(current, Other(edges[j], current), edges[j].weight);
            Layered(adj, start, result + [t], srcIdx + [head - 1])
            && forall i :: 0 <= i < |result + [t]| && (result + [t])[i].source == current ==>
                 FirstLead(edges, current, (result + [t])[i].target) < j + 1
  {
    var n := Other(edges[j], current);
    var t := Edge(current, n, edges[j].weight);
    var o := Order(start, result);
    assert Order(start, result + [t]) == o + [n];
    FirstLeadAt(edges, current, j);
    CopiesNew(adj, result, t);
    OrderedNew(adj, current, edges, j, result, t);
    EarliestNew(adj, o, result, srcIdx, head, visited, t);
  }

  lemma CopiesNew(adj: map<string, seq<Edge>>, result: seq<Edge>, t: Edge)
    requires (forall i :: 0 <= i < |result| ==> FirstCopy(adj, result[i])) && FirstCopy(adj, t)
    ensures forall i :: 0 <= i < |result + [t]| ==> FirstCopy(adj, (result + [t])[i])
  {
    forall i | 0 <= i < |result + [t]|
      ensures FirstCopy(adj, (result + [t])[i])
    {
      if i < |result| {
        assert (result + [t])[i] == result[i];
      }
    }
  }

  /** A child found at list position `j` comes after the children of the
      same source found before it. */
  lemma OrderedNew(adj: map<string, seq<Edge>>, current: string, edges: seq<Edge>, j: nat,
                   result: seq<Edge>, t: Edge)
    requires edges == ListOf(adj, current) && t.source == current && FirstLead(edges, current, t.target) == j
    requires ListOrdered(adj, result)
    requires forall i :: 0 <= i < |result| && result[i].source == current ==>
               FirstLead(edges, current, result[i].target) < j
    ensures ListOrdered(adj, result + [t])
    ensures forall i :: 0 <= i < |result + [t]| && (result + [t])[i].source == current ==>
              FirstLead(edges, current, (result + [t])[i].target) < j + 1
  {
    var r' := result + [t];
    forall i | 0 <= i < |r'|
      ensures r'[i] == if i < |result| then result[i] else t
    {
    }
  }

  /** A target that no expanded vertex reached has no step from any of
      them. */
  lemma EarliestNew(adj: map<string, seq<Edge>>, o: seq<string>, result: seq<Edge>, srcIdx: seq<nat>,
                    head: nat, visited: set<string>, t: Edge)
    requires 0 < head <= |o| && |srcIdx| == |result| && NoEarlierStep(adj, o, result, srcIdx)
    requires forall i :: 0 <= i < |srcIdx| ==> srcIdx[i] < head
    requires ExpandedUpTo(adj, visited, o, head - 1) && t.target !in visited
    ensures NoEarlierStep(adj, o + [t.target], result + [t], srcIdx + [head - 1])
  {
    var n := t.target;
    var r' := result + [t];
    forall i, k | 0 <= i < |r'| && i < |srcIdx + [head - 1]| && 0 <= k < (srcIdx + [head - 1])[i] && k < |o + [n]|
      ensures !Step(adj, (o + [n])[k], r'[i].target)
    {
      assert (o + [n])[k] == o[k];
      if i < |result| {
        assert r'[i] == result[i] && (srcIdx + [head - 1])[i] == srcIdx[i];
      } else {
        assert (srcIdx + [head - 1])[i] == head - 1;
        assert forall e :: e in ListOf(adj, o[k]) ==> Other(e, o[k]) in visited;
      }
    }
  }

  lemma ScannedSnoc(edges: seq<Edge>, j: nat, current: string, visited: set<string>, visited': set<string>)
    requires j < |edges|
    requires forall k :: 0 <= k < j ==> Other(edges[k], current) in visited
    requires visited <= visited' && Other(edges[j], current) in visited'
    ensures forall k :: 0 <= k < j + 1 ==> Other(edges[k], current) in visited'
  {
  }

  /** Appending a tree edge appends its target to the discovery order. */
  lemma OrderSnoc(start: string, result: seq<Edge>, result0: seq<Edge>, t: Edge, head: nat)
    requires |result0| <= |result| && result[..|result0|] == result0
    requires 0 < head <= |result| + 1
    ensures Order(start, result + [t]) == Order(start, result) + [t.target]
    ensures Order(start, result + [t])[head..] == Order(start, result)[head..] + [t.target]
    ensures (result + [t])[..|result0|] == result0
    ensures Order(start, result + [t])[head - 1] == Order(start, result)[head - 1]
  {
    assert (result + [t])[..|result|] == result;
  }

  /** Passing over an already visited neighbour keeps the state. */
  lemma ExpandSeen(adj: map<string, seq<Edge>>, start: string, current: string,
                   edges: seq<Edge>, j: nat, visited0: set<string>, result0: seq<Edge>,
                   visited: set<string>, queue: seq<string>, result: seq<Edge>,
                   srcIdx: seq<nat>, head: nat)
    requires j < |edges|
    requires ExpandState(adj, start, current, edges, j, visited0, result0, visited, queue, result, srcIdx, head)
    requires Other(edges[j], current) in visited
    ensures ExpandState(adj, start, current, edges, j + 1, visited0, result0, visited, queue, result, srcIdx, head)
  {
    ScannedSnoc(edges, j, current, visited, visited);
  }


  /** Discovering a neighbour of the vertex being expanded keeps the state. */
  lemma DiscoverOne(adj: map<string, seq<Edge>>, start: string, visited: set<string>,
                    result: seq<Edge>, srcIdx: seq<nat>, h: nat,
                    current: string, edge: Edge)
    requires AdjClosed(adj)
    requires Discovered(adj, start, visited, result, srcIdx, h)
    requires 0 < h && current == Order(start, result)[h - 1] && current in adj && edge in adj[current]
    requires Other(edge, current) !in visited
    ensures var n := Other(edge, current);
            Discovered(adj, start, visited + {n}, result + [Edge(current, n, edge.weight)],
                       srcIdx + [h - 1], h)
  {
    var n := Other(edge, current);
    var t := Edge(current, n, edge.weight);
    assert FromAdjacency(adj, t) by { assert edge in ListOf(adj, t.source); }
    assert (result + [t])[..|result|] == result;
  }

  lemma ExpandedGrow(adj: map<string, seq<Edge>>, visited: set<string>, o: seq<string>,
                     visited': set<string>, o': seq<string>, h: nat)
    requires ExpandedUpTo(adj, visited, o, h)
    requires visited <= visited' && h <= |o| <= |o'| && o'[..|o|] == o
    ensures ExpandedUpTo(adj, visited', o', h)
  {
    forall k, e | 0 <= k < h && k < |o'| && e in ListOf(adj, o'[k])
      ensures Other(e, o'[k]) in visited'
    {
      assert o'[k] == o[k];
    }
  }

  /** After the last incident edge the vertex is fully expanded. */
  lemma ExpandDone(adj: map<string, seq<Edge>>, current: string, edges: seq<Edge>,
                   visited: set<string>, o: seq<string>, head: nat)
    requires edges == ListOf(adj, current) && 0 < head <= |o| && current == o[head - 1]
    requires ExpandedUpTo(adj, visited, o, head - 1)
    requires forall k :: 0 <= k < |edges| ==> Other(edges[k], current) in visited
    ensures ExpandedUpTo(adj, visited, o, head)
  {
    forall e | e in edges
      ensures Other(e, current) in visited
    {
      var k :| 0 <= k < |edges| && edges[k] == e;
    }
  }

  /** The inner loop of `getBFS`: every neighbour of `current` not yet
      visited is marked, enqueued and reached by a new tree edge. */
  method Expand(adj: map<string, seq<Edge>>, start: string, current: string,
                visited0: set<string>, queue0: seq<string>, result0: seq<Edge>,
                ghost head: nat, ghost srcIdx0: seq<nat>)
    returns (visited: set<string>, queue: seq<string>, result: seq<Edge>, ghost srcIdx: seq<nat>)
    requires AdjClosed(adj)
    requires current == start || current in adj
    requires ExpandState(adj, start, current, ListOf(adj, current), 0, visited0, result0,
                         visited0, queue0, result0, srcIdx0, head)
    ensures ExpandState(adj, start, current, ListOf(adj, current), |ListOf(adj, current)|,
                        visited0, result0, visited, queue, result, srcIdx, head)
  {
    visited, queue, result, srcIdx := visited0, queue0, result0, srcIdx0;
    var edges := ListOf(adj, current);
    var j := 0;
    while j < |edges|
      invariant ExpandState(adj, start, current, edges, j, visited0, result0, visited, queue, result, srcIdx, head)
    {
      visited, queue, result, srcIdx := Visit(adj, start, current, edges, j, visited0, result0,
                                              visited, queue, result, srcIdx, head);
      j := j + 1;
    }
  }

  /** One pass of the inner loop, over `edges[j]`: an unvisited neighbour is
      marked, enqueued and reached by a new tree edge. */
  method Visit(adj: map<string, seq<Edge>>, start: string, current: string,
               edges: seq<Edge>, j: nat, visited0: set<string>, result0: seq<Edge>,
               visited: set<string>, queue: seq<string>, result: seq<Edge>,
               ghost srcIdx: seq<nat>, ghost head: nat)
    returns (visited': set<string>, queue': seq<string>, result': seq<Edge>, ghost srcIdx': seq<nat>)
    requires AdjClosed(adj) && (current == start || current in adj) && edges == ListOf(adj, current) && j < |edges|
    requires ExpandState(adj, start, current, edges, j, visited0, result0, visited, queue, result, srcIdx, head)
    ensures ExpandState(adj, start, current, edges, j + 1, visited0, result0, visited', queue', result', srcIdx', head)
  {
    var edge := edges[j];
    var neighbor := Other(edge, current);
    if neighbor !in visited {
      visited' := visited + {neighbor};
      queue' := queue + [neighbor];
      result' := result + [Edge(current, neighbor, edge.weight)];
      srcIdx' := srcIdx + [head - 1];
      ExpandNew(adj, start, current, edges, j, visited0, result0, visited, queue, result, srcIdx, head);
    } else {
      visited', queue', result', srcIdx' := visited, queue, result, srcIdx;
      ExpandSeen(adj, start, current, edges, j, visited0, result0, visited, queue, result, srcIdx, head);
    }
  }

  /** The state of the queue loop: the first `head` discovered vertices are
      dequeued and expanded, the rest are the queue. */
  ghost predicate QueueState(adj: map<string, seq<Edge>>, start: string, lenient: bool,
                             visited: set<string>, queue: seq<string>, result: seq<Edge>,
                             srcIdx: seq<nat>, head: nat) {
    Discovered(adj, start, visited, result, srcIdx, head)
    && ExpandedUpTo(adj, visited, Order(start, result), head)
    && visited <= adj.Keys + {start}
    && queue == Order(start, result)[head..]
    && (head > 0 ==> start in adj || lenient)
    && Layered(adj, start, result, srcIdx)
  }

  /** Dequeuing the head of the queue starts the inner loop in its state. */
  lemma Dequeue(adj: map<string, seq<Edge>>, start: string, lenient: bool,
                visited: set<string>, queue: seq<string>, result: seq<Edge>,
                srcIdx: seq<nat>, head: nat)
    requires QueueState(adj, start, lenient, visited, queue, result, srcIdx, head)
    requires queue != [] && (queue[0] in adj || lenient)
    ensures queue[0] == start || queue[0] in adj
    ensures ExpandState(adj, start, queue[0], ListOf(adj, queue[0]), 0, visited, result,
                        visited, queue[1..], result, srcIdx, head + 1)
  {
    var o := Order(start, result);
    assert queue[0] == o[head];
    assert o[head + 1..] == o[head..][1..];
    if head == 0 {
      assert queue[0] == start;
    }
    forall i | 0 <= i < |result|
      ensures srcIdx[i] < head + 1
    {
    }
    assert result[..|result|] == result;
    assert ListOf(adj, queue[0])[..0] == [];
  }

  /** Only the start can lack an adjacency entry. */
  lemma DequeuedHasList(adj: map<string, seq<Edge>>, start: string, lenient: bool,
                        visited: set<string>, queue: seq<string>, result: seq<Edge>,
                        srcIdx: seq<nat>, head: nat)
    requires QueueState(adj, start, lenient, visited, queue, result, srcIdx, head)
    requires queue != [] && queue[0] !in adj
    ensures head == 0 && queue[0] == start
  {
    assert queue[0] == Order(start, result)[head];
  }

  /** Once expanded, the vertex joins the dequeued prefix. */
  lemma ExpandFinished(adj: map<string, seq<Edge>>, start: string, lenient: bool, current: string,
                       visited0: set<string>, result0: seq<Edge>,
                       visited: set<string>, queue: seq<string>, result: seq<Edge>,
                       srcIdx: seq<nat>, head: nat)
    requires current == start || current in adj
    requires head > 0 ==> start in adj || lenient
    requires current in adj || lenient
    requires visited0 <= adj.Keys + {start}
    requires ExpandState(adj, start, current, ListOf(adj, current), |ListOf(adj, current)|,
                         visited0, result0, visited, queue, result, srcIdx, head)
    ensures QueueState(adj, start, lenient, visited, queue, result, srcIdx, head)
  {
    ExpandDone(adj, current, ListOf(adj, current), visited, Order(start, result), head);
    if head == 1 {
      assert current == Order(start, result)[0] == start;
    }
  }

  /** One round of the queue loop: dequeue the head and expand it. */
  method Poll(adj: map<string, seq<Edge>>, start: string, lenient: bool,
              visited0: set<string>, queue0: seq<string>, result0: seq<Edge>,
              ghost srcIdx0: seq<nat>, ghost head0: nat)
    returns (visited: set<string>, queue: seq<string>, result: seq<Edge>,
             ghost srcIdx: seq<nat>, ghost head: nat)
    requires AdjClosed(adj)
    requires QueueState(adj, start, lenient, visited0, queue0, result0, srcIdx0, head0)
    requires queue0 != [] && (queue0[0] in adj || lenient)
    ensures QueueState(adj, start, lenient, visited, queue, result, srcIdx, head)
    ensures (adj.Keys + {start} - visited < adj.Keys + {start} - visited0)
            || (visited == visited0 && |queue| < |queue0|)
  {
    var current := queue0[0];
    Dequeue(adj, start, lenient, visited0, queue0, result0, srcIdx0, head0);
    visited, queue, result, srcIdx :=
      Expand(adj, start, current, visited0, queue0[1..], result0, head0 + 1, srcIdx0);
    head := head0 + 1;
    ExpandFinished(adj, start, lenient, current, visited0, result0, visited, queue, result, srcIdx, head);
    MeasureDrops(adj.Keys + {start}, visited0, visited, queue0, queue);
  }

  /** A round that discovers nothing shortens the queue; one that discovers
      something shrinks the set of undiscovered vertices. */
  lemma MeasureDrops(universe: set<string>, visited0: set<string>, visited: set<string>,
                     queue0: seq<string>, queue: seq<string>)
    requires visited0 <= visited <= universe
    requires visited == visited0 ==> |queue| < |queue0|
    ensures (universe - visited < universe - visited0) || (visited == visited0 && |queue| < |queue0|)
  {
    if visited != visited0 {
      var x :| x in visited && x !in visited0;
      assert x in universe - visited0 && x !in universe - visited;
    }
  }

  /** The queue loop of `getBFS` from a vertex already found.  A dequeued
      vertex without an adjacency entry dereferences `null` unless `lenient`,
      in which case its list counts as empty (`getOrDefault`). */
  method Traverse(adj: map<string, seq<Edge>>, start: string, lenient: bool)
    returns (r: Result<seq<Edge>>)
    requires AdjClosed(adj)
    ensures r.Err? <==> !lenient && start !in adj
    ensures r.Err? ==> r.error == "NullPointerException"
    ensures r.Ok? ==> BfsTree(adj, start, r.value)
    ensures r.Ok? && start !in adj ==> r.value == []
  {
    var visited: set<string> := {start};
    var queue: seq<string> := [start];
    var result: seq<Edge> := [];
    ghost var head: nat := 0;
    ghost var srcIdx: seq<nat> := [];
    while queue != []
      invariant QueueState(adj, start, lenient, visited, queue, result, srcIdx, head)
      decreases adj.Keys + {start} - visited, |queue|
    {
      var current := queue[0];
      if current !in adj && !lenient {
        DequeuedHasList(adj, start, lenient, visited, queue, result, srcIdx, head);
        return Err("NullPointerException");
      }
      visited, queue, result, srcIdx, head := Poll(adj, start, lenient, visited, queue, result, srcIdx, head);
    }
    BfsFinish(adj, start, lenient, visited, result, srcIdx, head);
    return Ok(result);
  }

  /** An empty queue leaves a finished breadth-first tree. */
  lemma BfsFinish(adj: map<string, seq<Edge>>, start: string, lenient: bool,
                  visited: set<string>, result: seq<Edge>, srcIdx: seq<nat>, head: nat)
    requires QueueState(adj, start, lenient, visited, [], result, srcIdx, head)
    ensures BfsTree(adj, start, result)
    ensures start !in adj ==> result == []
  {
    var o := Order(start, result);
    assert head == |o|;
    forall u, e | u in o && e in ListOf(adj, u)
      ensures Other(e, u) in o
    {
      var k :| 0 <= k < |o| && o[k] == u;
    }
    TreeFromState(adj, start, result, srcIdx);
  }

  /** A closed tree whose sources sit at non-decreasing discovery positions,
      with the layering facts kept, is a breadth-first tree. */
  lemma TreeFromState(adj: map<string, seq<Edge>>, start: string, result: seq<Edge>, srcIdx: seq<nat>)
    requires TreeEdges(adj, start, result) && Distinct(Order(start, result))
    requires ClosedUnder(adj, Order(start, result)) && Layered(adj, start, result, srcIdx)
    requires forall i :: 0 <= i < |result| ==>
               srcIdx[i] < |Order(start, result)| && Order(start, result)[srcIdx[i]] == result[i].source
    requires forall i, j :: 0 <= i < j < |result| ==> srcIdx[i] <= srcIdx[j]
    ensures BfsTree(adj, start, result)
  {
    var o := Order(start, result);
    forall i | 0 <= i < |result|
      ensures result[i].source in o && IndexOf(o, result[i].source) == srcIdx[i]
    {
      DistinctIndexOf(o, srcIdx[i]);
    }
    LayeredFinal(adj, start, result, srcIdx);
    TreeIsReachableSet(adj, start, result);
  }

  /** With every source at its discovery position, the kept facts are
      the final tree's: each vertex under its earliest discovered
      neighbour. */
  lemma LayeredFinal(adj: map<string, seq<Edge>>, start: string, result: seq<Edge>, srcIdx: seq<nat>)
    requires Layered(adj, start, result, srcIdx)
    requires forall i :: 0 <= i < |result| ==>
               result[i].source in Order(start, result) && IndexOf(Order(start, result), result[i].source) == srcIdx[i]
    ensures EarliestParent(adj, start, result)
  {
  }

  /** `getBFS`: look the start up by name, then traverse.  As written, the
      start's adjacency list is read without a default, so a start that has
      no adjacency entry (an isolated vertex of a `fromMap` graph) raises. */
  method GetBfs(g: Graph, startName: string) returns (r: Result<seq<Edge>>)
    requires AdjClosed(g.adjacency)
    ensures Lookup(g.vertices, startName).Err? ==>
              r == Err(Lookup(g.vertices, startName).error)
    ensures Lookup(g.vertices, startName).Ok? ==>
              var s := Lookup(g.vertices, startName).value;
              (r.Err? <==> s !in g.adjacency)
              && (r.Err? ==> r.error == "NullPointerException")
              && (r.Ok? ==> BfsTree(g.adjacency, s, r.value))
  {
    var found := SearchVertex(g.vertices, startName);
    if found.Err? {
      return Err(found.error);
    }
    r := Traverse(g.adjacency, found.value, false);
  }

  /** `getBFS` with the start's list read through `getOrDefault`, as the
      depth-first traversal reads it: every found start yields a tree, and
      an isolated start an empty one. */
  method GetBfsDefault(g: Graph, startName: string) returns (r: Result<seq<Edge>>)
    requires AdjClosed(g.adjacency)
    ensures Lookup(g.vertices, startName).Err? ==>
              r == Err(Lookup(g.vertices, startName).error)
    ensures Lookup(g.vertices, startName).Ok? ==>
              var s := Lookup(g.vertices, startName).value;
              r.Ok? && BfsTree(g.adjacency, s, r.value)
              && (s !in g.adjacency ==> r.value == [])
  {
    var found := SearchVertex(g.vertices, startName);
    if found.Err? {
      return Err(found.error);
    }
    r := Traverse(g.adjacency, found.value, true);
  }

  /** The single-vertex map `{"A": []}`. */
  function IsolatedInput(): (d: Input)
    ensures ValidInput(d)
  {
    Input(["A"], map["A" := []])
  }

  /** `fromMap` on `{"A": []}` followed by `getBFS(graph, "A")` raises. */
  method IsolatedStartAsWritten() returns (r: Result<seq<Edge>>)
    ensures r == Err("NullPointerException")
  {
    var g := FromMap(IsolatedInput());
    assert EdgesFrom(["A"], map["A" := []]) == [] by {
      assert ["A"][..0] == [];
    }
    assert EqualsIgnoreCase("A", "A");
    assert Lookup(g.vertices, "A") == Ok("A");
    r := GetBfs(g, "A");
  }

  /** With the default, the same call returns the empty tree. */
  method IsolatedStartCorrected() returns (r: Result<seq<Edge>>)
    ensures r == Ok([])
  {
    var g := FromMap(IsolatedInput());
    assert EdgesFrom(["A"], map["A" := []]) == [] by {
      assert ["A"][..0] == [];
    }
    assert EqualsIgnoreCase("A", "A");
    assert Lookup(g.vertices, "A") == Ok("A");
    r := GetBfsDefault(g, "A");
  }

  /** On the triangle from A, the depth-first answer `A-B, B-C` is no
      breadth-first tree: C hangs under B although A, discovered earlier,
      steps to it. */
  lemma DepthFirstTreeRejected()
    ensures !BfsTree(Triangle(), "A", [Edge("A", "B", 1), Edge("B", "C", 1)])
  {
    var es := [Edge("A", "B", 1), Edge("B", "C", 1)];
    var o := Order("A", es);
    assert o == ["A", "B", "C"] by {
      assert es[..1] == [Edge("A", "B", 1)];
    }
    assert IndexOf(o, "B") == 1;
    assert Step(Triangle(), o[0], "C") by {
      assert Edge("A", "C", 1) in ListOf(Triangle(), "A");
    }
  }
}
