/** Depth-first traversal tree (`DFS.getDFS`), iterative: a stack of the
    vertices on the current root path and, per vertex, the position in its
    adjacency list where the scan resumes.  The stack is a sequence whose
    last element is the top of the Java `Deque`. */
module DFS {
  import opened Common
  import opened GraphModel
  import opened GraphUtils
  import opened Traversal

  /** The root path of the tree after the edges `es`: the tree path from the
      start to the vertex discovered last. */
  function RootPath(start: string, es: seq<Edge>): (p: seq<string>)
    ensures |p| > 0 && p[0] == start
    ensures p[|p| - 1] == Order(start, es)[|es|]
  {
    if es == [] then [start]
    else
      var p := RootPath(start, es[..|es| - 1]);
      var t := es[|es| - 1];
      OrderTargets(start, es, |es| - 1);
      if t.source in p then p[..IndexOf(p, t.source) + 1] + [t.target] else p + [t.target]
  }

  /** Depth-first discipline: every edge leaves a vertex on the root path of
      the edges before it, so the search only backtracks along that path. */
  predicate DfsEdges(start: string, es: seq<Edge>) {
    if es == [] then true
    else DfsEdges(start, es[..|es| - 1]) && es[|es| - 1].source in RootPath(start, es[..|es| - 1])
  }

  /** Taking edge `t` after the edges `done` dives as deep as it can: every
      vertex on the root path beyond `t`'s source is finished (all its
      neighbours discovered), and `t` copies the first entry of its
      source's list that leads to an undiscovered vertex. */
  ghost predicate Dives(adj: map<string, seq<Edge>>, start: string, done: seq<Edge>, t: Edge) {
    var p := RootPath(start, done);
    t.source in p
    && (forall j :: IndexOf(p, t.source) < j < |p| ==> Done(adj, Order(start, done), p[j]))
    && FirstOut(adj, Order(start, done), t)
  }

  /** Every neighbour of `x` is among the discovered vertices `o`. */
  ghost predicate Done(adj: map<string, seq<Edge>>, o: seq<string>, x: string) {
    forall e :: e in ListOf(adj, x) ==> Other(e, x) in o
  }

  /** `t` copies the first entry of its source's list leading outside `o`. */
  ghost predicate FirstOut(adj: map<string, seq<Edge>>, o: seq<string>, t: Edge) {
    var l := ListOf(adj, t.source);
    FirstCopy(adj, t) && forall m :: 0 <= m < FirstLead(l, t.source, t.target) ==> Other(l[m], t.source) in o
  }

  /** Every edge of the tree was taken by a dive. */
  ghost predicate DeepestFirst(adj: map<string, seq<Edge>>, start: string, es: seq<Edge>) {
    if es == [] then true
    else DeepestFirst(adj, start, es[..|es| - 1]) && Dives(adj, start, es[..|es| - 1], es[|es| - 1])
  }

  /** What a finished depth-first traversal from `start` returns: a tree
      over exactly the reachable vertices, grown from the root path, each
      edge the first way out of the deepest unfinished vertex. */
  ghost predicate DfsTree(adj: map<string, seq<Edge>>, start: string, es: seq<Edge>) {
    TreeEdges(adj, start, es) && DfsEdges(start, es) && Distinct(Order(start, es))
    && ClosedUnder(adj, Order(start, es))
    && (forall v :: v in Order(start, es) <==> Reachable(adj, start, v))
    && DeepestFirst(adj, start, es)
  }

  /** The root path visits discovered vertices only, each once. */
  lemma {:induction false} RootPathFacts(adj: map<string, seq<Edge>>, start: string, es: seq<Edge>)
    requires TreeEdges(adj, start, es) && DfsEdges(start, es)
    ensures Distinct(RootPath(start, es))
    ensures forall x :: x in RootPath(start, es) ==> x in Order(start, es)
  {
    if es != [] {
      var init := es[..|es| - 1];
      var t := es[|es| - 1];
      RootPathFacts(adj, start, init);
      var p := RootPath(start, init);
      var o := Order(start, init);
      RootPathCut(start, es);
      CutExtend(p, o, IndexOf(p, t.source) + 1, t.target);
    }
  }

  /** An edge from a vertex on the root path cuts the path back to that
      vertex and extends it by the new target. */
  lemma RootPathCut(start: string, es: seq<Edge>)
    requires es != [] && es[|es| - 1].source in RootPath(start, es[..|es| - 1])
    ensures var p := RootPath(start, es[..|es| - 1]); var t := es[|es| - 1];
            RootPath(start, es) == p[..IndexOf(p, t.source) + 1] + [t.target]
            && Order(start, es) == Order(start, es[..|es| - 1]) + [t.target]
  {
  }

  /** Cutting a distinct path inside `o` and appending a vertex outside `o`
      gives a distinct path inside `o + [n]`. */
  lemma CutExtend(p: seq<string>, o: seq<string>, i: nat, n: string)
    requires Distinct(p) && i <= |p| && (forall x :: x in p ==> x in o) && n !in o
    ensures Distinct(p[..i] + [n])
    ensures forall x :: x in p[..i] + [n] ==> x in o + [n]
  {
    assert forall x :: x in p[..i] ==> x in p;
  }

  /** Entries of `x`'s list before position `k` all lead to visited vertices. */
  ghost predicate ScannedBefore(adj: map<string, seq<Edge>>, visited: set<string>, x: string, k: nat) {
    k <= |ListOf(adj, x)|
    && forall m :: 0 <= m < k ==> Other(ListOf(adj, x)[m], x) in visited
  }

  /** The discovered part of the state: `visited` is the set of discovered
      vertices, each discovered once, over a depth-first tree. */
  ghost predicate TreePart(adj: map<string, seq<Edge>>, start: string, visited: set<string>,
                           result: seq<Edge>) {
    Distinct(Order(start, result)) && (forall x :: x in visited <==> x in Order(start, result))
    && visited <= adj.Keys + {start}
    && TreeEdges(adj, start, result) && DfsEdges(start, result)
  }

  /** The stack is a prefix of the root path. */
  predicate PathPart(start: string, stack: seq<string>, result: seq<Edge>) {
    |stack| <= |RootPath(start, result)| && stack == RootPath(start, result)[..|stack|]
  }

  /** Each vertex on the stack has scanned its list up to its `nextIndex`. */
  ghost predicate ScanPart(adj: map<string, seq<Edge>>, visited: set<string>, stack: seq<string>,
                           nextIndex: map<string, nat>) {
    forall x :: x in stack ==> x in nextIndex && ScannedBefore(adj, visited, x, nextIndex[x])
  }

  /** Each popped vertex has all its neighbours visited. */
  ghost predicate FinishedPart(adj: map<string, seq<Edge>>, visited: set<string>, stack: seq<string>) {
    forall x :: x in visited && x !in stack ==> ScannedBefore(adj, visited, x, |ListOf(adj, x)|)
  }

  /** The state of the stack loop. */
  ghost predicate StackState(adj: map<string, seq<Edge>>, start: string, visited: set<string>,
                             stack: seq<string>, result: seq<Edge>, nextIndex: map<string, nat>) {
    TreePart(adj, start, visited, result) && PathPart(start, stack, result)
    && ScanPart(adj, visited, stack, nextIndex) && FinishedPart(adj, visited, stack)
    && DeepestFirst(adj, start, result)
  }

  /** The first position at or after `from` whose entry leads to an unvisited
      vertex, or the list's length if there is none: the scan of the inner
      `for` loop. */
  method ScanFrom(edges: seq<Edge>, current: string, visited: set<string>, from: nat)
    returns (k: nat)
    requires from <= |edges|
    ensures from <= k <= |edges|
    ensures forall m :: from <= m < k ==> Other(edges[m], current) in visited
    ensures k < |edges| ==> Other(edges[k], current) !in visited
  {
    k := from;
    while k < |edges| && Other(edges[k], current) in visited
      invariant from <= k <= |edges|
      invariant forall m :: from <= m < k ==> Other(edges[m], current) in visited
    {
      k := k + 1;
    }
  }

  /** Diving over the `k`-th entry of the top's list keeps the state. */
  lemma Push(adj: map<string, seq<Edge>>, start: string, visited: set<string>,
             stack: seq<string>, result: seq<Edge>, nextIndex: map<string, nat>, k: nat)
    requires AdjClosed(adj)
    requires StackState(adj, start, visited, stack, result, nextIndex)
    requires stack != [] && k < |ListOf(adj, stack[|stack| - 1])|
    requires var c := stack[|stack| - 1];
             nextIndex[c] <= k
             && (forall m :: nextIndex[c] <= m < k ==> Other(ListOf(adj, c)[m], c) in visited)
             && Other(ListOf(adj, c)[k], c) !in visited
    ensures var c := stack[|stack| - 1];
            var e := ListOf(adj, c)[k];
            var n := Other(e, c);
            StackState(adj, start, visited + {n}, stack + [n], result + [Edge(c, n, e.weight)],
                       nextIndex[c := k + 1][n := 0])
  {
    var c := stack[|stack| - 1];
    var e := ListOf(adj, c)[k];
    PushDeep(adj, start, visited, stack, result, nextIndex, k);
    PushTree(adj, start, visited, stack, result, e);
    PushScanned(adj, visited, stack, nextIndex, k, Other(e, c));
    PushFinished(adj, visited, stack, Other(e, c));
  }

  /** The edge pushed over the `k`-th entry of the top's list is a dive:
      the vertices beyond the top on the root path were popped, so they are
      finished, and the entries before `k` lead to discovered vertices. */
  lemma PushDeep(adj: map<string, seq<Edge>>, start: string, visited: set<string>,
                 stack: seq<string>, result: seq<Edge>, nextIndex: map<string, nat>, k: nat)
    requires TreePart(adj, start, visited, result) && PathPart(start, stack, result)
    requires ScanPart(adj, visited, stack, nextIndex) && FinishedPart(adj, visited, stack)
    requires DeepestFirst(adj, start, result)
    requires stack != [] && k < |ListOf(adj, stack[|stack| - 1])|
    requires var c := stack[|stack| - 1];
             nextIndex[c] <= k
             && (forall m :: nextIndex[c] <= m < k ==> Other(ListOf(adj, c)[m], c) in visited)
             && Other(ListOf(adj, c)[k], c) !in visited
    ensures var c := stack[|stack| - 1];
            var e := ListOf(adj, c)[k];
            DeepestFirst(adj, start, result + [Edge(c, Other(e, c), e.weight)])
  {
    var c := stack[|stack| - 1];
    var l := ListOf(adj, c);
    var t := Edge(c, Other(l[k], c), l[k].weight);
    RootPathFacts(adj, start, result);
    PoppedDone(adj, visited, stack, RootPath(start, result), Order(start, result));
    ScanOut(adj, visited, Order(start, result), c, nextIndex[c], k);
    DeepestSnoc(adj, start, result, t);
  }

  /** The vertices on the root path beyond the stack were popped, so they
      are finished. */
  lemma PoppedDone(adj: map<string, seq<Edge>>, visited: set<string>, stack: seq<string>,
                   p: seq<string>, o: seq<string>)
    requires Distinct(p) && |stack| <= |p| && stack == p[..|stack|] && stack != []
    requires (forall x :: x in p ==> x in visited) && (forall x :: x in visited <==> x in o)
    requires FinishedPart(adj, visited, stack)
    ensures stack[|stack| - 1] in p && IndexOf(p, stack[|stack| - 1]) == |stack| - 1
    ensures forall j :: |stack| - 1 < j < |p| ==> Done(adj, o, p[j])
  {
    assert p[|stack| - 1] == stack[|stack| - 1];
    DistinctIndexOf(p, |stack| - 1);
    forall j | |stack| - 1 < j < |p|
      ensures Done(adj, o, p[j])
    {
      assert p[j] !in stack by {
        forall x | 0 <= x < |stack|
          ensures stack[x] != p[j]
        {
          assert stack[x] == p[x];
        }
      }
      assert ScannedBefore(adj, visited, p[j], |ListOf(adj, p[j])|);
      forall e | e in ListOf(adj, p[j])
        ensures Other(e, p[j]) in o
      {
        var m :| 0 <= m < |ListOf(adj, p[j])| && ListOf(adj, p[j])[m] == e;
      }
    }
  }

  /** Resuming the scan of `c` at `from` and stopping at the first entry
      leading to an unvisited vertex finds the first way out of `o`. */
  lemma ScanOut(adj: map<string, seq<Edge>>, visited: set<string>, o: seq<string>, c: string, from: nat, k: nat)
    requires (forall x :: x in visited <==> x in o)
    requires ScannedBefore(adj, visited, c, from) && from <= k < |ListOf(adj, c)|
    requires forall m :: from <= m < k ==> Other(ListOf(adj, c)[m], c) in visited
    requires Other(ListOf(adj, c)[k], c) !in visited
    ensures var l := ListOf(adj, c);
            FirstOut(adj, o, Edge(c, Other(l[k], c), l[k].weight))
  {
    var l := ListOf(adj, c);
    assert forall m :: 0 <= m < k ==> Other(l[m], c) in visited;
    FirstLeadAt(l, c, k);
  }

  /** A dive appended to dives is a run of dives. */
  lemma DeepestSnoc(adj: map<string, seq<Edge>>, start: string, result: seq<Edge>, t: Edge)
    requires DeepestFirst(adj, start, result) && Dives(adj, start, result, t)
    ensures DeepestFirst(adj, start, result + [t])
  {
    assert (result + [t])[..|result|] == result;
  }

  /** A new tree edge from the top extends the tree and the root path. */
  lemma PushTree(adj: map<string, seq<Edge>>, start: string, visited: set<string>,
                 stack: seq<string>, result: seq<Edge>, e: Edge)
    requires AdjClosed(adj)
    requires TreePart(adj, start, visited, result) && PathPart(start, stack, result)
    requires stack != [] && e in ListOf(adj, stack[|stack| - 1])
    requires Other(e, stack[|stack| - 1]) !in visited
    ensures var c := stack[|stack| - 1];
            var n := Other(e, c);
            var t := Edge(c, n, e.weight);
            n !in stack && TreePart(adj, start, visited + {n}, result + [t])
            && PathPart(start, stack + [n], result + [t])
  {
    var c := stack[|stack| - 1];
    var n := Other(e, c);
    var t := Edge(c, n, e.weight);
    RootPathFacts(adj, start, result);
    PushPath(start, stack, result, t);
    assert c in adj && n in adj;
    assert FromAdjacency(adj, t);
    PushEdges(adj, start, result, t);
    Discover(visited, Order(start, result), Order(start, result + [t]), n, adj.Keys + {start});
  }

  /** Discovering a vertex outside the order appends it to the order and
      adds it to the visited set. */
  lemma Discover(visited: set<string>, o: seq<string>, o': seq<string>, n: string, keys: set<string>)
    requires Distinct(o) && (forall x :: x in visited <==> x in o) && visited <= keys
    requires o' == o + [n] && n !in o && n in keys
    ensures Distinct(o') && (forall x :: x in visited + {n} <==> x in o') && visited + {n} <= keys
  {
  }

  lemma PushEdges(adj: map<string, seq<Edge>>, start: string, result: seq<Edge>, t: Edge)
    requires TreeEdges(adj, start, result) && DfsEdges(start, result)
    requires t.source in RootPath(start, result) && t.source in Order(start, result)
    requires t.target !in Order(start, result) && FromAdjacency(adj, t)
    ensures TreeEdges(adj, start, result + [t]) && DfsEdges(start, result + [t])
  {
    assert (result + [t])[..|result|] == result;
  }

  /** Discovering `n` from the top of the stack pushes it on the root path. */
  lemma PushPath(start: string, stack: seq<string>, result: seq<Edge>, t: Edge)
    requires PathPart(start, stack, result) && Distinct(RootPath(start, result))
    requires forall x :: x in RootPath(start, result) ==> x in Order(start, result)
    requires stack != [] && t.source == stack[|stack| - 1] && t.target !in Order(start, result)
    ensures t.target !in stack && PathPart(start, stack + [t.target], result + [t])
    ensures RootPath(start, result + [t]) == stack + [t.target]
    ensures Order(start, result + [t]) == Order(start, result) + [t.target]
    ensures (result + [t])[..|result|] == result
  {
    var result' := result + [t];
    assert result'[..|result|] == result;
    var p := RootPath(start, result);
    assert p[|stack| - 1] == t.source;
    DistinctIndexOf(p, |stack| - 1);
    assert p[..IndexOf(p, t.source) + 1] == stack;
    RootPathCut(start, result');
    assert forall x :: x in stack ==> x in p;
  }


  lemma PushScanned(adj: map<string, seq<Edge>>, visited: set<string>, stack: seq<string>,
                    nextIndex: map<string, nat>, k: nat, n: string)
    requires stack != [] && n !in stack
    requires ScanPart(adj, visited, stack, nextIndex)
    requires var c := stack[|stack| - 1];
             k < |ListOf(adj, c)| && nextIndex[c] <= k
             && (forall m :: nextIndex[c] <= m < k ==> Other(ListOf(adj, c)[m], c) in visited)
             && Other(ListOf(adj, c)[k], c) == n
    ensures ScanPart(adj, visited + {n}, stack + [n], nextIndex[stack[|stack| - 1] := k + 1][n := 0])
  {
    var c := stack[|stack| - 1];
    var ni := nextIndex[c := k + 1][n := 0];
    forall x | x in stack + [n]
      ensures x in ni && ScannedBefore(adj, visited + {n}, x, ni[x])
    {
      if x == c {
        assert ScannedBefore(adj, visited, c, nextIndex[c]);
      } else if x != n {
        assert x in stack;
        assert ScannedBefore(adj, visited, x, nextIndex[x]);
      }
    }
  }

  lemma PushFinished(adj: map<string, seq<Edge>>, visited: set<string>, stack: seq<string>, n: string)
    requires FinishedPart(adj, visited, stack)
    ensures FinishedPart(adj, visited + {n}, stack + [n])
  {
    forall x | x in visited + {n} && x !in stack + [n]
      ensures ScannedBefore(adj, visited + {n}, x, |ListOf(adj, x)|)
    {
      assert x !in stack;
      assert ScannedBefore(adj, visited, x, |ListOf(adj, x)|);
    }
  }

  /** Backtracking from a top whose remaining entries all lead to visited
      vertices keeps the state. */
  lemma Pop(adj: map<string, seq<Edge>>, start: string, visited: set<string>,
            stack: seq<string>, result: seq<Edge>, nextIndex: map<string, nat>)
    requires StackState(adj, start, visited, stack, result, nextIndex)
    requires stack != []
    requires var c := stack[|stack| - 1];
             forall m :: nextIndex[c] <= m < |ListOf(adj, c)| ==> Other(ListOf(adj, c)[m], c) in visited
    ensures StackState(adj, start, visited, stack[..|stack| - 1], result, nextIndex)
  {
    var c := stack[|stack| - 1];
    PopPath(adj, start, visited, stack, result);
    assert ScannedBefore(adj, visited, c, nextIndex[c]);
    assert ScannedBefore(adj, visited, c, |ListOf(adj, c)|);
    PopFinished(adj, visited, stack, c);
    assert forall x :: x in stack[..|stack| - 1] ==> x in stack;
  }

  /** Dropping the top keeps a prefix of the root path, without the top. */
  lemma PopPath(adj: map<string, seq<Edge>>, start: string, visited: set<string>,
                stack: seq<string>, result: seq<Edge>)
    requires TreePart(adj, start, visited, result) && PathPart(start, stack, result)
    requires stack != []
    ensures PathPart(start, stack[..|stack| - 1], result)
    ensures stack[|stack| - 1] !in stack[..|stack| - 1]
  {
    var p := RootPath(start, result);
    RootPathFacts(adj, start, result);
    assert p[|stack| - 1] == stack[|stack| - 1];
  }

  lemma PopFinished(adj: map<string, seq<Edge>>, visited: set<string>, stack: seq<string>, c: string)
    requires stack != [] && c == stack[|stack| - 1] && c !in stack[..|stack| - 1]
    requires FinishedPart(adj, visited, stack)
    requires ScannedBefore(adj, visited, c, |ListOf(adj, c)|)
    ensures FinishedPart(adj, visited, stack[..|stack| - 1])
  {
    forall x | x in visited && x !in stack[..|stack| - 1]
      ensures ScannedBefore(adj, visited, x, |ListOf(adj, x)|)
    {
      if x != c {
        assert stack == stack[..|stack| - 1] + [c];
        assert x !in stack;
      }
    }
  }

  /** An empty stack leaves a finished depth-first tree. */
  lemma DfsFinish(adj: map<string, seq<Edge>>, start: string, visited: set<string>,
                  result: seq<Edge>, nextIndex: map<string, nat>)
    requires StackState(adj, start, visited, [], result, nextIndex)
    ensures DfsTree(adj, start, result)
  {
    var o := Order(start, result);
    forall u, e | u in o && e in ListOf(adj, u)
      ensures Other(e, u) in o
    {
      assert ScannedBefore(adj, visited, u, |ListOf(adj, u)|);
      var m :| 0 <= m < |ListOf(adj, u)| && ListOf(adj, u)[m] == e;
    }
    TreeIsReachableSet(adj, start, result);
  }

  /** The stack loop of `getDFS` from a vertex already found.  A missing
      adjacency entry reads as an empty list (`getOrDefault`). */
  method Traverse(adj: map<string, seq<Edge>>, start: string) returns (result: seq<Edge>)
    requires AdjClosed(adj)
    ensures DfsTree(adj, start, result)
  {
    var visited: set<string> := {start};
    var stack: seq<string> := [start];
    var nextIndex: map<string, nat> := map[start := 0];
    result := [];
    while stack != []
      invariant StackState(adj, start, visited, stack, result, nextIndex)
      decreases adj.Keys + {start} - visited, |stack|
    {
      var current := stack[|stack| - 1];
      var edges := ListOf(adj, current);
      var i := if current in nextIndex then nextIndex[current] else 0;
      var k := ScanFrom(edges, current, visited, i);
      if k < |edges| {
        Push(adj, start, visited, stack, result, nextIndex, k);
        var edge := edges[k];
        var neighbor := Other(edge, current);
        nextIndex := nextIndex[current := k + 1];
        visited := visited + {neighbor};
        result := result + [Edge(current, neighbor, edge.weight)];
        stack := stack + [neighbor];
        nextIndex := nextIndex[neighbor := 0];
      } else {
        Pop(adj, start, visited, stack, result, nextIndex);
        stack := stack[..|stack| - 1];
      }
    }
    DfsFinish(adj, start, visited, result, nextIndex);
  }

  /** `getDFS`: look the start up by name, then traverse. */
  method GetDfs(g: Graph, startName: string) returns (r: Result<seq<Edge>>)
    requires AdjClosed(g.adjacency)
    ensures Lookup(g.vertices, startName).Err? ==>
              r == Err(Lookup(g.vertices, startName).error)
    ensures Lookup(g.vertices, startName).Ok? ==>
              r.Ok? && DfsTree(g.adjacency, Lookup(g.vertices, startName).value, r.value)
  {
    var found := SearchVertex(g.vertices, startName);
    if found.Err? {
      return Err(found.error);
    }
    var es := Traverse(g.adjacency, found.value);
    return Ok(es);
  }

  /** On the triangle from A, the breadth-first answer `A-B, A-C` is no
      depth-first tree: taking A-C backtracks past B, whose neighbour C is
      still undiscovered. */
  lemma BreadthFirstTreeRejected()
    ensures !DfsTree(Triangle(), "A", [Edge("A", "B", 1), Edge("A", "C", 1)])
  {
    var es := [Edge("A", "B", 1), Edge("A", "C", 1)];
    var done := es[..1];
    assert done == [Edge("A", "B", 1)];
    assert RootPath("A", done) == ["A", "B"] by {
      assert done[..0] == [];
    }
    assert Order("A", done) == ["A", "B"];
    assert !Done(Triangle(), Order("A", done), "B") by {
      assert Edge("B", "C", 1) in ListOf(Triangle(), "B");
    }
    assert !Dives(Triangle(), "A", done, es[1]);
  }
}
