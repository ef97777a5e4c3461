/** The traversal tree shown under a BFS or DFS result: `buildTree` collects
    the parents of each name, picks a root and expands the names from it,
    each name at most once. */
module TreeDiagram {
  import opened Common

  /** A row of the result edge list. */
  datatype EdgeRow = EdgeRow(source: string, target: string, weight: int)

  datatype TreeNode = TreeNode(name: string, children: seq<TreeNode>)

  // ---------------------------------------------------------------------
  // What the `forEach` collects

  predicate Mentions(edges: seq<EdgeRow>, x: string) {
    exists e :: e in edges && (e.source == x || e.target == x)
  }

  lemma LastSplit(edges: seq<EdgeRow>)
    requires edges != []
    ensures forall e :: e in edges <==> e in edges[..|edges| - 1] || e == edges[|edges| - 1]
  {
    assert edges == edges[..|edges| - 1] + [edges[|edges| - 1]];
  }

  /** The endpoints in the order the loop adds them to `nodesSet`. */
  function Endpoints(edges: seq<EdgeRow>): (s: seq<string>)
    ensures forall x :: x in s <==> Mentions(edges, x)
  {
    if edges == [] then []
    else
      var e := edges[|edges| - 1];
      LastSplit(edges);
      Endpoints(edges[..|edges| - 1]) + [e.source, e.target]
  }

  /** `nodesSet` in insertion order. */
  function NodeOrder(edges: seq<EdgeRow>): (ns: seq<string>)
    ensures Distinct(ns) && forall x :: x in ns <==> Mentions(edges, x)
  {
    Dedup(Endpoints(edges))
  }

  /** `childrenSet`: every name that is the target of some edge. */
  function TargetSet(edges: seq<EdgeRow>): (ts: set<string>)
    ensures forall x :: x in ts <==> exists e :: e in edges && e.target == x
  {
    if edges == [] then {}
    else
      LastSplit(edges);
      TargetSet(edges[..|edges| - 1]) + {edges[|edges| - 1].target}
  }

  /** The targets of the edges leaving `n`, repeats included, in edge order. */
  function TargetsOf(edges: seq<EdgeRow>, n: string): (cs: seq<string>)
    ensures forall c :: c in cs <==> exists e :: e in edges && e.source == n && e.target == c
    ensures (forall e :: e in edges ==> e.source != n) ==> cs == []
  {
    if edges == [] then []
    else
      var e := edges[|edges| - 1];
      LastSplit(edges);
      TargetsOf(edges[..|edges| - 1], n) + (if e.source == n then [e.target] else [])
  }

  /** `parents`: for each source, the Set of its targets (a JS Set keeps
      first insertion order). */
  function Parents(edges: seq<EdgeRow>): map<string, seq<string>> {
    if edges == [] then map[]
    else
      var p := Parents(edges[..|edges| - 1]);
      var e := edges[|edges| - 1];
      var kids := if e.source in p then p[e.source] else [];
      p[e.source := if e.target in kids then kids else kids + [e.target]]
  }

  /** The parents map holds exactly the sources, and each source's entry is
      its distinct targets in first-seen order. */
  lemma {:induction false} ParentsSpec(edges: seq<EdgeRow>)
    ensures forall n :: n in Parents(edges) <==> exists e :: e in edges && e.source == n
    ensures forall n :: n in Parents(edges) ==> Parents(edges)[n] == Dedup(TargetsOf(edges, n))
  {
    if edges != [] {
      var init := edges[..|edges| - 1];
      LastSplit(edges);
      ParentsSpec(init);
      forall n | n in Parents(edges)
        ensures Parents(edges)[n] == Dedup(TargetsOf(edges, n))
      {
        ParentsEntry(edges, n);
      }
    }
  }

  /** One step of `ParentsSpec`: the entry of a name after the last edge. */
  lemma ParentsEntry(edges: seq<EdgeRow>, n: string)
    requires edges != [] && n in Parents(edges)
    requires var init := edges[..|edges| - 1];
             (forall m :: m in Parents(init) <==> exists e :: e in init && e.source == m)
             && forall m :: m in Parents(init) ==> Parents(init)[m] == Dedup(TargetsOf(init, m))
    ensures Parents(edges)[n] == Dedup(TargetsOf(edges, n))
  {
    var init := edges[..|edges| - 1];
    var e := edges[|edges| - 1];
    var p := Parents(init);
    var before := TargetsOf(init, n);
    var after := TargetsOf(edges, n);
    if n == e.source {
      assert after == before + [e.target];
      assert after[..|after| - 1] == before;
    } else {
      assert after == before;
    }
  }

  /** The names a parents map can lead to stay inside `u`. */
  predicate Closed(parents: map<string, seq<string>>, u: set<string>) {
    forall n :: n in parents ==> forall c :: c in parents[n] ==> c in u
  }

  /** Every name of `cs` is one of `u`. */
  predicate AllIn(cs: seq<string>, u: set<string>) {
    forall j :: 0 <= j < |cs| ==> cs[j] in u
  }

  predicate DistinctKids(parents: map<string, seq<string>>) {
    forall n :: n in parents ==> Distinct(parents[n])
  }

  /** The parents of an edge list lead only to names of its nodes, and no
      name is listed twice as a child. */
  lemma ParentsClosed(edges: seq<EdgeRow>)
    ensures Closed(Parents(edges), set x | x in NodeOrder(edges))
    ensures DistinctKids(Parents(edges))
  {
    ParentsSpec(edges);
  }

  /** One more edge adds its target to its source's entry. */
  lemma ParentsSnoc(edges: seq<EdgeRow>, e: EdgeRow)
    ensures Parents(edges + [e]) == Parents(edges)[e.source := AddName(KidsOf(Parents(edges), e.source), e.target)]
  {
    var all := edges + [e];
    assert all[..|all| - 1] == edges;
  }

  /** One more edge adds its target to the target set. */
  lemma TargetSetSnoc(edges: seq<EdgeRow>, e: EdgeRow)
    ensures TargetSet(edges + [e]) == TargetSet(edges) + {e.target}
  {
    var all := edges + [e];
    assert all[..|all| - 1] == edges;
  }

  /** `nodesSet.add(x)`: a new name goes last. */
  function AddName(ns: seq<string>, x: string): seq<string> {
    if x in ns then ns else ns + [x]
  }

  /** One more edge adds its source, then its target, to the node order. */
  lemma NodeOrderSnoc(edges: seq<EdgeRow>, e: EdgeRow)
    ensures NodeOrder(edges + [e]) == AddName(AddName(NodeOrder(edges), e.source), e.target)
  {
    var all := edges + [e];
    assert all[..|all| - 1] == edges;
    var before := Endpoints(edges);
    assert Endpoints(all) == (before + [e.source]) + [e.target];
    assert ((before + [e.source]) + [e.target])[..|before| + 1] == before + [e.source];
    assert (before + [e.source])[..|before|] == before;
    assert Dedup(before + [e.source]) == AddName(Dedup(before), e.source);
  }

  /** One turn of the `forEach`, on the prefix it has reached. */
  lemma CollectStep(edges: seq<EdgeRow>, i: nat)
    requires i < |edges|
    ensures var e := edges[i];
            Parents(edges[..i + 1]) == Parents(edges[..i])[e.source := AddName(KidsOf(Parents(edges[..i]), e.source), e.target)]
            && NodeOrder(edges[..i + 1]) == AddName(AddName(NodeOrder(edges[..i]), e.source), e.target)
            && TargetSet(edges[..i + 1]) == TargetSet(edges[..i]) + {e.target}
  {
    assert edges[..i + 1] == edges[..i] + [edges[i]];
    NodeOrderSnoc(edges[..i], edges[i]);
    ParentsSnoc(edges[..i], edges[i]);
    TargetSetSnoc(edges[..i], edges[i]);
  }

  /** `edges.forEach(...)`: fills `parents`, `childrenSet` and `nodesSet`. */
  method Collect(edges: seq<EdgeRow>) returns (parents: map<string, seq<string>>, nodes: seq<string>, children: set<string>)
    ensures parents == Parents(edges) && nodes == NodeOrder(edges) && children == TargetSet(edges)
  {
    parents := map[];
    nodes := [];
    children := {};
    var i := 0;
    while i < |edges|
      invariant 0 <= i <= |edges|
      invariant parents == Parents(edges[..i])
      invariant nodes == NodeOrder(edges[..i])
      invariant children == TargetSet(edges[..i])
    {
      var e := edges[i];
      CollectStep(edges, i);
      nodes := AddName(nodes, e.source);
      nodes := AddName(nodes, e.target);
      children := children + {e.target};
      parents := parents[e.source := AddName(KidsOf(parents, e.source), e.target)];
      i := i + 1;
    }
    assert edges[..i] == edges;
  }

  // ---------------------------------------------------------------------
  // Root choice

  /** The first name of `nodes` that is no target, if any. */
  function FirstNonTarget(nodes: seq<string>, targets: set<string>): (r: Option<string>)
    ensures r.None? <==> forall n :: n in nodes ==> n in targets
    ensures r.Some? ==> r.value in nodes && r.value !in targets
                        && forall j :: 0 <= j < IndexOf(nodes, r.value) ==> nodes[j] in targets
  {
    if nodes == [] then None
    else if nodes[0] !in targets then Some(nodes[0])
    else
      var r := FirstNonTarget(nodes[1..], targets);
      assert forall n :: n in nodes <==> n == nodes[0] || n in nodes[1..];
      if r.Some? then
        assert IndexOf(nodes, r.value) == 1 + IndexOf(nodes[1..], r.value);
        r
      else r
  }

  /** The `for (const n of nodesSet)` loop with its `break`. */
  method SearchRoot(nodes: seq<string>, targets: set<string>) returns (r: Option<string>)
    ensures r == FirstNonTarget(nodes, targets)
  {
    var i := 0;
    while i < |nodes|
      invariant 0 <= i <= |nodes|
      invariant FirstNonTarget(nodes[i..], targets) == FirstNonTarget(nodes, targets)
    {
      if nodes[i] !in targets {
        return Some(nodes[i]);
      }
      assert nodes[i..][1..] == nodes[i + 1..];
      i := i + 1;
    }
    return None;
  }

  /** A declared root counts when it is a non-empty node name. */
  predicate Declared(edges: seq<EdgeRow>, root: Option<string>) {
    root.Some? && root.value != "" && root.value in NodeOrder(edges)
  }

  /** `rootName`: the declared root, else the first node that is no target
      (an empty name is falsy and skipped over to the fallback), else the
      first edge's source. */
  function RootName(edges: seq<EdgeRow>, root: Option<string>): (r: string)
    requires edges != []
    ensures r in NodeOrder(edges)
    ensures Declared(edges, root) ==> r == root.value
    ensures !Declared(edges, root) && r != edges[0].source ==> r != "" && r !in TargetSet(edges)
    ensures !Declared(edges, root) && (forall n :: n in NodeOrder(edges) ==> n in TargetSet(edges)) ==>
              r == edges[0].source
  {
    assert edges[0] in edges;
    if Declared(edges, root) then root.value
    else
      match FirstNonTarget(NodeOrder(edges), TargetSet(edges))
      case Some(n) => if n != "" then n else edges[0].source
      case None => edges[0].source
  }

  // ---------------------------------------------------------------------
  // Expansion

  /** `toNode(name)` with `visited` before the call: the subtree and
      `visited` after it. */
  function ToNode(parents: map<string, seq<string>>, ghost u: set<string>, visited: set<string>, name: string)
    : (r: (TreeNode, set<string>))
    requires Closed(parents, u) && name in u
    ensures visited <= r.1 && r.0.name == name
    ensures name in visited ==> r == (TreeNode(name, []), visited)
    ensures name !in visited ==> name in r.1 && |r.0.children| == |KidsOf(parents, name)|
    decreases u - visited, 0
  {
    if name in visited then (TreeNode(name, []), visited)
    else
      var kids := Children(parents, u, visited + {name}, KidsOf(parents, name));
      (TreeNode(name, kids.0), kids.1)
  }

  /** `parents.get(name) ?? []`. */
  function KidsOf(parents: map<string, seq<string>>, name: string): seq<string> {
    if name in parents then parents[name] else []
  }

  /** `.map((c) => toNode(c))`: the children expanded left to right, each
      seeing the names its elder siblings visited. */
  function Children(parents: map<string, seq<string>>, ghost u: set<string>, visited: set<string>, cs: seq<string>)
    : (r: (seq<TreeNode>, set<string>))
    requires Closed(parents, u) && AllIn(cs, u)
    ensures visited <= r.1
    ensures |r.0| == |cs|
    decreases u - visited, |cs| + 1
  {
    if cs == [] then ([], visited)
    else
      var head := ToNode(parents, u, visited, cs[0]);
      var tail := Children(parents, u, head.1, cs[1..]);
      ([head.0] + tail.0, tail.1)
  }

  /** A new name's node has one child per entry of its list, named as the
      entries are, in order. */
  lemma ToNodeNames(parents: map<string, seq<string>>, u: set<string>, visited: set<string>, name: string)
    requires Closed(parents, u) && name in u && name !in visited
    ensures var r := ToNode(parents, u, visited, name);
            |r.0.children| == |KidsOf(parents, name)|
            && forall i :: 0 <= i < |r.0.children| ==> r.0.children[i].name == KidsOf(parents, name)[i]
  {
    ChildrenNames(parents, u, visited + {name}, KidsOf(parents, name));
  }

  /** The `.map` keeps the order of the names it expands. */
  lemma {:induction false} ChildrenNames(parents: map<string, seq<string>>, u: set<string>, visited: set<string>, cs: seq<string>)
    requires Closed(parents, u) && AllIn(cs, u)
    ensures var r := Children(parents, u, visited, cs);
            |r.0| == |cs| && forall i :: 0 <= i < |cs| ==> r.0[i].name == cs[i]
    decreases |cs|
  {
    if cs != [] {
      var head := ToNode(parents, u, visited, cs[0]);
      ChildrenNames(parents, u, head.1, cs[1..]);
    }
  }

  /** `buildTree`: `null` for an empty edge list, else the tree expanded
      from the root. */
  function BuildTree(edges: seq<EdgeRow>, root: Option<string>): (t: Option<TreeNode>)
    ensures t.None? <==> edges == []
    ensures t.Some? ==> t.value.name == RootName(edges, root)
  {
    if edges == [] then None
    else
      ParentsClosed(edges);
      Some(ToNode(Parents(edges), set x | x in NodeOrder(edges), {}, RootName(edges, root)).0)
  }

  /** The recursive `toNode` closure and the `visited` Set it shares. */
  class TreeBuilder {
    const parents: map<string, seq<string>>
    ghost const universe: set<string>
    var visited: set<string>

    constructor(parents: map<string, seq<string>>, ghost universe: set<string>)
      ensures this.parents == parents && this.universe == universe && visited == {}
    {
      this.parents := parents;
      this.universe := universe;
      visited := {};
    }

    /** `toNode(name)`. */
    method Expand(name: string) returns (t: TreeNode)
      requires Closed(parents, universe) && name in universe
      modifies this
      ensures (t, visited) == ToNode(parents, universe, old(visited), name)
      decreases universe - visited, 0
    {
      if name in visited {
        return TreeNode(name, []);
      }
      visited := visited + {name};
      var cs := if name in parents then parents[name] else [];
      assert cs == KidsOf(parents, name);
      var kids := ExpandAll(cs);
      t := TreeNode(name, kids);
    }

    /** `Array.from(parents.get(name) ?? []).map((c) => toNode(c))`. */
    method ExpandAll(cs: seq<string>) returns (kids: seq<TreeNode>)
      requires Closed(parents, universe) && AllIn(cs, universe)
      modifies this
      ensures (kids, visited) == Children(parents, universe, old(visited), cs)
      decreases universe - visited, 1
    {
      ghost var whole := Children(parents, universe, visited, cs);
      kids := [];
      var i := 0;
      assert cs[0..] == cs;
      while i < |cs|
        invariant 0 <= i <= |cs|
        invariant old(visited) <= visited
        invariant whole.0 == kids + Children(parents, universe, visited, cs[i..]).0
        invariant whole.1 == Children(parents, universe, visited, cs[i..]).1
      {
        ghost var before := visited;
        var k := Expand(cs[i]);
        KidsStep(parents, universe, before, visited, cs, i, kids, k, whole);
        kids := kids + [k];
        i := i + 1;
      }
      assert cs[i..] == [];
      assert kids + [] == kids;
    }
  }

  /** One round of the `.map`: the child expanded joins the list, and the
      rest is expanded from what it visited. */
  lemma KidsStep(parents: map<string, seq<string>>, u: set<string>, before: set<string>, after: set<string>,
                 cs: seq<string>, i: nat, kids: seq<TreeNode>, k: TreeNode, whole: (seq<TreeNode>, set<string>))
    requires Closed(parents, u) && AllIn(cs, u) && i < |cs|
    requires whole.0 == kids + Children(parents, u, before, cs[i..]).0
    requires whole.1 == Children(parents, u, before, cs[i..]).1
    requires (k, after) == ToNode(parents, u, before, cs[i])
    ensures whole.0 == (kids + [k]) + Children(parents, u, after, cs[i + 1..]).0
    ensures whole.1 == Children(parents, u, after, cs[i + 1..]).1
  {
    ChildrenStep(parents, u, before, cs, i);
    var tail := Children(parents, u, after, cs[i + 1..]);
    assert Children(parents, u, before, cs[i..]).0 == [k] + tail.0;
    assert kids + ([k] + tail.0) == (kids + [k]) + tail.0;
  }

  /** `.map` takes the first child, then the rest from what it visited. */
  lemma ChildrenStep(parents: map<string, seq<string>>, u: set<string>, visited: set<string>, cs: seq<string>, i: nat)
    requires Closed(parents, u) && AllIn(cs, u) && i < |cs|
    ensures var head := ToNode(parents, u, visited, cs[i]);
            var tail := Children(parents, u, head.1, cs[i + 1..]);
            Children(parents, u, visited, cs[i..]).0 == [head.0] + tail.0
            && Children(parents, u, visited, cs[i..]).1 == tail.1
  {
    assert cs[i..][0] == cs[i] && cs[i..][1..] == cs[i + 1..];
  }

  /** `buildTree` step by step: collect, pick the root, expand. */
  method Build(edges: seq<EdgeRow>, root: Option<string>) returns (t: Option<TreeNode>)
    ensures t == BuildTree(edges, root)
  {
    if |edges| == 0 {
      return None;
    }
    var parents, nodes, children := Collect(edges);
    var rootName: string;
    if root.Some? && root.value != "" && root.value in nodes {
      rootName := root.value;
    } else {
      var first := SearchRoot(nodes, children);
      if first.Some? && first.value != "" {
        rootName := first.value;
      } else {
        rootName := edges[0].source;
      }
    }
    ParentsClosed(edges);
    var b := new TreeBuilder(parents, set x | x in nodes);
    var r := b.Expand(rootName);
    return Some(r);
  }

  // ---------------------------------------------------------------------
  // Size and an example

  function Size(t: TreeNode): nat
    decreases t
  {
    1 + SizeAll(t.children)
  }

  function SizeAll(ts: seq<TreeNode>): nat
    decreases ts
  {
    if ts == [] then 0 else Size(ts[0]) + SizeAll(ts[1..])
  }

  /** The (parent, child) pairs the names of `names` can expand into. */
  function Pairs(parents: map<string, seq<string>>, names: set<string>): set<(string, string)> {
    set n, c | n in names && n in parents && c in parents[n] :: (n, c)
  }

  /** The distinct (source, target) pairs of an edge list. */
  function EdgePairs(edges: seq<EdgeRow>): set<(string, string)> {
    set e | e in edges :: (e.source, e.target)
  }

  lemma PairsSplit(parents: map<string, seq<string>>, a: set<string>, b: set<string>)
    requires a !! b
    ensures Pairs(parents, a + b) == Pairs(parents, a) + Pairs(parents, b)
    ensures Pairs(parents, a) !! Pairs(parents, b)
  {
  }

  lemma {:induction false} PairsOfKids(n: string, cs: seq<string>)
    requires Distinct(cs)
    ensures |set c | c in cs :: (n, c)| == |cs|
  {
    if cs != [] {
      PairsOfKids(n, cs[1..]);
      assert (set c | c in cs :: (n, c)) == (set c | c in cs[1..] :: (n, c)) + {(n, cs[0])};
      assert (n, cs[0]) !in (set c | c in cs[1..] :: (n, c));
    }
  }

  lemma PairsSingle(parents: map<string, seq<string>>, n: string)
    requires DistinctKids(parents)
    ensures |Pairs(parents, {n})| == |KidsOf(parents, n)|
  {
    assert Pairs(parents, {n}) == set c | c in KidsOf(parents, n) :: (n, c);
    PairsOfKids(n, KidsOf(parents, n));
  }

  /** Every name newly visited by `toNode` contributes exactly its children:
      the subtree has one node plus one per (name, child) pair of the names
      it expanded. */
  lemma {:induction false} ToNodeSize(parents: map<string, seq<string>>, u: set<string>, v: set<string>, name: string)
    requires Closed(parents, u) && DistinctKids(parents) && name in u
    ensures var r := ToNode(parents, u, v, name);
            Size(r.0) == 1 + |Pairs(parents, r.1 - v)|
    decreases u - v, 0
  {
    var r := ToNode(parents, u, v, name);
    if name !in v {
      var cs := KidsOf(parents, name);
      var k := Children(parents, u, v + {name}, cs);
      ChildrenSize(parents, u, v + {name}, cs);
      assert r.1 - v == {name} + (k.1 - (v + {name}));
      PairsSplit(parents, {name}, k.1 - (v + {name}));
      PairsSingle(parents, name);
    } else {
      assert r.1 - v == {};
    }
  }

  lemma {:induction false} ChildrenSize(parents: map<string, seq<string>>, u: set<string>, v: set<string>, cs: seq<string>)
    requires Closed(parents, u) && DistinctKids(parents) && AllIn(cs, u)
    ensures var r := Children(parents, u, v, cs);
            SizeAll(r.0) == |cs| + |Pairs(parents, r.1 - v)|
    decreases u - v, |cs| + 1
  {
    var r := Children(parents, u, v, cs);
    if cs == [] {
      assert r.1 - v == {};
    } else {
      var h := ToNode(parents, u, v, cs[0]);
      var t := Children(parents, u, h.1, cs[1..]);
      ToNodeSize(parents, u, v, cs[0]);
      ChildrenSize(parents, u, h.1, cs[1..]);
      assert ([h.0] + t.0)[1..] == t.0;
      assert r.1 - v == (h.1 - v) + (t.1 - h.1);
      PairsSplit(parents, h.1 - v, t.1 - h.1);
    }
  }

  /** The tree has at most one node more than there are distinct
      (source, target) pairs, however cyclic the edges. */
  lemma TreeSize(edges: seq<EdgeRow>, root: Option<string>)
    requires edges != []
    ensures Size(BuildTree(edges, root).value) <= 1 + |EdgePairs(edges)|
  {
    var parents := Parents(edges);
    var u := set x | x in NodeOrder(edges);
    ParentsClosed(edges);
    ParentsSpec(edges);
    var r := ToNode(parents, u, {}, RootName(edges, root));
    ToNodeSize(parents, u, {}, RootName(edges, root));
    assert r.1 - {} == r.1;
    forall p | p in Pairs(parents, r.1)
      ensures p in EdgePairs(edges)
    {
      var n, c := p.0, p.1;
      assert c in Dedup(TargetsOf(edges, n));
      var e :| e in edges && e.source == n && e.target == c;
    }
    SubsetCard(Pairs(parents, r.1), EdgePairs(edges));
  }

  /** `.map` over one or two children. */
  lemma ChildrenOne(parents: map<string, seq<string>>, u: set<string>, v: set<string>, c: string)
    requires Closed(parents, u) && c in u
    ensures Children(parents, u, v, [c]) == ([ToNode(parents, u, v, c).0], ToNode(parents, u, v, c).1)
  {
    assert [c][1..] == [];
    var h := ToNode(parents, u, v, c);
    assert [h.0] + [] == [h.0];
  }

  lemma ChildrenTwo(parents: map<string, seq<string>>, u: set<string>, v: set<string>, c1: string, c2: string)
    requires Closed(parents, u) && c1 in u && c2 in u
    ensures var h1 := ToNode(parents, u, v, c1);
            var h2 := ToNode(parents, u, h1.1, c2);
            Children(parents, u, v, [c1, c2]) == ([h1.0, h2.0], h2.1)
  {
    assert [c1, c2][1..] == [c2];
    var h1 := ToNode(parents, u, v, c1);
    var h2 := ToNode(parents, u, h1.1, c2);
    ChildrenOne(parents, u, h1.1, c2);
    assert Children(parents, u, v, [c1, c2])
           == ([h1.0] + Children(parents, u, h1.1, [c2]).0, Children(parents, u, h1.1, [c2]).1);
    assert [h1.0] + [h2.0] == [h1.0, h2.0];
  }

  /** `toNode` on a name with no children. */
  lemma LeafExpand(parents: map<string, seq<string>>, u: set<string>, v: set<string>, name: string)
    requires Closed(parents, u) && name in u && name !in v && name !in parents
    ensures ToNode(parents, u, v, name) == (TreeNode(name, []), v + {name})
  {
  }

  /** The edges (A,B), (A,C), (B,D) with no declared root draw A{B{D}, C},
      for any four distinct names and any weights. */
  lemma Example(a: string, b: string, c: string, d: string, w1: int, w2: int, w3: int)
    requires a != b && a != c && a != d && b != c && b != d && c != d
    ensures BuildTree([EdgeRow(a, b, w1), EdgeRow(a, c, w2), EdgeRow(b, d, w3)], None)
            == Some(TreeNode(a, [TreeNode(b, [TreeNode(d, [])]), TreeNode(c, [])]))
  {
    var edges := [EdgeRow(a, b, w1), EdgeRow(a, c, w2), EdgeRow(b, d, w3)];
    ExampleParents(a, b, c, d, w1, w2, w3);
    ExampleNodes(a, b, c, d, w1, w2, w3);
    ExampleTargets(a, b, c, d, w1, w2, w3);
    assert FirstNonTarget([a, b, c, d], {b, c, d}) == Some(a);
    assert RootName(edges, None) == a;
    var u := set x | x in NodeOrder(edges);
    FourNames(a, b, c, d);
    assert u == {a, b, c, d};
    ParentsClosed(edges);
    ExampleExpand(u, a, b, c, d);
    assert BuildTree(edges, None) == Some(ToNode(Parents(edges), u, {}, a).0);
  }

  lemma FourNames(a: string, b: string, c: string, d: string)
    ensures (set x | x in [a, b, c, d]) == {a, b, c, d}
  {
  }

  /** The example's edge list, one edge at a time. */
  lemma ExampleList(x1: EdgeRow, x2: EdgeRow, x3: EdgeRow)
    ensures [] + [x1] == [x1] && [x1] + [x2] == [x1, x2] && [x1, x2] + [x3] == [x1, x2, x3]
  {
  }

  lemma ExampleParents(a: string, b: string, c: string, d: string, w1: int, w2: int, w3: int)
    requires a != b && a != c && a != d && b != c && b != d && c != d
    ensures Parents([EdgeRow(a, b, w1), EdgeRow(a, c, w2), EdgeRow(b, d, w3)]) == map[a := [b, c], b := [d]]
  {
    var x1, x2, x3 := EdgeRow(a, b, w1), EdgeRow(a, c, w2), EdgeRow(b, d, w3);
    ExampleList(x1, x2, x3);
    ParentsSnoc([], x1);
    ParentsSnoc([x1], x2);
    ParentsSnoc([x1, x2], x3);
    var p1 := map[a := [b]];
    assert Parents([x1]) == p1 by {
      assert AddName([], b) == [b];
    }
    var p2 := map[a := [b, c]];
    assert Parents([x1, x2]) == p2 by {
      assert AddName([b], c) == [b, c];
    }
    assert KidsOf(p2, b) == [] && AddName([], d) == [d];
  }

  lemma ExampleNodes(a: string, b: string, c: string, d: string, w1: int, w2: int, w3: int)
    requires a != b && a != c && a != d && b != c && b != d && c != d
    ensures NodeOrder([EdgeRow(a, b, w1), EdgeRow(a, c, w2), EdgeRow(b, d, w3)]) == [a, b, c, d]
  {
    var x1, x2, x3 := EdgeRow(a, b, w1), EdgeRow(a, c, w2), EdgeRow(b, d, w3);
    ExampleList(x1, x2, x3);
    assert NodeOrder([]) == [];
    NodeOrderSnoc([], x1);
    NodeOrderSnoc([x1], x2);
    NodeOrderSnoc([x1, x2], x3);
    ExampleNames(a, b, c, d);
  }

  /** The names the example's edges add, in order. */
  lemma ExampleNames(a: string, b: string, c: string, d: string)
    requires a != b && a != c && a != d && b != c && b != d && c != d
    ensures AddName(AddName([], a), b) == [a, b]
    ensures AddName(AddName([a, b], a), c) == [a, b, c]
    ensures AddName(AddName([a, b, c], b), d) == [a, b, c, d]
  {
  }

  lemma ExampleTargets(a: string, b: string, c: string, d: string, w1: int, w2: int, w3: int)
    ensures TargetSet([EdgeRow(a, b, w1), EdgeRow(a, c, w2), EdgeRow(b, d, w3)]) == {b, c, d}
  {
    var x1, x2, x3 := EdgeRow(a, b, w1), EdgeRow(a, c, w2), EdgeRow(b, d, w3);
    ExampleList(x1, x2, x3);
    TargetSetSnoc([], x1);
    TargetSetSnoc([x1], x2);
    TargetSetSnoc([x1, x2], x3);
    assert TargetSet([]) == {};
  }

  lemma ExampleExpand(u: set<string>, a: string, b: string, c: string, d: string)
    requires a != b && a != c && a != d && b != c && b != d && c != d
    requires u == {a, b, c, d}
    ensures Closed(map[a := [b, c], b := [d]], u)
    ensures ToNode(map[a := [b, c], b := [d]], u, {}, a).0
            == TreeNode(a, [TreeNode(b, [TreeNode(d, [])]), TreeNode(c, [])])
  {
    var parents := map[a := [b, c], b := [d]];
    assert d !in parents && c !in parents;
    var va := {} + {a};
    var vb := va + {b};
    LeafExpand(parents, u, vb, d);
    var vd := vb + {d};
    ChildrenOne(parents, u, vb, d);
    assert KidsOf(parents, b) == [d];
    assert ToNode(parents, u, va, b) == (TreeNode(b, [TreeNode(d, [])]), vd);
    LeafExpand(parents, u, vd, c);
    ChildrenTwo(parents, u, va, b, c);
    assert KidsOf(parents, a) == [b, c];
  }
}
