/** Kruskal's minimum spanning forest (`Kruskal.getKruskal`): the edges in
    stable non-decreasing weight order, a union-find parent map over the
    vertex names, and path compression in `find`. */
module Kruskal {
  import opened Common
  import opened GraphModel

  // ---------------------------------------------------------------------
  // The stable sort of `edges.sort(Comparator.comparingInt(Edge::getWeight))`

  predicate SortedByWeight(s: seq<Edge>) {
    forall i, j :: 0 <= i < j < |s| ==> s[i].weight <= s[j].weight
  }

  /** Insert `e` after every element not heavier than it. */
  function Insert(s: seq<Edge>, e: Edge): seq<Edge> {
    if s == [] || s[|s| - 1].weight <= e.weight then s + [e]
    else Insert(s[..|s| - 1], e) + [s[|s| - 1]]
  }

  /** A stable sort by weight (the library sort is a stable merge sort). */
  function SortByWeight(s: seq<Edge>): seq<Edge> {
    if s == [] then [] else Insert(SortByWeight(s[..|s| - 1]), s[|s| - 1])
  }

  /** The edges of weight `w`, in order. */
  function OfWeight(s: seq<Edge>, w: int): seq<Edge> {
    if s == [] then []
    else OfWeight(s[..|s| - 1], w) + (if s[|s| - 1].weight == w then [s[|s| - 1]] else [])
  }

  lemma {:induction false} OfWeightAppend(a: seq<Edge>, b: seq<Edge>, w: int)
    ensures OfWeight(a + b, w) == OfWeight(a, w) + OfWeight(b, w)
    decreases |b|
  {
    if b == [] {
      assert a + b == a;
    } else {
      var b' := b[..|b| - 1];
      var x := b[|b| - 1];
      var tail: seq<Edge> := if x.weight == w then [x] else [];
      assert (a + b)[..|a + b| - 1] == a + b';
      assert (a + b)[|a + b| - 1] == x;
      OfWeightAppend(a, b', w);
      assert OfWeight(a + b, w) == OfWeight(a, w) + OfWeight(b', w) + tail;
    }
  }

  lemma {:induction false} InsertMembers(s: seq<Edge>, e: Edge)
    ensures multiset(Insert(s, e)) == multiset(s) + multiset{e}
  {
    if !(s == [] || s[|s| - 1].weight <= e.weight) {
      var init := s[..|s| - 1];
      InsertMembers(init, e);
      assert s == init + [s[|s| - 1]];
    }
  }

  lemma {:induction false} InsertSorted(s: seq<Edge>, e: Edge)
    requires SortedByWeight(s)
    ensures SortedByWeight(Insert(s, e))
  {
    if s == [] || s[|s| - 1].weight <= e.weight {
    } else {
      var init := s[..|s| - 1];
      var last := s[|s| - 1];
      InsertSorted(init, e);
      InsertMembers(init, e);
      var r := Insert(init, e);
      forall x | x in r
        ensures x.weight <= last.weight
      {
        assert x in multiset(r);
        if x != e {
          assert x in multiset(init);
          var i :| 0 <= i < |init| && init[i] == x;
          assert s[i] == x;
        }
      }
      forall i, j | 0 <= i < j < |r + [last]|
        ensures (r + [last])[i].weight <= (r + [last])[j].weight
      {
        if j == |r| {
          assert (r + [last])[i] in r;
        }
      }
    }
  }

  lemma {:induction false} InsertStable(s: seq<Edge>, e: Edge, w: int)
    ensures OfWeight(Insert(s, e), w) == OfWeight(s, w) + OfWeight([e], w)
  {
    if s == [] || s[|s| - 1].weight <= e.weight {
      OfWeightAppend(s, [e], w);
    } else {
      var init := s[..|s| - 1];
      var last := s[|s| - 1];
      assert s == init + [last];
      InsertStable(init, e, w);
      OfWeightAppend(Insert(init, e), [last], w);
      OfWeightAppend(init, [last], w);
      if last.weight == w {
        assert e.weight != w;
        assert OfWeight([e], w) == [];
      }
    }
  }

  /** The sort orders by weight, keeps every edge, and keeps the relative
      order of edges of equal weight. */
  lemma {:induction false} SortByWeightSpec(s: seq<Edge>)
    ensures SortedByWeight(SortByWeight(s))
    ensures multiset(SortByWeight(s)) == multiset(s)
    ensures forall w :: OfWeight(SortByWeight(s), w) == OfWeight(s, w)
  {
    if s != [] {
      var init := s[..|s| - 1];
      var e := s[|s| - 1];
      SortByWeightSpec(init);
      InsertMembers(SortByWeight(init), e);
      InsertSorted(SortByWeight(init), e);
      assert s == init + [e];
      forall w
        ensures OfWeight(SortByWeight(s), w) == OfWeight(s, w)
      {
        InsertStable(SortByWeight(init), e, w);
        OfWeightAppend(init, [e], w);
      }
    }
  }

  // ---------------------------------------------------------------------
  // Reference semantics: components as labels

  /** Every vertex starts alone, as its own parent. */
  function Identity(vs: seq<string>): (m: map<string, string>)
    ensures m.Keys == (set v | v in vs)
    ensures forall v :: v in m ==> m[v] == v
  {
    map v | v in vs :: v
  }

  /** Merge the component labelled `a` into the one labelled `b`. */
  function Relabel(comp: map<string, string>, a: string, b: string): (m: map<string, string>)
    ensures m.Keys == comp.Keys
  {
    map x | x in comp :: if comp[x] == a then b else comp[x]
  }

  /** Every label names a vertex that labels itself. */
  ghost predicate Canonical(comp: map<string, string>) {
    comp.Values <= comp.Keys && forall y :: y in comp.Values ==> comp[y] == y
  }

  /** The component labels in use. */
  function Classes(comp: map<string, string>): set<string> {
    comp.Values
  }

  datatype Forest = Forest(accepted: seq<Edge>, comp: map<string, string>)

  /** Reference definition of Kruskal's loop: an edge is accepted iff its
      endpoints are in different components, which it then merges (the
      source's component into the target's). */
  function Run(es: seq<Edge>, comp0: map<string, string>): (f: Forest)
    ensures f.comp.Keys == comp0.Keys
  {
    if es == [] then Forest([], comp0)
    else
      var f := Run(es[..|es| - 1], comp0);
      var e := es[|es| - 1];
      if e.source in f.comp && e.target in f.comp && f.comp[e.source] != f.comp[e.target] then
        Forest(f.accepted + [e], Relabel(f.comp, f.comp[e.source], f.comp[e.target]))
      else f
  }

  /** Merging two different components keeps the labels canonical and uses
      one label fewer. */
  lemma RelabelClasses(comp: map<string, string>, s: string, t: string)
    requires Canonical(comp) && s in comp && t in comp && comp[s] != comp[t]
    ensures Canonical(Relabel(comp, comp[s], comp[t]))
    ensures Classes(Relabel(comp, comp[s], comp[t])) == Classes(comp) - {comp[s]}
    ensures comp[s] in Classes(comp)
  {
    var a := comp[s];
    var b := comp[t];
    var m := Relabel(comp, a, b);
    assert m[b] == b;
    forall y | y in Classes(comp) - {a}
      ensures y in Classes(m)
    {
      var x :| x in comp && comp[x] == y;
      assert m[x] == y;
    }
    forall y | y in Classes(m)
      ensures y in Classes(comp) - {a}
    {
      var x :| x in m && m[x] == y;
      if comp[x] == a {
        assert y == b && b == comp[t];
      } else {
        assert y == comp[x];
      }
    }
  }

  /** The forest equation: accepted edges plus components make the vertex
      count, so the accepted edges close no cycle and number at most
      |V| - 1. */
  lemma {:induction false} RunCount(es: seq<Edge>, comp0: map<string, string>)
    requires Canonical(comp0)
    ensures Canonical(Run(es, comp0).comp)
    ensures |Run(es, comp0).accepted| + |Classes(Run(es, comp0).comp)| == |Classes(comp0)|
  {
    if es != [] {
      var init := es[..|es| - 1];
      var e := es[|es| - 1];
      RunCount(init, comp0);
      var f := Run(init, comp0);
      if e.source in f.comp && e.target in f.comp && f.comp[e.source] != f.comp[e.target] {
        RelabelClasses(f.comp, e.source, e.target);
      }
    }
  }

  /** The accepted edges are a subsequence of the input: drawn from it, and
      in non-decreasing weight when it is sorted. */
  lemma {:induction false} RunAccepted(es: seq<Edge>, comp0: map<string, string>)
    ensures forall e :: e in Run(es, comp0).accepted ==> e in es
    ensures SortedByWeight(es) ==> SortedByWeight(Run(es, comp0).accepted)
  {
    if es != [] {
      var init := es[..|es| - 1];
      var e := es[|es| - 1];
      RunAccepted(init, comp0);
      var a := Run(init, comp0).accepted;
      if SortedByWeight(es) {
        assert SortedByWeight(init);
        forall i, j | 0 <= i < j < |a + [e]|
          ensures (a + [e])[i].weight <= (a + [e])[j].weight
        {
          if j == |a| {
            assert (a + [e])[i] in init;
          }
        }
      }
    }
  }

  lemma IdentityClasses(vs: seq<string>)
    ensures Canonical(Identity(vs))
    ensures Classes(Identity(vs)) == (set v | v in vs)
  {
    var m := Identity(vs);
    forall y | y in (set v | v in vs)
      ensures y in Classes(m)
    {
      assert m[y] == y;
    }
  }

  // ---------------------------------------------------------------------
  // The union-find parent map

  /** The parent map is a forest whose roots are the labels: `rank` strictly
      decreases towards the root, and `rootOf[v]` is the root of `v`. */
  ghost predicate UnionFind(parent: map<string, string>, rank: map<string, nat>,
                            rootOf: map<string, string>) {
    parent.Keys == rank.Keys && rootOf.Keys == parent.Keys
    && parent.Values <= parent.Keys && rootOf.Values <= parent.Keys
    && (forall v {:trigger rootOf[v]} :: v in rootOf ==> parent[rootOf[v]] == rootOf[v])
    && (forall v {:trigger parent[v]} :: v in parent ==>
          rootOf[parent[v]] == rootOf[v]
          && (parent[v] == v ==> rootOf[v] == v)
          && (parent[v] != v ==> rank[parent[v]] < rank[v] && rank[rootOf[v]] < rank[v]))
  }

  /** `find`: the root of `v`, with `v` (and every vertex on its path)
      re-parented to the root.  The roots, and so the components, stay the
      same. */
  method Find(parent: map<string, string>, v: string, ghost rank: map<string, nat>,
              ghost rootOf: map<string, string>)
    returns (r: string, parent': map<string, string>)
    requires UnionFind(parent, rank, rootOf) && v in parent
    ensures r == rootOf[v] && r in parent' && parent'[r] == r
    ensures UnionFind(parent', rank, rootOf) && parent'.Keys == parent.Keys
    ensures parent'[v] == r
    ensures forall x :: x in parent ==> parent'[x] == parent[x] || parent'[x] == rootOf[x]
    decreases rank[v]
  {
    parent' := parent;
    if parent[v] != v {
      var up, p0 := Find(parent, parent[v], rank, rootOf);
      parent' := p0[v := up];
    }
    r := parent'[v];
  }

  /** The ranks after `root1` is hung under `root2`: the absorbed tree is
      lifted above the root it joins. */
  ghost function Lift(rank: map<string, nat>, rootOf: map<string, string>, r1: string, r2: string): map<string, nat>
    requires r2 in rank && rootOf.Keys == rank.Keys
  {
    map x | x in rank :: if rootOf[x] == r1 then rank[x] + rank[r2] + 1 else rank[x]
  }

  /** `parent.put(root1, root2)` on two different roots: the forest absorbs
      the first tree under the second, with ranks lifted to stay ordered. */
  lemma Union(parent: map<string, string>, rank: map<string, nat>, rootOf: map<string, string>,
              r1: string, r2: string)
    requires UnionFind(parent, rank, rootOf)
    requires r1 in parent && r2 in parent && rootOf[r1] == r1 && rootOf[r2] == r2 && r1 != r2
    ensures UnionFind(parent[r1 := r2], Lift(rank, rootOf, r1, r2), Relabel(rootOf, r1, r2))
  {
    UnionRoots(parent, rank, rootOf, r1, r2);
    UnionRanks(parent, rank, rootOf, r1, r2);
  }

  lemma UnionRoots(parent: map<string, string>, rank: map<string, nat>, rootOf: map<string, string>,
                   r1: string, r2: string)
    requires UnionFind(parent, rank, rootOf)
    requires r1 in parent && r2 in parent && rootOf[r1] == r1 && rootOf[r2] == r2 && r1 != r2
    ensures var p' := parent[r1 := r2];
            var ro := Relabel(rootOf, r1, r2);
            p'.Values <= p'.Keys && ro.Values <= p'.Keys
            && (forall v :: v in ro ==> p'[ro[v]] == ro[v])
            && (forall v :: v in p' ==> ro[p'[v]] == ro[v] && (p'[v] == v ==> ro[v] == v))
  {
    var p' := parent[r1 := r2];
    var ro := Relabel(rootOf, r1, r2);
    assert parent[r1] == r1 && parent[r2] == r2;
    forall v | v in p'
      ensures ro[p'[v]] == ro[v]
    {
      if v != r1 {
        assert rootOf[parent[v]] == rootOf[v];
      }
    }
    forall v | v in ro
      ensures p'[ro[v]] == ro[v]
    {
      assert parent[rootOf[v]] == rootOf[v];
    }
    forall y | y in ro.Values
      ensures y in p'
    {
      var v :| v in ro && ro[v] == y;
    }
  }

  lemma UnionRanks(parent: map<string, string>, rank: map<string, nat>, rootOf: map<string, string>,
                   r1: string, r2: string)
    requires UnionFind(parent, rank, rootOf)
    requires r1 in parent && r2 in parent && rootOf[r1] == r1 && rootOf[r2] == r2 && r1 != r2
    ensures var p' := parent[r1 := r2];
            var ro := Relabel(rootOf, r1, r2);
            var rank' := Lift(rank, rootOf, r1, r2);
            forall v :: v in p' && p'[v] != v ==> rank'[p'[v]] < rank'[v] && rank'[ro[v]] < rank'[v]
  {
    var p' := parent[r1 := r2];
    var ro := Relabel(rootOf, r1, r2);
    var rank' := Lift(rank, rootOf, r1, r2);
    forall v | v in p' && p'[v] != v
      ensures rank'[p'[v]] < rank'[v] && rank'[ro[v]] < rank'[v]
    {
      if v != r1 {
        assert rootOf[parent[v]] == rootOf[v];
      }
    }
  }

  /** The state of the edge loop: the parent forest realises the reference
      run's components over the edges processed so far. */
  ghost predicate LoopState(vs: seq<string>, sorted: seq<Edge>, i: nat,
                            parent: map<string, string>, rank: map<string, nat>,
                            rootOf: map<string, string>, mst: seq<Edge>) {
    i <= |sorted| && UnionFind(parent, rank, rootOf)
    && (forall v :: v in parent <==> v in vs)
    && rootOf == Run(sorted[..i], Identity(vs)).comp
    && mst == Run(sorted[..i], Identity(vs)).accepted
  }

  /** `parent.put(v, v)` for every vertex. */
  method InitParent(vs: seq<string>) returns (parent: map<string, string>)
    ensures parent == Identity(vs)
  {
    parent := map[];
    var k := 0;
    while k < |vs|
      invariant k <= |vs|
      invariant parent == Identity(vs[..k])
    {
      assert vs[..k + 1] == vs[..k] + [vs[k]];
      parent := parent[vs[k] := vs[k]];
      k := k + 1;
    }
    assert vs[..k] == vs;
  }

  /** The identity parent map is a forest of single roots. */
  lemma InitState(vs: seq<string>, sorted: seq<Edge>)
    ensures LoopState(vs, sorted, 0, Identity(vs), map v | v in vs :: 0, Identity(vs), [])
  {
    assert sorted[..0] == [];
    var id := Identity(vs);
    forall y | y in id.Values
      ensures y in id
    {
      var v :| v in id && id[v] == y;
    }
  }

  /** The reference run over one more edge. */
  lemma RunNext(sorted: seq<Edge>, i: nat, comp0: map<string, string>)
    requires i < |sorted|
    ensures var f := Run(sorted[..i], comp0);
            var e := sorted[i];
            Run(sorted[..i + 1], comp0)
            == if e.source in f.comp && e.target in f.comp && f.comp[e.source] != f.comp[e.target]
               then Forest(f.accepted + [e], Relabel(f.comp, f.comp[e.source], f.comp[e.target]))
               else f
  {
    assert sorted[..i + 1][..i] == sorted[..i];
  }

  /** Processing edge `i`, whose endpoints have roots `r1` and `r2`, keeps
      the loop state; the edge is accepted exactly when the roots differ. */
  lemma EdgeStep(vs: seq<string>, sorted: seq<Edge>, i: nat, parent: map<string, string>,
                 rank: map<string, nat>, rootOf: map<string, string>, mst: seq<Edge>,
                 r1: string, r2: string)
    requires i < |sorted| && LoopState(vs, sorted, i, parent, rank, rootOf, mst)
    requires sorted[i].source in parent && sorted[i].target in parent
    requires r1 == rootOf[sorted[i].source] && r2 == rootOf[sorted[i].target]
    ensures r1 in parent && r2 in parent && rootOf[r1] == r1 && rootOf[r2] == r2
    ensures r1 != r2 ==>
              LoopState(vs, sorted, i + 1, parent[r1 := r2], Lift(rank, rootOf, r1, r2),
                        Relabel(rootOf, r1, r2), mst + [sorted[i]])
    ensures r1 == r2 ==> LoopState(vs, sorted, i + 1, parent, rank, rootOf, mst)
  {
    assert parent[r1] == r1 && parent[r2] == r2;
    if r1 != r2 {
      EdgeJoin(vs, sorted, i, parent, rank, rootOf, mst, r1, r2);
    } else {
      RunNext(sorted, i, Identity(vs));
    }
  }

  /** The accepting branch of `EdgeStep`. */
  lemma EdgeJoin(vs: seq<string>, sorted: seq<Edge>, i: nat, parent: map<string, string>,
                 rank: map<string, nat>, rootOf: map<string, string>, mst: seq<Edge>,
                 r1: string, r2: string)
    requires i < |sorted| && LoopState(vs, sorted, i, parent, rank, rootOf, mst)
    requires sorted[i].source in parent && sorted[i].target in parent
    requires r1 == rootOf[sorted[i].source] && r2 == rootOf[sorted[i].target] && r1 != r2
    requires r1 in parent && r2 in parent && parent[r1] == r1 && parent[r2] == r2
    ensures LoopState(vs, sorted, i + 1, parent[r1 := r2], Lift(rank, rootOf, r1, r2),
                      Relabel(rootOf, r1, r2), mst + [sorted[i]])
  {
    RunNext(sorted, i, Identity(vs));
    Union(parent, rank, rootOf, r1, r2);
  }

  /** The edge loop of `getKruskal` over the sorted edges. */
  method ProcessEdges(vs: seq<string>, sorted: seq<Edge>, parent0: map<string, string>,
                      ghost rank0: map<string, nat>)
    returns (mst: seq<Edge>)
    requires forall e :: e in sorted ==> e.source in vs && e.target in vs
    requires LoopState(vs, sorted, 0, parent0, rank0, parent0, [])
    ensures mst == Run(sorted, Identity(vs)).accepted
  {
    var parent := parent0;
    ghost var rank := rank0;
    ghost var rootOf := parent0;
    mst := [];
    var i := 0;
    while i < |sorted|
      invariant LoopState(vs, sorted, i, parent, rank, rootOf, mst)
    {
      var e := sorted[i];
      assert e.source in parent && e.target in parent by {
        assert e in sorted;
      }
      var root1, p1 := Find(parent, e.source, rank, rootOf);
      var root2, p2 := Find(p1, e.target, rank, rootOf);
      EdgeStep(vs, sorted, i, p2, rank, rootOf, mst, root1, root2);
      parent := p2;
      if root1 != root2 {
        mst := mst + [e];
        rank := Lift(rank, rootOf, root1, root2);
        rootOf := Relabel(rootOf, root1, root2);
        parent := parent[root1 := root2];
      }
      i := i + 1;
    }
    assert sorted[..i] == sorted;
  }

  /** `getKruskal`.  Every edge endpoint is a vertex, as the graph builders
      guarantee (`parent.get` would otherwise return `null`). */
  method GetKruskal(g: Graph) returns (mst: seq<Edge>)
    requires forall e :: e in g.edges ==> e.source in g.vertices && e.target in g.vertices
    ensures mst == Run(SortByWeight(g.edges), Identity(g.vertices)).accepted
    ensures SortedByWeight(mst)
    ensures forall e :: e in mst ==> e in g.edges
    ensures |mst| + |Classes(Run(SortByWeight(g.edges), Identity(g.vertices)).comp)|
            == |set v | v in g.vertices|
  {
    var sorted := SortByWeight(g.edges);
    SortedEndpoints(g);
    var parent := InitParent(g.vertices);
    ghost var rank: map<string, nat> := map v | v in g.vertices :: 0;
    InitState(g.vertices, sorted);
    mst := ProcessEdges(g.vertices, sorted, parent, rank);
    KruskalFinish(g, sorted, mst);
  }

  lemma SortedEndpoints(g: Graph)
    requires forall e :: e in g.edges ==> e.source in g.vertices && e.target in g.vertices
    ensures forall e :: e in SortByWeight(g.edges) ==> e.source in g.vertices && e.target in g.vertices
  {
    SortByWeightSpec(g.edges);
    forall e | e in SortByWeight(g.edges)
      ensures e.source in g.vertices && e.target in g.vertices
    {
      assert e in multiset(g.edges);
    }
  }

  lemma KruskalFinish(g: Graph, sorted: seq<Edge>, mst: seq<Edge>)
    requires sorted == SortByWeight(g.edges)
    requires mst == Run(sorted, Identity(g.vertices)).accepted
    ensures SortedByWeight(mst)
    ensures forall e :: e in mst ==> e in g.edges
    ensures |mst| + |Classes(Run(sorted, Identity(g.vertices)).comp)| == |set v | v in g.vertices|
  {
    SortByWeightSpec(g.edges);
    RunAccepted(sorted, Identity(g.vertices));
    IdentityClasses(g.vertices);
    RunCount(sorted, Identity(g.vertices));
    forall e | e in mst
      ensures e in g.edges
    {
      assert e in multiset(sorted);
    }
  }
}
