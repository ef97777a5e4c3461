/** Building the back end's graph from the adjacency map a client sends
    (`fromMap`) or from a JSON resource (the graph-building part of
    `loadJson`), looking a vertex up by name and listing the neighbours of a
    vertex. */
module GraphUtils {
  import opened Common
  import opened GraphModel

  /** ASCII case folding, an approximation of the case folding that
      `String.equalsIgnoreCase` applies to every character. */
  function FoldCase(c: char): (f: char)
    ensures 'A' <= c <= 'Z' ==> f as int == c as int + 32
    ensures !('A' <= c <= 'Z') ==> f == c
  {
    if 'A' <= c <= 'Z' then (c as int + 32) as char else c
  }

  predicate EqualsIgnoreCase(a: string, b: string) {
    |a| == |b| && forall i :: 0 <= i < |a| ==> FoldCase(a[i]) == FoldCase(b[i])
  }

  /** The first vertex, in array order, whose name equals the query up to
      case; `IllegalArgumentException` when there is none. */
  function Lookup(vertices: seq<string>, name: string): (r: Result<string>)
    ensures r.Ok? ==> exists i :: 0 <= i < |vertices| && vertices[i] == r.value
                        && EqualsIgnoreCase(r.value, name)
                        && forall j :: 0 <= j < i ==> !EqualsIgnoreCase(vertices[j], name)
    ensures r.Err? <==> forall i :: 0 <= i < |vertices| ==> !EqualsIgnoreCase(vertices[i], name)
    ensures r.Err? ==> r.error == "Vertex not found : " + name
  {
    if vertices == [] then Err("Vertex not found : " + name)
    else if EqualsIgnoreCase(vertices[0], name) then Ok(vertices[0])
    else
      var r := Lookup(vertices[1..], name);
      assert forall i :: 0 < i < |vertices| ==> vertices[i] == vertices[1..][i - 1];
      if r.Ok? then
        var i :| 0 <= i < |vertices[1..]| && vertices[1..][i] == r.value
                 && forall j :: 0 <= j < i ==> !EqualsIgnoreCase(vertices[1..][j], name);
        assert vertices[i + 1] == r.value;
        r
      else r
  }

  /** `searchVertex`: a linear scan computing `Lookup`. */
  method SearchVertex(vertices: seq<string>, name: string) returns (r: Result<string>)
    ensures r == Lookup(vertices, name)
  {
    var i := 0;
    while i < |vertices|
      invariant 0 <= i <= |vertices|
      invariant Lookup(vertices, name) == Lookup(vertices[i..], name)
    {
      assert vertices[i..][1..] == vertices[i + 1..];
      if EqualsIgnoreCase(vertices[i], name) {
        return Ok(vertices[i]);
      }
      i := i + 1;
    }
    return Err("Vertex not found : " + name);
  }

  /** One edge per neighbour entry, key by key in key order: the edge loops
      of `fromMap` and of `loadJson`. */
  method CollectEdges(d: Input) returns (edges: seq<Edge>)
    requires ValidInput(d)
    ensures edges == EdgesFrom(d.keys, d.lists)
  {
    edges := [];
    var i := 0;
    while i < |d.keys|
      invariant 0 <= i <= |d.keys|
      invariant edges == EdgesFrom(d.keys[..i], d.lists)
    {
      var k := d.keys[i];
      var ns := d.lists[k];
      var j := 0;
      while j < |ns|
        invariant 0 <= j <= |ns|
        invariant edges == EdgesFrom(d.keys[..i], d.lists) + EdgesOfKey(k, ns)[..j]
      {
        edges := edges + [Edge(k, ns[j].target, ns[j].distance)];
        assert EdgesOfKey(k, ns)[..j + 1] == EdgesOfKey(k, ns)[..j] + [EdgesOfKey(k, ns)[j]];
        j := j + 1;
      }
      assert d.keys[..i + 1][..i] == d.keys[..i];
      assert EdgesOfKey(k, ns)[..j] == EdgesOfKey(k, ns);
      i := i + 1;
    }
    assert d.keys[..i] == d.keys;
  }

  /** Each edge added at its source and then at its target, creating the
      list on first use (`computeIfAbsent(...).add(e)`). */
  method AddIncidences(base: map<string, seq<Edge>>, edges: seq<Edge>)
    returns (adj: map<string, seq<Edge>>)
    ensures adj == IncidenceOf(base, edges)
  {
    adj := base;
    var i := 0;
    while i < |edges|
      invariant 0 <= i <= |edges|
      invariant adj == IncidenceOf(base, edges[..i])
    {
      var e := edges[i];
      assert edges[..i + 1][..i] == edges[..i];
      adj := AddIncidence(adj, e.source, e);
      adj := AddIncidence(adj, e.target, e);
      i := i + 1;
    }
    assert edges[..i] == edges;
  }

  /** `fromMap`: the keys become the vertices, every neighbour entry one edge
      (no dedup, no mirroring), and each edge is listed at both endpoints,
      so a self-loop is listed twice and a vertex without incident edges has
      no adjacency entry. */
  method FromMap(d: Input) returns (g: Graph)
    requires ValidInput(d)
    requires forall k, n :: k in d.lists && n in d.lists[k] ==> n.target in d.keys
    ensures g.vertices == d.keys
    ensures g.edges == EdgesFrom(d.keys, d.lists)
    ensures |g.edges| == EntryCount(d.keys, d.lists)
    ensures forall v :: v in g.adjacency <==> Incident(g.edges, v) != []
    ensures forall v :: v in g.adjacency ==> g.adjacency[v] == Incident(g.edges, v)
    ensures AdjClosed(g.adjacency)
  {
    var vertices := [];
    var i := 0;
    while i < |d.keys|
      invariant 0 <= i <= |d.keys|
      invariant vertices == d.keys[..i]
    {
      vertices := vertices + [d.keys[i]];
      i := i + 1;
    }
    assert vertices == d.keys;
    var edges := CollectEdges(d);
    var adj := AddIncidences(map[], edges);
    EdgesFromCount(d.keys, d.lists);
    IncidenceOfClosed(map[], edges);
    forall v
      ensures v in adj <==> Incident(edges, v) != []
      ensures v in adj ==> adj[v] == Incident(edges, v)
    {
      IncidenceOfSpec(map[], edges, v);
    }
    g := Graph(vertices, edges, adj);
  }

  /** The vertex list of `loadJson`: the vertices `vs`, then each name of
      `ts` that is not yet present, in order. */
  function WithTargets(vs: seq<string>, ts: seq<string>): (r: seq<string>)
    ensures |vs| <= |r| && r[..|vs|] == vs
    ensures Distinct(vs) ==> Distinct(r)
    ensures forall x :: x in r <==> x in vs || x in ts
  {
    if ts == [] then vs
    else
      var p := WithTargets(vs, ts[..|ts| - 1]);
      var t := ts[|ts| - 1];
      assert forall x :: x in ts <==> x in ts[..|ts| - 1] || x == t;
      if t in p then p else
        assert (p + [t])[..|vs|] == p[..|vs|];
        p + [t]
  }

  /** An empty list for every vertex. */
  function EmptyLists(vs: seq<string>): (m: map<string, seq<Edge>>)
    ensures forall v :: v in m <==> v in vs
    ensures forall v :: v in m ==> m[v] == []
  {
    map v | v in vs :: []
  }

  /** The target names of a neighbour list. */
  function NamesOf(ns: seq<Neighbor>): (ts: seq<string>)
    ensures |ts| == |ns| && forall i :: 0 <= i < |ns| ==> ts[i] == ns[i].target
  {
    seq(|ns|, i requires 0 <= i < |ns| => ns[i].target)
  }

  /** All target names of the keys `ks`, key by key. */
  function TargetNames(ks: seq<string>, lists: map<string, seq<Neighbor>>): seq<string>
    requires forall k :: k in ks ==> k in lists
  {
    if ks == [] then [] else TargetNames(ks[..|ks| - 1], lists) + NamesOf(lists[ks[|ks| - 1]])
  }

  lemma {:induction false} TargetNamesOfEdges(ks: seq<string>, lists: map<string, seq<Neighbor>>)
    requires forall k :: k in ks ==> k in lists
    ensures TargetNames(ks, lists) == Targets(EdgesFrom(ks, lists))
  {
    if ks != [] {
      var init := ks[..|ks| - 1];
      var k := ks[|ks| - 1];
      TargetNamesOfEdges(init, lists);
      TargetsAppend(EdgesFrom(init, lists), EdgesOfKey(k, lists[k]));
      assert Targets(EdgesOfKey(k, lists[k])) == NamesOf(lists[k]);
    }
  }

  /** Adding names in two batches is adding them at once. */
  lemma {:induction false} WithTargetsAppend(vs: seq<string>, a: seq<string>, b: seq<string>)
    ensures WithTargets(vs, a + b) == WithTargets(WithTargets(vs, a), b)
    decreases |b|
  {
    if b != [] {
      assert (a + b)[..|a + b| - 1] == a + b[..|b| - 1];
      WithTargetsAppend(vs, a, b[..|b| - 1]);
    } else {
      assert a + b == a;
    }
  }

  /** The inner loop of `loadJson`'s second vertex loop: each target not yet
      among the vertices is appended. */
  method AddNewNames(vs: seq<string>, ns: seq<Neighbor>) returns (r: seq<string>)
    ensures r == WithTargets(vs, NamesOf(ns))
  {
    r := vs;
    var j := 0;
    while j < |ns|
      invariant 0 <= j <= |ns|
      invariant r == WithTargets(vs, NamesOf(ns)[..j])
    {
      var name := ns[j].target;
      if name !in r {
        r := r + [name];
      }
      assert NamesOf(ns)[..j + 1][..j] == NamesOf(ns)[..j];
      j := j + 1;
    }
    assert NamesOf(ns)[..j] == NamesOf(ns);
  }

  /** The vertex loops of `loadJson`: the keys, then every target name not
      already present. */
  method LoadJsonVertices(d: Input) returns (vertices: seq<string>)
    requires ValidInput(d)
    ensures vertices == WithTargets(d.keys, Targets(EdgesFrom(d.keys, d.lists)))
  {
    vertices := [];
    var i := 0;
    while i < |d.keys|
      invariant 0 <= i <= |d.keys|
      invariant vertices == d.keys[..i]
    {
      vertices := vertices + [d.keys[i]];
      i := i + 1;
    }
    assert vertices == d.keys;
    i := 0;
    while i < |d.keys|
      invariant 0 <= i <= |d.keys|
      invariant vertices == WithTargets(d.keys, TargetNames(d.keys[..i], d.lists))
    {
      var k := d.keys[i];
      WithTargetsAppend(d.keys, TargetNames(d.keys[..i], d.lists), NamesOf(d.lists[k]));
      vertices := AddNewNames(vertices, d.lists[k]);
      assert d.keys[..i + 1][..i] == d.keys[..i];
      i := i + 1;
    }
    assert d.keys[..i] == d.keys;
    TargetNamesOfEdges(d.keys, d.lists);
  }

  /** Every target of the input is a vertex of `loadJson`'s graph. */
  lemma LoadJsonTargets(d: Input, k: string, n: Neighbor)
    requires ValidInput(d)
    requires k in d.lists && n in d.lists[k]
    ensures n.target in WithTargets(d.keys, Targets(EdgesFrom(d.keys, d.lists)))
  {
    var edges := EdgesFrom(d.keys, d.lists);
    EdgesFromComplete(d.keys, d.lists, k, n);
    var idx :| 0 <= idx < |edges| && edges[idx] == Edge(k, n.target, n.distance);
    assert Targets(edges)[idx] == n.target;
  }

  /** Each endpoint of an edge of `loadJson` is a vertex. */
  lemma LoadJsonEndpoints(d: Input, f: Edge)
    requires ValidInput(d)
    requires f in EdgesFrom(d.keys, d.lists)
    ensures f.source in WithTargets(d.keys, Targets(EdgesFrom(d.keys, d.lists)))
    ensures f.target in WithTargets(d.keys, Targets(EdgesFrom(d.keys, d.lists)))
  {
    EdgesFromOrigin(d.keys, d.lists, f);
    LoadJsonTargets(d, f.source, Neighbor(f.target, f.weight));
  }

  /** The graph-building part of `loadJson`: the keys and then the names
      met only as targets become the vertices, without duplicates; every
      neighbour entry is one edge; every vertex gets an adjacency list,
      possibly empty, listing its incident edges. */
  method LoadJsonGraph(d: Input) returns (g: Graph)
    requires ValidInput(d)
    ensures g.vertices == WithTargets(d.keys, Targets(EdgesFrom(d.keys, d.lists)))
    ensures Distinct(g.vertices) && g.vertices[..|d.keys|] == d.keys
    ensures forall k, n :: k in d.lists && n in d.lists[k] ==> n.target in g.vertices
    ensures g.edges == EdgesFrom(d.keys, d.lists)
    ensures forall v :: v in g.adjacency <==> v in g.vertices
    ensures forall v :: v in g.adjacency ==> g.adjacency[v] == Incident(g.edges, v)
    ensures AdjClosed(g.adjacency)
  {
    var vertices := LoadJsonVertices(d);
    var edges := CollectEdges(d);
    var adj := AddIncidences(EmptyLists(vertices), edges);
    forall k, n | k in d.lists && n in d.lists[k]
      ensures n.target in vertices
    {
      LoadJsonTargets(d, k, n);
    }
    forall v
      ensures v in adj <==> v in vertices
      ensures v in adj ==> adj[v] == Incident(edges, v)
    {
      IncidenceOfSpec(EmptyLists(vertices), edges, v);
      if Incident(edges, v) != [] {
        var f := Incident(edges, v)[0];
        IncidentMembers(edges, v, f);
        LoadJsonEndpoints(d, f);
      }
    }
    IncidenceOfClosed(EmptyLists(vertices), edges);
    g := Graph(vertices, edges, adj);
  }

  lemma TargetsAppend(a: seq<Edge>, b: seq<Edge>)
    ensures Targets(a + b) == Targets(a) + Targets(b)
  {
  }

  /** `getNeighbors`: the other endpoint of each incident edge, in adjacency
      order; a vertex without an adjacency entry makes the loop dereference
      `null`. */
  method GetNeighbors(g: Graph, v: string) returns (r: Result<seq<string>>)
    ensures r.Ok? <==> v in g.adjacency
    ensures r.Ok? ==> |r.value| == |g.adjacency[v]|
                      && forall i :: 0 <= i < |r.value| ==> r.value[i] == Other(g.adjacency[v][i], v)
    ensures r.Err? ==> r.error == "NullPointerException"
  {
    if v !in g.adjacency {
      return Err("NullPointerException");
    }
    var es := g.adjacency[v];
    var ns: seq<string> := [];
    var i := 0;
    while i < |es|
      invariant 0 <= i <= |es|
      invariant |ns| == i && forall j :: 0 <= j < i ==> ns[j] == Other(es[j], v)
    {
      ns := ns + [Other(es[i], v)];
      i := i + 1;
    }
    return Ok(ns);
  }
}
