/** The back end's graph: vertices identified by name, weighted edges, and the
    adjacency map from a vertex to its incident edges.  A vertex is its name:
    the graph builders make exactly one vertex per name. */
module GraphModel {
  import opened Common

  datatype Edge = Edge(source: string, target: string, weight: int)

  datatype Graph = Graph(vertices: seq<string>, edges: seq<Edge>,
                         adjacency: map<string, seq<Edge>>)

  /** `Integer.MAX_VALUE`, the "unreachable" distance of the algorithms. */
  const MaxValue: int := 2147483647

  /** Every edge endpoint is a vertex, as the graph builders guarantee. */
  predicate EndpointsIn(g: Graph) {
    forall e :: e in g.edges ==> e.source in g.vertices && e.target in g.vertices
  }

  /** The neighbour reached from `v` over `e`, in either orientation. */
  function Other(e: Edge, v: string): (w: string)
    ensures w == e.source || w == e.target
    ensures e.source == v ==> w == e.target
    ensures e.source != v ==> w == e.source
  {
    if e.source == v then e.target else e.source
  }

  /** The summed weight of a list of edges. */
  function TotalWeight(es: seq<Edge>): int {
    if es == [] then 0 else es[0].weight + TotalWeight(es[1..])
  }

  lemma {:induction false} TotalWeightAppend(a: seq<Edge>, b: seq<Edge>)
    ensures TotalWeight(a + b) == TotalWeight(a) + TotalWeight(b)
  {
    if a != [] {
      TotalWeightAppend(a[1..], b);
      assert (a + b)[1..] == a[1..] + b;
    } else {
      assert a + b == b;
    }
  }

  lemma {:induction false} TotalWeightReverse(s: seq<Edge>)
    ensures TotalWeight(Reverse(s)) == TotalWeight(s)
  {
    if s != [] {
      TotalWeightReverse(s[1..]);
      TotalWeightAppend(Reverse(s[1..]), [s[0]]);
    }
  }

  /** Every vertex that an adjacency list mentions has a list of its own. */
  predicate AdjClosed(adj: map<string, seq<Edge>>) {
    forall v, e :: v in adj && e in adj[v] ==> e.source in adj && e.target in adj
  }

  /** All neighbours named anywhere in the adjacency map. */
  function Neighbours(adj: map<string, seq<Edge>>): set<string> {
    set v, e | v in adj && e in adj[v] :: Other(e, v)
  }

  /** A neighbour entry of the input map `{ name: [{target, distance}] }`. */
  datatype Neighbor = Neighbor(target: string, distance: int)

  /** The input map, keys in their (insertion) order. */
  datatype Input = Input(keys: seq<string>, lists: map<string, seq<Neighbor>>)

  predicate ValidInput(d: Input) {
    Distinct(d.keys) && (forall k :: k in d.keys ==> k in d.lists)
    && (forall k :: k in d.lists ==> k in d.keys)
  }

  /** The edges of one key's neighbour list, in order. */
  function EdgesOfKey(k: string, ns: seq<Neighbor>): (es: seq<Edge>)
    ensures |es| == |ns|
    ensures forall i :: 0 <= i < |ns| ==> es[i] == Edge(k, ns[i].target, ns[i].distance)
  {
    seq(|ns|, i requires 0 <= i < |ns| => Edge(k, ns[i].target, ns[i].distance))
  }

  /** The edges of the keys `ks`, key by key, each neighbour once. */
  function EdgesFrom(ks: seq<string>, lists: map<string, seq<Neighbor>>): seq<Edge>
    requires forall k :: k in ks ==> k in lists
  {
    if ks == [] then []
    else
      var k := ks[|ks| - 1];
      EdgesFrom(ks[..|ks| - 1], lists) + EdgesOfKey(k, lists[k])
  }

  function Targets(es: seq<Edge>): (ts: seq<string>)
    ensures |ts| == |es| && forall i :: 0 <= i < |es| ==> ts[i] == es[i].target
  {
    seq(|es|, i requires 0 <= i < |es| => es[i].target)
  }

  function Sources(es: seq<Edge>): (ss: seq<string>)
    ensures |ss| == |es| && forall i :: 0 <= i < |es| ==> ss[i] == es[i].source
  {
    seq(|es|, i requires 0 <= i < |es| => es[i].source)
  }

  /** `computeIfAbsent(v, k -> new ArrayList<>()).add(e)`. */
  function AddIncidence(adj: map<string, seq<Edge>>, v: string, e: Edge): map<string, seq<Edge>> {
    adj[v := (if v in adj then adj[v] else []) + [e]]
  }

  /** The adjacency map after adding every edge of `es`, in order, at its
      source and then at its target, starting from `base`. */
  function IncidenceOf(base: map<string, seq<Edge>>, es: seq<Edge>): map<string, seq<Edge>> {
    if es == [] then base
    else
      var e := es[|es| - 1];
      AddIncidence(AddIncidence(IncidenceOf(base, es[..|es| - 1]), e.source, e), e.target, e)
  }

  /** Reference definition: the edges of `es` incident to `v`, in order, a
      self-loop twice. */
  function Incident(es: seq<Edge>, v: string): seq<Edge> {
    if es == [] then []
    else
      var e := es[|es| - 1];
      Incident(es[..|es| - 1], v) + (if e.source == v then [e] else [])
        + (if e.target == v then [e] else [])
  }

  /** The reference list holds exactly the edges of `es` that touch `v`. */
  lemma {:induction false} IncidentMembers(es: seq<Edge>, v: string, f: Edge)
    ensures f in Incident(es, v) <==> f in es && (f.source == v || f.target == v)
  {
    if es != [] {
      var init := es[..|es| - 1];
      IncidentMembers(init, v, f);
      assert es == init + [es[|es| - 1]];
    }
  }

  /** The adjacency map built by `IncidenceOf` holds, for each vertex, its
      base list followed by exactly its incident edges; a vertex has an entry
      iff it has a base entry or some incident edge. */
  lemma {:induction false} IncidenceOfSpec(base: map<string, seq<Edge>>, es: seq<Edge>, v: string)
    ensures v in IncidenceOf(base, es) <==> v in base || Incident(es, v) != []
    ensures v in IncidenceOf(base, es) ==>
              IncidenceOf(base, es)[v] == (if v in base then base[v] else []) + Incident(es, v)
  {
    if es != [] {
      var init := es[..|es| - 1];
      var e := es[|es| - 1];
      IncidenceOfSpec(base, init, v);
      IncidenceStep(IncidenceOf(base, init), e, v);
      var x: seq<Edge> := if e.source == v then [e] else [];
      var y: seq<Edge> := if e.target == v then [e] else [];
      assert Incident(es, v) == Incident(init, v) + x + y;
      if v in IncidenceOf(base, es) && v in IncidenceOf(base, init) {
        var b: seq<Edge> := if v in base then base[v] else [];
        assert IncidenceOf(base, es)[v] == b + Incident(init, v) + x + y;
      }
    }
  }

  /** Adding one edge at both ends appends it to the list of each end. */
  lemma IncidenceStep(a: map<string, seq<Edge>>, e: Edge, v: string)
    ensures var r := AddIncidence(AddIncidence(a, e.source, e), e.target, e);
            (v in r <==> v in a || e.source == v || e.target == v)
            && (v in r ==> r[v] == (if v in a then a[v] else [])
                                   + (if e.source == v then [e] else []) + (if e.target == v then [e] else []))
  {
  }

  /** Every edge occurrence is listed at each endpoint, so the lists of an
      incidence map mention only endpoints that have a list. */
  lemma {:induction false} IncidenceOfClosed(base: map<string, seq<Edge>>, es: seq<Edge>)
    requires AdjClosed(base)
    ensures AdjClosed(IncidenceOf(base, es))
  {
    if es != [] {
      var init := es[..|es| - 1];
      var e := es[|es| - 1];
      IncidenceOfClosed(base, init);
      var a := IncidenceOf(base, init);
      var r := IncidenceOf(base, es);
      forall v, f: Edge | v in r && f in r[v]
        ensures f.source in r && f.target in r
      {
        if v in a && f in a[v] {
        } else {
          assert f == e;
        }
      }
    }
  }

  /** Number of neighbour entries of the keys `ks`. */
  function EntryCount(ks: seq<string>, lists: map<string, seq<Neighbor>>): nat
    requires forall k :: k in ks ==> k in lists
  {
    if ks == [] then 0 else EntryCount(ks[..|ks| - 1], lists) + |lists[ks[|ks| - 1]]|
  }

  /** One edge per neighbour entry: no dedup and no mirroring. */
  lemma {:induction false} EdgesFromCount(ks: seq<string>, lists: map<string, seq<Neighbor>>)
    requires forall k :: k in ks ==> k in lists
    ensures |EdgesFrom(ks, lists)| == EntryCount(ks, lists)
  {
    if ks != [] {
      EdgesFromCount(ks[..|ks| - 1], lists);
    }
  }

  /** Each edge comes from a neighbour entry of its source key. */
  lemma {:induction false} EdgesFromOrigin(ks: seq<string>, lists: map<string, seq<Neighbor>>, e: Edge)
    requires forall k :: k in ks ==> k in lists
    requires e in EdgesFrom(ks, lists)
    ensures e.source in ks && Neighbor(e.target, e.weight) in lists[e.source]
  {
    var init := ks[..|ks| - 1];
    var k := ks[|ks| - 1];
    if e in EdgesFrom(init, lists) {
      EdgesFromOrigin(init, lists, e);
    } else {
      var es := EdgesOfKey(k, lists[k]);
      var i :| 0 <= i < |es| && es[i] == e;
      assert lists[k][i] == Neighbor(e.target, e.weight);
    }
  }

  /** Conversely, each neighbour entry of a key yields an edge. */
  lemma {:induction false} EdgesFromComplete(ks: seq<string>, lists: map<string, seq<Neighbor>>, k: string, n: Neighbor)
    requires forall k :: k in ks ==> k in lists
    requires k in ks && n in lists[k]
    ensures Edge(k, n.target, n.distance) in EdgesFrom(ks, lists)
  {
    var init := ks[..|ks| - 1];
    var last := ks[|ks| - 1];
    if k == last {
      var i :| 0 <= i < |lists[k]| && lists[k][i] == n;
      assert EdgesOfKey(k, lists[k])[i] == Edge(k, n.target, n.distance);
    } else {
      EdgesFromComplete(init, lists, k, n);
    }
  }
}
