/** The application shell: its own converter for the bundled graphs
    (`adjacencyToNodesLinks`, entries `{ville, distance}`), the guards of
    `handleSendGraph`, the normalisation of the edges the back end returns,
    the highlight steps and the displayed total. */
module App {
  import opened Common
  import opened FrontModel
  import opened ApiService
  import opened Converters
  import GraphModel

  // ---------------------------------------------------------------------
  // adjacencyToNodesLinks

  /** An entry `{ville, distance}` of a bundled graph; either field may be
      missing. */
  datatype Ville = Ville(ville: Option<string>, distance: Option<int>)

  /** A bundled graph: its keys in `Object.keys` order and the list under
      each key. */
  datatype AppGraph = AppGraph(keys: seq<string>, lists: map<string, seq<Ville>>)

  predicate ValidApp(g: AppGraph) {
    Distinct(g.keys) && (forall k :: k in g.keys ==> k in g.lists) && (forall k :: k in g.lists ==> k in g.keys)
  }

  /** Every entry of one list, unfiltered: the weight is the raw distance. */
  function VilleCandidates(from: string, vs: seq<Ville>): (cs: seq<Candidate>)
    ensures |cs| == |vs|
    ensures forall i :: 0 <= i < |vs| ==> cs[i] == Candidate(from, vs[i].ville, vs[i].distance)
  {
    seq(|vs|, i requires 0 <= i < |vs| => Candidate(from, vs[i].ville, vs[i].distance))
  }

  /** The entries of the keys `ks`, key by key. */
  function AppCandidates(ks: seq<string>, lists: map<string, seq<Ville>>): seq<Candidate>
    requires forall k :: k in ks ==> k in lists
  {
    if ks == [] then []
    else AppCandidates(ks[..|ks| - 1], lists) + VilleCandidates(ks[|ks| - 1], lists[ks[|ks| - 1]])
  }

  /** `${from}_${ville}` when directed, the sorted join otherwise. */
  function AppRule(directed: bool): KeyRule {
    if directed then Ordered else SortedPair
  }

  /** The nodes are the keys; each entry whose key is new becomes a link. */
  function AppConvert(g: AppGraph, directed: bool): (seq<string>, seq<Link>)
    requires ValidApp(g)
  {
    (g.keys, LinksOf(g.keys, Kept(AppCandidates(g.keys, g.lists), AppRule(directed))))
  }

  /** The inner loop over one key's entries. */
  method AddVilles(ids: seq<string>, from: string, vs: seq<Ville>, rule: KeyRule,
                   links0: seq<Link>, added0: set<string>, ghost cs0: seq<Candidate>)
    returns (links: seq<Link>, added: set<string>, ghost cs: seq<Candidate>)
    requires links0 == LinksOf(ids, Kept(cs0, rule))
    requires rule != KeepAll ==> added0 == KeySet(cs0, rule)
    ensures cs == cs0 + VilleCandidates(from, vs)
    ensures links == LinksOf(ids, Kept(cs, rule))
    ensures rule != KeepAll ==> added == KeySet(cs, rule)
  {
    links, added, cs := links0, added0, cs0;
    var j := 0;
    while j < |vs|
      invariant 0 <= j <= |vs|
      invariant cs == cs0 + VilleCandidates(from, vs[..j])
      invariant links == LinksOf(ids, Kept(cs, rule))
      invariant rule != KeepAll ==> added == KeySet(cs, rule)
    {
      var c := Candidate(from, vs[j].ville, vs[j].distance);
      assert VilleCandidates(from, vs[..j + 1]) == VilleCandidates(from, vs[..j]) + [c];
      links, added := Offer(ids, c, rule, links, added, cs);
      cs := cs + [c];
      j := j + 1;
    }
    assert vs[..j] == vs;
  }

  /** `adjacencyToNodesLinks(graph, directed)`. */
  method AdjacencyToNodesLinks(g: AppGraph, directed: bool) returns (nodes: seq<string>, links: seq<Link>)
    requires ValidApp(g)
    ensures (nodes, links) == AppConvert(g, directed)
  {
    var rule := AppRule(directed);
    assert rule != KeepAll;
    nodes := g.keys;
    links := [];
    var added: set<string> := {};
    ghost var cs: seq<Candidate> := [];
    var i := 0;
    while i < |g.keys|
      invariant 0 <= i <= |g.keys|
      invariant cs == AppCandidates(g.keys[..i], g.lists)
      invariant links == LinksOf(nodes, Kept(cs, rule))
      invariant added == KeySet(cs, rule)
    {
      var from := g.keys[i];
      assert g.keys[..i + 1][..i] == g.keys[..i];
      assert AppCandidates(g.keys[..i + 1], g.lists) == cs + VilleCandidates(from, g.lists[from]);
      links, added, cs := AddVilles(nodes, from, g.lists[from], rule, links, added, cs);
      i := i + 1;
    }
    assert g.keys[..i] == g.keys;
  }

  lemma {:induction false} AppCandidatesOrigin(ks: seq<string>, lists: map<string, seq<Ville>>, c: Candidate)
    requires forall k :: k in ks ==> k in lists
    requires c in AppCandidates(ks, lists)
    ensures c.from in ks && Ville(c.target, c.weight) in lists[c.from]
  {
    var init := ks[..|ks| - 1];
    if c in AppCandidates(init, lists) {
      AppCandidatesOrigin(init, lists, c);
    } else {
      var vs := lists[ks[|ks| - 1]];
      var i :| 0 <= i < |vs| && VilleCandidates(ks[|ks| - 1], vs)[i] == c;
      assert vs[i] == Ville(c.target, c.weight);
    }
  }

  lemma {:induction false} AppCandidatesComplete(ks: seq<string>, lists: map<string, seq<Ville>>, k: string, v: Ville)
    requires forall k :: k in ks ==> k in lists
    requires k in ks && v in lists[k]
    ensures Candidate(k, v.ville, v.distance) in AppCandidates(ks, lists)
  {
    var init := ks[..|ks| - 1];
    var last := ks[|ks| - 1];
    if k == last {
      var i :| 0 <= i < |lists[k]| && lists[k][i] == v;
      assert VilleCandidates(k, lists[k])[i] == Candidate(k, v.ville, v.distance);
    } else {
      AppCandidatesComplete(init, lists, k, v);
    }
  }

  /** Every link comes from an entry, with the entry's raw distance as its
      weight (no `?? 0` here); and every entry is represented: some link has
      its dedup key. */
  lemma AppConvertLinks(g: AppGraph, directed: bool)
    requires ValidApp(g)
    ensures AppConvert(g, directed).0 == g.keys
    ensures forall l :: l in AppConvert(g, directed).1 ==>
              exists k, v :: k in g.keys && v in g.lists[k]
                && l == LinkOf(g.keys, Candidate(k, v.ville, v.distance))
    ensures forall k, v :: k in g.keys && v in g.lists[k] ==>
              exists c :: c in Kept(AppCandidates(g.keys, g.lists), AppRule(directed))
                && KeyOf(c, AppRule(directed)) == KeyOf(Candidate(k, v.ville, v.distance), AppRule(directed))
  {
    var cs := AppCandidates(g.keys, g.lists);
    var rule := AppRule(directed);
    KeptWithin(cs, rule);
    forall l | l in AppConvert(g, directed).1
      ensures exists k, v :: k in g.keys && v in g.lists[k]
                && l == LinkOf(g.keys, Candidate(k, v.ville, v.distance))
    {
      var i :| 0 <= i < |Kept(cs, rule)| && LinksOf(g.keys, Kept(cs, rule))[i] == l;
      var c := Kept(cs, rule)[i];
      AppCandidatesOrigin(g.keys, g.lists, c);
      assert l == LinkOf(g.keys, Candidate(c.from, Ville(c.target, c.weight).ville, Ville(c.target, c.weight).distance));
    }
    forall k, v | k in g.keys && v in g.lists[k]
      ensures exists c :: c in Kept(cs, rule) && KeyOf(c, rule) == KeyOf(Candidate(k, v.ville, v.distance), rule)
    {
      AppCandidatesComplete(g.keys, g.lists, k, v);
      KeptCovers(cs, rule, Candidate(k, v.ville, v.distance));
    }
  }

  /** No two links share a dedup key, and each link is the first entry of
      its key. */
  lemma AppKeepsFirst(g: AppGraph, directed: bool)
    requires ValidApp(g)
    ensures var ks := Kept(AppCandidates(g.keys, g.lists), AppRule(directed));
            forall i, j :: 0 <= i < j < |ks| ==> KeyOf(ks[i], AppRule(directed)) != KeyOf(ks[j], AppRule(directed))
    ensures var cs := AppCandidates(g.keys, g.lists);
            forall k :: k in Kept(cs, AppRule(directed)) ==>
              exists i :: 0 <= i < |cs| && cs[i] == k && FirstAt(cs, i, AppRule(directed))
  {
    KeptKeys(AppCandidates(g.keys, g.lists), AppRule(directed));
    KeptFirst(AppCandidates(g.keys, g.lists), AppRule(directed));
  }

  // ---------------------------------------------------------------------
  // handleSendGraph: the guards

  /** A request sent to the back end. */
  datatype Request = Bfs(start: string) | Dfs(start: string) | Kruskal | Prim(start: string)
                   | Dijkstra(start: string, end: string) | FloydWarshall(start: string, end: string)

  /** What one call does before awaiting the answer: `graphToAdjacency`
      throws, an alert, a silent return, or a request with the adjacency. */
  datatype Outcome = Threw(error: string) | Alert(message: string) | Ignored
                   | Sent(request: Request, adjacency: Adjacency)

  const PickStart: string := "Choisis un sommet de départ"
  const PickBoth: string := "Choisis deux sommets"

  /** A JavaScript-truthy optional string. */
  predicate Truthy(s: Option<string>) {
    s.Some? && s.value != ""
  }

  predicate NeedsStart(algo: string) {
    algo == "bfs" || algo == "dfs" || algo == "prim"
  }

  predicate NeedsBoth(algo: string) {
    algo == "dijkstra" || algo == "floydwarshall"
  }

  function RequestName(r: Request): string {
    match r
    case Bfs(_) => "bfs"
    case Dfs(_) => "dfs"
    case Kruskal => "kruskal"
    case Prim(_) => "prim"
    case Dijkstra(_, _) => "dijkstra"
    case FloydWarshall(_, _) => "floydwarshall"
  }

  /** `handleSendGraph(algorithm, start, end)` up to the request: the
      adjacency is built first, always undirected, then the switch. */
  method HandleSendGraph(algo: string, start: Option<string>, end: Option<string>,
                         nodes: seq<string>, links: seq<Link>) returns (o: Outcome)
    ensures AdjacencyOf(nodes, links, false, false).Err? ==> o == Threw(AdjacencyOf(nodes, links, false, false).error)
    ensures o.Sent? ==> AdjacencyOf(nodes, links, false, false) == Ok(o.adjacency)
    ensures AdjacencyOf(nodes, links, false, false).Ok? ==>
              && (NeedsStart(algo) && !Truthy(start) ==> o == Alert(PickStart))
              && (NeedsBoth(algo) && !(Truthy(start) && Truthy(end)) ==> o == Alert(PickBoth))
              && (!NeedsStart(algo) && !NeedsBoth(algo) && algo != "kruskal" ==> o == Ignored)
              && (o.Sent? <==> algo == "kruskal" || (NeedsStart(algo) && Truthy(start))
                               || (NeedsBoth(algo) && Truthy(start) && Truthy(end)))
    ensures o.Sent? ==> RequestName(o.request) == algo
    ensures o.Sent? && !o.request.Kruskal? ==> start.Some? && o.request.start == start.value
    ensures o.Sent? && (o.request.Dijkstra? || o.request.FloydWarshall?) ==> end.Some? && o.request.end == end.value
  {
    var adj := GraphToAdjacency(nodes, links, false);
    if adj.Err? {
      return Threw(adj.error);
    }
    var a := adj.value;
    if algo == "bfs" || algo == "dfs" || algo == "prim" {
      if !(start.Some? && start.value != "") {
        return Alert(PickStart);
      }
      var r := if algo == "bfs" then Bfs(start.value) else if algo == "dfs" then Dfs(start.value) else Prim(start.value);
      return Sent(r, a);
    } else if algo == "kruskal" {
      return Sent(Kruskal, a);
    } else if algo == "dijkstra" || algo == "floydwarshall" {
      if !(start.Some? && start.value != "") || !(end.Some? && end.value != "") {
        return Alert(PickBoth);
      }
      var r := if algo == "dijkstra" then Dijkstra(start.value, end.value) else FloydWarshall(start.value, end.value);
      return Sent(r, a);
    }
    return Ignored;
  }

  // ---------------------------------------------------------------------
  // handleAlgoSelect and handleLaunch

  /** The part of the page state these two handlers read and write. */
  datatype Panel = Panel(selected: Option<string>, startNode: string, endNode: string,
                         nodes: seq<string>, links: seq<Link>, directed: bool,
                         highlight: map<string, string>, edgeList: seq<Row>)

  /** The bundled graph `handleAlgoSelect` draws for an algorithm. */
  function GraphFor(algo: string, base: AppGraph, bellman: AppGraph, floyd: AppGraph): AppGraph {
    if algo == "bellmanford" then bellman else if algo == "floydwarshall" then floyd else base
  }

  /** `handleAlgoSelect(algo)`: `resetState` clears the highlight, the list
      and both chosen vertices; the algorithm is selected; the Bellman–Ford
      and Floyd–Warshall graphs are drawn directed, the base graph
      undirected for every other algorithm. */
  function AlgoSelect(p: Panel, algo: string, base: AppGraph, bellman: AppGraph, floyd: AppGraph): (q: Panel)
    requires ValidApp(base) && ValidApp(bellman) && ValidApp(floyd)
    ensures q.selected == Some(algo) && q.startNode == "" && q.endNode == ""
    ensures q.highlight == map[] && q.edgeList == []
    ensures q.directed <==> algo == "bellmanford" || algo == "floydwarshall"
    ensures q.nodes == GraphFor(algo, base, bellman, floyd).keys
    ensures forall l :: l in q.links ==>
              var g := GraphFor(algo, base, bellman, floyd);
              exists k, v :: k in g.keys && v in g.lists[k] && l == LinkOf(g.keys, Candidate(k, v.ville, v.distance))
  {
    var directed := algo == "bellmanford" || algo == "floydwarshall";
    var g := GraphFor(algo, base, bellman, floyd);
    AppConvertLinks(g, directed);
    var (nodes, links) := AppConvert(g, directed);
    Panel(Some(algo), "", "", nodes, links, directed, map[], [])
  }

  /** The arguments of the `handleSendGraph` call `handleLaunch` makes. */
  datatype Call = Call(algo: string, start: Option<string>, end: Option<string>)

  /** `handleLaunch`: no call without a selection or for an algorithm the
      switch does not list (Bellman–Ford among them); Kruskal without
      vertices, the other traversals with the start, Dijkstra and
      Floyd–Warshall with both. */
  function LaunchCall(p: Panel): (c: Option<Call>)
    ensures c.Some? <==> p.selected.Some? && (NeedsStart(p.selected.value) || NeedsBoth(p.selected.value)
                                              || p.selected.value == "kruskal")
    ensures c.Some? ==> c.value.algo == p.selected.value
    ensures c.Some? ==> (c.value.start.Some? <==> p.selected.value != "kruskal")
                        && (c.value.end.Some? <==> NeedsBoth(p.selected.value))
    ensures c.Some? && c.value.start.Some? ==> c.value.start.value == p.startNode
    ensures c.Some? && c.value.end.Some? ==> c.value.end.value == p.endNode
  {
    if p.selected.None? || p.selected.value == "" then None
    else
      var algo := p.selected.value;
      if NeedsStart(algo) then Some(Call(algo, Some(p.startNode), None))
      else if NeedsBoth(algo) then Some(Call(algo, Some(p.startNode), Some(p.endNode)))
      else if algo == "kruskal" then Some(Call(algo, None, None))
      else None
  }

  /** `handleLaunch` followed by the guards of `handleSendGraph`: a request
      goes out for Kruskal, or once the vertices the algorithm needs are
      chosen, and it names the selected algorithm and the chosen vertices. */
  method Launch(p: Panel) returns (o: Option<Outcome>)
    ensures o.None? <==> LaunchCall(p).None?
    ensures o.Some? && AdjacencyOf(p.nodes, p.links, false, false).Err? ==>
              o.value == Threw(AdjacencyOf(p.nodes, p.links, false, false).error)
    ensures o.Some? && AdjacencyOf(p.nodes, p.links, false, false).Ok? ==>
              && (o.value.Sent? <==> p.selected.value == "kruskal"
                                     || (NeedsStart(p.selected.value) && p.startNode != "")
                                     || (NeedsBoth(p.selected.value) && p.startNode != "" && p.endNode != ""))
              && (NeedsStart(p.selected.value) && p.startNode == "" ==> o.value == Alert(PickStart))
              && (NeedsBoth(p.selected.value) && (p.startNode == "" || p.endNode == "") ==> o.value == Alert(PickBoth))
    ensures o.Some? && o.value.Sent? ==>
              && RequestName(o.value.request) == p.selected.value
              && (!o.value.request.Kruskal? ==> o.value.request.start == p.startNode)
              && (o.value.request.Dijkstra? || o.value.request.FloydWarshall? ==> o.value.request.end == p.endNode)
  {
    var c := LaunchCall(p);
    if c.None? {
      return None;
    }
    var r := HandleSendGraph(c.value.algo, c.value.start, c.value.end, p.nodes, p.links);
    return Some(r);
  }

  /** Right after a selection, launching an algorithm that needs a vertex
      only alerts: `resetState` has cleared both chosen vertices. */
  lemma SelectThenLaunch(p: Panel, algo: string, base: AppGraph, bellman: AppGraph, floyd: AppGraph)
    requires ValidApp(base) && ValidApp(bellman) && ValidApp(floyd)
    requires algo != "kruskal"
    ensures var c := LaunchCall(AlgoSelect(p, algo, base, bellman, floyd));
            c.Some? ==> c.value.start == Some("") && !Truthy(c.value.start)
  {
  }

  // ---------------------------------------------------------------------
  // handleSendGraph: the answer

  /** An endpoint of a returned edge: missing, a plain string, or a vertex
      object with its `name`. */
  datatype Field = Missing | Text(text: string) | Vertex(name: string)

  datatype ResultEdge = ResultEdge(source: Field, target: Field, weight: Option<int>)

  /** The parsed answer: not an array (ignored), or the edges. */
  datatype Response = NotList | List(edges: seq<ResultEdge>)

  /** An edge as listed and highlighted. */
  datatype Row = Row(source: string, target: string, weight: int)

  /** `e.source && e.target`: an object is truthy, a string unless empty. */
  predicate Present(f: Field) {
    f.Vertex? || (f.Text? && f.text != "")
  }

  /** `x.name || x`, as it ends up in a template string: a vertex without
      a name prints as "[object Object]". */
  function NameOf(f: Field): string {
    match f
    case Missing => "undefined"
    case Text(s) => s
    case Vertex(n) => if n != "" then n else "[object Object]"
  }

  /** The edges kept by the filter, in result order. */
  function Shown(edges: seq<ResultEdge>): (s: seq<ResultEdge>)
    ensures |s| <= |edges|
    ensures forall e :: e in s ==> e in edges && Present(e.source) && Present(e.target)
  {
    if edges == [] then []
    else
      var e := edges[|edges| - 1];
      Shown(edges[..|edges| - 1]) + (if Present(e.source) && Present(e.target) then [e] else [])
  }

  /** The normalised list: names, and `weight || 0`. */
  function Rows(edges: seq<ResultEdge>): (rs: seq<Row>)
    ensures |rs| == |Shown(edges)|
    ensures forall i :: 0 <= i < |rs| ==>
              var e := Shown(edges)[i];
              rs[i] == Row(NameOf(e.source), NameOf(e.target), OrZero(e.weight))
  {
    var s := Shown(edges);
    seq(|s|, i requires 0 <= i < |s| => Row(NameOf(s[i].source), NameOf(s[i].target), OrZero(s[i].weight)))
  }

  /** When every edge has both endpoints the filter keeps them all. */
  lemma {:induction false} ShownAll(edges: seq<ResultEdge>)
    requires forall i :: 0 <= i < |edges| ==> Present(edges[i].source) && Present(edges[i].target)
    ensures Shown(edges) == edges
  {
    if edges != [] {
      var init := edges[..|edges| - 1];
      assert forall i :: 0 <= i < |init| ==> init[i] == edges[i];
      ShownAll(init);
      assert edges == init + [edges[|edges| - 1]];
    }
  }

  const Red: string := "#ef1e1e"

  /** The highlight key of an edge. */
  function EdgeKey(s: string, t: string): string {
    s + "_" + t
  }

  /** The colours written once the given steps have fired: both
      orientations of each edge are red. */
  function Painted(rows: seq<Row>): map<string, string> {
    if rows == [] then map[]
    else
      var r := rows[|rows| - 1];
      Painted(rows[..|rows| - 1])[EdgeKey(r.source, r.target) := Red][EdgeKey(r.target, r.source) := Red]
  }

  /** Exactly both keys of every fired edge are coloured, all red. */
  lemma {:induction false} PaintedKeys(rows: seq<Row>)
    ensures forall k :: k in Painted(rows) ==> Painted(rows)[k] == Red
    ensures forall k :: k in Painted(rows) <==>
              exists i :: 0 <= i < |rows| && (k == EdgeKey(rows[i].source, rows[i].target)
                                              || k == EdgeKey(rows[i].target, rows[i].source))
  {
    if rows != [] {
      var init := rows[..|rows| - 1];
      PaintedKeys(init);
      forall k | k in Painted(rows)
        ensures exists i :: 0 <= i < |rows| && (k == EdgeKey(rows[i].source, rows[i].target)
                                                || k == EdgeKey(rows[i].target, rows[i].source))
      {
        if k in Painted(init) {
          var i :| 0 <= i < |init| && (k == EdgeKey(init[i].source, init[i].target)
                                       || k == EdgeKey(init[i].target, init[i].source));
          assert rows[i] == init[i];
        } else {
          assert rows[|rows| - 1] == rows[|rows| - 1];
        }
      }
      forall k | exists i :: 0 <= i < |rows| && (k == EdgeKey(rows[i].source, rows[i].target)
                                                 || k == EdgeKey(rows[i].target, rows[i].source))
        ensures k in Painted(rows)
      {
        var i :| 0 <= i < |rows| && (k == EdgeKey(rows[i].source, rows[i].target)
                                     || k == EdgeKey(rows[i].target, rows[i].source));
        if i < |rows| - 1 {
          assert init[i] == rows[i];
        }
      }
    }
  }

  /** Painting one more edge keeps every earlier colour. */
  lemma PaintedGrows(rows: seq<Row>, r: Row)
    ensures forall k :: k in Painted(rows) ==> k in Painted(rows + [r]) && Painted(rows + [r])[k] == Painted(rows)[k]
  {
    assert (rows + [r])[..|rows|] == rows;
    PaintedKeys(rows);
  }

  /** The result panel's state: the highlight map, the listed edges, the
      shared colour accumulator and the scheduled steps. */
  class Highlighter {
    var highlight: map<string, string>
    var edgeList: seq<Row>
    var colors: map<string, string>
    var steps: seq<Row>
    var fired: nat

    /** The accumulator holds the colours of the fired steps, and the
        highlight map equals it (each merge `{...prev, ...newColors}` adds a
        superset of what `prev` holds). */
    predicate Valid()
      reads this
    {
      fired <= |steps| && colors == Painted(steps[..fired]) && highlight == colors
    }

    constructor()
      ensures Valid() && highlight == map[] && edgeList == [] && steps == []
    {
      highlight := map[];
      edgeList := [];
      colors := map[];
      steps := [];
      fired := 0;
    }

    /** The answer arrives: a non-array is ignored; otherwise the highlight
        and the list are cleared, the normalised list is shown and one
        step per kept edge is scheduled, in result order. */
    method Receive(r: Response)
      requires Valid()
      modifies this
      ensures Valid()
      ensures r.NotList? ==> highlight == old(highlight) && edgeList == old(edgeList)
                             && steps == old(steps) && fired == old(fired)
      ensures r.List? ==> highlight == map[] && edgeList == Rows(r.edges) && steps == Rows(r.edges) && fired == 0
    {
      if r.List? {
        highlight := map[];
        edgeList := [];
        var list := Rows(r.edges);
        edgeList := list;
        colors := map[];
        steps := list;
        fired := 0;
        assert steps[..0] == [];
      }
    }

    /** The timer of the next step fires: both orientations of its edge
        become red in the accumulator, which is merged over the map. */
    method Fire()
      requires Valid() && fired < |steps|
      modifies this
      ensures Valid()
      ensures fired == old(fired) + 1 && steps == old(steps) && edgeList == old(edgeList)
      ensures highlight[EdgeKey(steps[fired - 1].source, steps[fired - 1].target)] == Red
      ensures highlight[EdgeKey(steps[fired - 1].target, steps[fired - 1].source)] == Red
      ensures forall k :: k in old(highlight) ==> k in highlight && highlight[k] == old(highlight)[k]
    {
      var e := steps[fired];
      assert steps[..fired + 1] == steps[..fired] + [e];
      PaintedGrows(steps[..fired], e);
      colors := colors[EdgeKey(e.source, e.target) := Red][EdgeKey(e.target, e.source) := Red];
      highlight := highlight + colors;
      fired := fired + 1;
    }
  }

  /** Once steps 0..k have fired, both keys of each of those edges are red,
      and nothing else is coloured. */
  lemma HighlightAfter(rows: seq<Row>, k: nat, i: nat)
    requires i < k <= |rows|
    ensures EdgeKey(rows[i].source, rows[i].target) in Painted(rows[..k])
    ensures EdgeKey(rows[i].target, rows[i].source) in Painted(rows[..k])
    ensures Painted(rows[..k])[EdgeKey(rows[i].source, rows[i].target)] == Red
  {
    PaintedKeys(rows[..k]);
    assert rows[..k][i] == rows[i];
  }

  // ---------------------------------------------------------------------
  // The total

  /** `edgeList.reduce((sum, e) => sum + (Number(e.weight) || 0), 0)`; the
      weights are already integers. */
  function Total(rows: seq<Row>): int {
    if rows == [] then 0 else Total(rows[..|rows| - 1]) + rows[|rows| - 1].weight
  }

  /** An edge of the back end as its JSON reads back. */
  function FromJava(es: seq<GraphModel.Edge>): (r: seq<ResultEdge>)
    ensures |r| == |es|
  {
    seq(|es|, i requires 0 <= i < |es| => ResultEdge(Vertex(es[i].source), Vertex(es[i].target), Some(es[i].weight)))
  }

  lemma {:induction false} TotalWeightSnoc(es: seq<GraphModel.Edge>)
    requires es != []
    ensures GraphModel.TotalWeight(es) == GraphModel.TotalWeight(es[..|es| - 1]) + es[|es| - 1].weight
  {
    GraphModel.TotalWeightAppend(es[..|es| - 1], [es[|es| - 1]]);
    assert es == es[..|es| - 1] + [es[|es| - 1]];
    assert GraphModel.TotalWeight([es[|es| - 1]]) == es[|es| - 1].weight;
  }

  /** The total only depends on the weights. */
  lemma {:induction false} TotalByWeights(rows: seq<Row>, es: seq<GraphModel.Edge>)
    requires |rows| == |es| && forall i :: 0 <= i < |es| ==> rows[i].weight == es[i].weight
    ensures Total(rows) == GraphModel.TotalWeight(es)
  {
    if es != [] {
      TotalByWeights(rows[..|rows| - 1], es[..|es| - 1]);
      TotalWeightSnoc(es);
    }
  }

  /** The displayed total of an answer made of back-end edges is the sum
      of their weights. */
  lemma TotalOfAnswer(es: seq<GraphModel.Edge>)
    ensures Total(Rows(FromJava(es))) == GraphModel.TotalWeight(es)
    ensures |Rows(FromJava(es))| == |es|
  {
    var fs := FromJava(es);
    forall i | 0 <= i < |fs|
      ensures Present(fs[i].source) && Present(fs[i].target)
    {
    }
    ShownAll(fs);
    var rows := Rows(fs);
    forall i | 0 <= i < |es|
      ensures rows[i].weight == es[i].weight
    {
      assert Shown(fs)[i] == fs[i];
    }
    TotalByWeights(rows, es);
  }
}
