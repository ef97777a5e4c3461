/** The toolbar: choosing an algorithm loads the graph that goes with it
    (`handleAlgoClick`), through the toolbar's own converters. */
module Toolbar {
  import opened Common
  import opened FrontModel
  import opened Converters

  /** `adjacencyToNodesLinksUndirected` of the toolbar: sorted pair key,
      weight `distance || 0`. */
  method AdjacencyToNodesLinksUndirected(g: JsonGraph) returns (nodes: seq<string>, links: seq<Link>)
    requires ValidJson(g)
    ensures (nodes, links) == Convert(g, SortedPair)
  {
    nodes, links := ToNodesLinks(g, SortedPair);
  }

  /** `adjacencyToNodesLinksDirected` of the toolbar: ordered key
      `${from}_${target}`. */
  method AdjacencyToNodesLinksDirected(g: JsonGraph) returns (nodes: seq<string>, links: seq<Link>)
    requires ValidJson(g)
    ensures (nodes, links) == Convert(g, Ordered)
  {
    nodes, links := ToNodesLinks(g, Ordered);
  }

  /** The three bundled graphs. */
  datatype Assets = Assets(base: JsonGraph, bellmanFord: JsonGraph, floydWarshall: JsonGraph)

  predicate ValidAssets(a: Assets) {
    ValidJson(a.base) && ValidJson(a.bellmanFord) && ValidJson(a.floydWarshall)
  }

  /** What the click sets: the algorithm, empty start and end, the graph
      and the mode. */
  datatype Selection = Selection(algo: string, start: string, end: string,
                                 nodes: seq<string>, links: seq<Link>, directed: bool)

  /** The algorithms that run on a directed graph of their own. */
  predicate DirectedAlgo(algo: string) {
    algo == "bellmanford" || algo == "floydwarshall"
  }

  /** `handleAlgoClick`: Bellman-Ford and Floyd-Warshall load their own
      graph in directed mode; every other algorithm loads the base graph
      in undirected mode. */
  method HandleAlgoClick(algo: string, assets: Assets) returns (s: Selection)
    requires ValidAssets(assets)
    ensures s.algo == algo && s.start == "" && s.end == ""
    ensures s.directed <==> DirectedAlgo(algo)
    ensures algo == "bellmanford" ==> (s.nodes, s.links) == Convert(assets.bellmanFord, Ordered)
    ensures algo == "floydwarshall" ==> (s.nodes, s.links) == Convert(assets.floydWarshall, Ordered)
    ensures !DirectedAlgo(algo) ==> (s.nodes, s.links) == Convert(assets.base, SortedPair)
  {
    var nodes, links;
    var isDirected := false;
    if algo == "bellmanford" {
      isDirected := true;
      nodes, links := AdjacencyToNodesLinksDirected(assets.bellmanFord);
    } else if algo == "floydwarshall" {
      isDirected := true;
      nodes, links := AdjacencyToNodesLinksDirected(assets.floydWarshall);
    } else {
      nodes, links := AdjacencyToNodesLinksUndirected(assets.base);
    }
    s := Selection(algo, "", "", nodes, links, isDirected);
  }

  /** In undirected mode the toolbar never shows an edge together with its
      reverse: of A→B and B→A only the first one read becomes a link. */
  lemma UndirectedOneLinkPerPair(g: JsonGraph, i: nat, j: nat)
    requires ValidJson(g)
    requires i < j < |Kept(Candidates(g.keys, g.values), SortedPair)|
    ensures var ks := Kept(Candidates(g.keys, g.values), SortedPair);
            ks[i].from != ks[j].from || ks[i].target != ks[j].target
    ensures var ks := Kept(Candidates(g.keys, g.values), SortedPair);
            !(ks[i].target == Some(ks[j].from) && ks[j].target == Some(ks[i].from))
  {
    var cs := Candidates(g.keys, g.values);
    KeptKeys(cs, SortedPair);
    SortedMergesReverse(cs, i, j);
  }
}
