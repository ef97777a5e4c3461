/** The JSON editor: the text shown is the adjacency object of the graph on
    screen (a missing weight written as 0), and "Recharger" parses the text
    back into nodes and links with the converter of the current mode. */
module GraphJsonEditor {
  import opened Common
  import opened FrontModel
  import opened ApiService
  import opened Converters

  /** `nodesLinksToAdjacency`: the loop of `graphToAdjacency` with
      `l.weight ?? 0` as the distance. */
  method NodesLinksToAdjacency(nodes: seq<string>, links: seq<Link>, directed: bool)
    returns (r: Result<Adjacency>)
    ensures r == AdjacencyOf(nodes, links, directed, true)
  {
    r := BuildAdjacency(nodes, links, directed, true);
  }

  /** A list with every missing distance written as 0. */
  function ZeroFilled(ns: seq<Nb>): (zs: seq<Nb>)
    ensures |zs| == |ns|
    ensures forall i :: 0 <= i < |ns| ==> zs[i] == Nb(ns[i].target, Some(OrZero(ns[i].distance)))
  {
    seq(|ns|, i requires 0 <= i < |ns| => Nb(ns[i].target, Some(OrZero(ns[i].distance))))
  }

  lemma {:induction false} EntriesZeroFilled(links: seq<Link>, v: string, directed: bool)
    ensures Entries(links, v, directed, true) == ZeroFilled(Entries(links, v, directed, false))
  {
    if links != [] {
      EntriesZeroFilled(links[..|links| - 1], v, directed);
    }
  }

  /** The editor's adjacency is `graphToAdjacency`'s with every missing
      weight replaced by 0: same failure, same keys, same targets in the same
      order. */
  lemma EditorAdjacency(nodes: seq<string>, links: seq<Link>, directed: bool)
    ensures AdjacencyOf(nodes, links, directed, true).Ok? <==> AdjacencyOf(nodes, links, directed, false).Ok?
    ensures AdjacencyOf(nodes, links, directed, true).Ok? ==>
              var e := AdjacencyOf(nodes, links, directed, true).value;
              var a := AdjacencyOf(nodes, links, directed, false).value;
              e.keys == a.keys && forall v :: v in e.keys ==> v in e.lists && v in a.lists && e.lists[v] == ZeroFilled(a.lists[v])
  {
    AdjacencyShape(nodes, links, directed, true);
    AdjacencyShape(nodes, links, directed, false);
    forall v | v in nodes {
      EntriesZeroFilled(links, v, directed);
    }
  }

  /** `adjacencyToNodesLinksUndirected` of the editor: the first entry of
      each sorted pair key gives the link. */
  method AdjacencyToNodesLinksUndirected(g: JsonGraph) returns (nodes: seq<string>, links: seq<Link>)
    requires ValidJson(g)
    ensures (nodes, links) == Convert(g, SortedPair)
  {
    nodes, links := ToNodesLinks(g, SortedPair);
  }

  /** `adjacencyToNodesLinksDirected` of the editor: no dedup key. */
  method AdjacencyToNodesLinksDirected(g: JsonGraph) returns (nodes: seq<string>, links: seq<Link>)
    requires ValidJson(g)
    ensures (nodes, links) == Convert(g, KeepAll)
  {
    nodes, links := ToNodesLinks(g, KeepAll);
  }

  /** The directed converter keeps every entry that passed the filters,
      repeats included, one link each in entry order. */
  lemma DirectedKeepsAll(g: JsonGraph)
    requires ValidJson(g)
    ensures Convert(g, KeepAll).1 == LinksOf(g.keys, Candidates(g.keys, g.values))
  {
    KeptWithin(Candidates(g.keys, g.values), KeepAll);
  }

  /** What `JSON.parse` gives: an exception with its message, a value that
      is no object (`null`, a number, a string, a boolean), or an object
      (an array is one too, keyed by its indices). */
  datatype Parsed = Unparsable(message: string) | Primitive | Object(graph: JsonGraph)

  const NotAnObject: string := "JSON invalide"
  const NoVertex: string := "Aucun sommet dans le graphe"
  const ParseFailed: string := "Erreur lors du parsing du JSON"

  /** `handleReload`: the nodes and links handed to `onReloadGraph`, or the
      message shown under the editor. */
  function Reload(parsed: Parsed, directed: bool): (r: Result<(seq<string>, seq<Link>)>)
    requires parsed.Object? ==> ValidJson(parsed.graph)
    ensures parsed.Primitive? ==> r == Err(NotAnObject)
    ensures parsed.Unparsable? ==> r.Err? && r.error != ""
    ensures parsed.Object? && parsed.graph.keys == [] ==> r == Err(NoVertex)
    ensures r.Ok? <==> parsed.Object? && parsed.graph.keys != []
    ensures r.Ok? ==> r.value.0 == parsed.graph.keys
                      && r.value == Convert(parsed.graph, if directed then KeepAll else SortedPair)
  {
    match parsed
    case Unparsable(m) => Err(if m == "" then ParseFailed else m)
    case Primitive => Err(NotAnObject)
    case Object(g) =>
      var back := Convert(g, if directed then KeepAll else SortedPair);
      if back.0 == [] then Err(NoVertex) else Ok(back)
  }
}
