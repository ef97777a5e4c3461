/** `graphToAdjacency`: the adjacency object sent to the back end, built from
    the nodes and links on screen.  The same loop, with a missing weight
    replaced by 0, is the JSON editor's `nodesLinksToAdjacency`. */
module ApiService {
  import opened Common
  import opened FrontModel

  /** The error a `push` onto a key that holds no list raises. */
  const NoList: string := "TypeError: Cannot read properties of undefined (reading 'push')"

  /** The distance written for a link: `l.weight`, or `l.weight ?? 0`. */
  function EntryWeight(l: Link, zeroDefault: bool): (w: Option<int>)
    ensures zeroDefault ==> w == Some(OrZero(l.weight))
    ensures !zeroDefault ==> w == l.weight
  {
    if zeroDefault then Some(OrZero(l.weight)) else l.weight
  }

  /** The pushes of one link: `{target: t}` onto `adj[s]`, and in undirected
      mode `{target: s}` onto `adj[t]`. */
  function PushLink(m: map<string, seq<Nb>>, l: Link, directed: bool, zeroDefault: bool)
    : Result<map<string, seq<Nb>>>
  {
    var s := EndKey(l.source);
    var t := EndKey(l.target);
    var w := EntryWeight(l, zeroDefault);
    if s !in m then Err(NoList)
    else
      var m1 := m[s := m[s] + [Nb(EndValue(l.target), w)]];
      if directed then Ok(m1)
      else if t !in m1 then Err(NoList)
      else Ok(m1[t := m1[t] + [Nb(EndValue(l.source), w)]])
  }

  /** The lists after every node got `[]` and the links were pushed in order;
      the first failing push ends the run. */
  function Pushes(nodes: seq<string>, links: seq<Link>, directed: bool, zeroDefault: bool)
    : Result<map<string, seq<Nb>>>
  {
    if links == [] then Ok(map k | k in nodes :: [])
    else
      match Pushes(nodes, links[..|links| - 1], directed, zeroDefault)
      case Err(e) => Err(e)
      case Ok(m) => PushLink(m, links[|links| - 1], directed, zeroDefault)
  }

  /** The adjacency object: one key per distinct node id, in node order. */
  function AdjacencyOf(nodes: seq<string>, links: seq<Link>, directed: bool, zeroDefault: bool)
    : Result<Adjacency>
  {
    match Pushes(nodes, links, directed, zeroDefault)
    case Err(e) => Err(e)
    case Ok(m) => Ok(Adjacency(Dedup(nodes), m))
  }

  /** Reference definition: the entries that the links put into `v`'s list,
      in link order; a self-loop in undirected mode puts two. */
  function Entries(links: seq<Link>, v: string, directed: bool, zeroDefault: bool): seq<Nb> {
    if links == [] then []
    else
      var l := links[|links| - 1];
      var w := EntryWeight(l, zeroDefault);
      Entries(links[..|links| - 1], v, directed, zeroDefault)
        + (if EndKey(l.source) == v then [Nb(EndValue(l.target), w)] else [])
        + (if !directed && EndKey(l.target) == v then [Nb(EndValue(l.source), w)] else [])
  }

  /** Every key the links push onto is a node id. */
  predicate Keyed(nodes: seq<string>, links: seq<Link>, directed: bool) {
    forall l :: l in links ==> EndKey(l.source) in nodes && (directed || EndKey(l.target) in nodes)
  }

  /** The run succeeds exactly when every pushed-onto key is a node id; then
      the keys are the node ids and each list holds the reference entries. */
  lemma {:induction false} PushesSpec(nodes: seq<string>, links: seq<Link>, directed: bool, zeroDefault: bool)
    ensures Pushes(nodes, links, directed, zeroDefault).Ok? <==> Keyed(nodes, links, directed)
    ensures Pushes(nodes, links, directed, zeroDefault).Ok? ==>
              var m := Pushes(nodes, links, directed, zeroDefault).value;
              (forall v :: v in m <==> v in nodes)
              && forall v :: v in nodes ==> m[v] == Entries(links, v, directed, zeroDefault)
  {
    if links != [] {
      var init := links[..|links| - 1];
      var l := links[|links| - 1];
      PushesSpec(nodes, init, directed, zeroDefault);
      if Pushes(nodes, init, directed, zeroDefault).Ok? {
        PushLinkSpec(nodes, links, directed, zeroDefault, Pushes(nodes, init, directed, zeroDefault).value);
      }
      KeyedLast(nodes, links, directed);
    }
  }

  /** The pushes of the last link, onto lists that hold the entries of the
      links before it. */
  lemma PushLinkSpec(nodes: seq<string>, links: seq<Link>, directed: bool, zeroDefault: bool, m: map<string, seq<Nb>>)
    requires links != []
    requires forall v :: v in m <==> v in nodes
    requires forall v :: v in nodes ==> m[v] == Entries(links[..|links| - 1], v, directed, zeroDefault)
    ensures var l := links[|links| - 1];
            var r := PushLink(m, l, directed, zeroDefault);
            (r.Ok? <==> EndKey(l.source) in nodes && (directed || EndKey(l.target) in nodes))
            && (r.Ok? ==> (forall v :: v in r.value <==> v in nodes)
                          && forall v :: v in nodes ==> r.value[v] == Entries(links, v, directed, zeroDefault))
  {
    var l := links[|links| - 1];
    var r := PushLink(m, l, directed, zeroDefault);
    if r.Ok? {
      forall v | v in nodes
        ensures r.value[v] == Entries(links, v, directed, zeroDefault)
      {
        var w := EntryWeight(l, zeroDefault);
        var a := if EndKey(l.source) == v then [Nb(EndValue(l.target), w)] else [];
        var b := if !directed && EndKey(l.target) == v then [Nb(EndValue(l.source), w)] else [];
        assert Entries(links, v, directed, zeroDefault) == m[v] + a + b;
      }
    }
  }

  /** The links are keyed when the ones before the last are and the last
      one's keys are node ids. */
  lemma KeyedLast(nodes: seq<string>, links: seq<Link>, directed: bool)
    requires links != []
    ensures var l := links[|links| - 1];
            Keyed(nodes, links, directed)
            <==> Keyed(nodes, links[..|links| - 1], directed)
                 && EndKey(l.source) in nodes && (directed || EndKey(l.target) in nodes)
  {
    assert forall x :: x in links <==> x in links[..|links| - 1] || x == links[|links| - 1] by {
      assert links == links[..|links| - 1] + [links[|links| - 1]];
    }
  }

  /** Once a push has failed, later links change nothing. */
  lemma {:induction false} PushesErrSticky(nodes: seq<string>, links: seq<Link>, directed: bool, zeroDefault: bool, j: nat)
    requires j <= |links| && Pushes(nodes, links[..j], directed, zeroDefault).Err?
    ensures Pushes(nodes, links, directed, zeroDefault) == Pushes(nodes, links[..j], directed, zeroDefault)
    decreases |links| - j
  {
    if j < |links| {
      assert links[..j + 1][..j] == links[..j];
      PushesErrSticky(nodes, links, directed, zeroDefault, j + 1);
    } else {
      assert links[..j] == links;
    }
  }

  /** `graphToAdjacency(nodes, links, directed)` and, with `zeroDefault`,
      `nodesLinksToAdjacency`: every node id gets `[]`, then each link is
      pushed in link order. */
  method BuildAdjacency(nodes: seq<string>, links: seq<Link>, directed: bool, zeroDefault: bool)
    returns (r: Result<Adjacency>)
    ensures r == AdjacencyOf(nodes, links, directed, zeroDefault)
  {
    var keys: seq<string> := [];
    var adj: map<string, seq<Nb>> := map[];
    var i := 0;
    while i < |nodes|
      invariant 0 <= i <= |nodes|
      invariant keys == Dedup(nodes[..i])
      invariant adj == map k | k in nodes[..i] :: []
    {
      assert nodes[..i + 1][..i] == nodes[..i];
      assert forall x :: x in nodes[..i + 1] <==> x in nodes[..i] || x == nodes[i];
      if nodes[i] !in adj {
        keys := keys + [nodes[i]];
      }
      adj := adj[nodes[i] := []];
      i := i + 1;
    }
    assert nodes[..i] == nodes;
    var j := 0;
    while j < |links|
      invariant 0 <= j <= |links|
      invariant Pushes(nodes, links[..j], directed, zeroDefault) == Ok(adj)
    {
      var l := links[j];
      assert links[..j + 1][..j] == links[..j];
      var s := EndKey(l.source);
      var t := EndKey(l.target);
      var w := EntryWeight(l, zeroDefault);
      if s !in adj {
        PushesErrSticky(nodes, links, directed, zeroDefault, j + 1);
        return Err(NoList);
      }
      adj := adj[s := adj[s] + [Nb(EndValue(l.target), w)]];
      if !directed {
        if t !in adj {
          PushesErrSticky(nodes, links, directed, zeroDefault, j + 1);
          return Err(NoList);
        }
        adj := adj[t := adj[t] + [Nb(EndValue(l.source), w)]];
      }
      j := j + 1;
    }
    assert links[..j] == links;
    return Ok(Adjacency(keys, adj));
  }

  /** `graphToAdjacency`: the weight is copied as it is. */
  method GraphToAdjacency(nodes: seq<string>, links: seq<Link>, directed: bool)
    returns (r: Result<Adjacency>)
    ensures r == AdjacencyOf(nodes, links, directed, false)
  {
    r := BuildAdjacency(nodes, links, directed, false);
  }

  /** The output keys are the distinct node ids, each holding exactly the
      entries its links put there; the call fails iff some link names a key
      that is no node. */
  lemma AdjacencyShape(nodes: seq<string>, links: seq<Link>, directed: bool, zeroDefault: bool)
    ensures AdjacencyOf(nodes, links, directed, zeroDefault).Ok? <==> Keyed(nodes, links, directed)
    ensures AdjacencyOf(nodes, links, directed, zeroDefault).Ok? ==>
              var a := AdjacencyOf(nodes, links, directed, zeroDefault).value;
              WellKeyed(a) && (forall v :: v in a.keys <==> v in nodes)
              && forall v :: v in a.keys ==> a.lists[v] == Entries(links, v, directed, zeroDefault)
  {
    PushesSpec(nodes, links, directed, zeroDefault);
  }

  /** Without links every node has an empty list. */
  lemma NoLinks(nodes: seq<string>, directed: bool, zeroDefault: bool)
    ensures AdjacencyOf(nodes, [], directed, zeroDefault).Ok?
    ensures forall v :: v in nodes ==> AdjacencyOf(nodes, [], directed, zeroDefault).value.lists[v] == []
  {
  }

  /** Entries of one link in `v`'s list: its target when it leaves `v`, and
      in undirected mode its source when it enters `v`. */
  lemma EntriesSingle(l: Link, v: string, directed: bool, zeroDefault: bool)
    ensures Entries([l], v, directed, zeroDefault)
            == (if EndKey(l.source) == v then [Nb(EndValue(l.target), EntryWeight(l, zeroDefault))] else [])
               + (if !directed && EndKey(l.target) == v then [Nb(EndValue(l.source), EntryWeight(l, zeroDefault))] else [])
  {
    assert [l][..0] == [];
  }

  /** Number of entries stored under the keys `ks`. */
  function EntryTotal(ks: seq<string>, links: seq<Link>, directed: bool, zeroDefault: bool): nat {
    if ks == [] then 0
    else EntryTotal(ks[..|ks| - 1], links, directed, zeroDefault) + |Entries(links, ks[|ks| - 1], directed, zeroDefault)|
  }

  /** How many of the keys `ks` equal `x`. */
  function Hits(ks: seq<string>, x: string): nat {
    if ks == [] then 0 else Hits(ks[..|ks| - 1], x) + (if ks[|ks| - 1] == x then 1 else 0)
  }

  lemma {:induction false} HitsDistinct(ks: seq<string>, x: string)
    requires Distinct(ks)
    ensures Hits(ks, x) == if x in ks then 1 else 0
  {
    if ks != [] {
      var init := ks[..|ks| - 1];
      HitsDistinct(init, x);
      assert ks == init + [ks[|ks| - 1]];
    }
  }

  lemma {:induction false} EntryTotalStep(ks: seq<string>, links: seq<Link>, l: Link, directed: bool, zeroDefault: bool)
    ensures EntryTotal(ks, links + [l], directed, zeroDefault)
            == EntryTotal(ks, links, directed, zeroDefault) + Hits(ks, EndKey(l.source))
               + (if directed then 0 else Hits(ks, EndKey(l.target)))
  {
    if ks != [] {
      EntryTotalStep(ks[..|ks| - 1], links, l, directed, zeroDefault);
      assert (links + [l])[..|links + [l]| - 1] == links;
    }
  }

  /** Each link puts one entry in directed mode and two (one per endpoint,
      both in the same list for a self-loop) in undirected mode. */
  lemma {:induction false} EntryTotalCount(ks: seq<string>, links: seq<Link>, directed: bool, zeroDefault: bool)
    requires Distinct(ks) && Keyed(ks, links, directed)
    ensures EntryTotal(ks, links, directed, zeroDefault) == |links| * (if directed then 1 else 2)
  {
    if links == [] {
      if ks != [] { EntryTotalEmpty(ks, directed, zeroDefault); }
    } else {
      var init := links[..|links| - 1];
      var l := links[|links| - 1];
      assert links == init + [l];
      EntryTotalCount(ks, init, directed, zeroDefault);
      EntryTotalStep(ks, init, l, directed, zeroDefault);
      HitsDistinct(ks, EndKey(l.source));
      HitsDistinct(ks, EndKey(l.target));
    }
  }

  lemma {:induction false} EntryTotalEmpty(ks: seq<string>, directed: bool, zeroDefault: bool)
    ensures EntryTotal(ks, [], directed, zeroDefault) == 0
  {
    if ks != [] { EntryTotalEmpty(ks[..|ks| - 1], directed, zeroDefault); }
  }

  /** The total number of neighbour entries is |links| when directed and
      2·|links| when undirected. */
  lemma AdjacencyTotal(nodes: seq<string>, links: seq<Link>, directed: bool, zeroDefault: bool)
    requires AdjacencyOf(nodes, links, directed, zeroDefault).Ok?
    ensures var a := AdjacencyOf(nodes, links, directed, zeroDefault).value;
            EntryTotal(a.keys, links, directed, zeroDefault) == |links| * (if directed then 1 else 2)
  {
    PushesSpec(nodes, links, directed, zeroDefault);
    var ks := Dedup(nodes);
    assert Keyed(ks, links, directed);
    EntryTotalCount(ks, links, directed, zeroDefault);
  }

  /** A self-loop on `a` appears twice in `a`'s own list in undirected mode. */
  lemma SelfLoopTwice(nodes: seq<string>, a: string, w: Option<int>)
    requires a in nodes
    ensures var l := Link(Node(a), Node(a), w);
            AdjacencyOf(nodes, [l], false, false).Ok?
            && AdjacencyOf(nodes, [l], false, false).value.lists[a] == [Nb(Some(a), w), Nb(Some(a), w)]
  {
    var l := Link(Node(a), Node(a), w);
    PushesSpec(nodes, [l], false, false);
    EntriesSingle(l, a, false, false);
  }
}
