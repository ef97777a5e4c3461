/** The JSON editor's two directions composed: the nodes and links on
    screen written out as an adjacency object (`nodesLinksToAdjacency`),
    printed and parsed back, and converted to nodes and links again. */
module RoundTrip {
  import opened Common
  import opened FrontModel
  import opened ApiService
  import opened Converters

  /** `JSON.parse(JSON.stringify(list))`: a missing field stays missing. */
  function JsonEntries(ns: seq<Nb>): (es: seq<JsonEntry>)
    ensures |es| == |ns| && forall i :: 0 <= i < |ns| ==> es[i] == Entry(ns[i].target, ns[i].distance)
  {
    seq(|ns|, i requires 0 <= i < |ns| => Entry(ns[i].target, ns[i].distance))
  }

  /** `JSON.parse(JSON.stringify(a))`, keys kept in the order of `a.keys`.
      JavaScript would print integer-like keys first, ascending, and drop a
      "__proto__" key; the model does neither. */
  function ToJson(a: Adjacency): JsonGraph {
    JsonGraph(a.keys, map k | k in a.lists :: Arr(JsonEntries(a.lists[k])))
  }

  /** Links as the converters produce them: node objects at both ends, the
      ids distinct, non-empty and the keys of the graph. */
  predicate Drawn(ids: seq<string>, links: seq<Link>) {
    Distinct(ids) && (forall v :: v in ids ==> v != "")
    && forall l :: l in links ==> l.source.Node? && l.target.Node? && l.source.id in ids && l.target.id in ids
  }

  /** A link as it comes back: the missing weight turned into 0. */
  function Normalise(l: Link): Link {
    Link(l.source, l.target, Some(OrZero(l.weight)))
  }

  lemma {:induction false} DedupDistinct(s: seq<string>)
    requires Distinct(s)
    ensures Dedup(s) == s
  {
    if s != [] {
      var init := s[..|s| - 1];
      assert Distinct(init);
      DedupDistinct(init);
      assert s == init + [s[|s| - 1]];
    }
  }

  /** Membership in the reference list: each entry comes from a link that
      leaves `v` (its target) or, undirected, enters `v` (its source). */
  lemma {:induction false} EntriesMembers(links: seq<Link>, v: string, directed: bool, zeroDefault: bool, nb: Nb)
    ensures nb in Entries(links, v, directed, zeroDefault) <==>
              exists l :: l in links && nb.distance == EntryWeight(l, zeroDefault)
                && ((EndKey(l.source) == v && nb.target == EndValue(l.target))
                    || (!directed && EndKey(l.target) == v && nb.target == EndValue(l.source)))
  {
    if links != [] {
      var init := links[..|links| - 1];
      var l := links[|links| - 1];
      EntriesMembers(init, v, directed, zeroDefault, nb);
      assert links == init + [l];
      assert forall x :: x in links <==> x in init || x == l;
    }
  }

  /** The printed-and-parsed adjacency is a valid parsed object whose lists
      hold the reference entries. */
  lemma ToJsonShape(ids: seq<string>, links: seq<Link>, directed: bool)
    requires Drawn(ids, links)
    ensures AdjacencyOf(ids, links, directed, true).Ok?
    ensures var g := ToJson(AdjacencyOf(ids, links, directed, true).value);
            ValidJson(g) && g.keys == ids
            && forall v :: v in ids ==> g.values[v] == Arr(JsonEntries(Entries(links, v, directed, true)))
  {
    AdjacencyShape(ids, links, directed, true);
    DedupDistinct(ids);
  }

  /** The editor's text for the links, parsed back. */
  function Written(ids: seq<string>, links: seq<Link>, directed: bool): (g: JsonGraph)
    requires Drawn(ids, links)
    ensures ValidJson(g) && g.keys == ids
    ensures forall v :: v in ids ==> g.values[v] == Arr(JsonEntries(Entries(links, v, directed, true)))
  {
    ToJsonShape(ids, links, directed);
    ToJson(AdjacencyOf(ids, links, directed, true).value)
  }

  // ---------------------------------------------------------------------
  // Directed: the same links, grouped by source.

  /** The normalised links leaving `v`, in link order. */
  function OutOf(links: seq<Link>, v: string): seq<Link> {
    if links == [] then []
    else
      var l := links[|links| - 1];
      OutOf(links[..|links| - 1], v) + (if EndKey(l.source) == v then [Normalise(l)] else [])
  }

  /** The out-lists of the keys `ks`, one after the other. */
  function ByKeys(ks: seq<string>, links: seq<Link>): seq<Link> {
    if ks == [] then [] else ByKeys(ks[..|ks| - 1], links) + OutOf(links, ks[|ks| - 1])
  }

  lemma JsonEntriesAppend(a: seq<Nb>, b: seq<Nb>)
    ensures JsonEntries(a + b) == JsonEntries(a) + JsonEntries(b)
  {
  }

  lemma EntryCandidatesAppend(from: string, a: seq<JsonEntry>, e: JsonEntry)
    ensures EntryCandidates(from, a + [e]) == EntryCandidates(from, a) + EntryCandidate(from, e)
  {
    assert (a + [e])[..|a|] == a;
  }

  /** A link leaving `v` adds one entry, read back as the link itself. */
  lemma DirectedStep(ids: seq<string>, init: seq<Link>, l: Link, v: string)
    requires Drawn(ids, init + [l]) && EndKey(l.source) == v
    ensures LinksOf(ids, EntryCandidates(v, JsonEntries(Entries(init + [l], v, true, true))))
            == LinksOf(ids, EntryCandidates(v, JsonEntries(Entries(init, v, true, true)))) + [Normalise(l)]
  {
    var links := init + [l];
    assert links[..|links| - 1] == init;
    assert l in links;
    var prior := JsonEntries(Entries(init, v, true, true));
    var nb := Nb(EndValue(l.target), EntryWeight(l, true));
    assert Entries(links, v, true, true) == Entries(init, v, true, true) + [nb];
    JsonEntriesAppend(Entries(init, v, true, true), [nb]);
    EntryCandidatesAppend(v, prior, Entry(nb.target, nb.distance));
    var c := Candidate(v, Some(l.target.id), Some(OrZero(l.weight)));
    assert EntryCandidate(v, Entry(nb.target, nb.distance)) == [c];
    LinksOfAppend(ids, EntryCandidates(v, prior), [c]);
    assert LinkOf(ids, c) == Normalise(l);
  }

  /** One directed list read back gives exactly the links leaving its key. */
  lemma {:induction false} DirectedList(ids: seq<string>, links: seq<Link>, v: string)
    requires Drawn(ids, links)
    ensures LinksOf(ids, EntryCandidates(v, JsonEntries(Entries(links, v, true, true)))) == OutOf(links, v)
  {
    if links != [] {
      var init := links[..|links| - 1];
      var l := links[|links| - 1];
      assert links == init + [l];
      assert forall x :: x in init ==> x in links;
      DirectedList(ids, init, v);
      if EndKey(l.source) == v {
        DirectedStep(ids, init, l, v);
      } else {
        assert Entries(links, v, true, true) == Entries(init, v, true, true);
      }
    }
  }

  /** Reading the keys back in order yields the out-lists one after the other. */
  lemma {:induction false} DirectedKeys(ids: seq<string>, links: seq<Link>, ks: seq<string>)
    requires Drawn(ids, links)
    requires forall k :: k in ks ==> k in ids
    ensures var g := Written(ids, links, true);
            LinksOf(ids, Candidates(ks, g.values)) == ByKeys(ks, links)
  {
    ToJsonShape(ids, links, true);
    var g := Written(ids, links, true);
    if ks != [] {
      var init := ks[..|ks| - 1];
      var k := ks[|ks| - 1];
      DirectedKeys(ids, links, init);
      DirectedList(ids, links, k);
      LinksOfAppend(ids, Candidates(init, g.values), ListCandidates(k, g.values[k]));
    }
  }

  lemma {:induction false} ByKeysStep(ks: seq<string>, links: seq<Link>, l: Link)
    requires Distinct(ks)
    ensures multiset(ByKeys(ks, links + [l]))
            == multiset(ByKeys(ks, links)) + (if EndKey(l.source) in ks then multiset{Normalise(l)} else multiset{})
  {
    if ks != [] {
      var init := ks[..|ks| - 1];
      var k := ks[|ks| - 1];
      assert ks == init + [k];
      ByKeysStep(init, links, l);
      assert (links + [l])[..|links|] == links;
      assert OutOf(links + [l], k) == OutOf(links, k) + (if EndKey(l.source) == k then [Normalise(l)] else []);
    }
  }

  lemma {:induction false} ByKeysEmpty(ks: seq<string>)
    ensures ByKeys(ks, []) == []
  {
    if ks != [] { ByKeysEmpty(ks[..|ks| - 1]); }
  }

  /** Grouping the links by source keeps every link once. */
  lemma {:induction false} ByKeysPermutation(ks: seq<string>, links: seq<Link>)
    requires Distinct(ks) && forall l :: l in links ==> EndKey(l.source) in ks
    ensures multiset(ByKeys(ks, links)) == multiset(seq(|links|, i requires 0 <= i < |links| => Normalise(links[i])))
  {
    if links == [] {
      ByKeysEmpty(ks);
    } else {
      var init := links[..|links| - 1];
      var l := links[|links| - 1];
      assert links == init + [l];
      ByKeysPermutation(ks, init);
      ByKeysStep(ks, init, l);
      var all := seq(|links|, i requires 0 <= i < |links| => Normalise(links[i]));
      assert all == seq(|init|, i requires 0 <= i < |init| => Normalise(init[i])) + [Normalise(l)];
    }
  }

  /** Directed round trip: writing the links out and reading them back with
      the directed converter gives the same node ids and the same multiset of
      (source, target, weight), a missing weight read back as 0. */
  lemma DirectedRoundTrip(ids: seq<string>, links: seq<Link>)
    requires Drawn(ids, links)
    ensures AdjacencyOf(ids, links, true, true).Ok?
    ensures var back := Convert(Written(ids, links, true), KeepAll);
            back.0 == ids
            && multiset(back.1) == multiset(seq(|links|, i requires 0 <= i < |links| => Normalise(links[i])))
  {
    ToJsonShape(ids, links, true);
    var g := Written(ids, links, true);
    DirectedKeys(ids, links, ids);
    KeptWithin(Candidates(ids, g.values), KeepAll);
    ByKeysPermutation(ids, links);
  }

  // ---------------------------------------------------------------------
  // Undirected: the same unordered pairs with the same weights.

  /** Two links join the same two nodes, in either direction. */
  predicate SamePair(a: Link, b: Link) {
    (EndKey(a.source) == EndKey(b.source) && EndKey(a.target) == EndKey(b.target))
    || (EndKey(a.source) == EndKey(b.target) && EndKey(a.target) == EndKey(b.source))
  }

  /** No two links join the same two nodes. */
  predicate PairsDistinct(links: seq<Link>) {
    forall i, j :: 0 <= i < j < |links| ==> !SamePair(links[i], links[j])
  }

  lemma PairsDistinctSame(links: seq<Link>, l: Link, l2: Link)
    requires PairsDistinct(links) && l in links && l2 in links && SamePair(l2, l)
    ensures l2 == l
  {
    var a :| 0 <= a < |links| && links[a] == l;
    var b :| 0 <= b < |links| && links[b] == l2;
    assert SamePair(links[a], links[b]) && SamePair(links[b], links[a]);
    assert a == b;
  }

  /** Every undirected candidate read back is one of the links, in one of
      its two directions, with its weight (missing read as 0). */
  lemma UndirectedCandidateOrigin(ids: seq<string>, links: seq<Link>, c: Candidate)
    requires Drawn(ids, links)
    requires c in Candidates(ids, Written(ids, links, false).values)
    ensures c.target.Some?
    ensures exists l :: l in links && c.weight == Some(OrZero(l.weight))
              && ((c.from == l.source.id && c.target.value == l.target.id)
                  || (c.from == l.target.id && c.target.value == l.source.id))
  {
    ToJsonShape(ids, links, false);
    var g := Written(ids, links, false);
    CandidatesOrigin(ids, g.values, c);
    var d :| Entry(c.target, d) in g.values[c.from].entries && c.weight == Some(OrZero(d));
    var es := Entries(links, c.from, false, true);
    var i := IndexOf(JsonEntries(es), Entry(c.target, d));
    assert es[i] == Nb(c.target, d);
    EntriesMembers(links, c.from, false, true, Nb(c.target, d));
  }

  /** Every link is read back as a candidate under its source key. */
  lemma UndirectedLinkRead(ids: seq<string>, links: seq<Link>, l: Link)
    requires Drawn(ids, links) && l in links
    ensures Candidate(l.source.id, Some(l.target.id), Some(OrZero(l.weight)))
            in Candidates(ids, Written(ids, links, false).values)
  {
    ToJsonShape(ids, links, false);
    var g := Written(ids, links, false);
    var v := l.source.id;
    var nb := Nb(Some(l.target.id), Some(OrZero(l.weight)));
    EntriesMembers(links, v, false, true, nb);
    var es := Entries(links, v, false, true);
    var i :| 0 <= i < |es| && es[i] == nb;
    assert JsonEntries(es)[i] == Entry(Some(l.target.id), Some(OrZero(l.weight)));
    CandidatesComplete(ids, g.values, v, l.target.id, Some(OrZero(l.weight)));
  }

  /** Some kept candidate carries a link's pair and weight. */
  lemma UndirectedPairKept(ids: seq<string>, links: seq<Link>, l: Link)
    requires Drawn(ids, links) && l in links
    requires forall v :: v in ids ==> '_' !in v
    requires PairsDistinct(links)
    ensures exists c :: c in Kept(Candidates(ids, Written(ids, links, false).values), SortedPair)
              && c.target.Some? && c.weight == Some(OrZero(l.weight))
              && ((c.from == l.source.id && c.target.value == l.target.id)
                  || (c.from == l.target.id && c.target.value == l.source.id))
  {
    var cs := Candidates(ids, Written(ids, links, false).values);
    var kept := Kept(cs, SortedPair);
    KeptWithin(cs, SortedPair);
    var c0 := Candidate(l.source.id, Some(l.target.id), Some(OrZero(l.weight)));
    UndirectedLinkRead(ids, links, l);
    KeptCovers(cs, SortedPair, c0);
    var c :| c in kept && KeyOf(c, SortedPair) == KeyOf(c0, SortedPair);
    UndirectedCandidateOrigin(ids, links, c);
    var l2 :| l2 in links && c.weight == Some(OrZero(l2.weight))
              && ((c.from == l2.source.id && c.target.value == l2.target.id)
                  || (c.from == l2.target.id && c.target.value == l2.source.id));
    PairKeyInjective(c.from, c.target.value, l.source.id, l.target.id);
    PairsDistinctSame(links, l, l2);
  }

  /** The kept candidate that carries a link's pair becomes a link with
      that pair and weight. */
  lemma UndirectedLinkKept(ids: seq<string>, links: seq<Link>, l: Link)
    requires Drawn(ids, links) && l in links
    requires forall v :: v in ids ==> '_' !in v
    requires PairsDistinct(links)
    ensures var back := Convert(Written(ids, links, false), SortedPair);
            exists k :: k in back.1 && SamePair(k, l) && k.weight == Some(OrZero(l.weight))
  {
    var g := Written(ids, links, false);
    var kept := Kept(Candidates(ids, g.values), SortedPair);
    UndirectedPairKept(ids, links, l);
    var c :| c in kept && c.target.Some? && c.weight == Some(OrZero(l.weight))
              && ((c.from == l.source.id && c.target.value == l.target.id)
                  || (c.from == l.target.id && c.target.value == l.source.id));
    var j := IndexOf(kept, c);
    var k := LinksOf(ids, kept)[j];
    assert k == LinkOf(ids, c);
    assert k in Convert(g, SortedPair).1 && SamePair(k, l);
  }

  /** Every link read back joins the two nodes of some link, with its
      weight. */
  lemma UndirectedLinkOrigin(ids: seq<string>, links: seq<Link>, k: Link)
    requires Drawn(ids, links)
    requires k in Convert(Written(ids, links, false), SortedPair).1
    ensures exists l :: l in links && SamePair(k, l) && k.weight == Some(OrZero(l.weight))
  {
    ToJsonShape(ids, links, false);
    var g := Written(ids, links, false);
    var cs := Candidates(ids, g.values);
    var kept := Kept(cs, SortedPair);
    KeptWithin(cs, SortedPair);
    var i :| 0 <= i < |kept| && LinksOf(ids, kept)[i] == k;
    var c := kept[i];
    assert k == LinkOf(ids, c);
    UndirectedCandidateOrigin(ids, links, c);
    var l :| l in links && c.weight == Some(OrZero(l.weight))
             && ((c.from == l.source.id && c.target.value == l.target.id)
                 || (c.from == l.target.id && c.target.value == l.source.id));
    assert SamePair(k, l);
  }

  /** Undirected round trip: if the identifiers hold no underscore and no two
      links join the same two nodes, writing the links out in undirected
      mode and reading them back with the sorted-pair converter gives the
      same node ids and the same unordered pairs with the same weights. */
  lemma UndirectedRoundTrip(ids: seq<string>, links: seq<Link>)
    requires Drawn(ids, links)
    requires forall v :: v in ids ==> '_' !in v
    requires PairsDistinct(links)
    ensures AdjacencyOf(ids, links, false, true).Ok?
    ensures var back := Convert(Written(ids, links, false), SortedPair);
            back.0 == ids
            && (forall k :: k in back.1 ==> exists l :: l in links && SamePair(k, l) && k.weight == Some(OrZero(l.weight)))
            && (forall l :: l in links ==> exists k :: k in back.1 && SamePair(k, l) && k.weight == Some(OrZero(l.weight)))
  {
    ToJsonShape(ids, links, false);
    var g := Written(ids, links, false);
    var cs := Candidates(ids, g.values);
    var kept := Kept(cs, SortedPair);
    var back := Convert(g, SortedPair);
    forall k | k in back.1
      ensures exists l :: l in links && SamePair(k, l) && k.weight == Some(OrZero(l.weight))
    {
      UndirectedLinkOrigin(ids, links, k);
    }
    forall l | l in links
      ensures exists k :: k in back.1 && SamePair(k, l) && k.weight == Some(OrZero(l.weight))
    {
      UndirectedLinkKept(ids, links, l);
    }
  }
}
