/** Converting an adjacency object into nodes and links
    (`adjacencyToNodesLinksUndirected` / `...Directed` of the JSON editor and
    of the toolbar, `adjacencyToNodesLinks` of the application).  All of
    them walk the keys in order and each key's list in order, and add a link
    for an entry unless its dedup key was seen before. */
module Converters {
  import opened Common
  import opened FrontModel

  /** A neighbour entry that passed the converter's filters: the key it is
      listed under, its target and the weight the link gets. */
  datatype Candidate = Candidate(from: string, target: Option<string>, weight: Option<int>)

  /** How a converter recognises an edge it already added: the sorted,
      `_`-joined pair; the ordered key `${from}_${target}`; or no dedup. */
  datatype KeyRule = SortedPair | Ordered | KeepAll

  /** The target used as a property key (`undefined` becomes "undefined"). */
  function TargetKey(c: Candidate): string {
    if c.target.Some? then c.target.value else "undefined"
  }

  /** The dedup key of an entry.  `[from, undefined].sort()` keeps
      `undefined` last and `join` writes it as the empty string. */
  function KeyOf(c: Candidate, rule: KeyRule): string {
    match rule
    case SortedPair => if c.target.Some? then PairKey(c.from, c.target.value) else c.from + "_"
    case _ => Join(c.from, TargetKey(c))
  }

  function KeySet(cs: seq<Candidate>, rule: KeyRule): set<string> {
    set c | c in cs :: KeyOf(c, rule)
  }

  /** The entries that become links, in order: each whose key is new (every
      one under `KeepAll`). */
  function Kept(cs: seq<Candidate>, rule: KeyRule): seq<Candidate> {
    if cs == [] then []
    else
      var init := cs[..|cs| - 1];
      var c := cs[|cs| - 1];
      Kept(init, rule) + (if rule == KeepAll || KeyOf(c, rule) !in KeySet(init, rule) then [c] else [])
  }

  /** `{source: nodeMap[from], target: nodeMap[target], weight}`. */
  function LinkOf(ids: seq<string>, c: Candidate): Link {
    Link(NodeRef(ids, c.from), NodeRef(ids, TargetKey(c)), c.weight)
  }

  function LinksOf(ids: seq<string>, cs: seq<Candidate>): (ls: seq<Link>)
    ensures |ls| == |cs| && forall i :: 0 <= i < |cs| ==> ls[i] == LinkOf(ids, cs[i])
  {
    seq(|cs|, i requires 0 <= i < |cs| => LinkOf(ids, cs[i]))
  }

  /** An entry the editor and the toolbar keep: an object whose `target` is
      a non-empty string; `distance ?? 0` (`|| 0`) becomes the weight. */
  function EntryCandidate(from: string, nb: JsonEntry): seq<Candidate> {
    if nb.Entry? && nb.target.Some? && nb.target.value != "" then
      [Candidate(from, nb.target, Some(OrZero(nb.distance)))]
    else []
  }

  function EntryCandidates(from: string, es: seq<JsonEntry>): seq<Candidate> {
    if es == [] then []
    else EntryCandidates(from, es[..|es| - 1]) + EntryCandidate(from, es[|es| - 1])
  }

  /** A value that is not an array is skipped. */
  function ListCandidates(from: string, l: JsonList): seq<Candidate> {
    if l.Arr? then EntryCandidates(from, l.entries) else []
  }

  /** The entries of the keys `ks`, key by key. */
  function Candidates(ks: seq<string>, values: map<string, JsonList>): seq<Candidate>
    requires forall k :: k in ks ==> k in values
  {
    if ks == [] then []
    else Candidates(ks[..|ks| - 1], values) + ListCandidates(ks[|ks| - 1], values[ks[|ks| - 1]])
  }

  /** What a converter returns: the keys as nodes, the kept entries as links. */
  function Convert(g: JsonGraph, rule: KeyRule): (seq<string>, seq<Link>)
    requires ValidJson(g)
  {
    (g.keys, LinksOf(g.keys, Kept(Candidates(g.keys, g.values), rule)))
  }

  lemma KeptStep(cs: seq<Candidate>, c: Candidate, rule: KeyRule)
    ensures Kept(cs + [c], rule)
            == Kept(cs, rule) + (if rule == KeepAll || KeyOf(c, rule) !in KeySet(cs, rule) then [c] else [])
  {
    assert (cs + [c])[..|cs|] == cs;
  }

  lemma KeySetStep(cs: seq<Candidate>, c: Candidate, rule: KeyRule)
    ensures KeySet(cs + [c], rule) == KeySet(cs, rule) + {KeyOf(c, rule)}
  {
    assert forall x :: x in cs + [c] <==> x in cs || x == c;
  }

  lemma LinksOfAppend(ids: seq<string>, a: seq<Candidate>, b: seq<Candidate>)
    ensures LinksOf(ids, a + b) == LinksOf(ids, a) + LinksOf(ids, b)
  {
  }

  /** An entry adds its link exactly when it is kept. */
  lemma LinksStep(ids: seq<string>, cs: seq<Candidate>, c: Candidate, rule: KeyRule)
    ensures LinksOf(ids, Kept(cs + [c], rule))
            == LinksOf(ids, Kept(cs, rule))
               + (if rule == KeepAll || KeyOf(c, rule) !in KeySet(cs, rule) then [LinkOf(ids, c)] else [])
  {
    KeptStep(cs, c, rule);
    LinksSnoc(ids, Kept(cs, rule), c, rule == KeepAll || KeyOf(c, rule) !in KeySet(cs, rule));
  }

  lemma LinksSnoc(ids: seq<string>, a: seq<Candidate>, c: Candidate, keep: bool)
    ensures LinksOf(ids, a + (if keep then [c] else [])) == LinksOf(ids, a) + (if keep then [LinkOf(ids, c)] else [])
  {
    if !keep {
      assert a + [] == a;
    }
  }

  /** One entry that passed the filters: pushed unless its key was added. */
  method Offer(ids: seq<string>, c: Candidate, rule: KeyRule,
               links0: seq<Link>, added0: set<string>, ghost cs0: seq<Candidate>)
    returns (links: seq<Link>, added: set<string>)
    requires links0 == LinksOf(ids, Kept(cs0, rule))
    requires rule != KeepAll ==> added0 == KeySet(cs0, rule)
    ensures links == LinksOf(ids, Kept(cs0 + [c], rule))
    ensures rule != KeepAll ==> added == KeySet(cs0 + [c], rule)
  {
    LinksStep(ids, cs0, c, rule);
    KeySetStep(cs0, c, rule);
    links, added := links0, added0;
    if rule == KeepAll {
      links := links + [LinkOf(ids, c)];
    } else {
      var key := KeyOf(c, rule);
      if key !in added {
        links := links + [LinkOf(ids, c)];
        added := added + {key};
      }
    }
  }

  /** The inner loop: the entries of one key's list, in order. */
  method AddEntries(ids: seq<string>, from: string, es: seq<JsonEntry>, rule: KeyRule,
                    links0: seq<Link>, added0: set<string>, ghost cs0: seq<Candidate>)
    returns (links: seq<Link>, added: set<string>, ghost cs: seq<Candidate>)
    requires links0 == LinksOf(ids, Kept(cs0, rule))
    requires rule != KeepAll ==> added0 == KeySet(cs0, rule)
    ensures cs == cs0 + EntryCandidates(from, es)
    ensures links == LinksOf(ids, Kept(cs, rule))
    ensures rule != KeepAll ==> added == KeySet(cs, rule)
  {
    links, added, cs := links0, added0, cs0;
    var j := 0;
    while j < |es|
      invariant 0 <= j <= |es|
      invariant cs == cs0 + EntryCandidates(from, es[..j])
      invariant links == LinksOf(ids, Kept(cs, rule))
      invariant rule != KeepAll ==> added == KeySet(cs, rule)
    {
      var nb := es[j];
      assert es[..j + 1][..j] == es[..j];
      assert EntryCandidates(from, es[..j + 1]) == EntryCandidates(from, es[..j]) + EntryCandidate(from, nb);
      if nb.Entry? && nb.target.Some? && nb.target.value != "" {
        var c := Candidate(from, nb.target, Some(OrZero(nb.distance)));
        links, added := Offer(ids, c, rule, links, added, cs);
        cs := cs + [c];
      }
      j := j + 1;
    }
    assert es[..j] == es;
  }

  /** The converters of the editor and the toolbar (`rule` selects the dedup
      key; the editor's directed converter keeps every entry): nested loops
      over the keys and their lists, pushing a link for each entry whose key
      is new and recording the key in `added`. */
  method ToNodesLinks(g: JsonGraph, rule: KeyRule) returns (nodes: seq<string>, links: seq<Link>)
    requires ValidJson(g)
    ensures (nodes, links) == Convert(g, rule)
  {
    nodes := g.keys;
    links := [];
    var added: set<string> := {};
    ghost var cs: seq<Candidate> := [];
    var i := 0;
    while i < |g.keys|
      invariant 0 <= i <= |g.keys|
      invariant cs == Candidates(g.keys[..i], g.values)
      invariant links == LinksOf(nodes, Kept(cs, rule))
      invariant rule != KeepAll ==> added == KeySet(cs, rule)
    {
      var from := g.keys[i];
      assert g.keys[..i + 1][..i] == g.keys[..i];
      var neighbors := g.values[from];
      if neighbors.Arr? {
        links, added, cs := AddEntries(nodes, from, neighbors.entries, rule, links, added, cs);
      }
      i := i + 1;
    }
    assert g.keys[..i] == g.keys;
  }

  // ---------------------------------------------------------------------
  // What the dedup keeps.

  /** Every kept entry is an entry, so there are never more links than
      entries; under `KeepAll` every entry is kept. */
  lemma {:induction false} KeptWithin(cs: seq<Candidate>, rule: KeyRule)
    ensures |Kept(cs, rule)| <= |cs|
    ensures forall k :: k in Kept(cs, rule) ==> k in cs
    ensures rule == KeepAll ==> Kept(cs, rule) == cs
  {
    if cs != [] {
      var init := cs[..|cs| - 1];
      KeptWithin(init, rule);
      assert cs == init + [cs[|cs| - 1]];
    }
  }

  /** The kept entries cover every key, and (with a dedup key) no two of
      them share one. */
  lemma {:induction false} KeptKeys(cs: seq<Candidate>, rule: KeyRule)
    ensures KeySet(Kept(cs, rule), rule) == KeySet(cs, rule)
    ensures rule != KeepAll ==>
              forall i, j :: 0 <= i < j < |Kept(cs, rule)| ==>
                KeyOf(Kept(cs, rule)[i], rule) != KeyOf(Kept(cs, rule)[j], rule)
  {
    if cs != [] {
      var init := cs[..|cs| - 1];
      var c := cs[|cs| - 1];
      assert cs == init + [c];
      KeptKeys(init, rule);
      KeySetStep(init, c, rule);
      var ki := Kept(init, rule);
      if rule == KeepAll || KeyOf(c, rule) !in KeySet(init, rule) {
        KeySetStep(ki, c, rule);
        if rule != KeepAll {
          forall i | 0 <= i < |ki|
            ensures KeyOf(ki[i], rule) != KeyOf(c, rule)
          {
            assert ki[i] in ki;
          }
        }
      }
    }
  }

  /** Each entry shares a key with an entry that was kept. */
  lemma KeptCovers(cs: seq<Candidate>, rule: KeyRule, c: Candidate)
    requires c in cs
    ensures exists k :: k in Kept(cs, rule) && KeyOf(k, rule) == KeyOf(c, rule)
  {
    KeptKeys(cs, rule);
    assert KeyOf(c, rule) in KeySet(cs, rule);
  }

  /** No entry before position `i` has the key of `cs[i]`. */
  predicate FirstAt(cs: seq<Candidate>, i: nat, rule: KeyRule)
    requires i < |cs|
  {
    forall j :: 0 <= j < i ==> KeyOf(cs[j], rule) != KeyOf(cs[i], rule)
  }

  /** The kept entries are exactly the first entries of their keys: the
      link of a pair carries the weight of its first occurrence. */
  lemma KeptFirst(cs: seq<Candidate>, rule: KeyRule)
    requires rule != KeepAll
    ensures forall i :: 0 <= i < |cs| && FirstAt(cs, i, rule) ==> cs[i] in Kept(cs, rule)
    ensures forall k :: k in Kept(cs, rule) ==> exists i :: 0 <= i < |cs| && cs[i] == k && FirstAt(cs, i, rule)
  {
    var key := c => KeyOf(c, rule);
    KeptIsKeptBy(cs, rule);
    FirstKeptBy(cs, key);
    KeptOnlyFirstBy(cs, key);
    forall i | 0 <= i < |cs|
      ensures FirstAt(cs, i, rule) <==> FirstAtBy(cs, i, key)
    {
    }
  }

  // The two directions of `KeptFirst` use nothing of the key but equality,
  // so they are proved for any key function.

  function KeysBy(cs: seq<Candidate>, key: Candidate -> string): set<string> {
    set c | c in cs :: key(c)
  }

  /** `Kept` under a key function. */
  function KeptBy(cs: seq<Candidate>, key: Candidate -> string): seq<Candidate> {
    if cs == [] then []
    else
      var init := cs[..|cs| - 1];
      var c := cs[|cs| - 1];
      KeptBy(init, key) + (if key(c) !in KeysBy(init, key) then [c] else [])
  }

  predicate FirstAtBy(cs: seq<Candidate>, i: nat, key: Candidate -> string)
    requires i < |cs|
  {
    forall j :: 0 <= j < i ==> key(cs[j]) != key(cs[i])
  }

  /** A deduplicating rule keeps what its key function keeps. */
  lemma {:induction false} KeptIsKeptBy(cs: seq<Candidate>, rule: KeyRule)
    requires rule != KeepAll
    ensures Kept(cs, rule) == KeptBy(cs, c => KeyOf(c, rule))
  {
    if cs != [] {
      var init := cs[..|cs| - 1];
      KeptIsKeptBy(init, rule);
      assert KeySet(init, rule) == KeysBy(init, c => KeyOf(c, rule));
    }
  }

  /** Every first entry of its key is kept. */
  lemma {:induction false} FirstKeptBy(cs: seq<Candidate>, key: Candidate -> string)
    ensures forall i :: 0 <= i < |cs| && FirstAtBy(cs, i, key) ==> cs[i] in KeptBy(cs, key)
  {
    if cs != [] {
      var n := |cs| - 1;
      var init := cs[..n];
      FirstKeptBy(init, key);
      forall i | 0 <= i < |cs| && FirstAtBy(cs, i, key)
        ensures cs[i] in KeptBy(cs, key)
      {
        if i < n {
          assert FirstAtBy(init, i, key) && init[i] == cs[i];
        } else {
          NewKeyBy(cs, key);
        }
      }
    }
  }

  /** The last entry's key is new when no earlier entry has it. */
  lemma NewKeyBy(cs: seq<Candidate>, key: Candidate -> string)
    requires cs != [] && FirstAtBy(cs, |cs| - 1, key)
    ensures key(cs[|cs| - 1]) !in KeysBy(cs[..|cs| - 1], key)
  {
    var init := cs[..|cs| - 1];
    forall c | c in init
      ensures key(c) != key(cs[|cs| - 1])
    {
      var j := IndexOf(init, c);
      assert cs[j] == c;
    }
  }

  /** Every kept entry is the first entry of its key. */
  lemma {:induction false} KeptOnlyFirstBy(cs: seq<Candidate>, key: Candidate -> string)
    ensures forall k :: k in KeptBy(cs, key) ==> exists i :: 0 <= i < |cs| && cs[i] == k && FirstAtBy(cs, i, key)
  {
    if cs != [] {
      var n := |cs| - 1;
      var init := cs[..n];
      var c := cs[n];
      KeptOnlyFirstBy(init, key);
      forall k | k in KeptBy(cs, key)
        ensures exists i :: 0 <= i < |cs| && cs[i] == k && FirstAtBy(cs, i, key)
      {
        if k in KeptBy(init, key) {
          var i :| 0 <= i < n && init[i] == k && FirstAtBy(init, i, key);
          assert cs[i] == k && FirstAtBy(cs, i, key);
        } else {
          assert k == c && key(c) !in KeysBy(init, key);
          forall j | 0 <= j < n
            ensures key(cs[j]) != key(cs[n])
          {
            assert cs[j] in init;
          }
          assert FirstAtBy(cs, n, key);
        }
      }
    }
  }

  /** With the sorted key, an entry and its reverse are never both kept
      (provided the identifiers hold no underscore, the key determines the
      unordered pair). */
  lemma SortedMergesReverse(cs: seq<Candidate>, i: nat, j: nat)
    requires i < j < |Kept(cs, SortedPair)|
    ensures var a := Kept(cs, SortedPair)[i];
            var b := Kept(cs, SortedPair)[j];
            !(a.target == Some(b.from) && b.target == Some(a.from))
  {
    KeptKeys(cs, SortedPair);
    var a := Kept(cs, SortedPair)[i];
    var b := Kept(cs, SortedPair)[j];
    PairKeySymmetric(a.from, b.from);
  }

  /** With the ordered key and identifiers without underscores, every
      (from, target) pair of the entries is kept once: an entry and its
      reverse both give a link, an exact repeat does not. */
  lemma OrderedKeepsEachPair(cs: seq<Candidate>, c: Candidate)
    requires c in cs
    requires forall x :: x in cs ==> '_' !in x.from
    ensures exists k :: k in Kept(cs, Ordered) && k.from == c.from && TargetKey(k) == TargetKey(c)
  {
    KeptCovers(cs, Ordered, c);
    KeptWithin(cs, Ordered);
    var k :| k in Kept(cs, Ordered) && KeyOf(k, Ordered) == KeyOf(c, Ordered);
    JoinInjective(k.from, TargetKey(k), c.from, TargetKey(c));
  }

  /** With the ordered key, two kept entries never have the same source and
      target. */
  lemma OrderedNoRepeat(cs: seq<Candidate>, i: nat, j: nat)
    requires i < j < |Kept(cs, Ordered)|
    ensures var a := Kept(cs, Ordered)[i];
            var b := Kept(cs, Ordered)[j];
            !(a.from == b.from && TargetKey(a) == TargetKey(b))
  {
    KeptKeys(cs, Ordered);
  }

  /** Only array lists and entries with a non-empty `target` contribute,
      each as one candidate listed under its key. */
  lemma {:induction false} CandidatesOrigin(ks: seq<string>, values: map<string, JsonList>, c: Candidate)
    requires forall k :: k in ks ==> k in values
    requires c in Candidates(ks, values)
    ensures c.from in ks && values[c.from].Arr?
    ensures c.target.Some? && c.target.value != "" && c.weight.Some?
    ensures exists d :: Entry(c.target, d) in values[c.from].entries && c.weight == Some(OrZero(d))
  {
    var init := ks[..|ks| - 1];
    var k := ks[|ks| - 1];
    if c in Candidates(init, values) {
      CandidatesOrigin(init, values, c);
    } else {
      EntryCandidatesOrigin(k, values[k].entries, c);
    }
  }

  lemma {:induction false} EntryCandidatesOrigin(from: string, es: seq<JsonEntry>, c: Candidate)
    requires c in EntryCandidates(from, es)
    ensures c.from == from && c.target.Some? && c.target.value != "" && c.weight.Some?
    ensures exists d :: Entry(c.target, d) in es && c.weight == Some(OrZero(d))
  {
    var init := es[..|es| - 1];
    if c in EntryCandidates(from, init) {
      EntryCandidatesOrigin(from, init, c);
      var d :| Entry(c.target, d) in init && c.weight == Some(OrZero(d));
      assert Entry(c.target, d) in es;
    } else {
      assert es[|es| - 1] == Entry(c.target, es[|es| - 1].distance);
    }
  }

  /** Conversely, every entry with a non-empty target under an array list
      becomes a candidate. */
  lemma {:induction false} CandidatesComplete(ks: seq<string>, values: map<string, JsonList>, k: string, t: string, d: Option<int>)
    requires forall k :: k in ks ==> k in values
    requires k in ks && values[k].Arr? && Entry(Some(t), d) in values[k].entries && t != ""
    ensures Candidate(k, Some(t), Some(OrZero(d))) in Candidates(ks, values)
  {
    var init := ks[..|ks| - 1];
    var last := ks[|ks| - 1];
    if k == last {
      EntryCandidatesComplete(k, values[k].entries, t, d);
    } else {
      CandidatesComplete(init, values, k, t, d);
    }
  }

  lemma {:induction false} EntryCandidatesComplete(from: string, es: seq<JsonEntry>, t: string, d: Option<int>)
    requires Entry(Some(t), d) in es && t != ""
    ensures Candidate(from, Some(t), Some(OrZero(d))) in EntryCandidates(from, es)
  {
    var init := es[..|es| - 1];
    if es[|es| - 1] != Entry(Some(t), d) {
      assert es == init + [es[|es| - 1]];
      EntryCandidatesComplete(from, init, t, d);
    }
  }

  /** The links never outnumber the neighbour entries. */
  lemma {:induction false} CandidatesCount(ks: seq<string>, values: map<string, JsonList>)
    requires forall k :: k in ks ==> k in values
    ensures |Candidates(ks, values)| <= EntryCount(ks, values)
  {
    if ks != [] {
      var k := ks[|ks| - 1];
      CandidatesCount(ks[..|ks| - 1], values);
      if values[k].Arr? { EntryCandidatesCount(k, values[k].entries); }
    }
  }

  lemma {:induction false} EntryCandidatesCount(from: string, es: seq<JsonEntry>)
    ensures |EntryCandidates(from, es)| <= |es|
  {
    if es != [] { EntryCandidatesCount(from, es[..|es| - 1]); }
  }

  /** Number of entries in the array lists of the keys `ks`. */
  function EntryCount(ks: seq<string>, values: map<string, JsonList>): nat
    requires forall k :: k in ks ==> k in values
  {
    if ks == [] then 0
    else
      var l := values[ks[|ks| - 1]];
      EntryCount(ks[..|ks| - 1], values) + (if l.Arr? then |l.entries| else 0)
  }

  /** The nodes are the keys in order, every link comes from an entry with a
      non-empty target, and there are at most as many links as entries. */
  lemma ConvertShape(g: JsonGraph, rule: KeyRule)
    requires ValidJson(g)
    ensures Convert(g, rule).0 == g.keys
    ensures |Convert(g, rule).1| <= EntryCount(g.keys, g.values)
    ensures forall l :: l in Convert(g, rule).1 ==>
              exists c :: c in Candidates(g.keys, g.values) && l == LinkOf(g.keys, c)
  {
    var cs := Candidates(g.keys, g.values);
    KeptWithin(cs, rule);
    CandidatesCount(g.keys, g.values);
    forall l | l in Convert(g, rule).1
      ensures exists c :: c in cs && l == LinkOf(g.keys, c)
    {
      var i :| 0 <= i < |Kept(cs, rule)| && LinksOf(g.keys, Kept(cs, rule))[i] == l;
      assert Kept(cs, rule)[i] in cs;
    }
  }
}
