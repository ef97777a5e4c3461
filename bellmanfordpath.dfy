/** `getBellmanFordPath`: the relaxation driven by an unordered work set,
    then, for every vertex with a predecessor, the walk back along the
    predecessors, turned round and appended to one list of edges. */
module BellmanFordPath {
  import opened Common
  import opened GraphModel
  import opened GraphUtils
  import opened Walks
  import opened BellmanFord

  // ---------------------------------------------------------------------
  // The relaxation: the same as the table's over an unordered work set `L`.

  /** Every edge leaving a vertex outside the work set is relaxed. */
  predicate RelaxedOutside(edges: seq<Edge>, dist: map<string, int>, work: set<string>) {
    forall e :: e in edges && e.source !in work && e.source in dist && e.target in dist && dist[e.source] != MaxValue ==>
      dist[e.target] <= dist[e.source] + e.weight
  }

  /** `u` comes before `v` in the order of distance above the potential,
      then of the time of the last lowering. */
  ghost predicate KeyBelow(pot: map<string, int>, dist: map<string, int>, time: map<string, nat>, u: string, v: string) {
    u in pot && v in pot && u in dist && v in dist && u in time && v in time
    && (dist[u] - pot[u] < dist[v] - pot[v] || (dist[u] - pot[u] == dist[v] - pot[v] && time[u] < time[v]))
  }

  /** Every predecessor comes before its vertex, so chains of predecessors
      end; `time` stamps each lowering with the ghost `clock`. */
  ghost predicate Ranked(pot: map<string, int>, dist: map<string, int>, pred: map<string, Option<string>>,
                         time: map<string, nat>, clock: nat) {
    (forall v :: v in dist ==> v in time && time[v] < clock)
    && forall v :: v in pred && pred[v].Some? ==> KeyBelow(pot, dist, time, pred[v].value, v)
  }

  lemma ImproveRanked(g: Graph, pot: map<string, int>, s: string, dist: map<string, int>,
                      pred: map<string, Option<string>>, time: map<string, nat>, clock: nat, t: string, e: Edge)
    requires FeasibleFrom(g, s, pot) && (forall v :: v in dist <==> v in g.vertices) && Ranked(pot, dist, pred, time, clock)
    requires Sound(g, s, dist) && e in g.edges && Improves(e, t, dist) && e.target != t
    ensures Ranked(pot, Lowered(e, t, dist), pred[e.target := Some(t)], time[e.target := clock], clock + 1)
  {
    var pre :| Chained(g.edges, pre, s, t) && TotalWeight(pre) == dist[t];
    assert pot[e.target] <= pot[t] + e.weight;
    var d := Lowered(e, t, dist);
    var p := pred[e.target := Some(t)];
    var tm := time[e.target := clock];
    forall x | x in p && p[x].Some?
      ensures KeyBelow(pot, d, tm, p[x].value, x)
    {
      if x != e.target {
        assert KeyBelow(pot, dist, time, pred[x].value, x);
      }
    }
  }

  /** Lowering the target of an improving edge and adding it to the work set
      keeps every other edge relaxed. */
  lemma OutsideStep(edges: seq<Edge>, dist: map<string, int>, work: set<string>, t: string, e: Edge)
    requires RelaxedOutside(edges, dist, work + {t}) && Improves(e, t, dist)
    ensures RelaxedOutside(edges, Lowered(e, t, dist), work + {e.target} + {t})
  {
  }

  /** The variables of the work-set loop. */
  datatype Work = Work(dist: map<string, int>, pred: map<string, Option<string>>, work: set<string>)

  /** The ghost stamps: the time of each vertex's last lowering, and the clock. */
  datatype Stamps = Stamps(time: map<string, nat>, clock: nat)

  /** The state of the work-set loop. */
  ghost predicate WorkOk(g: Graph, pot: map<string, int>, s: string, w: Work, st: Stamps) {
    Inv(g, s, w.dist, w.pred) && Ranked(pot, w.dist, w.pred, st.time, st.clock)
    && (forall x :: x in w.work ==> x in g.vertices) && RelaxedOutside(g.edges, w.dist, w.work)
  }

  /** The state during the scan of `t`, the first `j` edges done. */
  ghost predicate WorkScan(g: Graph, pot: map<string, int>, s: string, t: string, w: Work, st: Stamps, j: nat)
    requires j <= |g.edges|
  {
    Inv(g, s, w.dist, w.pred) && Ranked(pot, w.dist, w.pred, st.time, st.clock) && t in g.vertices
    && (forall x :: x in w.work ==> x in g.vertices)
    && RelaxedOutside(g.edges, w.dist, w.work + {t}) && ScanRelaxed(g.edges, w.dist, t, j)
  }

  /** `relax` on edge `e` when it leaves `t`. */
  function RelaxWork(e: Edge, t: string, w: Work): Work {
    if Improves(e, t, w.dist) then Work(Lowered(e, t, w.dist), w.pred[e.target := Some(t)], w.work + {e.target})
    else w
  }

  /** Relaxing, in array order, every edge of `es` that leaves `t`. */
  function ScanOut(es: seq<Edge>, t: string, w: Work): Work {
    if es == [] then w else RelaxWork(es[|es| - 1], t, ScanOut(es[..|es| - 1], t, w))
  }

  ghost function Stamp(e: Edge, t: string, w: Work, st: Stamps): Stamps {
    if Improves(e, t, w.dist) then Stamps(st.time[e.target := st.clock], st.clock + 1) else st
  }

  ghost function StampOut(es: seq<Edge>, t: string, w: Work, st: Stamps): Stamps {
    if es == [] then st
    else Stamp(es[|es| - 1], t, ScanOut(es[..|es| - 1], t, w), StampOut(es[..|es| - 1], t, w, st))
  }

  /** Relaxing edge `j` of the scan. */
  lemma WorkStep(g: Graph, pot: map<string, int>, s: string, t: string, w: Work, st: Stamps, j: nat)
    requires Distinct(g.vertices) && EndpointsIn(g) && FeasibleFrom(g, s, pot)
    requires j < |g.edges| && WorkScan(g, pot, s, t, w, st, j)
    ensures WorkScan(g, pot, s, t, RelaxWork(g.edges[j], t, w), Stamp(g.edges[j], t, w, st), j + 1)
    ensures RelaxWork(g.edges[j], t, w) == w || Below(g.vertices, pot, s, RelaxWork(g.edges[j], t, w).dist, w.dist)
  {
    var e := g.edges[j];
    assert e in g.edges;
    ScanStep(g.edges, w.dist, t, j);
    if Improves(e, t, w.dist) {
      ImproveInv(g, pot, s, w.dist, w.pred, t, e);
      ImproveRanked(g, pot, s, w.dist, w.pred, st.time, st.clock, t, e);
      ImproveBelow(g, pot, s, w.dist, t, e);
      OutsideStep(g.edges, w.dist, w.work, t, e);
      assert w.work + {e.target} + {t} == (w.work + {e.target}) + {t};
    }
  }

  lemma {:induction false} ScanOutState(g: Graph, pot: map<string, int>, s: string, t: string, w: Work, st: Stamps, j: nat)
    requires Distinct(g.vertices) && EndpointsIn(g) && FeasibleFrom(g, s, pot)
    requires j <= |g.edges| && WorkScan(g, pot, s, t, w, st, 0)
    ensures WorkScan(g, pot, s, t, ScanOut(g.edges[..j], t, w), StampOut(g.edges[..j], t, w, st), j)
    ensures ScanOut(g.edges[..j], t, w) == w || Below(g.vertices, pot, s, ScanOut(g.edges[..j], t, w).dist, w.dist)
  {
    if j > 0 {
      ScanOutState(g, pot, s, t, w, st, j - 1);
      var prior := ScanOut(g.edges[..j - 1], t, w);
      var stamps := StampOut(g.edges[..j - 1], t, w, st);
      PrefixOfPrefix(g.edges, j);
      assert ScanOut(g.edges[..j], t, w) == RelaxWork(g.edges[j - 1], t, prior);
      assert StampOut(g.edges[..j], t, w, st) == Stamp(g.edges[j - 1], t, prior, stamps);
      WorkStep(g, pot, s, t, prior, stamps, j - 1);
      var next := RelaxWork(g.edges[j - 1], t, prior);
      if next != prior {
        BelowTrans(g.vertices, pot, s, next.dist, prior.dist, w.dist);
      }
    }
  }

  /** `relax`: lower `dist[k]` through `t` when that is strictly shorter,
      record `t` as the predecessor and add `k` to the work set. */
  method Relax(t: string, k: string, w: int, dist: map<string, int>, pere: map<string, Option<string>>, work: set<string>)
    returns (dist': map<string, int>, pere': map<string, Option<string>>, work': set<string>)
    requires t in dist && k in dist
    ensures if dist[t] != MaxValue && dist[k] > dist[t] + w
            then dist' == dist[k := dist[t] + w] && pere' == pere[k := Some(t)] && work' == work + {k}
            else dist' == dist && pere' == pere && work' == work
  {
    dist', pere', work' := dist, pere, work;
    if dist[t] != MaxValue && dist[k] > dist[t] + w {
      dist' := dist[k := dist[t] + w];
      pere' := pere[k := Some(t)];
      work' := work + {k};
    }
  }

  /** The scan of the edges leaving `t`, `relax` on each. */
  method ScanWork(edges: seq<Edge>, t: string, dist0: map<string, int>, pred0: map<string, Option<string>>,
                  work0: set<string>)
    returns (dist: map<string, int>, pred: map<string, Option<string>>, work: set<string>)
    requires t in dist0 && forall e :: e in edges ==> e.target in dist0
    ensures Work(dist, pred, work) == ScanOut(edges, t, Work(dist0, pred0, work0))
  {
    dist, pred, work := dist0, pred0, work0;
    var j := 0;
    while j < |edges|
      invariant j <= |edges|
      invariant Work(dist, pred, work) == ScanOut(edges[..j], t, Work(dist0, pred0, work0))
      invariant forall v :: v in dist <==> v in dist0
    {
      var e := edges[j];
      assert edges[..j + 1][..j] == edges[..j];
      assert e in edges;
      var u := e.source;
      var v := e.target;
      if u == t {
        dist, pred, work := Relax(u, v, e.weight, dist, pred, work);
      }
      j := j + 1;
    }
    assert edges[..j] == edges;
  }

  /** After the scan of `t` its edges are relaxed too. */
  lemma OutsideDone(edges: seq<Edge>, dist: map<string, int>, work: set<string>, t: string)
    requires RelaxedOutside(edges, dist, work + {t}) && ScanRelaxed(edges, dist, t, |edges|)
    ensures RelaxedOutside(edges, dist, work)
  {
    forall f | f in edges && f.source !in work && f.source in dist && f.target in dist && dist[f.source] != MaxValue
      ensures dist[f.target] <= dist[f.source] + f.weight
    {
      if f.source == t {
        var i :| 0 <= i < |edges| && edges[i] == f;
      }
    }
  }

  lemma WorkStart(g: Graph, pot: map<string, int>, s: string, dist: map<string, int>, pred: map<string, Option<string>>,
                  time: map<string, nat>)
    requires s in g.vertices && IsStart(g.vertices, s, Spfa(dist, pred, [s]))
    requires forall v :: v in dist ==> v in time && time[v] == 0
    ensures WorkOk(g, pot, s, Work(dist, pred, {s}), Stamps(time, 1))
  {
    StartOk(g, s, Spfa(dist, pred, [s]));
  }

  /** One round of the work-set loop, `t` taken out of it. */
  lemma RoundOk(g: Graph, pot: map<string, int>, s: string, t: string, w: Work, st: Stamps)
    requires Distinct(g.vertices) && EndpointsIn(g) && FeasibleFrom(g, s, pot)
    requires t in w.work && WorkOk(g, pot, s, w, st)
    ensures var w0 := w.(work := w.work - {t});
            WorkOk(g, pot, s, ScanOut(g.edges, t, w0), StampOut(g.edges, t, w0, st))
            && (ScanOut(g.edges, t, w0) == w0 || Below(g.vertices, pot, s, ScanOut(g.edges, t, w0).dist, w.dist))
  {
    var w0 := w.(work := w.work - {t});
    assert w0.work + {t} == w.work;
    ScanOutState(g, pot, s, t, w0, st, |g.edges|);
    assert g.edges[..|g.edges|] == g.edges;
    var next := ScanOut(g.edges, t, w0);
    OutsideDone(g.edges, next.dist, next.work, t);
  }

  /** The work-set loop of `getBellmanFordPath`: take any vertex of `L`
      (`HashSet` order is left open) and relax its edges, until `L` is empty. */
  method RelaxAll(g: Graph, ghost pot: map<string, int>, s: string, dist0: map<string, int>,
                  pred0: map<string, Option<string>>)
    returns (dist: map<string, int>, pred: map<string, Option<string>>, ghost stamps: Stamps)
    requires Distinct(g.vertices) && EndpointsIn(g) && FeasibleFrom(g, s, pot) && s in g.vertices
    requires IsStart(g.vertices, s, Spfa(dist0, pred0, [s]))
    ensures Inv(g, s, dist, pred) && Relaxed(g.edges, dist) && Ranked(pot, dist, pred, stamps.time, stamps.clock)
  {
    dist, pred := dist0, pred0;
    stamps := Stamps(map v | v in dist :: 0, 1);
    var work := {s};
    WorkStart(g, pot, s, dist, pred, stamps.time);
    while work != {}
      invariant WorkOk(g, pot, s, Work(dist, pred, work), stamps)
      decreases InfCount(g.vertices, dist), ExcessSum(g.vertices, pot, s, dist), |work|
    {
      var t :| t in work;
      dist, pred, work, stamps := Round(g, pot, s, t, dist, pred, work, stamps);
    }
    OutsideEmpty(g.edges, dist);
  }

  /** One round of the work loop: `t` leaves the work set and its outgoing
      edges are relaxed; the measure of the loop goes down. */
  method Round(g: Graph, ghost pot: map<string, int>, s: string, t: string, dist0: map<string, int>,
               pred0: map<string, Option<string>>, work0: set<string>, ghost stamps0: Stamps)
    returns (dist: map<string, int>, pred: map<string, Option<string>>, work: set<string>, ghost stamps: Stamps)
    requires Distinct(g.vertices) && EndpointsIn(g) && FeasibleFrom(g, s, pot)
    requires t in work0 && WorkOk(g, pot, s, Work(dist0, pred0, work0), stamps0)
    ensures WorkOk(g, pot, s, Work(dist, pred, work), stamps)
    ensures Below(g.vertices, pot, s, dist, dist0) || (dist == dist0 && |work| < |work0|)
  {
    RoundOk(g, pot, s, t, Work(dist0, pred0, work0), stamps0);
    work := work0 - {t};
    stamps := StampOut(g.edges, t, Work(dist0, pred0, work), stamps0);
    dist, pred, work := ScanWork(g.edges, t, dist0, pred0, work);
  }

  lemma OutsideEmpty(edges: seq<Edge>, dist: map<string, int>)
    requires RelaxedOutside(edges, dist, {})
    ensures Relaxed(edges, dist)
  {
  }

  // ---------------------------------------------------------------------
  // The reconstruction.

  /** `es` walks from `a` to `b` along predecessors: each edge enters a
      vertex from its recorded predecessor and is the first such edge. */
  ghost predicate PredChain(edges: seq<Edge>, pred: map<string, Option<string>>, es: seq<Edge>, a: string, b: string) {
    Chained(edges, es, a, b)
    && forall i :: 0 <= i < |es| ==>
         es[i].target in pred && pred[es[i].target] == Some(es[i].source)
         && FirstEdge(edges, es[i].source, es[i].target) == Some(es[i])
  }

  lemma PredChainCons(edges: seq<Edge>, pred: map<string, Option<string>>, es: seq<Edge>, b: string, f: Edge)
    requires PredChain(edges, pred, es, f.target, b)
    requires f.target in pred && pred[f.target] == Some(f.source) && FirstEdge(edges, f.source, f.target) == Some(f)
    ensures PredChain(edges, pred, [f] + es, f.source, b)
  {
    var fs := [f] + es;
    forall i | 0 <= i < |fs|
      ensures fs[i] in edges && fs[i].target in pred && pred[fs[i].target] == Some(fs[i].source)
              && FirstEdge(edges, fs[i].source, fs[i].target) == Some(fs[i])
    {
      if i > 0 {
        assert fs[i] == es[i - 1];
      }
    }
    forall i | 0 <= i < |fs| - 1
      ensures fs[i].target == fs[i + 1].source
    {
      if i > 0 {
        assert fs[i] == es[i - 1] && fs[i + 1] == es[i];
      }
    }
  }

  lemma PredChainInit(edges: seq<Edge>, pred: map<string, Option<string>>, es: seq<Edge>, a: string, b: string)
    requires PredChain(edges, pred, es, a, b) && es != []
    ensures PredChain(edges, pred, es[..|es| - 1], a, es[|es| - 1].source)
  {
    var init := es[..|es| - 1];
    forall i | 0 <= i < |init|
      ensures init[i] == es[i]
    {
    }
  }

  lemma ReverseSnoc<T>(s: seq<T>, x: T)
    ensures Reverse(s + [x]) == [x] + Reverse(s)
  {
    var l, r := Reverse(s + [x]), [x] + Reverse(s);
    forall i | 0 <= i < |l|
      ensures l[i] == r[i]
    {
      if i > 0 {
        assert r[i] == Reverse(s)[i - 1];
      }
    }
  }

  /** The state the reconstruction reads: the final maps and their stamps. */
  ghost predicate Final(g: Graph, pot: map<string, int>, s: string, dist: map<string, int>,
                        pred: map<string, Option<string>>, stamps: Stamps) {
    FeasibleFrom(g, s, pot) && s in g.vertices && Inv(g, s, dist, pred) && Ranked(pot, dist, pred, stamps.time, stamps.clock)
  }

  /** One step back: the predecessor of `cur` is finite and comes before it. */
  lemma BackStep(g: Graph, pot: map<string, int>, s: string, dist: map<string, int>,
                 pred: map<string, Option<string>>, stamps: Stamps, cur: string)
    requires Final(g, pot, s, dist, pred, stamps) && cur in g.vertices && pred[cur].Some?
    ensures var p := pred[cur].value;
            p in g.vertices && dist[p] != MaxValue && FirstEdge(g.edges, p, cur).Some?
            && KeyBelow(pot, dist, stamps.time, p, cur)
  {
    var p := pred[cur].value;
    assert PredEdge(g.edges, dist, p, cur);
  }

  /** The inner `while` of the reconstruction, then `Collections.reverse`:
      the edges back from `v` to the start, in walking order. */
  method WalkBack(g: Graph, ghost pot: map<string, int>, s: string, ghost dist: map<string, int>,
                  pred: map<string, Option<string>>, ghost stamps: Stamps, v: string)
    returns (tmp: seq<Edge>)
    requires Final(g, pot, s, dist, pred, stamps) && v in g.vertices && dist[v] != MaxValue
    ensures PredChain(g.edges, pred, tmp, s, v)
  {
    var cur := v;
    var back: seq<Edge> := [];
    Floor(g, pot, s, dist, cur);
    while pred[cur] != None
      invariant cur in g.vertices && dist[cur] != MaxValue && pot[cur] - pot[s] <= dist[cur]
      invariant PredChain(g.edges, pred, Reverse(back), cur, v)
      decreases dist[cur] - pot[cur] + pot[s], stamps.time[cur]
    {
      var p := pred[cur].value;
      BackStep(g, pot, s, dist, pred, stamps, cur);
      var found := FindEdge(g.edges, p, cur);
      ghost var key, stamp := dist[cur] - pot[cur] + pot[s], stamps.time[cur];
      if found.Some? {
        PredChainCons(g.edges, pred, Reverse(back), v, found.value);
        ReverseSnoc(back, found.value);
        back := back + [found.value];
      }
      cur := p;
      Floor(g, pot, s, dist, cur);
      assert dist[cur] - pot[cur] + pot[s] < key || (dist[cur] - pot[cur] + pot[s] == key && stamps.time[cur] < stamp);
    }
    tmp := Reverse(back);
  }

  /** The vertices whose walk is appended, in vertex order: all but the
      start that have a predecessor. */
  function Ends(vs: seq<string>, s: string, pred: map<string, Option<string>>): (r: seq<string>)
    ensures forall v :: v in r <==> v in vs && v != s && v in pred && pred[v].Some?
  {
    if vs == [] then []
    else
      var v := vs[|vs| - 1];
      Ends(vs[..|vs| - 1], s, pred) + (if v != s && v in pred && pred[v].Some? then [v] else [])
  }

  function Flatten(chunks: seq<seq<Edge>>): seq<Edge> {
    if chunks == [] then [] else Flatten(chunks[..|chunks| - 1]) + chunks[|chunks| - 1]
  }

  /** `chunks` are the walks from `s` to the vertices `ends`, in order. */
  ghost predicate Pieces(edges: seq<Edge>, pred: map<string, Option<string>>, s: string, ends: seq<string>,
                        chunks: seq<seq<Edge>>) {
    |chunks| == |ends| && forall i :: 0 <= i < |chunks| ==> PredChain(edges, pred, chunks[i], s, ends[i])
  }

  lemma PiecesSnoc(edges: seq<Edge>, pred: map<string, Option<string>>, s: string, ends: seq<string>,
                  chunks: seq<seq<Edge>>, v: string, tmp: seq<Edge>)
    requires Pieces(edges, pred, s, ends, chunks) && PredChain(edges, pred, tmp, s, v)
    ensures Pieces(edges, pred, s, ends + [v], chunks + [tmp])
  {
    assert forall i :: 0 <= i < |chunks| ==> (chunks + [tmp])[i] == chunks[i] && (ends + [v])[i] == ends[i];
  }

  /** The outer `for` of the reconstruction. */
  method Rebuild(g: Graph, ghost pot: map<string, int>, s: string, ghost dist: map<string, int>,
                 pred: map<string, Option<string>>, ghost stamps: Stamps)
    returns (result: seq<Edge>, ghost chunks: seq<seq<Edge>>)
    requires Final(g, pot, s, dist, pred, stamps)
    ensures result == Flatten(chunks) && Pieces(g.edges, pred, s, Ends(g.vertices, s, pred), chunks)
  {
    result, chunks := [], [];
    var k := 0;
    while k < |g.vertices|
      invariant k <= |g.vertices|
      invariant result == Flatten(chunks) && Pieces(g.edges, pred, s, Ends(g.vertices[..k], s, pred), chunks)
    {
      var v := g.vertices[k];
      assert g.vertices[..k + 1][..k] == g.vertices[..k];
      assert Ends(g.vertices[..k + 1], s, pred)
             == Ends(g.vertices[..k], s, pred) + (if v != s && v in pred && pred[v].Some? then [v] else []);
      if v != s && pred[v] != None {
        assert pred[v].Some? && dist[v] != MaxValue;
        var tmp := WalkBack(g, pot, s, dist, pred, stamps, v);
        PiecesSnoc(g.edges, pred, s, Ends(g.vertices[..k], s, pred), chunks, v, tmp);
        assert Flatten(chunks + [tmp]) == Flatten(chunks) + tmp;
        result := result + tmp;
        chunks := chunks + [tmp];
      }
      k := k + 1;
    }
    assert g.vertices[..k] == g.vertices;
  }

  /** `getBellmanFordPath`: the start looked up by name, the work-set
      relaxation, then the walks back from every vertex with a predecessor,
      appended in vertex order. */
  method GetBellmanFordPath(g: Graph, startName: string, ghost pot: map<string, int>)
    returns (r: Result<seq<Edge>>, ghost dist: map<string, int>, ghost pred: map<string, Option<string>>,
             ghost chunks: seq<seq<Edge>>)
    requires Distinct(g.vertices) && EndpointsIn(g)
    requires Lookup(g.vertices, startName).Ok? ==> FeasibleFrom(g, Lookup(g.vertices, startName).value, pot)
    ensures Lookup(g.vertices, startName).Err? ==> r == Err(Lookup(g.vertices, startName).error)
    ensures Lookup(g.vertices, startName).Ok? ==>
              var s := Lookup(g.vertices, startName).value;
              r.Ok? && Inv(g, s, dist, pred) && Relaxed(g.edges, dist)
              && r.value == Flatten(chunks) && Pieces(g.edges, pred, s, Ends(g.vertices, s, pred), chunks)
  {
    dist, pred, chunks := map[], map[], [];
    var found := SearchVertex(g.vertices, startName);
    if found.Err? {
      return Err(found.error), dist, pred, chunks;
    }
    var s := found.value;
    var dist0, pred0 := InitMaps(g.vertices, s);
    var d, p, stamps := RelaxAll(g, pot, s, dist0, pred0);
    var result;
    result, chunks := Rebuild(g, pot, s, d, p, stamps);
    return Ok(result), d, p, chunks;
  }

  // ---------------------------------------------------------------------
  // What the walks mean.

  /** A walk along predecessors back to a vertex without one is the only
      one: the result is fixed by the predecessor map. */
  lemma {:induction false} PredChainUnique(edges: seq<Edge>, pred: map<string, Option<string>>, a: string, b: string,
                                           es1: seq<Edge>, es2: seq<Edge>)
    requires a in pred && pred[a] == None
    requires PredChain(edges, pred, es1, a, b) && PredChain(edges, pred, es2, a, b)
    ensures es1 == es2
    decreases |es1|
  {
    if es1 != [] && es2 != [] {
      var x1, x2 := es1[|es1| - 1], es2[|es2| - 1];
      assert pred[b] == Some(x1.source) == Some(x2.source);
      assert x1 == x2;
      PredChainInit(edges, pred, es1, a, b);
      PredChainInit(edges, pred, es2, a, b);
      PredChainUnique(edges, pred, a, x1.source, es1[..|es1| - 1], es2[..|es2| - 1]);
      assert es1 == es1[..|es1| - 1] + [x1] && es2 == es2[..|es2| - 1] + [x2];
    }
  }

  /** Parallel edges (same source and target) have the same weight. */
  predicate SameParallel(edges: seq<Edge>) {
    forall e, f :: e in edges && f in edges && e.source == f.source && e.target == f.target ==> e.weight == f.weight
  }

  /** Without parallel edges of different weights, a walk along the final
      predecessors from the start weighs the distance of its end. */
  lemma {:induction false} ChainWeight(g: Graph, s: string, dist: map<string, int>, pred: map<string, Option<string>>,
                                       es: seq<Edge>, v: string)
    requires Inv(g, s, dist, pred) && Relaxed(g.edges, dist) && SameParallel(g.edges)
    requires PredChain(g.edges, pred, es, s, v)
    ensures TotalWeight(es) == dist[v]
    decreases |es|
  {
    if es != [] {
      var x := es[|es| - 1];
      var init := es[..|es| - 1];
      PredChainInit(g.edges, pred, es, s, v);
      ChainWeight(g, s, dist, pred, init, x.source);
      assert PredEdge(g.edges, dist, x.source, v);
      var f :| f in g.edges && f.source == x.source && f.target == v && dist[x.source] + f.weight <= dist[v];
      assert x in g.edges;
      assert es == init + [x];
      TotalWeightAppend(init, [x]);
    }
  }
}
