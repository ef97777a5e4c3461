/** Bellman-Ford as `BellmanFord` runs it: a queue-driven variant that takes a
    vertex, relaxes only the edges leaving it, and queues every vertex whose
    distance it lowered.  The iteration table uses a FIFO queue with
    `inQueue` flags; the path uses an unordered work set.  Both loops end
    only when no negative cycle is reachable from the start, which the model
    states through a potential feasible from the start: a number per vertex
    that no edge leaving a reached vertex makes negative in reduced weight.
    Cycles the start cannot reach are unconstrained. */
module BellmanFord {
  import opened Common
  import opened GraphModel
  import opened GraphUtils
  import opened Text
  import opened LinkedMap
  import opened Walks

  // ---------------------------------------------------------------------
  // The relaxation state shared by the table and the path.

  /** The test of the relaxation of `e` from `t`: `e` leaves `t`, `t` has a
      finite distance and going through `e` is strictly shorter. */
  predicate Improves(e: Edge, t: string, dist: map<string, int>) {
    e.source == t && t in dist && e.target in dist
    && dist[t] != MaxValue && dist[t] + e.weight < dist[e.target]
  }

  /** Every finite distance is the weight of a walk from the start. */
  ghost predicate Sound(g: Graph, s: string, dist: map<string, int>) {
    forall v :: v in dist && dist[v] != MaxValue ==>
      exists es :: Chained(g.edges, es, s, v) && TotalWeight(es) == dist[v]
  }

  /** `u` is a recorded predecessor of `v`: both distances are finite and an
      edge from `u` to `v` is at least as short as the distance of `v`. */
  ghost predicate PredEdge(edges: seq<Edge>, dist: map<string, int>, u: string, v: string) {
    u in dist && v in dist && dist[u] != MaxValue && dist[v] != MaxValue
    && exists e :: e in edges && e.source == u && e.target == v && dist[u] + e.weight <= dist[v]
  }

  /** What the distance and predecessor maps say at every step: one entry per
      vertex, 0 and no predecessor at the start, sound finite distances below
      the sentinel, and a predecessor exactly for the other reached vertices. */
  ghost predicate Inv(g: Graph, s: string, dist: map<string, int>, pred: map<string, Option<string>>) {
    (forall v :: v in dist <==> v in g.vertices) && (forall v :: v in pred <==> v in g.vertices)
    && s in dist && dist[s] == 0 && pred[s] == None
    && (forall v :: v in dist ==> dist[v] <= MaxValue)
    && Sound(g, s, dist)
    && (forall v :: v in pred && pred[v].Some? ==> PredEdge(g.edges, dist, pred[v].value, v))
    && (forall v :: v in pred && pred[v].None? && v != s ==> dist[v] == MaxValue)
  }

  /** A finite distance is at least the potential difference from the start. */
  lemma Floor(g: Graph, pot: map<string, int>, s: string, dist: map<string, int>, v: string)
    requires FeasibleFrom(g, s, pot) && s in g.vertices && v in g.vertices
    requires Sound(g, s, dist) && v in dist && dist[v] != MaxValue
    ensures pot[v] - pot[s] <= dist[v]
  {
    var es :| Chained(g.edges, es, s, v) && TotalWeight(es) == dist[v];
    WalkFloorFrom(g, s, pot, [], es, s, v);
  }

  /** The distances after relaxing `e` from `t`. */
  function Lowered(e: Edge, t: string, dist: map<string, int>): map<string, int>
    requires Improves(e, t, dist)
  {
    dist[e.target := dist[t] + e.weight]
  }

  /** Under a feasible potential an improving edge is no self-loop and does
      not reach the start. */
  lemma ImproveTarget(g: Graph, pot: map<string, int>, s: string, dist: map<string, int>,
                      pred: map<string, Option<string>>, t: string, e: Edge)
    requires FeasibleFrom(g, s, pot) && Inv(g, s, dist, pred) && e in g.edges && Improves(e, t, dist)
    ensures e.target != t && e.target != s
  {
    assert t in g.vertices;
    Floor(g, pot, s, dist, t);
  }

  lemma ImproveSound(g: Graph, s: string, dist: map<string, int>, t: string, e: Edge)
    requires Sound(g, s, dist) && e in g.edges && Improves(e, t, dist)
    ensures Sound(g, s, Lowered(e, t, dist))
  {
    var d := Lowered(e, t, dist);
    var es :| Chained(g.edges, es, s, t) && TotalWeight(es) == dist[t];
    ChainedSnoc(g.edges, es, s, t, e);
    forall v | v in d && d[v] != MaxValue
      ensures exists fs :: Chained(g.edges, fs, s, v) && TotalWeight(fs) == d[v]
    {
      if v == e.target {
        assert Chained(g.edges, es + [e], s, v);
      } else {
        assert dist[v] == d[v];
      }
    }
  }

  lemma ImprovePred(g: Graph, s: string, dist: map<string, int>, pred: map<string, Option<string>>,
                    t: string, e: Edge)
    requires Inv(g, s, dist, pred) && e in g.edges && Improves(e, t, dist) && e.target != t
    ensures var d := Lowered(e, t, dist);
            var p := pred[e.target := Some(t)];
            (forall v :: v in p && p[v].Some? ==> PredEdge(g.edges, d, p[v].value, v))
            && (forall v :: v in p && p[v].None? && v != s ==> d[v] == MaxValue)
  {
    var d := Lowered(e, t, dist);
    var p := pred[e.target := Some(t)];
    forall v | v in p && p[v].Some?
      ensures PredEdge(g.edges, d, p[v].value, v)
    {
      if v == e.target {
        assert d[t] == dist[t];
      } else {
        var u := pred[v].value;
        assert PredEdge(g.edges, dist, u, v);
        var f :| f in g.edges && f.source == u && f.target == v && dist[u] + f.weight <= dist[v];
        assert d[u] + f.weight <= d[v];
      }
    }
  }

  /** Relaxing an improving edge keeps the state. */
  lemma ImproveInv(g: Graph, pot: map<string, int>, s: string, dist: map<string, int>,
                   pred: map<string, Option<string>>, t: string, e: Edge)
    requires FeasibleFrom(g, s, pot) && Inv(g, s, dist, pred) && e in g.edges && Improves(e, t, dist)
    ensures e.target != t && e.target != s
    ensures Inv(g, s, Lowered(e, t, dist), pred[e.target := Some(t)])
  {
    ImproveTarget(g, pot, s, dist, pred, t, e);
    ImproveSound(g, s, dist, t, e);
    ImprovePred(g, s, dist, pred, t, e);
  }

  // ---------------------------------------------------------------------
  // Relaxed edges.

  /** Every edge that leaves a vertex with a finite distance is relaxed. */
  predicate Relaxed(edges: seq<Edge>, dist: map<string, int>) {
    forall e :: e in edges && e.source in dist && e.target in dist && dist[e.source] != MaxValue ==>
      dist[e.target] <= dist[e.source] + e.weight
  }

  /** The first `j` edges that leave `t` are relaxed. */
  predicate ScanRelaxed(edges: seq<Edge>, dist: map<string, int>, t: string, j: nat)
    requires j <= |edges|
  {
    forall i :: 0 <= i < j && edges[i].source == t && t in dist && edges[i].target in dist && dist[t] != MaxValue ==>
      dist[edges[i].target] <= dist[t] + edges[i].weight
  }

  /** Relaxing edge `j` extends the relaxed prefix of the scan of `t`. */
  lemma ScanStep(edges: seq<Edge>, dist: map<string, int>, t: string, j: nat)
    requires j < |edges| && ScanRelaxed(edges, dist, t, j)
    ensures !Improves(edges[j], t, dist) ==> ScanRelaxed(edges, dist, t, j + 1)
    ensures Improves(edges[j], t, dist) && edges[j].target != t ==>
              ScanRelaxed(edges, Lowered(edges[j], t, dist), t, j + 1)
  {
  }

  // ---------------------------------------------------------------------
  // The termination measure: the vertices still at the sentinel, then the
  // summed excess of the finite distances over the potential difference.

  function InfCount(vs: seq<string>, dist: map<string, int>): nat {
    if vs == [] then 0
    else (if vs[0] in dist && dist[vs[0]] == MaxValue then 1 else 0) + InfCount(vs[1..], dist)
  }

  function Excess(pot: map<string, int>, s: string, dist: map<string, int>, v: string): nat {
    if v in dist && v in pot && s in pot && dist[v] != MaxValue && pot[v] - pot[s] <= dist[v]
    then dist[v] - (pot[v] - pot[s]) else 0
  }

  function ExcessSum(vs: seq<string>, pot: map<string, int>, s: string, dist: map<string, int>): nat {
    if vs == [] then 0 else Excess(pot, s, dist, vs[0]) + ExcessSum(vs[1..], pot, s, dist)
  }

  /** The measure of `dist1` is below that of `dist0`. */
  predicate Below(vs: seq<string>, pot: map<string, int>, s: string, dist1: map<string, int>, dist0: map<string, int>) {
    InfCount(vs, dist1) < InfCount(vs, dist0)
    || (InfCount(vs, dist1) == InfCount(vs, dist0) && ExcessSum(vs, pot, s, dist1) < ExcessSum(vs, pot, s, dist0))
  }

  lemma {:induction false} MeasureElsewhere(vs: seq<string>, pot: map<string, int>, s: string,
                                            dist: map<string, int>, v: string, d: int)
    requires v !in vs
    ensures InfCount(vs, dist[v := d]) == InfCount(vs, dist)
    ensures ExcessSum(vs, pot, s, dist[v := d]) == ExcessSum(vs, pot, s, dist)
  {
    if vs != [] {
      MeasureElsewhere(vs[1..], pot, s, dist, v, d);
    }
  }

  /** Lowering one distance to a value above its floor lowers the measure:
      a sentinel becomes finite, or a finite excess shrinks. */
  lemma {:induction false} MeasureLower(vs: seq<string>, pot: map<string, int>, s: string,
                                        dist: map<string, int>, v: string, d: int)
    requires Distinct(vs) && v in vs && v in dist && v in pot && s in pot
    requires d < dist[v] <= MaxValue && pot[v] - pot[s] <= d
    ensures dist[v] == MaxValue ==> InfCount(vs, dist[v := d]) + 1 == InfCount(vs, dist)
    ensures dist[v] != MaxValue ==> InfCount(vs, dist[v := d]) == InfCount(vs, dist)
    ensures dist[v] != MaxValue ==>
              ExcessSum(vs, pot, s, dist[v := d]) + (dist[v] - d) == ExcessSum(vs, pot, s, dist)
    decreases |vs|
  {
    var t := vs[1..];
    assert Distinct(t);
    if vs[0] == v {
      assert v !in t;
      MeasureElsewhere(t, pot, s, dist, v, d);
    } else {
      assert v in t;
      MeasureLower(t, pot, s, dist, v, d);
    }
  }

  /** Relaxing an improving edge lowers the measure. */
  lemma ImproveBelow(g: Graph, pot: map<string, int>, s: string, dist: map<string, int>, t: string, e: Edge)
    requires Distinct(g.vertices) && FeasibleFrom(g, s, pot) && Sound(g, s, dist) && s in g.vertices
    requires t in g.vertices && e.target in g.vertices && e.target in dist && dist[e.target] <= MaxValue
    requires e in g.edges && Improves(e, t, dist)
    ensures Below(g.vertices, pot, s, Lowered(e, t, dist), dist)
  {
    var v := e.target;
    Floor(g, pot, s, dist, t);
    if dist[v] != MaxValue {
      Floor(g, pot, s, dist, v);
    }
    MeasureLower(g.vertices, pot, s, dist, v, dist[t] + e.weight);
  }

  /** Measures compose. */
  lemma BelowTrans(vs: seq<string>, pot: map<string, int>, s: string,
                   d2: map<string, int>, d1: map<string, int>, d0: map<string, int>)
    requires Below(vs, pot, s, d2, d1) && (d1 == d0 || Below(vs, pot, s, d1, d0))
    ensures Below(vs, pot, s, d2, d0)
  {
  }

  // ---------------------------------------------------------------------
  // Meaning of the final distances.

  /** A walk whose every prefix stays below `Integer.MAX_VALUE`. */
  predicate InRange(es: seq<Edge>) {
    forall k :: 0 <= k <= |es| ==> TotalWeight(es[..k]) < MaxValue
  }

  /** Once every edge is relaxed, no walk from the start is shorter than the
      distance of its end. */
  lemma InRangeInit(es: seq<Edge>)
    requires InRange(es) && es != []
    ensures InRange(es[..|es| - 1]) && TotalWeight(es[..|es| - 1]) < MaxValue
  {
    var init := es[..|es| - 1];
    forall k | 0 <= k <= |init|
      ensures TotalWeight(init[..k]) < MaxValue
    {
      assert init[..k] == es[..k];
    }
    assert es[..|init|] == init;
  }

  lemma {:induction false} Shortest(g: Graph, s: string, dist: map<string, int>, pred: map<string, Option<string>>,
                                    es: seq<Edge>, v: string)
    requires Inv(g, s, dist, pred) && Relaxed(g.edges, dist) && EndpointsIn(g)
    requires Chained(g.edges, es, s, v) && InRange(es) && v in g.vertices
    ensures dist[v] <= TotalWeight(es)
    decreases |es|
  {
    if es != [] {
      var init := es[..|es| - 1];
      var e := es[|es| - 1];
      assert e in g.edges;
      ChainedInit(g.edges, es, s, v);
      InRangeInit(es);
      Shortest(g, s, dist, pred, init, e.source);
      assert es == init + [e];
      TotalWeightAppend(init, [e]);
    }
  }

  /** The final distances are the shortest walk weights: a finite distance
      is the weight of a walk from the start, and none in range is shorter;
      a vertex that some walk in range reaches has a finite distance. */
  lemma FinalDistances(g: Graph, s: string, dist: map<string, int>, pred: map<string, Option<string>>, v: string)
    requires Inv(g, s, dist, pred) && Relaxed(g.edges, dist) && EndpointsIn(g) && v in g.vertices
    ensures dist[v] != MaxValue ==> exists es :: Chained(g.edges, es, s, v) && TotalWeight(es) == dist[v]
    ensures forall es :: Chained(g.edges, es, s, v) && InRange(es) ==> dist[v] <= TotalWeight(es) < MaxValue
  {
    forall es | Chained(g.edges, es, s, v) && InRange(es)
      ensures dist[v] <= TotalWeight(es) < MaxValue
    {
      Shortest(g, s, dist, pred, es, v);
      assert es[..|es|] == es;
    }
  }

  // ---------------------------------------------------------------------
  // Rows of the table.

  /** A distance as a cell shows it: "∞" for the sentinel. */
  function DistText(d: int): string {
    if d == MaxValue then "∞" else IntToString(d)
  }

  /** A predecessor as a cell shows it: "*" for none. */
  function PredText(p: Option<string>): string {
    if p.None? then "*" else p.value
  }

  /** `"(" + out + ", " + p + ")"`. */
  function Cell(d: int, p: Option<string>): string {
    "(" + DistText(d) + ", " + PredText(p) + ")"
  }

  /** `choiceDistance`: null when the chosen vertex is at the sentinel. */
  function ChoiceDistance(d: int): (c: Option<int>)
    ensures c.None? <==> d == MaxValue
    ensures c.Some? ==> c.value == d
  {
    if d == MaxValue then None else Some(d)
  }

  /** One line of the table (`BelmanFordTableLine`): the cells, the queue at
      the start of the line, the chosen vertex and its distance. */
  datatype Line = Line(states: Row, list: seq<string>, choiceName: Option<string>, choiceDistance: Option<int>)

  /** The cells, put into a `LinkedHashMap` in vertex order. */
  function States(vs: seq<string>, dist: map<string, int>, pred: map<string, Option<string>>): Row
    requires forall v :: v in vs ==> v in dist && v in pred
  {
    if vs == [] then []
    else
      var v := vs[|vs| - 1];
      Put(States(vs[..|vs| - 1], dist, pred), v, Cell(dist[v], pred[v]))
  }

  /** With distinct names the cells are keyed by the vertices in array order,
      each holding its "(d, p)" text. */
  lemma {:induction false} StatesShape(vs: seq<string>, dist: map<string, int>, pred: map<string, Option<string>>)
    requires Distinct(vs) && forall v :: v in vs ==> v in dist && v in pred
    ensures Keys(States(vs, dist, pred)) == vs
    ensures forall v :: v in vs ==> Get(States(vs, dist, pred), v) == Some(Cell(dist[v], pred[v]))
  {
    if vs != [] {
      var init := vs[..|vs| - 1];
      var v := vs[|vs| - 1];
      var prior := States(init, dist, pred);
      assert Distinct(init);
      StatesShape(init, dist, pred);
      assert v !in init;
      PutNew(prior, v, Cell(dist[v], pred[v]));
      assert Keys(prior + [Entry(v, Cell(dist[v], pred[v]))]) == init + [v];
      assert vs == init + [v];
      forall q | q in vs
        ensures Get(States(vs, dist, pred), q) == Some(Cell(dist[q], pred[q]))
      {
        PutGet(prior, v, Cell(dist[v], pred[v]), q);
      }
    }
  }

  lemma StatesNext(vs: seq<string>, dist: map<string, int>, pred: map<string, Option<string>>, k: nat)
    requires k < |vs| && forall v :: v in vs ==> v in dist && v in pred
    ensures States(vs[..k + 1], dist, pred) == Put(States(vs[..k], dist, pred), vs[k], Cell(dist[vs[k]], pred[vs[k]]))
  {
    assert vs[..k + 1][..k] == vs[..k];
  }

  /** `snapshot`: one cell per vertex, in array order. */
  method Snapshot(vs: seq<string>, dist: map<string, int>, pred: map<string, Option<string>>,
                  list: seq<string>, choiceName: Option<string>, choiceDistance: Option<int>)
    returns (line: Line)
    requires forall v :: v in vs ==> v in dist && v in pred
    ensures line == Line(States(vs, dist, pred), list, choiceName, choiceDistance)
  {
    var row: Row := [];
    var k := 0;
    while k < |vs|
      invariant k <= |vs|
      invariant row == States(vs[..k], dist, pred)
    {
      var v := vs[k];
      var out := DistText(dist[v]);
      var p := PredText(pred[v]);
      var cell := "(" + out + ", " + p + ")";
      StatesNext(vs, dist, pred, k);
      row := Put(row, v, cell);
      k := k + 1;
    }
    assert vs[..k] == vs;
    line := Line(row, list, choiceName, choiceDistance);
  }

  // ---------------------------------------------------------------------
  // The queue-driven run of the table.

  /** The distances, the predecessors and the queue. */
  datatype Spfa = Spfa(dist: map<string, int>, pred: map<string, Option<string>>, queue: seq<string>)

  /** The state before the loop: the sentinel everywhere but at the start,
      no predecessors, the start queued. */
  ghost predicate IsStart(vs: seq<string>, s: string, st: Spfa) {
    (forall v :: v in st.dist <==> v in vs) && (forall v :: v in st.pred <==> v in vs)
    && (forall v :: v in st.dist ==> st.dist[v] == if v == s then 0 else MaxValue)
    && (forall v :: v in st.pred ==> st.pred[v] == None)
    && st.queue == [s]
  }

  /** Reference definition of relaxing `e` from `t`: lower the target, record
      `t` as its predecessor and queue it at the back unless already queued. */
  function RelaxOne(e: Edge, t: string, st: Spfa): Spfa {
    if Improves(e, t, st.dist) then
      Spfa(Lowered(e, t, st.dist), st.pred[e.target := Some(t)],
           if e.target in st.queue then st.queue else st.queue + [e.target])
    else st
  }

  /** Relaxing, in array order, every edge of `es` that leaves `t`. */
  function RelaxOut(es: seq<Edge>, t: string, st: Spfa): Spfa {
    if es == [] then st else RelaxOne(es[|es| - 1], t, RelaxOut(es[..|es| - 1], t, st))
  }

  /** One iteration: take the head of the queue and relax its edges. */
  function Pop(edges: seq<Edge>, st: Spfa): Spfa
    requires st.queue != []
  {
    RelaxOut(edges, st.queue[0], st.(queue := st.queue[1..]))
  }

  /** The run behind a table: from the start, each state the `Pop` of the
      one before. */
  ghost predicate Trace(g: Graph, s: string, trace: seq<Spfa>) {
    |trace| >= 1 && IsStart(g.vertices, s, trace[0])
    && forall i :: 0 <= i < |trace| - 1 ==> trace[i].queue != [] && trace[i + 1] == Pop(g.edges, trace[i])
  }

  /** Every edge leaving a vertex outside the queue is relaxed. */
  predicate RelaxedBeyond(edges: seq<Edge>, dist: map<string, int>, queue: seq<string>) {
    forall e :: e in edges && e.source !in queue && e.source in dist && e.target in dist && dist[e.source] != MaxValue ==>
      dist[e.target] <= dist[e.source] + e.weight
  }

  /** The state of the table's loop. */
  ghost predicate QueueOk(g: Graph, s: string, st: Spfa) {
    Inv(g, s, st.dist, st.pred) && Distinct(st.queue) && (forall x :: x in st.queue ==> x in g.vertices)
    && RelaxedBeyond(g.edges, st.dist, st.queue)
  }

  /** The maps hold every vertex and the head of the queue. */
  ghost predicate KeysOk(vs: seq<string>, st: Spfa) {
    (forall v :: v in vs ==> v in st.dist && v in st.pred) && (st.queue != [] ==> st.queue[0] in st.dist)
  }

  /** The line of a state: the queue, its head and the head's distance. */
  function LineOf(vs: seq<string>, st: Spfa): Line
    requires KeysOk(vs, st)
  {
    Line(States(vs, st.dist, st.pred), st.queue,
         if st.queue == [] then None else Some(st.queue[0]),
         if st.queue == [] then None else ChoiceDistance(st.dist[st.queue[0]]))
  }

  /** The lines are those of the first states of the run. */
  ghost predicate Lines(vs: seq<string>, trace: seq<Spfa>, lines: seq<Line>) {
    |lines| <= |trace| && forall i :: 0 <= i < |lines| ==> KeysOk(vs, trace[i]) && lines[i] == LineOf(vs, trace[i])
  }

  lemma LinesSnoc(vs: seq<string>, trace: seq<Spfa>, lines: seq<Line>, line: Line)
    requires Lines(vs, trace, lines) && |lines| < |trace|
    requires KeysOk(vs, trace[|lines|]) && line == LineOf(vs, trace[|lines|])
    ensures Lines(vs, trace, lines + [line])
  {
  }

  lemma LinesLonger(vs: seq<string>, trace: seq<Spfa>, lines: seq<Line>, st: Spfa)
    requires Lines(vs, trace, lines)
    ensures Lines(vs, trace + [st], lines)
  {
    assert forall i :: 0 <= i < |lines| ==> (trace + [st])[i] == trace[i];
  }

  lemma TraceSnoc(g: Graph, s: string, trace: seq<Spfa>, st: Spfa)
    requires Trace(g, s, trace) && trace[|trace| - 1].queue != [] && st == Pop(g.edges, trace[|trace| - 1])
    ensures Trace(g, s, trace + [st])
  {
    var t := trace + [st];
    forall i | 0 <= i < |t| - 1
      ensures t[i].queue != [] && t[i + 1] == Pop(g.edges, t[i])
    {
      if i < |trace| - 1 {
        assert t[i] == trace[i] && t[i + 1] == trace[i + 1];
      }
    }
  }

  /** One more pass extends the trace and its table lines together. */
  lemma TraceLinesSnoc(g: Graph, s: string, trace: seq<Spfa>, lines: seq<Line>, line: Line, st: Spfa)
    requires Trace(g, s, trace) && |lines| == |trace| - 1 && Lines(g.vertices, trace, lines)
    requires trace[|trace| - 1].queue != [] && st == Pop(g.edges, trace[|trace| - 1])
    requires KeysOk(g.vertices, trace[|trace| - 1]) && line == LineOf(g.vertices, trace[|trace| - 1])
    ensures Trace(g, s, trace + [st]) && (trace + [st])[|trace|] == st
    ensures |lines + [line]| == |trace + [st]| - 1 && Lines(g.vertices, trace + [st], lines + [line])
  {
    LinesSnoc(g.vertices, trace, lines, line);
    LinesLonger(g.vertices, trace, lines + [line], st);
    TraceSnoc(g, s, trace, st);
  }

  lemma StartOk(g: Graph, s: string, st: Spfa)
    requires s in g.vertices && IsStart(g.vertices, s, st)
    ensures QueueOk(g, s, st)
  {
    assert Chained(g.edges, [], s, s);
  }

  /** The state during the scan of `t`: the first `j` edges are done. */
  ghost predicate ScanState(g: Graph, s: string, t: string, st: Spfa, j: nat)
    requires j <= |g.edges|
  {
    Inv(g, s, st.dist, st.pred) && Distinct(st.queue) && (forall x :: x in st.queue ==> x in g.vertices)
    && t in g.vertices && RelaxedBeyond(g.edges, st.dist, st.queue + [t]) && ScanRelaxed(g.edges, st.dist, t, j)
  }

  /** Lowering the target of an improving edge and queueing it keeps every
      other edge relaxed. */
  lemma BeyondStep(edges: seq<Edge>, dist: map<string, int>, q0: seq<string>, q1: seq<string>, t: string, e: Edge)
    requires RelaxedBeyond(edges, dist, q0 + [t]) && Improves(e, t, dist)
    requires (forall x :: x in q0 ==> x in q1) && e.target in q1
    ensures RelaxedBeyond(edges, Lowered(e, t, dist), q1 + [t])
  {
    var d := Lowered(e, t, dist);
    forall f | f in edges && f.source !in q1 + [t] && f.source in d && f.target in d && d[f.source] != MaxValue
      ensures d[f.target] <= d[f.source] + f.weight
    {
      assert f.source !in q0 + [t];
    }
  }

  lemma RelaxOneState(g: Graph, pot: map<string, int>, s: string, t: string, st: Spfa, j: nat)
    requires Distinct(g.vertices) && EndpointsIn(g) && FeasibleFrom(g, s, pot)
    requires j < |g.edges| && ScanState(g, s, t, st, j)
    ensures ScanState(g, s, t, RelaxOne(g.edges[j], t, st), j + 1)
    ensures RelaxOne(g.edges[j], t, st) == st || Below(g.vertices, pot, s, RelaxOne(g.edges[j], t, st).dist, st.dist)
  {
    var e := g.edges[j];
    assert e in g.edges;
    ScanStep(g.edges, st.dist, t, j);
    if Improves(e, t, st.dist) {
      ImproveInv(g, pot, s, st.dist, st.pred, t, e);
      ImproveBelow(g, pot, s, st.dist, t, e);
      var q1 := if e.target in st.queue then st.queue else st.queue + [e.target];
      BeyondStep(g.edges, st.dist, st.queue, q1, t, e);
      if e.target !in st.queue {
        DistinctSnoc(st.queue, e.target);
      }
    }
  }

  lemma DistinctSnoc<T>(s: seq<T>, x: T)
    requires Distinct(s) && x !in s
    ensures Distinct(s + [x])
  {
  }

  lemma {:induction false} RelaxOutState(g: Graph, pot: map<string, int>, s: string, t: string, st: Spfa, j: nat)
    requires Distinct(g.vertices) && EndpointsIn(g) && FeasibleFrom(g, s, pot)
    requires j <= |g.edges| && ScanState(g, s, t, st, 0)
    ensures ScanState(g, s, t, RelaxOut(g.edges[..j], t, st), j)
    ensures RelaxOut(g.edges[..j], t, st) == st || Below(g.vertices, pot, s, RelaxOut(g.edges[..j], t, st).dist, st.dist)
  {
    if j > 0 {
      RelaxOutState(g, pot, s, t, st, j - 1);
      var prior := RelaxOut(g.edges[..j - 1], t, st);
      PrefixOfPrefix(g.edges, j);
      assert RelaxOut(g.edges[..j], t, st) == RelaxOne(g.edges[j - 1], t, prior);
      RelaxOneState(g, pot, s, t, prior, j - 1);
      var next := RelaxOne(g.edges[j - 1], t, prior);
      if next != prior {
        BelowTrans(g.vertices, pot, s, next.dist, prior.dist, st.dist);
      }
    }
  }

  /** After the scan every edge leaving `t` is relaxed too. */
  lemma ScanDone(edges: seq<Edge>, dist: map<string, int>, queue: seq<string>, t: string)
    requires RelaxedBeyond(edges, dist, queue + [t]) && ScanRelaxed(edges, dist, t, |edges|)
    ensures RelaxedBeyond(edges, dist, queue)
  {
    forall f | f in edges && f.source !in queue && f.source in dist && f.target in dist && dist[f.source] != MaxValue
      ensures dist[f.target] <= dist[f.source] + f.weight
    {
      if f.source == t {
        var i :| 0 <= i < |edges| && edges[i] == f;
      }
    }
  }

  /** An iteration keeps the loop state, and lowers the measure or else
      leaves the distances and shortens the queue. */
  /** Taking the head off the queue starts its scan. */
  lemma PopStart(g: Graph, s: string, st: Spfa)
    requires QueueOk(g, s, st) && st.queue != []
    ensures ScanState(g, s, st.queue[0], st.(queue := st.queue[1..]), 0)
  {
    var t := st.queue[0];
    var st0 := st.(queue := st.queue[1..]);
    assert st.queue == [t] + st0.queue;
    assert forall x :: x in st.queue <==> x in st0.queue + [t];
  }

  /** `PopState` of a state already named. */
  lemma PopInto(g: Graph, pot: map<string, int>, s: string, st: Spfa, st': Spfa)
    requires Distinct(g.vertices) && EndpointsIn(g) && FeasibleFrom(g, s, pot)
    requires QueueOk(g, s, st) && st.queue != [] && st' == Pop(g.edges, st)
    ensures QueueOk(g, s, st')
    ensures Below(g.vertices, pot, s, st'.dist, st.dist) || (st'.dist == st.dist && |st'.queue| < |st.queue|)
  {
    PopState(g, pot, s, st);
  }

  lemma PopState(g: Graph, pot: map<string, int>, s: string, st: Spfa)
    requires Distinct(g.vertices) && EndpointsIn(g) && FeasibleFrom(g, s, pot)
    requires QueueOk(g, s, st) && st.queue != []
    ensures QueueOk(g, s, Pop(g.edges, st))
    ensures Below(g.vertices, pot, s, Pop(g.edges, st).dist, st.dist)
            || (Pop(g.edges, st).dist == st.dist && |Pop(g.edges, st).queue| < |st.queue|)
  {
    var t := st.queue[0];
    var st0 := st.(queue := st.queue[1..]);
    PopStart(g, s, st);
    RelaxOutState(g, pot, s, t, st0, |g.edges|);
    FullPrefix(g.edges);
    var r := Pop(g.edges, st);
    ScanDone(g.edges, r.dist, r.queue, t);
  }

  /** Every state of a run satisfies the loop state. */
  lemma {:induction false} TraceOk(g: Graph, pot: map<string, int>, s: string, trace: seq<Spfa>, i: nat)
    requires Distinct(g.vertices) && EndpointsIn(g) && FeasibleFrom(g, s, pot) && s in g.vertices
    requires Trace(g, s, trace) && i < |trace|
    ensures QueueOk(g, s, trace[i])
  {
    if i == 0 {
      StartOk(g, s, trace[0]);
    } else {
      TraceOk(g, pot, s, trace, i - 1);
      PopState(g, pot, s, trace[i - 1]);
    }
  }

  /** The initial maps: the sentinel and no predecessor for every vertex,
      then 0 for the start. */
  method InitMaps(vs: seq<string>, s: string) returns (dist: map<string, int>, pred: map<string, Option<string>>)
    requires s in vs
    ensures IsStart(vs, s, Spfa(dist, pred, [s]))
  {
    dist := map[];
    pred := map[];
    var k := 0;
    while k < |vs|
      invariant k <= |vs|
      invariant forall v :: v in dist <==> v in vs[..k]
      invariant forall v :: v in pred <==> v in vs[..k]
      invariant forall v :: v in dist ==> dist[v] == MaxValue
      invariant forall v :: v in pred ==> pred[v] == None
    {
      assert forall v :: v in vs[..k + 1] <==> v in vs[..k] || v == vs[k];
      dist := dist[vs[k] := MaxValue];
      pred := pred[vs[k] := None];
      k := k + 1;
    }
    assert vs[..k] == vs;
    dist := dist[s := 0];
  }

  /** `inQueue.put(v, false)` for every vertex. */
  method InitFlags(vs: seq<string>) returns (inQueue: map<string, bool>)
    ensures forall v :: v in inQueue <==> v in vs
    ensures forall v :: v in inQueue ==> !inQueue[v]
  {
    inQueue := map[];
    var k := 0;
    while k < |vs|
      invariant k <= |vs|
      invariant forall v :: v in inQueue <==> v in vs[..k]
      invariant forall v :: v in inQueue ==> !inQueue[v]
    {
      assert forall v :: v in vs[..k + 1] <==> v in vs[..k] || v == vs[k];
      inQueue := inQueue[vs[k] := false];
      k := k + 1;
    }
    assert vs[..k] == vs;
  }

  /** The flags say exactly which vertices are queued. */
  ghost predicate Flags(inQueue: map<string, bool>, dist: map<string, int>, queue: seq<string>) {
    (forall v :: v in inQueue <==> v in dist) && forall v :: v in inQueue ==> (inQueue[v] <==> v in queue)
  }

  /** The scan of the edges leaving the popped vertex `t`. */
  method RelaxOutgoing(edges: seq<Edge>, t: string, dist0: map<string, int>, pred0: map<string, Option<string>>,
                       queue0: seq<string>, inQueue0: map<string, bool>)
    returns (dist: map<string, int>, pred: map<string, Option<string>>, queue: seq<string>, inQueue: map<string, bool>)
    requires t in dist0 && forall e :: e in edges ==> e.target in dist0
    requires Flags(inQueue0, dist0, queue0)
    ensures Spfa(dist, pred, queue) == RelaxOut(edges, t, Spfa(dist0, pred0, queue0))
    ensures Flags(inQueue, dist, queue)
  {
    dist, pred, queue, inQueue := dist0, pred0, queue0, inQueue0;
    var j := 0;
    while j < |edges|
      invariant j <= |edges|
      invariant Spfa(dist, pred, queue) == RelaxOut(edges[..j], t, Spfa(dist0, pred0, queue0))
      invariant Flags(inQueue, dist, queue) && (forall v :: v in dist <==> v in dist0)
    {
      var e := edges[j];
      assert edges[..j + 1][..j] == edges[..j];
      assert e in edges;
      if e.source == t {
        var u := t;
        var v := e.target;
        var w := e.weight;
        if dist[u] != MaxValue && dist[u] + w < dist[v] {
          dist := dist[v := dist[u] + w];
          pred := pred[v := Some(u)];
          if !inQueue[v] {
            queue := queue + [v];
            inQueue := inQueue[v := true];
          }
        }
      }
      j := j + 1;
    }
    assert edges[..j] == edges;
  }

  /** The loop state holds the keys a line reads; with the queue empty every
      edge is relaxed. */
  lemma QueueKeys(g: Graph, s: string, st: Spfa)
    requires QueueOk(g, s, st)
    ensures KeysOk(g.vertices, st)
    ensures st.queue == [] ==> Relaxed(g.edges, st.dist)
  {
  }

  /** One iteration of the table's loop: the line of the current state,
      then the pop and the scan. */
  method TableStep(g: Graph, ghost pot: map<string, int>, s: string, dist0: map<string, int>,
                   pred0: map<string, Option<string>>, queue0: seq<string>, inQueue0: map<string, bool>)
    returns (line: Line, dist: map<string, int>, pred: map<string, Option<string>>, queue: seq<string>,
             inQueue: map<string, bool>)
    requires Distinct(g.vertices) && EndpointsIn(g) && FeasibleFrom(g, s, pot)
    requires QueueOk(g, s, Spfa(dist0, pred0, queue0)) && queue0 != [] && Flags(inQueue0, dist0, queue0)
    ensures KeysOk(g.vertices, Spfa(dist0, pred0, queue0)) && line == LineOf(g.vertices, Spfa(dist0, pred0, queue0))
    ensures Spfa(dist, pred, queue) == Pop(g.edges, Spfa(dist0, pred0, queue0))
    ensures QueueOk(g, s, Spfa(dist, pred, queue)) && Flags(inQueue, dist, queue)
    ensures Below(g.vertices, pot, s, dist, dist0) || (dist == dist0 && |queue| < |queue0|)
  {
    var t := queue0[0];
    var choiceDist := if dist0[t] == MaxValue then None else Some(dist0[t]);
    line := Snapshot(g.vertices, dist0, pred0, queue0, Some(t), choiceDist);
    dist, pred, queue, inQueue := PopHead(g, pot, s, dist0, pred0, queue0, inQueue0);
  }

  /** The pop: the head leaves the queue and its edges are scanned. */
  method PopHead(g: Graph, ghost pot: map<string, int>, s: string, dist0: map<string, int>,
                 pred0: map<string, Option<string>>, queue0: seq<string>, inQueue0: map<string, bool>)
    returns (dist: map<string, int>, pred: map<string, Option<string>>, queue: seq<string>,
             inQueue: map<string, bool>)
    requires Distinct(g.vertices) && EndpointsIn(g) && FeasibleFrom(g, s, pot)
    requires QueueOk(g, s, Spfa(dist0, pred0, queue0)) && queue0 != [] && Flags(inQueue0, dist0, queue0)
    ensures Spfa(dist, pred, queue) == Pop(g.edges, Spfa(dist0, pred0, queue0))
    ensures QueueOk(g, s, Spfa(dist, pred, queue)) && Flags(inQueue, dist, queue)
    ensures Below(g.vertices, pot, s, dist, dist0) || (dist == dist0 && |queue| < |queue0|)
  {
    var t := queue0[0];
    var q := queue0[1..];
    assert forall x :: x in queue0 <==> x == t || x in q;
    assert t !in q;
    var flags := inQueue0[t := false];
    forall e | e in g.edges
      ensures e.target in dist0
    {
    }
    dist, pred, queue, inQueue := RelaxOutgoing(g.edges, t, dist0, pred0, q, flags);
    PopInto(g, pot, s, Spfa(dist0, pred0, queue0), Spfa(dist, pred, queue));
  }

  /** The state of the table loop: the trace so far ends in the current
      state, which the invariants hold of, and there is a line for each
      state but the current one. */
  ghost predicate Running(g: Graph, s: string, trace: seq<Spfa>, steps: seq<Line>, dist: map<string, int>,
                          pred: map<string, Option<string>>, queue: seq<string>, inQueue: map<string, bool>) {
    Trace(g, s, trace) && trace[|trace| - 1] == Spfa(dist, pred, queue)
    && QueueOk(g, s, Spfa(dist, pred, queue)) && Flags(inQueue, dist, queue)
    && |steps| == |trace| - 1 && Lines(g.vertices, trace, steps)
  }

  /** The state before the first pop: the start alone in the queue. */
  method StartTable(g: Graph, s: string)
    returns (ghost trace: seq<Spfa>, steps: seq<Line>, dist: map<string, int>, pred: map<string, Option<string>>,
             queue: seq<string>, inQueue: map<string, bool>)
    requires s in g.vertices
    ensures Running(g, s, trace, steps, dist, pred, queue, inQueue)
    ensures trace == [Spfa(dist, pred, queue)] && IsStart(g.vertices, s, trace[0]) && steps == []
  {
    dist, pred := InitMaps(g.vertices, s);
    inQueue := InitFlags(g.vertices);
    queue := [s];
    inQueue := inQueue[s := true];
    steps := [];
    trace := [Spfa(dist, pred, queue)];
    StartOk(g, s, trace[0]);
  }

  /** One pass of the table loop: the line for the current state, then the
      pop; the trace and the lines grow by one. */
  method Advance(g: Graph, ghost pot: map<string, int>, s: string, ghost trace0: seq<Spfa>, steps0: seq<Line>,
                 dist0: map<string, int>, pred0: map<string, Option<string>>, queue0: seq<string>,
                 inQueue0: map<string, bool>)
    returns (ghost trace: seq<Spfa>, steps: seq<Line>, dist: map<string, int>, pred: map<string, Option<string>>,
             queue: seq<string>, inQueue: map<string, bool>)
    requires Distinct(g.vertices) && EndpointsIn(g) && FeasibleFrom(g, s, pot) && queue0 != []
    requires Running(g, s, trace0, steps0, dist0, pred0, queue0, inQueue0)
    ensures Running(g, s, trace, steps, dist, pred, queue, inQueue)
    ensures trace == trace0 + [Spfa(dist, pred, queue)] && |steps| == |steps0| + 1
    ensures Below(g.vertices, pot, s, dist, dist0) || (dist == dist0 && |queue| < |queue0|)
  {
    var line;
    line, dist, pred, queue, inQueue := TableStep(g, pot, s, dist0, pred0, queue0, inQueue0);
    TraceLinesSnoc(g, s, trace0, steps0, line, Spfa(dist, pred, queue));
    steps := steps0 + [line];
    trace := trace0 + [Spfa(dist, pred, queue)];
  }

  /** Once the queue is empty, the final line closes the table. */
  lemma Finished(g: Graph, s: string, trace: seq<Spfa>, steps: seq<Line>, dist: map<string, int>,
                 pred: map<string, Option<string>>, inQueue: map<string, bool>, last: Line)
    requires Running(g, s, trace, steps, dist, pred, [], inQueue)
    requires KeysOk(g.vertices, Spfa(dist, pred, [])) && last == Line(States(g.vertices, dist, pred), [], None, None)
    ensures Trace(g, s, trace) && trace[|trace| - 1].queue == []
    ensures |steps + [last]| == |trace| && Lines(g.vertices, trace, steps + [last])
    ensures Relaxed(g.edges, trace[|trace| - 1].dist)
  {
    QueueKeys(g, s, Spfa(dist, pred, []));
    LinesSnoc(g.vertices, trace, steps, last);
  }

  /** `getBellmanFordTable`: a line before each pop, then a final line with
      an empty queue and no choice.  The graph is as the builders make it,
      and `pot` witnesses that no negative cycle is reachable from the
      start, without which the queue need not empty. */
  method GetBellmanFordTable(g: Graph, startName: string, ghost pot: map<string, int>)
    returns (r: Result<seq<Line>>, ghost trace: seq<Spfa>)
    requires Distinct(g.vertices) && EndpointsIn(g)
    requires Lookup(g.vertices, startName).Ok? ==> FeasibleFrom(g, Lookup(g.vertices, startName).value, pot)
    ensures Lookup(g.vertices, startName).Err? ==> r == Err(Lookup(g.vertices, startName).error)
    ensures Lookup(g.vertices, startName).Ok? ==>
              var s := Lookup(g.vertices, startName).value;
              r.Ok? && Trace(g, s, trace) && trace[|trace| - 1].queue == []
              && |r.value| == |trace| && Lines(g.vertices, trace, r.value)
              && Relaxed(g.edges, trace[|trace| - 1].dist)
  {
    trace := [];
    var found := SearchVertex(g.vertices, startName);
    if found.Err? {
      return Err(found.error), trace;
    }
    var steps;
    steps, trace := TableFrom(g, found.value, pot);
    return Ok(steps), trace;
  }

  /** The table from a start vertex that exists. */
  method TableFrom(g: Graph, s: string, ghost pot: map<string, int>)
    returns (steps: seq<Line>, ghost trace: seq<Spfa>)
    requires Distinct(g.vertices) && EndpointsIn(g) && FeasibleFrom(g, s, pot) && s in g.vertices
    ensures Trace(g, s, trace) && trace[|trace| - 1].queue == []
    ensures |steps| == |trace| && Lines(g.vertices, trace, steps)
    ensures Relaxed(g.edges, trace[|trace| - 1].dist)
  {
    var dist, pred, queue, inQueue;
    trace, steps, dist, pred, queue, inQueue := StartTable(g, s);
    while queue != []
      invariant Running(g, s, trace, steps, dist, pred, queue, inQueue)
      decreases InfCount(g.vertices, dist), ExcessSum(g.vertices, pot, s, dist), |queue|
    {
      trace, steps, dist, pred, queue, inQueue := Advance(g, pot, s, trace, steps, dist, pred, queue, inQueue);
    }
    QueueKeys(g, s, Spfa(dist, pred, queue));
    var last := Snapshot(g.vertices, dist, pred, [], None, None);
    Finished(g, s, trace, steps, dist, pred, inQueue, last);
    steps := steps + [last];
  }
}
