/** `FloydWarshall.getFloydWarshall`: the path read off the "next hop"
    matrix.  From the start, each hop `next[current][end]` is followed and
    the first forward edge from `current` to it is appended, until the end
    is reached. */
module FloydPath {
  import opened Common
  import opened GraphModel
  import opened Walks
  import opened FloydWarshall

  /** Every weight is at least 1 and fits a Java `int`: under this the hops
      of the walk come strictly closer to the end, so the walk stops. */
  predicate PositiveWeights(edges: seq<Edge>) {
    forall e :: e in edges ==> 1 <= e.weight <= MaxValue
  }

  /** What is left of the way from `h` to `j`: nothing once `h` is `j`. */
  function Rest(vs: seq<string>, m: Mat, h: string, j: string): int
    requires Square(vs, m) && h in vs && j in vs
  {
    if h == j then 0 else m.dist[h][j]
  }

  /** The entry `(i, j)` lies in `0..MAX_VALUE`; without a next hop it is
      unreachable or on the diagonal; with a next hop `h`, some edge from
      `i` to `h` fits in it together with what is left from `h` to `j`. */
  ghost predicate HopCell(edges: seq<Edge>, vs: seq<string>, m: Mat, i: string, j: string)
    requires Square(vs, m) && i in vs && j in vs
  {
    && 0 <= m.dist[i][j] <= MaxValue
    && (m.next[i][j].None? ==> m.dist[i][j] == MaxValue || i == j)
    && (m.next[i][j].Some? ==>
          var h := m.next[i][j].value;
          h in vs && exists e :: e in edges && e.source == i && e.target == h && e.weight + Rest(vs, m, h, j) <= m.dist[i][j])
  }

  ghost predicate Hops(edges: seq<Edge>, vs: seq<string>, m: Mat)
    requires Square(vs, m)
  {
    forall i, j :: i in vs && j in vs ==> HopCell(edges, vs, m, i, j)
  }

  // ---------------------------------------------------------------------
  // The matrices `getMatrices` returns keep their hops.

  /** Before the rounds every hop is the target itself, over an edge no
      heavier than the entry. */
  ghost predicate BaseCell(edges: seq<Edge>, vs: seq<string>, m: Mat, i: string, j: string)
    requires Square(vs, m) && i in vs && j in vs
  {
    && 0 <= m.dist[i][j] <= MaxValue
    && (m.next[i][j].None? ==> m.dist[i][j] == MaxValue || i == j)
    && (m.next[i][j].Some? ==>
          m.next[i][j] == Some(j) && exists e :: e in edges && e.source == i && e.target == j && e.weight <= m.dist[i][j])
  }

  ghost predicate Base(edges: seq<Edge>, vs: seq<string>, m: Mat)
    requires Square(vs, m)
  {
    forall i, j :: i in vs && j in vs ==> BaseCell(edges, vs, m, i, j)
  }

  lemma BlankBase(edges: seq<Edge>, vs: seq<string>, m: Mat)
    requires Blank(vs, m)
    ensures Base(edges, vs, m)
  {
  }

  /** Writing one edge of `edges` into its pair keeps the base shape. */
  lemma DirectBase(edges: seq<Edge>, vs: seq<string>, m: Mat, e: Edge)
    requires Square(vs, m) && Base(edges, vs, m) && PositiveWeights(edges)
    requires e in edges && e.source in vs && e.target in vs
    ensures Square(vs, Direct(m, e)) && Base(edges, vs, Direct(m, e))
  {
    var r := Direct(m, e);
    forall i, j | i in vs && j in vs
      ensures BaseCell(edges, vs, r, i, j)
    {
      if i == e.source && j == e.target {
        assert r.dist[i][j] == e.weight && r.next[i][j] == Some(j);
      } else {
        assert r.dist[i][j] == m.dist[i][j] && r.next[i][j] == m.next[i][j];
        assert BaseCell(edges, vs, m, i, j);
      }
    }
  }

  lemma {:induction false} DirectAllBase(edges: seq<Edge>, vs: seq<string>, m: Mat, es: seq<Edge>)
    requires Square(vs, m) && Base(edges, vs, m) && PositiveWeights(edges)
    requires forall e :: e in es ==> e in edges && e.source in vs && e.target in vs
    ensures Base(edges, vs, DirectAll(vs, m, es))
  {
    if es != [] {
      var init := es[..|es| - 1];
      assert forall e :: e in init ==> e in es;
      DirectAllBase(edges, vs, m, init);
      DirectBase(edges, vs, DirectAll(vs, m, init), es[|es| - 1]);
    }
  }

  lemma {:induction false} LighterAllBase(edges: seq<Edge>, vs: seq<string>, m: Mat, es: seq<Edge>)
    requires Square(vs, m) && Base(edges, vs, m) && PositiveWeights(edges)
    requires forall e :: e in es ==> e in edges && e.source in vs && e.target in vs
    ensures Base(edges, vs, LighterAll(vs, m, es))
  {
    if es != [] {
      var init := es[..|es| - 1];
      assert forall e :: e in init ==> e in es;
      LighterAllBase(edges, vs, m, init);
      var prior := LighterAll(vs, m, init);
      var e := es[|es| - 1];
      if e.weight < prior.dist[e.source][e.target] {
        DirectBase(edges, vs, prior, e);
        assert LighterAll(vs, m, es) == Direct(prior, e);
      } else {
        assert LighterAll(vs, m, es) == prior;
      }
    }
  }

  lemma BaseHops(edges: seq<Edge>, vs: seq<string>, m: Mat)
    requires Square(vs, m) && Base(edges, vs, m)
    ensures Hops(edges, vs, m)
  {
    forall i, j | i in vs && j in vs
      ensures HopCell(edges, vs, m, i, j)
    {
      assert BaseCell(edges, vs, m, i, j);
    }
  }

  /** The entry `(h, j)` after the round through `k` is within the two
      halves through `k`, when both are finite. */
  lemma RefWithin(vs: seq<string>, m: Mat, k: string, h: string, j: string)
    requires Square(vs, m) && k in vs && h in vs && j in vs
    requires m.dist[h][k] != MaxValue && m.dist[k][j] != MaxValue
    ensures RefDist(m, k, h, j) <= m.dist[h][k] + m.dist[k][j]
    ensures RefDist(m, k, h, j) <= m.dist[h][j]
  {
  }

  /** An entry the round lowers through `k` takes the hop towards `k`, and
      keeps its edge: the rest from that hop is now within the two halves. */
  lemma BetterCell(edges: seq<Edge>, vs: seq<string>, m: Mat, m1: Mat, k: string, i: string, j: string)
    requires Square(vs, m) && Square(vs, m1) && PositiveWeights(edges) && k in vs && i in vs && j in vs
    requires HopCell(edges, vs, m, i, j) && HopCell(edges, vs, m, i, k) && HopCell(edges, vs, m, k, j)
    requires HopCell(edges, vs, m, k, k) && Better(m, k, i, j)
    requires m1.dist[i][j] == RefDist(m, k, i, j) && m1.next[i][j] == RefNext(m, k, i, j)
    requires m.next[i][k].Some? && m.next[i][k].value in vs && HopCell(edges, vs, m, m.next[i][k].value, k)
    requires m1.dist[m.next[i][k].value][j] == RefDist(m, k, m.next[i][k].value, j)
    ensures HopCell(edges, vs, m1, i, j)
  {
    var h := m.next[i][k].value;
    var e :| e in edges && e.source == i && e.target == h && e.weight + Rest(vs, m, h, k) <= m.dist[i][k];
    if h != j && h != k {
      assert e.weight >= 1;
      RefWithin(vs, m, k, h, j);
    }
    assert e.weight + Rest(vs, m1, h, j) <= m1.dist[i][j];
  }

  /** An entry the round leaves keeps its hop, and its rest does not grow. */
  lemma KeptCell(edges: seq<Edge>, vs: seq<string>, m: Mat, m1: Mat, k: string, i: string, j: string)
    requires Square(vs, m) && Square(vs, m1) && k in vs && i in vs && j in vs
    requires HopCell(edges, vs, m, i, j) && !Better(m, k, i, j)
    requires m1.dist[i][j] == RefDist(m, k, i, j) && m1.next[i][j] == RefNext(m, k, i, j)
    requires m.next[i][j].Some? ==>
               m.next[i][j].value in vs && m1.dist[m.next[i][j].value][j] <= m.dist[m.next[i][j].value][j]
    ensures HopCell(edges, vs, m1, i, j)
  {
    if m.next[i][j].Some? {
      var h := m.next[i][j].value;
      var e :| e in edges && e.source == i && e.target == h && e.weight + Rest(vs, m, h, j) <= m.dist[i][j];
      assert e.weight + Rest(vs, m1, h, j) <= m1.dist[i][j];
    }
  }

  /** One entry after the round through `k`, given every entry as the
      round reads it off `m`. */
  lemma HopCellRound(edges: seq<Edge>, vs: seq<string>, m: Mat, m1: Mat, k: string, i: string, j: string)
    requires Square(vs, m) && Square(vs, m1) && Hops(edges, vs, m) && PositiveWeights(edges)
    requires k in vs && i in vs && j in vs
    requires forall x, y :: x in vs && y in vs ==>
               m1.dist[x][y] == RefDist(m, k, x, y) && m1.next[x][y] == RefNext(m, k, x, y)
    ensures HopCell(edges, vs, m1, i, j)
  {
    assert HopCell(edges, vs, m, i, j) && HopCell(edges, vs, m, i, k);
    assert HopCell(edges, vs, m, k, j) && HopCell(edges, vs, m, k, k);
    if Better(m, k, i, j) {
      assert HopCell(edges, vs, m, m.next[i][k].value, k);
      BetterCell(edges, vs, m, m1, k, i, j);
    } else {
      if m.next[i][j].Some? {
        var h := m.next[i][j].value;
        assert m1.dist[h][j] == RefDist(m, k, h, j);
      }
      KeptCell(edges, vs, m, m1, k, i, j);
    }
  }

  /** The in-place round through `k` keeps the hops. */
  lemma HopsRound(edges: seq<Edge>, vs: seq<string>, m: Mat, k: string)
    requires Square(vs, m) && Distinct(vs) && k in vs && Hops(edges, vs, m) && PositiveWeights(edges)
    ensures Hops(edges, vs, Rows(vs, m, k, vs))
  {
    assert HopCell(edges, vs, m, k, k);
    RoundExact(vs, m, k);
    var m1 := Rows(vs, m, k, vs);
    forall i, j | i in vs && j in vs
      ensures HopCell(edges, vs, m1, i, j)
    {
      HopCellRound(edges, vs, m, m1, k, i, j);
    }
  }

  lemma {:induction false} HopsRounds(edges: seq<Edge>, vs: seq<string>, m: Mat, ks: seq<string>)
    requires Square(vs, m) && Distinct(vs) && (forall k :: k in ks ==> k in vs) && Hops(edges, vs, m)
    requires PositiveWeights(edges)
    ensures Hops(edges, vs, Rounds(vs, m, ks))
  {
    if ks != [] {
      var init := ks[..|ks| - 1];
      assert forall k :: k in init ==> k in ks;
      HopsRounds(edges, vs, m, init);
      HopsRound(edges, vs, Rounds(vs, m, init), ks[|ks| - 1]);
    }
  }

  /** Writing one entry of the "next" matrix keeps its keys. */
  lemma KeyedWrite(vs: seq<string>, m: Mat, d: map<string, map<string, int>>, i: string, j: string, x: Option<string>)
    requires Keyed(vs, m) && i in m.next && j in vs
    ensures Keyed(vs, Mat(d, m.next[i := m.next[i][j := x]]))
  {
    var next := m.next[i := m.next[i][j := x]];
    forall a, b | a in next && b in next[a]
      ensures b in vs
    {
      if a != i || b != j {
        assert a in m.next && b in m.next[a];
      }
    }
  }

  lemma KeyedStep(vs: seq<string>, m: Mat, k: string, i: string, j: string)
    requires Square(vs, m) && Keyed(vs, m) && k in vs && i in vs && j in vs
    ensures Keyed(vs, Step(vs, m, k, i, j))
  {
    if Better(m, k, i, j) {
      KeyedWrite(vs, m, m.dist[i := m.dist[i][j := m.dist[i][k] + m.dist[k][j]]], i, j, m.next[i][k]);
    }
  }

  lemma KeyedDirect(vs: seq<string>, m: Mat, e: Edge)
    requires Square(vs, m) && Keyed(vs, m) && e.source in vs && e.target in vs
    ensures Keyed(vs, Direct(m, e))
  {
    KeyedWrite(vs, m, m.dist[e.source := m.dist[e.source][e.target := e.weight]], e.source, e.target, Some(e.target));
  }

  lemma {:induction false} KeyedCols(vs: seq<string>, m: Mat, k: string, i: string, js: seq<string>)
    requires Square(vs, m) && Keyed(vs, m) && k in vs && i in vs && forall j :: j in js ==> j in vs
    ensures Keyed(vs, Cols(vs, m, k, i, js))
  {
    if js != [] {
      var init := js[..|js| - 1];
      assert forall j :: j in init ==> j in js;
      KeyedCols(vs, m, k, i, init);
      KeyedStep(vs, Cols(vs, m, k, i, init), k, i, js[|js| - 1]);
    }
  }

  lemma {:induction false} KeyedRows(vs: seq<string>, m: Mat, k: string, rs: seq<string>)
    requires Square(vs, m) && Keyed(vs, m) && k in vs && forall i :: i in rs ==> i in vs
    ensures Keyed(vs, Rows(vs, m, k, rs))
  {
    if rs != [] {
      var init := rs[..|rs| - 1];
      assert forall i :: i in init ==> i in rs;
      KeyedRows(vs, m, k, init);
      KeyedCols(vs, Rows(vs, m, k, init), k, rs[|rs| - 1], vs);
    }
  }

  lemma {:induction false} KeyedRounds(vs: seq<string>, m: Mat, ks: seq<string>)
    requires Square(vs, m) && Keyed(vs, m) && forall k :: k in ks ==> k in vs
    ensures Keyed(vs, Rounds(vs, m, ks))
  {
    if ks != [] {
      var init := ks[..|ks| - 1];
      assert forall k :: k in init ==> k in ks;
      KeyedRounds(vs, m, init);
      KeyedRows(vs, Rounds(vs, m, init), ks[|ks| - 1], vs);
    }
  }

  lemma {:induction false} KeyedDirectAll(vs: seq<string>, m: Mat, es: seq<Edge>)
    requires Square(vs, m) && Keyed(vs, m) && forall e :: e in es ==> e.source in vs && e.target in vs
    ensures Keyed(vs, DirectAll(vs, m, es))
  {
    if es != [] {
      var init := es[..|es| - 1];
      assert forall e :: e in init ==> e in es;
      KeyedDirectAll(vs, m, init);
      KeyedDirect(vs, DirectAll(vs, m, init), es[|es| - 1]);
    }
  }

  lemma {:induction false} KeyedLighterAll(vs: seq<string>, m: Mat, es: seq<Edge>)
    requires Square(vs, m) && Keyed(vs, m) && forall e :: e in es ==> e.source in vs && e.target in vs
    ensures Keyed(vs, LighterAll(vs, m, es))
  {
    if es != [] {
      var init := es[..|es| - 1];
      assert forall e :: e in init ==> e in es;
      KeyedLighterAll(vs, m, init);
      var prior := LighterAll(vs, m, init);
      var e := es[|es| - 1];
      if e.weight < prior.dist[e.source][e.target] {
        KeyedDirect(vs, prior, e);
        assert LighterAll(vs, m, es) == Direct(prior, e);
      } else {
        assert LighterAll(vs, m, es) == prior;
      }
    }
  }

  /** Both versions of `getMatrices` leave matrices keyed by the names and
      with their hops. */
  lemma MatricesHops(g: Graph, blank: Mat)
    requires Distinct(g.vertices) && EndpointsIn(g) && PositiveWeights(g.edges)
    requires Blank(g.vertices, blank) && Keyed(g.vertices, blank)
    ensures var vs := g.vertices;
            var m := Rounds(vs, DirectAll(vs, blank, g.edges), vs);
            Keyed(vs, m) && Hops(g.edges, vs, m)
    ensures var vs := g.vertices;
            var m := Rounds(vs, LighterAll(vs, blank, g.edges), vs);
            Keyed(vs, m) && Hops(g.edges, vs, m)
  {
    var vs := g.vertices;
    BlankBase(g.edges, vs, blank);
    DirectAllBase(g.edges, vs, blank, g.edges);
    LighterAllBase(g.edges, vs, blank, g.edges);
    var d := DirectAll(vs, blank, g.edges);
    var l := LighterAll(vs, blank, g.edges);
    BaseHops(g.edges, vs, d);
    BaseHops(g.edges, vs, l);
    HopsRounds(g.edges, vs, d, vs);
    HopsRounds(g.edges, vs, l, vs);
    KeyedDirectAll(vs, blank, g.edges);
    KeyedLighterAll(vs, blank, g.edges);
    KeyedRounds(vs, d, vs);
    KeyedRounds(vs, l, vs);
  }

  // ---------------------------------------------------------------------
  // The walk.

  /** The edge the inner `for` takes from `a` to the hop `h`: as written,
      any edge from `a` to `h`; when `tight`, one that also fits in
      `budget`, what the entry leaves for the first edge. */
  predicate HopFits(e: Edge, a: string, h: string, budget: int, tight: bool) {
    e.source == a && e.target == h && (tight ==> e.weight <= budget)
  }

  /** The first edge of `edges` that fits, the one the inner `for` stops at. */
  function FirstHop(edges: seq<Edge>, a: string, h: string, budget: int, tight: bool): (r: Option<Edge>)
    ensures r.Some? ==> r.value in edges && HopFits(r.value, a, h, budget, tight)
    ensures r.None? <==> forall e :: e in edges ==> !HopFits(e, a, h, budget, tight)
    ensures !tight ==> r == FirstEdge(edges, a, h)
  {
    if edges == [] then None
    else if HopFits(edges[0], a, h, budget, tight) then Some(edges[0])
    else FirstHop(edges[1..], a, h, budget, tight)
  }

  /** The inner `for` with its `break`. */
  method FindHop(edges: seq<Edge>, a: string, h: string, budget: int, tight: bool) returns (r: Option<Edge>)
    ensures r == FirstHop(edges, a, h, budget, tight)
  {
    r := None;
    var t := 0;
    while t < |edges|
      invariant t <= |edges| && FirstHop(edges, a, h, budget, tight) == FirstHop(edges[t..], a, h, budget, tight)
    {
      assert edges[t..][1..] == edges[t + 1..];
      if HopFits(edges[t], a, h, budget, tight) {
        r := Some(edges[t]);
        return;
      }
      t := t + 1;
    }
  }

  /** The budget of the first edge from `a` towards `end` over the hop `h`. */
  function Budget(vs: seq<string>, m: Mat, a: string, h: string, end: string): int
    requires Square(vs, m) && a in vs && h in vs && end in vs
  {
    m.dist[a][end] - Rest(vs, m, h, end)
  }

  /** Each edge of `path` is the first that fits from its source to its
      target, on the way to `end`. */
  ghost predicate FirstHops(edges: seq<Edge>, vs: seq<string>, m: Mat, end: string, tight: bool, path: seq<Edge>)
    requires Square(vs, m) && end in vs
  {
    forall i :: 0 <= i < |path| ==>
      path[i].source in vs && path[i].target in vs
      && FirstHop(edges, path[i].source, path[i].target, Budget(vs, m, path[i].source, path[i].target, end), tight)
         == Some(path[i])
  }

  /** What the walk returns: a walk from `start` to `end` over `edges`, empty
      exactly when they are equal, each of its edges the first that fits
      from its source to its target, and, when `tight`, no heavier than the
      entry `(start, end)`. */
  ghost predicate Walked(edges: seq<Edge>, vs: seq<string>, m: Mat, start: string, end: string, tight: bool,
                         path: seq<Edge>)
    requires Square(vs, m) && start in vs && end in vs
  {
    && Chained(edges, path, start, end)
    && (path == [] <==> start == end)
    && FirstHops(edges, vs, m, end, tight, path)
    && (tight ==> TotalWeight(path) <= m.dist[start][end])
  }

  /** The state of the `while` loop after `path`, standing at `current`. */
  ghost predicate WalkState(edges: seq<Edge>, vs: seq<string>, m: Mat, start: string, end: string, tight: bool,
                            path: seq<Edge>, current: string)
    requires Square(vs, m) && start in vs && end in vs
  {
    && current in vs && Chained(edges, path, start, current)
    && (path == [] ==> current == start)
    && (start == end ==> path == [])
    && (current != end ==> m.next[current][end].Some?)
    && FirstHops(edges, vs, m, end, tight, path)
    && (tight ==> TotalWeight(path) + Rest(vs, m, current, end) <= m.dist[start][end])
  }

  /** A fitting edge towards the hop exists. */
  lemma HopExists(edges: seq<Edge>, vs: seq<string>, m: Mat, current: string, end: string, tight: bool)
    requires Square(vs, m) && Hops(edges, vs, m) && current in vs && end in vs
    requires current != end && m.next[current][end].Some?
    ensures var h := m.next[current][end].value;
            h in vs && FirstHop(edges, current, h, Budget(vs, m, current, h, end), tight).Some?
            && 0 <= Rest(vs, m, h, end)
  {
    assert HopCell(edges, vs, m, current, end);
    var h := m.next[current][end].value;
    assert HopCell(edges, vs, m, h, end);
    var x :| x in edges && x.source == current && x.target == h && x.weight + Rest(vs, m, h, end) <= m.dist[current][end];
    assert HopFits(x, current, h, Budget(vs, m, current, h, end), tight);
  }

  /** Appending the edge found for the hop and moving to it keeps the state
      and brings the walk strictly closer to `end`. */
  lemma WalkStep(edges: seq<Edge>, vs: seq<string>, m: Mat, start: string, end: string, tight: bool,
                 path: seq<Edge>, current: string, e: Edge)
    requires Square(vs, m) && Hops(edges, vs, m) && PositiveWeights(edges) && start in vs && end in vs
    requires WalkState(edges, vs, m, start, end, tight, path, current) && current != end
    requires var h := m.next[current][end].value;
             h in vs && FirstHop(edges, current, h, Budget(vs, m, current, h, end), tight) == Some(e)
    ensures var h := m.next[current][end].value;
            WalkState(edges, vs, m, start, end, tight, path + [e], h)
            && 0 <= Rest(vs, m, h, end) < Rest(vs, m, current, end)
  {
    var h := m.next[current][end].value;
    assert HopCell(edges, vs, m, current, end) && HopCell(edges, vs, m, h, end);
    ChainedSnoc(edges, path, start, current, e);
    var p := path + [e];
    forall i | 0 <= i < |p|
      ensures p[i].source in vs && p[i].target in vs
              && FirstHop(edges, p[i].source, p[i].target, Budget(vs, m, p[i].source, p[i].target, end), tight)
                 == Some(p[i])
    {
      if i < |path| {
        assert p[i] == path[i];
      }
    }
    var x :| x in edges && x.source == current && x.target == h && x.weight + Rest(vs, m, h, end) <= m.dist[current][end];
    assert e.weight >= 1;
  }

  /** The `while` loop: follow the hops towards `end`, appending one edge
      per hop. */
  method FollowHops(edges: seq<Edge>, vs: seq<string>, m: Mat, start: string, end: string, tight: bool)
    returns (path: seq<Edge>)
    requires Square(vs, m) && Hops(edges, vs, m) && PositiveWeights(edges)
    requires start in vs && end in vs && m.next[start][end].Some?
    ensures Walked(edges, vs, m, start, end, tight, path)
  {
    path := [];
    var current := start;
    assert HopCell(edges, vs, m, start, end);
    while current != end
      invariant WalkState(edges, vs, m, start, end, tight, path, current)
      invariant 0 <= Rest(vs, m, current, end)
      decreases Rest(vs, m, current, end)
    {
      var nxt := m.next[current][end];
      if nxt.None? {
        break;
      }
      var h := nxt.value;
      HopExists(edges, vs, m, current, end, tight);
      var e := FindHop(edges, current, h, Budget(vs, m, current, h, end), tight);
      if e.Some? {
        WalkStep(edges, vs, m, start, end, tight, path, current, e.value);
        path := path + [e.value];
      }
      current := h;
    }
  }

  /** `getFloydWarshall` over matrices `m` with their hops: a start with no
      row dereferences `null`; an end with no column, or no hop between
      them, gives the empty list; otherwise the walk. */
  method WalkMatrices(edges: seq<Edge>, vs: seq<string>, m: Mat, startName: string, endName: string, tight: bool)
    returns (r: Result<seq<Edge>>)
    requires Square(vs, m) && Keyed(vs, m) && Hops(edges, vs, m) && PositiveWeights(edges)
    ensures startName !in vs ==> r == Err("NullPointerException")
    ensures startName in vs && endName !in vs ==> r == Ok([])
    ensures startName in vs && endName in vs ==>
              r.Ok? && (m.next[startName][endName].None? ==> r.value == [])
              && (m.next[startName][endName].Some? ==> Walked(edges, vs, m, startName, endName, tight, r.value))
  {
    if startName !in m.next {
      return Err("NullPointerException");
    }
    var row := m.next[startName];
    if endName !in row || row[endName].None? {
      return Ok([]);
    }
    var path := FollowHops(edges, vs, m, startName, endName, tight);
    return Ok(path);
  }

  /** `getFloydWarshall` as written: the matrices of `getMatrices` as
      written, and the first forward edge of each hop. */
  method GetFloydWarshallAsWritten(g: Graph, startName: string, endName: string)
    returns (r: Result<seq<Edge>>, ghost m: Mat, ghost blank: Mat)
    requires Distinct(g.vertices) && EndpointsIn(g) && PositiveWeights(g.edges)
    ensures Blank(g.vertices, blank) && m == Rounds(g.vertices, DirectAll(g.vertices, blank, g.edges), g.vertices)
    ensures Hops(g.edges, g.vertices, m)
    ensures startName !in g.vertices ==> r == Err("NullPointerException")
    ensures startName in g.vertices && endName !in g.vertices ==> r == Ok([])
    ensures startName in g.vertices && endName in g.vertices ==>
              r.Ok? && (m.next[startName][endName].None? ==> r.value == [])
              && (m.next[startName][endName].Some? ==> Walked(g.edges, g.vertices, m, startName, endName, false, r.value))
  {
    var res;
    res, blank := GetMatricesAsWritten(g);
    var mat := Mat(res.dist, res.next);
    m := mat;
    MatricesHops(g, blank);
    r := WalkMatrices(g.edges, g.vertices, mat, startName, endName, false);
  }

  /** `getFloydWarshall` on the corrected matrices, taking at each hop the
      first edge that fits what the entry leaves: a least walk from the
      start to the end among those whose stretches stay below `MAX_VALUE`,
      and the empty list exactly when the ends are equal or no such walk
      exists. */
  method GetFloydWarshall(g: Graph, startName: string, endName: string) returns (r: Result<seq<Edge>>)
    requires Distinct(g.vertices) && EndpointsIn(g) && PositiveWeights(g.edges)
    ensures startName !in g.vertices ==> r == Err("NullPointerException")
    ensures startName in g.vertices && endName !in g.vertices ==> r == Ok([])
    ensures startName in g.vertices && endName in g.vertices ==>
              r.Ok?
              && (r.value != [] ==> startName != endName && Chained(g.edges, r.value, startName, endName))
              && (r.value == [] && startName != endName ==>
                    forall es :: Chained(g.edges, es, startName, endName) ==> !Bounded(es))
              && (forall es :: Chained(g.edges, es, startName, endName) && Bounded(es) ==>
                    TotalWeight(r.value) <= TotalWeight(es))
  {
    var res, blank := GetMatrices(g);
    var m := Mat(res.dist, res.next);
    MatricesHops(g, blank);
    r := WalkMatrices(g.edges, g.vertices, m, startName, endName, true);
    if startName in g.vertices && endName in g.vertices {
      WalkOptimal(g, blank, startName, endName, r.value);
    }
  }

  /** The zero potential is feasible when no weight is negative. */
  lemma ZeroFeasible(g: Graph) returns (pot: map<string, int>)
    requires EndpointsIn(g) && PositiveWeights(g.edges)
    ensures Feasible(g, pot) && forall v :: v in pot ==> pot[v] == 0
  {
    pot := map v | v in g.vertices :: 0;
  }

  /** What the walk over the corrected matrices means for the walks of the
      graph. */
  lemma WalkOptimal(g: Graph, blank: Mat, s: string, t: string, path: seq<Edge>)
    requires Distinct(g.vertices) && EndpointsIn(g) && PositiveWeights(g.edges)
    requires Blank(g.vertices, blank) && s in g.vertices && t in g.vertices
    requires var m := Rounds(g.vertices, LighterAll(g.vertices, blank, g.edges), g.vertices);
             Hops(g.edges, g.vertices, m)
             && (m.next[s][t].None? ==> path == [])
             && (m.next[s][t].Some? ==> Walked(g.edges, g.vertices, m, s, t, true, path))
    ensures path != [] ==> s != t && Chained(g.edges, path, s, t)
    ensures path == [] && s != t ==> forall es :: Chained(g.edges, es, s, t) ==> !Bounded(es)
    ensures forall es :: Chained(g.edges, es, s, t) && Bounded(es) ==> TotalWeight(path) <= TotalWeight(es)
  {
    var vs := g.vertices;
    var m := Rounds(vs, LighterAll(vs, blank, g.edges), vs);
    var pot := ZeroFeasible(g);
    FloydOptimal(g, pot, blank);
    assert HopCell(g.edges, vs, m, s, t);
    forall es | Chained(g.edges, es, s, t) && Bounded(es)
      ensures m.dist[s][t] <= TotalWeight(es) < MaxValue
    {
      assert es[0..|es|] == es;
    }
    forall es | Chained(g.edges, es, s, t) && Bounded(es)
      ensures TotalWeight(path) <= TotalWeight(es)
    {
      if s == t && m.next[s][t].None? {
        CycleNonNegative(g, pot, es, s);
      }
    }
  }

  // ---------------------------------------------------------------------
  // Two parallel edges between two vertices `a` and `b`.

  /** A graph of two vertices whose edges all go from `a` to `b`. */
  function Parallel(a: string, b: string, first: int, second: int): (g: Graph)
    ensures g.vertices == [a, b] && g.edges == [Edge(a, b, first), Edge(a, b, second)] && EndpointsIn(g)
    ensures forall e :: e in g.edges ==> e.source == a && e.target == b
  {
    Graph([a, b], [Edge(a, b, first), Edge(a, b, second)], map[])
  }

  /** With every edge from `a` to `b`, a walk from `a` to `b` is one edge. */
  lemma OneEdgeWalks(edges: seq<Edge>, es: seq<Edge>, a: string, b: string)
    requires a != b && (forall e :: e in edges ==> e.source == a && e.target == b)
    requires Chained(edges, es, a, b)
    ensures |es| == 1 && es[0] in edges
  {
    assert es[0] in edges;
    assert |es| > 1 ==> es[1] in edges && es[0].target == es[1].source;
  }

  /** A round through `k` with a non-negative diagonal entry leaves the
      entries of row `k` and of column `k`. */
  lemma EndsKept(vs: seq<string>, m: Mat, k: string, i: string, j: string)
    requires Square(vs, m) && Distinct(vs) && k in vs && i in vs && j in vs && m.dist[k][k] >= 0
    requires i == k || j == k
    ensures Rows(vs, m, k, vs).dist[i][j] == m.dist[i][j] && Rows(vs, m, k, vs).next[i][j] == m.next[i][j]
  {
    RoundExact(vs, m, k);
    var r := Rows(vs, m, k, vs);
    assert r.dist[i][j] == RefDist(m, k, i, j) && r.next[i][j] == RefNext(m, k, i, j);
    if i == k {
      assert !Better(m, k, k, j);
    } else {
      assert !Better(m, k, i, k);
    }
  }

  /** Over the two vertices `a` and `b`, with both diagonal entries 0 and
      nothing from `b` to `a`, the rounds leave the entry `(a, b)`. */
  lemma TwoVertexRounds(vs: seq<string>, a: string, b: string, m: Mat)
    requires vs == [a, b] && a != b && Square(vs, m)
    requires m.dist[a][a] == 0 && m.dist[b][b] == 0 && m.dist[b][a] == MaxValue
    ensures Rounds(vs, m, vs).dist[a][b] == m.dist[a][b] && Rounds(vs, m, vs).next[a][b] == m.next[a][b]
  {
    assert a in vs && b in vs && Distinct(vs);
    var m1 := Rows(vs, m, a, vs);
    TwoRounds(vs, a, b, m);
    EndsKept(vs, m, a, a, b);
    FirstRoundDiag(vs, a, b, m);
    EndsKept(vs, m1, b, a, b);
  }

  /** The rounds over `[a, b]`: through `a`, then through `b`. */
  lemma TwoRounds(vs: seq<string>, a: string, b: string, m: Mat)
    requires vs == [a, b] && Square(vs, m)
    ensures Rounds(vs, m, vs) == Rows(vs, Rows(vs, m, a, vs), b, vs)
  {
    assert vs[..1] == [a] && [a][..0] == [];
    assert Rounds(vs, m, [a]) == Rows(vs, m, a, vs);
  }

  /** The round through `a` leaves `(b, b)` at 0 when nothing leads from
      `b` to `a`. */
  lemma FirstRoundDiag(vs: seq<string>, a: string, b: string, m: Mat)
    requires vs == [a, b] && a != b && Square(vs, m)
    requires m.dist[a][a] == 0 && m.dist[b][b] == 0 && m.dist[b][a] == MaxValue
    ensures Rows(vs, m, a, vs).dist[b][b] == 0
  {
    assert a in vs && b in vs && Distinct(vs);
    RoundExact(vs, m, a);
    assert Rows(vs, m, a, vs).dist[b][b] == RefDist(m, a, b, b);
  }

  /** The blank entries of two vertices. */
  lemma TwoBlank(a: string, b: string, blank: Mat)
    requires a != b && Blank([a, b], blank)
    ensures blank.dist[a][a] == 0 && blank.dist[b][b] == 0 && blank.dist[b][a] == MaxValue
  {
    assert a in [a, b] && b in [a, b];
  }

  /** As written, the edge loop over two edges from `a` to `b` leaves the
      second one's weight between them and the blank entries elsewhere. */
  lemma LastOfTwo(a: string, b: string, first: int, second: int, blank: Mat)
    requires a != b && Blank([a, b], blank)
    ensures var g := Parallel(a, b, first, second);
            var m0 := DirectAll(g.vertices, blank, g.edges);
            m0.dist[a][a] == 0 && m0.dist[b][b] == 0 && m0.dist[b][a] == MaxValue
            && m0.dist[a][b] == second && m0.next[a][b] == Some(b)
  {
    var g := Parallel(a, b, first, second);
    TwoBlank(a, b, blank);
    assert LastEdge(g.edges, a, b) == Some(Edge(a, b, second));
    LastEdgeWins(g.vertices, blank, g.edges, a, b);
    LastEdgeWins(g.vertices, blank, g.edges, a, a);
    LastEdgeWins(g.vertices, blank, g.edges, b, b);
    LastEdgeWins(g.vertices, blank, g.edges, b, a);
  }

  /** With the lighter-edge test, the edge loop over the weights 1 and 5
      from `a` to `b` leaves 1 between them and the blank entries
      elsewhere. */
  lemma LighterOfTwo(a: string, b: string, blank: Mat)
    requires a != b && Blank([a, b], blank)
    ensures var g := Parallel(a, b, 1, 5);
            var m0 := LighterAll(g.vertices, blank, g.edges);
            m0.dist[a][a] == 0 && m0.dist[b][b] == 0 && m0.dist[b][a] == MaxValue && m0.dist[a][b] == 1
  {
    var g := Parallel(a, b, 1, 5);
    TwoBlank(a, b, blank);
    assert Edge(a, b, 1) in g.edges;
    LighterLeast(g.vertices, blank, g.edges, a, b);
    LighterLeast(g.vertices, blank, g.edges, a, a);
    LighterLeast(g.vertices, blank, g.edges, b, b);
    LighterLeast(g.vertices, blank, g.edges, b, a);
  }

  /** As written, `getMatrices` over the edges `a -> b` of weight 1 and then
      5 leaves 5 between them: the later, heavier edge overwrites the
      lighter one. */
  method HeavierLastAsWritten(a: string, b: string) returns (r: FloydResult)
    requires a != b
    ensures a in r.dist && b in r.dist[a] && r.dist[a][b] == 5
  {
    var g := Parallel(a, b, 1, 5);
    ghost var blank;
    r, blank := GetMatricesAsWritten(g);
    LastOfTwo(a, b, 1, 5, blank);
    TwoVertexRounds(g.vertices, a, b, DirectAll(g.vertices, blank, g.edges));
  }

  /** With the lighter-edge test the same graph leaves 1 between them. */
  method HeavierLastCorrected(a: string, b: string) returns (r: FloydResult)
    requires a != b
    ensures a in r.dist && b in r.dist[a] && r.dist[a][b] == 1
  {
    var g := Parallel(a, b, 1, 5);
    ghost var blank;
    r, blank := GetMatrices(g);
    LighterOfTwo(a, b, blank);
    TwoVertexRounds(g.vertices, a, b, LighterAll(g.vertices, blank, g.edges));
  }

  /** With every edge from `a` to `b`, the walk taking the first edge of
      each hop is the first edge. */
  lemma FirstOnly(edges: seq<Edge>, vs: seq<string>, m: Mat, a: string, b: string, path: seq<Edge>)
    requires a != b && (forall e :: e in edges ==> e.source == a && e.target == b)
    requires Square(vs, m) && a in vs && b in vs && Walked(edges, vs, m, a, b, false, path)
    ensures FirstEdge(edges, a, b).Some? && path == [FirstEdge(edges, a, b).value]
  {
    OneEdgeWalks(edges, path, a, b);
    var x := path[0];
    assert FirstHop(edges, x.source, x.target, Budget(vs, m, x.source, x.target, b), false) == Some(x);
    assert path == [x];
  }

  /** As written, the matrices over the edges `a -> b` of weight 5 and then
      1 hold a hop from `a` to `b`. */
  lemma FirstForwardHop(a: string, b: string, blank: Mat, m: Mat)
    requires a != b && Blank([a, b], blank)
    requires var g := Parallel(a, b, 5, 1);
             m == Rounds(g.vertices, DirectAll(g.vertices, blank, g.edges), g.vertices)
    ensures Square([a, b], m) && m.next[a][b] == Some(b)
  {
    var g := Parallel(a, b, 5, 1);
    LastOfTwo(a, b, 5, 1, blank);
    TwoVertexRounds(g.vertices, a, b, DirectAll(g.vertices, blank, g.edges));
  }

  /** As written, `getFloydWarshall` over the edges `a -> b` of weight 5 and
      then 1 returns the edge of weight 5, although the matrices hold 1. */
  method FirstForwardAsWritten(a: string, b: string) returns (r: Result<seq<Edge>>)
    requires a != b
    ensures r == Ok([Edge(a, b, 5)])
  {
    var g := Parallel(a, b, 5, 1);
    ghost var m, blank;
    r, m, blank := GetFloydWarshallAsWritten(g, a, b);
    FirstForwardHop(a, b, blank, m);
    FirstOnly(g.edges, g.vertices, m, a, b, r.value);
    assert FirstEdge(g.edges, a, b) == Some(Edge(a, b, 5));
  }

  /** With the tight choice the same query returns the edge of weight 1. */
  method FirstForwardCorrected(a: string, b: string) returns (r: Result<seq<Edge>>)
    requires a != b
    ensures r == Ok([Edge(a, b, 1)])
  {
    var g := Parallel(a, b, 5, 1);
    r := GetFloydWarshall(g, a, b);
    var one := [Edge(a, b, 1)];
    assert Chained(g.edges, one, a, b);
    assert Bounded(one) by {
      forall x, y | 0 <= x <= y <= 1
        ensures TotalWeight(one[x..y]) < MaxValue
      {
        if x < y {
          assert one[x..y] == one;
        }
      }
    }
    assert TotalWeight(one) == 1;
    OneEdgeWalks(g.edges, r.value, a, b);
    assert r.value == [r.value[0]];
    assert TotalWeight(r.value) == r.value[0].weight;
  }
}
