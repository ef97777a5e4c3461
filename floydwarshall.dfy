/** `FloydWarshall.getMatrices`: the distance and "next hop" matrices of all
    pairs, as nested maps keyed by vertex name, filled from the direct
    edges and then improved in place through every vertex `k` in turn. */
module FloydWarshall {
  import opened Common
  import opened GraphModel
  import opened Walks

  // ---------------------------------------------------------------------
  // The matrices and the in-place triple loop.

  /** `dist` and `next`, one row map per vertex name; `None` is Java's null. */
  datatype Mat = Mat(dist: map<string, map<string, int>>, next: map<string, map<string, Option<string>>>)

  /** `FloydResult`: both matrices and the names in vertex order, which is
      also the key order of every `LinkedHashMap` row. */
  datatype FloydResult = FloydResult(dist: map<string, map<string, int>>, next: map<string, map<string, Option<string>>>,
                                     vertices: seq<string>)

  /** Both matrices hold every pair of names of `vs`. */
  ghost predicate Square(vs: seq<string>, m: Mat) {
    forall i :: i in vs ==> i in m.dist && i in m.next && forall j :: j in vs ==> j in m.dist[i] && j in m.next[i]
  }

  /** The "next" matrix has rows and columns for the names of `vs` only;
      with `Square`, for exactly those: what `next.get` finds. */
  ghost predicate Keyed(vs: seq<string>, m: Mat) {
    (forall i :: i in m.next ==> i in vs) && forall i, j :: i in m.next && j in m.next[i] ==> j in vs
  }

  /** The test of the innermost loop: both halves finite and their sum
      strictly shorter. */
  predicate Better(m: Mat, k: string, i: string, j: string)
    requires i in m.dist && k in m.dist && k in m.dist[i] && j in m.dist[k] && j in m.dist[i]
  {
    m.dist[i][k] != MaxValue && m.dist[k][j] != MaxValue && m.dist[i][k] + m.dist[k][j] < m.dist[i][j]
  }

  /** One pass of the innermost loop body on the pair `(i, j)` through `k`. */
  function Step(vs: seq<string>, m: Mat, k: string, i: string, j: string): (r: Mat)
    requires Square(vs, m) && k in vs && i in vs && j in vs
    ensures Square(vs, r)
  {
    if Better(m, k, i, j) then
      Mat(m.dist[i := m.dist[i][j := m.dist[i][k] + m.dist[k][j]]], m.next[i := m.next[i][j := m.next[i][k]]])
    else m
  }

  /** The `j` loop over the names `js`. */
  function Cols(vs: seq<string>, m: Mat, k: string, i: string, js: seq<string>): (r: Mat)
    requires Square(vs, m) && k in vs && i in vs && forall j :: j in js ==> j in vs
    ensures Square(vs, r)
  {
    if js == [] then m else Step(vs, Cols(vs, m, k, i, js[..|js| - 1]), k, i, js[|js| - 1])
  }

  /** The `i` loop over the names `rs`, each row through every `j`. */
  function Rows(vs: seq<string>, m: Mat, k: string, rs: seq<string>): (r: Mat)
    requires Square(vs, m) && k in vs && forall i :: i in rs ==> i in vs
    ensures Square(vs, r)
  {
    if rs == [] then m else Cols(vs, Rows(vs, m, k, rs[..|rs| - 1]), k, rs[|rs| - 1], vs)
  }

  /** The `k` loop over the names `ks`. */
  function Rounds(vs: seq<string>, m: Mat, ks: seq<string>): (r: Mat)
    requires Square(vs, m) && forall k :: k in ks ==> k in vs
    ensures Square(vs, r)
  {
    if ks == [] then m else Rows(vs, Rounds(vs, m, ks[..|ks| - 1]), ks[|ks| - 1], vs)
  }

  /** The `j` loop: row `i` through `k`, updated in place. */
  method RowThrough(vs: seq<string>, k: string, i: string, dist0: map<string, map<string, int>>,
                    next0: map<string, map<string, Option<string>>>)
    returns (dist: map<string, map<string, int>>, next: map<string, map<string, Option<string>>>)
    requires Square(vs, Mat(dist0, next0)) && k in vs && i in vs
    ensures Mat(dist, next) == Cols(vs, Mat(dist0, next0), k, i, vs)
  {
    dist, next := dist0, next0;
    for jj := 0 to |vs|
      invariant Mat(dist, next) == Cols(vs, Mat(dist0, next0), k, i, vs[..jj])
    {
      var j := vs[jj];
      PrefixOfPrefix(vs, jj + 1);
      var dik := dist[i][k];
      var dkj := dist[k][j];
      var dij := dist[i][j];
      if dik != MaxValue && dkj != MaxValue && dik + dkj < dij {
        dist := dist[i := dist[i][j := dik + dkj]];
        next := next[i := next[i][j := next[i][k]]];
      }
    }
    FullPrefix(vs);
  }

  /** The `i` loop: every row through `k`. */
  method RoundThrough(vs: seq<string>, k: string, dist0: map<string, map<string, int>>,
                      next0: map<string, map<string, Option<string>>>)
    returns (dist: map<string, map<string, int>>, next: map<string, map<string, Option<string>>>)
    requires Square(vs, Mat(dist0, next0)) && k in vs
    ensures Mat(dist, next) == Rows(vs, Mat(dist0, next0), k, vs)
  {
    dist, next := dist0, next0;
    for ii := 0 to |vs|
      invariant Mat(dist, next) == Rows(vs, Mat(dist0, next0), k, vs[..ii])
    {
      PrefixOfPrefix(vs, ii + 1);
      dist, next := RowThrough(vs, k, vs[ii], dist, next);
    }
    FullPrefix(vs);
  }

  /** The `k` loop, outermost. */
  method Closure(vs: seq<string>, dist0: map<string, map<string, int>>, next0: map<string, map<string, Option<string>>>)
    returns (dist: map<string, map<string, int>>, next: map<string, map<string, Option<string>>>)
    requires Square(vs, Mat(dist0, next0))
    ensures Mat(dist, next) == Rounds(vs, Mat(dist0, next0), vs)
  {
    dist, next := dist0, next0;
    for kk := 0 to |vs|
      invariant Mat(dist, next) == Rounds(vs, Mat(dist0, next0), vs[..kk])
    {
      PrefixOfPrefix(vs, kk + 1);
      dist, next := RoundThrough(vs, vs[kk], dist, next);
    }
    FullPrefix(vs);
  }

  // ---------------------------------------------------------------------
  // The initial matrices.

  /** Before the edges: 0 on the diagonal, `MAX_VALUE` elsewhere, no next hop. */
  ghost predicate Blank(vs: seq<string>, m: Mat) {
    Square(vs, m)
    && forall i, j :: i in vs && j in vs ==>
         m.dist[i][j] == (if i == j then 0 else MaxValue) && m.next[i][j] == None
  }

  /** One row of each matrix for `u`. */
  method BlankRows(vs: seq<string>, u: string) returns (distRow: map<string, int>, nextRow: map<string, Option<string>>)
    ensures forall j :: j in distRow <==> j in vs
    ensures forall j :: j in nextRow <==> j in vs
    ensures forall j :: j in vs ==> distRow[j] == (if u == j then 0 else MaxValue) && nextRow[j] == None
  {
    distRow, nextRow := map[], map[];
    for t := 0 to |vs|
      invariant forall j :: j in distRow <==> j in vs[..t]
      invariant forall j :: j in nextRow <==> j in vs[..t]
      invariant forall j :: j in distRow ==> distRow[j] == (if u == j then 0 else MaxValue) && nextRow[j] == None
    {
      PrefixOfPrefix(vs, t + 1);
      assert forall j :: j in vs[..t + 1] <==> j in vs[..t] || j == vs[t];
      var v := vs[t];
      distRow := distRow[v := if u == v then 0 else MaxValue];
      nextRow := nextRow[v := None];
    }
    FullPrefix(vs);
  }

  /** The first loop of `getMatrices`. */
  method BlankMatrices(vs: seq<string>) returns (dist: map<string, map<string, int>>, next: map<string, map<string, Option<string>>>)
    ensures Blank(vs, Mat(dist, next)) && Keyed(vs, Mat(dist, next))
  {
    dist, next := map[], map[];
    for t := 0 to |vs|
      invariant (forall i :: i in dist <==> i in vs[..t]) && (forall i :: i in next <==> i in vs[..t])
      invariant forall i :: i in dist ==> (forall j :: j in dist[i] <==> j in vs) && (forall j :: j in next[i] <==> j in vs)
      invariant forall i, j :: i in dist && j in vs ==> dist[i][j] == (if i == j then 0 else MaxValue) && next[i][j] == None
    {
      PrefixOfPrefix(vs, t + 1);
      assert forall i :: i in vs[..t + 1] <==> i in vs[..t] || i == vs[t];
      var u := vs[t];
      var distRow, nextRow := BlankRows(vs, u);
      dist := dist[u := distRow];
      next := next[u := nextRow];
    }
    FullPrefix(vs);
  }

  /** `dist[u][v] = w; next[u][v] = v` for the edge `e`. */
  function Direct(m: Mat, e: Edge): Mat
    requires e.source in m.dist && e.source in m.next
  {
    Mat(m.dist[e.source := m.dist[e.source][e.target := e.weight]],
        m.next[e.source := m.next[e.source][e.target := Some(e.target)]])
  }

  /** The edge loop as written: each edge overwrites its pair, so the last
      edge of a pair wins, and a self-loop overwrites the diagonal. */
  function DirectAll(vs: seq<string>, m: Mat, es: seq<Edge>): (r: Mat)
    requires Square(vs, m) && forall e :: e in es ==> e.source in vs && e.target in vs
    ensures Square(vs, r)
  {
    if es == [] then m
    else
      var e := es[|es| - 1];
      var prior := DirectAll(vs, m, es[..|es| - 1]);
      Direct(prior, e)
  }

  /** The edge loop corrected: an edge is recorded only when it is lighter
      than what its pair holds. */
  function LighterAll(vs: seq<string>, m: Mat, es: seq<Edge>): (r: Mat)
    requires Square(vs, m) && forall e :: e in es ==> e.source in vs && e.target in vs
    ensures Square(vs, r)
  {
    if es == [] then m
    else
      var e := es[|es| - 1];
      var prior := LighterAll(vs, m, es[..|es| - 1]);
      if e.weight < prior.dist[e.source][e.target] then Direct(prior, e) else prior
  }

  /** The edge loop of `getMatrices` as written. */
  method DirectEdges(vs: seq<string>, edges: seq<Edge>, dist0: map<string, map<string, int>>,
                     next0: map<string, map<string, Option<string>>>)
    returns (dist: map<string, map<string, int>>, next: map<string, map<string, Option<string>>>)
    requires Square(vs, Mat(dist0, next0)) && forall e :: e in edges ==> e.source in vs && e.target in vs
    ensures Mat(dist, next) == DirectAll(vs, Mat(dist0, next0), edges)
  {
    dist, next := dist0, next0;
    for t := 0 to |edges|
      invariant Mat(dist, next) == DirectAll(vs, Mat(dist0, next0), edges[..t])
    {
      PrefixOfPrefix(edges, t + 1);
      var e := edges[t];
      assert e in edges;
      var u := e.source;
      var v := e.target;
      var w := e.weight;
      dist := dist[u := dist[u][v := w]];
      next := next[u := next[u][v := Some(v)]];
    }
    FullPrefix(edges);
  }

  /** The edge loop with the lighter-edge test. */
  method LighterEdges(vs: seq<string>, edges: seq<Edge>, dist0: map<string, map<string, int>>,
                      next0: map<string, map<string, Option<string>>>)
    returns (dist: map<string, map<string, int>>, next: map<string, map<string, Option<string>>>)
    requires Square(vs, Mat(dist0, next0)) && forall e :: e in edges ==> e.source in vs && e.target in vs
    ensures Mat(dist, next) == LighterAll(vs, Mat(dist0, next0), edges)
  {
    dist, next := dist0, next0;
    for t := 0 to |edges|
      invariant Mat(dist, next) == LighterAll(vs, Mat(dist0, next0), edges[..t])
    {
      PrefixOfPrefix(edges, t + 1);
      var e := edges[t];
      assert e in edges;
      var u := e.source;
      var v := e.target;
      var w := e.weight;
      if w < dist[u][v] {
        dist := dist[u := dist[u][v := w]];
        next := next[u := next[u][v := Some(v)]];
      }
    }
    FullPrefix(edges);
  }

  /** `getMatrices` as written. */
  method GetMatricesAsWritten(g: Graph) returns (r: FloydResult, ghost blank: Mat)
    requires EndpointsIn(g)
    ensures Blank(g.vertices, blank) && Keyed(g.vertices, blank) && r.vertices == g.vertices
    ensures Mat(r.dist, r.next) == Rounds(g.vertices, DirectAll(g.vertices, blank, g.edges), g.vertices)
  {
    var order := g.vertices;
    var dist, next := BlankMatrices(order);
    blank := Mat(dist, next);
    dist, next := DirectEdges(order, g.edges, dist, next);
    dist, next := Closure(order, dist, next);
    r := FloydResult(dist, next, order);
  }

  /** `getMatrices` with the lighter-edge test: the matrices the rest of the
      model reads. */
  method GetMatrices(g: Graph) returns (r: FloydResult, ghost blank: Mat)
    requires EndpointsIn(g)
    ensures Blank(g.vertices, blank) && Keyed(g.vertices, blank) && r.vertices == g.vertices
    ensures Mat(r.dist, r.next) == Rounds(g.vertices, LighterAll(g.vertices, blank, g.edges), g.vertices)
  {
    var order := g.vertices;
    var dist, next := BlankMatrices(order);
    blank := Mat(dist, next);
    dist, next := LighterEdges(order, g.edges, dist, next);
    dist, next := Closure(order, dist, next);
    r := FloydResult(dist, next, order);
  }

  // ---------------------------------------------------------------------
  // What every step keeps: each entry is the weight of a walk that starts
  // with its next hop, and no entry grows.

  /** The entry `(i, j)` is backed by a walk over `edges`: with a next hop
      `h`, a walk from `i` to `j` whose first edge enters `h` and whose
      weight is the entry; without one, the entry is unreachable or the 0
      of the diagonal. */
  ghost predicate SoundCell(edges: seq<Edge>, m: Mat, i: string, j: string)
    requires i in m.dist && j in m.dist[i] && i in m.next && j in m.next[i]
  {
    if m.next[i][j].Some? then
      exists es: seq<Edge> :: Chained(edges, es, i, j) && es != [] && es[0].target == m.next[i][j].value
                   && TotalWeight(es) == m.dist[i][j]
    else m.dist[i][j] == MaxValue || (i == j && m.dist[i][j] == 0)
  }

  ghost predicate Sound(edges: seq<Edge>, vs: seq<string>, m: Mat)
    requires Square(vs, m)
  {
    forall i, j :: i in vs && j in vs ==> SoundCell(edges, m, i, j)
  }

  /** Going through `k` joins the walks of `(i, k)` and `(k, j)`. */
  lemma SoundJoin(edges: seq<Edge>, vs: seq<string>, m: Mat, k: string, i: string, j: string)
    requires Square(vs, m) && k in vs && i in vs && j in vs
    requires SoundCell(edges, m, i, k) && SoundCell(edges, m, k, j) && Better(m, k, i, j)
    ensures SoundCell(edges, Step(vs, m, k, i, j), i, j)
  {
    var h := m.next[i][k].value;
    var es1: seq<Edge> :| Chained(edges, es1, i, k) && es1 != [] && es1[0].target == h && TotalWeight(es1) == m.dist[i][k];
    var es2: seq<Edge>;
    if m.next[k][j].Some? {
      es2 :| Chained(edges, es2, k, j) && es2 != [] && es2[0].target == m.next[k][j].value
             && TotalWeight(es2) == m.dist[k][j];
    } else {
      es2 := [];
    }
    ChainedAppend(edges, es1, es2, i, k, j);
    assert (es1 + es2)[0] == es1[0];
  }

  lemma StepSound(edges: seq<Edge>, vs: seq<string>, m: Mat, k: string, i: string, j: string)
    requires Square(vs, m) && k in vs && i in vs && j in vs && Sound(edges, vs, m)
    ensures Sound(edges, vs, Step(vs, m, k, i, j))
  {
    if Better(m, k, i, j) {
      SoundJoin(edges, vs, m, k, i, j);
      var r := Step(vs, m, k, i, j);
      forall x, y | x in vs && y in vs
        ensures SoundCell(edges, r, x, y)
      {
        if x != i || y != j {
          assert r.dist[x][y] == m.dist[x][y] && r.next[x][y] == m.next[x][y];
          assert SoundCell(edges, m, x, y);
        }
      }
    }
  }

  lemma {:induction false} ColsSound(edges: seq<Edge>, vs: seq<string>, m: Mat, k: string, i: string, js: seq<string>)
    requires Square(vs, m) && k in vs && i in vs && (forall j :: j in js ==> j in vs) && Sound(edges, vs, m)
    ensures Sound(edges, vs, Cols(vs, m, k, i, js))
  {
    if js != [] {
      ColsSound(edges, vs, m, k, i, js[..|js| - 1]);
      StepSound(edges, vs, Cols(vs, m, k, i, js[..|js| - 1]), k, i, js[|js| - 1]);
    }
  }

  lemma {:induction false} RowsSound(edges: seq<Edge>, vs: seq<string>, m: Mat, k: string, rs: seq<string>)
    requires Square(vs, m) && k in vs && (forall i :: i in rs ==> i in vs) && Sound(edges, vs, m)
    ensures Sound(edges, vs, Rows(vs, m, k, rs))
  {
    if rs != [] {
      RowsSound(edges, vs, m, k, rs[..|rs| - 1]);
      ColsSound(edges, vs, Rows(vs, m, k, rs[..|rs| - 1]), k, rs[|rs| - 1], vs);
    }
  }

  /** Every round keeps every entry backed by a walk. */
  lemma {:induction false} RoundsSound(edges: seq<Edge>, vs: seq<string>, m: Mat, ks: seq<string>)
    requires Square(vs, m) && (forall k :: k in ks ==> k in vs) && Sound(edges, vs, m)
    ensures Sound(edges, vs, Rounds(vs, m, ks))
  {
    if ks != [] {
      RoundsSound(edges, vs, m, ks[..|ks| - 1]);
      RowsSound(edges, vs, Rounds(vs, m, ks[..|ks| - 1]), ks[|ks| - 1], vs);
    }
  }

  /** No entry of `m1` is above the same entry of `m0`. */
  ghost predicate NoGreater(vs: seq<string>, m1: Mat, m0: Mat)
    requires Square(vs, m1) && Square(vs, m0)
  {
    forall i, j :: i in vs && j in vs ==> m1.dist[i][j] <= m0.dist[i][j]
  }

  lemma StepLower(vs: seq<string>, m: Mat, k: string, i: string, j: string)
    requires Square(vs, m) && k in vs && i in vs && j in vs
    ensures NoGreater(vs, Step(vs, m, k, i, j), m)
  {
  }

  /** The entry `(i, j)` changes only on the test of the innermost loop;
      it then takes the sum through `k`, strictly shorter, and its next hop
      becomes the next hop towards `k`. */
  lemma StepUpdate(vs: seq<string>, m: Mat, k: string, i: string, j: string)
    requires Square(vs, m) && k in vs && i in vs && j in vs
    ensures var r := Step(vs, m, k, i, j);
            && (r.dist[i][j] != m.dist[i][j] || r.next[i][j] != m.next[i][j] ==> Better(m, k, i, j))
            && (Better(m, k, i, j) ==>
                  r.dist[i][j] == m.dist[i][k] + m.dist[k][j] < m.dist[i][j] && r.next[i][j] == m.next[i][k])
  {
  }

  lemma NoGreaterTrans(vs: seq<string>, m2: Mat, m1: Mat, m0: Mat)
    requires Square(vs, m2) && Square(vs, m1) && Square(vs, m0)
    requires NoGreater(vs, m2, m1) && NoGreater(vs, m1, m0)
    ensures NoGreater(vs, m2, m0)
  {
  }

  lemma {:induction false} ColsLower(vs: seq<string>, m: Mat, k: string, i: string, js: seq<string>)
    requires Square(vs, m) && k in vs && i in vs && forall j :: j in js ==> j in vs
    ensures NoGreater(vs, Cols(vs, m, k, i, js), m)
  {
    if js != [] {
      var prior := Cols(vs, m, k, i, js[..|js| - 1]);
      ColsLower(vs, m, k, i, js[..|js| - 1]);
      StepLower(vs, prior, k, i, js[|js| - 1]);
      NoGreaterTrans(vs, Step(vs, prior, k, i, js[|js| - 1]), prior, m);
    }
  }

  lemma {:induction false} RowsLower(vs: seq<string>, m: Mat, k: string, rs: seq<string>)
    requires Square(vs, m) && k in vs && forall i :: i in rs ==> i in vs
    ensures NoGreater(vs, Rows(vs, m, k, rs), m)
  {
    if rs != [] {
      var prior := Rows(vs, m, k, rs[..|rs| - 1]);
      RowsLower(vs, m, k, rs[..|rs| - 1]);
      ColsLower(vs, prior, k, rs[|rs| - 1], vs);
      NoGreaterTrans(vs, Cols(vs, prior, k, rs[|rs| - 1], vs), prior, m);
    }
  }

  /** Entries never increase, so a finite entry never turns back into
      `MAX_VALUE`. */
  lemma {:induction false} RoundsLower(vs: seq<string>, m: Mat, ks: seq<string>)
    requires Square(vs, m) && forall k :: k in ks ==> k in vs
    ensures NoGreater(vs, Rounds(vs, m, ks), m)
  {
    if ks != [] {
      var prior := Rounds(vs, m, ks[..|ks| - 1]);
      RoundsLower(vs, m, ks[..|ks| - 1]);
      RowsLower(vs, prior, ks[|ks| - 1], vs);
      NoGreaterTrans(vs, Rows(vs, prior, ks[|ks| - 1], vs), prior, m);
    }
  }

  // ---------------------------------------------------------------------
  // The initial matrices again: what the edge loop leaves in each entry.

  /** The last edge of `es` from `u` to `v`. */
  function LastEdge(es: seq<Edge>, u: string, v: string): (r: Option<Edge>)
    ensures r.Some? ==> r.value in es && r.value.source == u && r.value.target == v
    ensures r.None? <==> forall e :: e in es ==> !(e.source == u && e.target == v)
  {
    if es == [] then None
    else if es[|es| - 1].source == u && es[|es| - 1].target == v then Some(es[|es| - 1])
    else
      assert forall e :: e in es ==> e in es[..|es| - 1] || e == es[|es| - 1];
      LastEdge(es[..|es| - 1], u, v)
  }

  /** As written, the last edge of each pair sets its entry; pairs without
      an edge keep their entry. */
  lemma {:induction false} LastEdgeWins(vs: seq<string>, m: Mat, es: seq<Edge>, u: string, v: string)
    requires Square(vs, m) && (forall e :: e in es ==> e.source in vs && e.target in vs) && u in vs && v in vs
    ensures var r := DirectAll(vs, m, es);
            if LastEdge(es, u, v).Some? then r.dist[u][v] == LastEdge(es, u, v).value.weight && r.next[u][v] == Some(v)
            else r.dist[u][v] == m.dist[u][v] && r.next[u][v] == m.next[u][v]
  {
    if es != [] {
      var init, last := es[..|es| - 1], es[|es| - 1];
      LastEdgeWins(vs, m, init, u, v);
      DirectCell(DirectAll(vs, m, init), last, u, v);
      assert DirectAll(vs, m, es) == Direct(DirectAll(vs, m, init), last);
      if last.source == u && last.target == v {
        assert LastEdge(es, u, v) == Some(last);
      } else {
        assert LastEdge(es, u, v) == LastEdge(init, u, v);
      }
    }
  }

  /** With the lighter-edge test each entry is the least of its blank value
      and the weights of the edges of its pair, and a recorded edge gives
      the target as next hop. */
  lemma {:induction false} LighterLeast(vs: seq<string>, m: Mat, es: seq<Edge>, u: string, v: string)
    requires Square(vs, m) && (forall e :: e in es ==> e.source in vs && e.target in vs) && u in vs && v in vs
    ensures var r := LighterAll(vs, m, es);
            r.dist[u][v] <= m.dist[u][v] && (forall e :: e in es && e.source == u && e.target == v ==> r.dist[u][v] <= e.weight)
            && ((r.dist[u][v] == m.dist[u][v] && r.next[u][v] == m.next[u][v])
                || (r.next[u][v] == Some(v) && exists e :: e in es && e.source == u && e.target == v && e.weight == r.dist[u][v]))
  {
    if es != [] {
      var init := es[..|es| - 1];
      var last := es[|es| - 1];
      assert forall e :: e in init ==> e in es;
      LighterLeast(vs, m, init, u, v);
      var prior := LighterAll(vs, m, init);
      var r := LighterAll(vs, m, es);
      DirectCell(prior, last, u, v);
      if last.weight < prior.dist[last.source][last.target] {
        assert r == Direct(prior, last);
        if last.source == u && last.target == v {
          assert last in es && r.dist[u][v] == last.weight;
        }
      } else {
        assert r == prior;
      }
      assert r.dist[u][v] <= prior.dist[u][v];
      forall e | e in es && e.source == u && e.target == v
        ensures r.dist[u][v] <= e.weight
      {
        if e != last {
          assert e in init;
        }
      }
    }
  }

  /** The entry an edge sets, and no other. */
  lemma DirectCell(m: Mat, e: Edge, u: string, v: string)
    requires e.source in m.dist && e.source in m.next && u in m.dist && u in m.next && v in m.dist[u] && v in m.next[u]
    ensures var r := Direct(m, e);
            if u == e.source && v == e.target then r.dist[u][v] == e.weight && r.next[u][v] == Some(v)
            else r.dist[u][v] == m.dist[u][v] && r.next[u][v] == m.next[u][v]
  {
  }

  /** Every entry the edge loop sets is backed by its edge. */
  lemma {:induction false} LighterSound(edges: seq<Edge>, vs: seq<string>, m: Mat, es: seq<Edge>)
    requires Square(vs, m) && (forall e :: e in es ==> e in edges && e.source in vs && e.target in vs)
    requires Sound(edges, vs, m)
    ensures Sound(edges, vs, LighterAll(vs, m, es))
  {
    if es != [] {
      var init := es[..|es| - 1];
      var e := es[|es| - 1];
      assert e in edges;
      LighterSound(edges, vs, m, init);
      DirectSound(edges, vs, LighterAll(vs, m, init), e);
    }
  }

  lemma {:induction false} DirectAllSound(edges: seq<Edge>, vs: seq<string>, m: Mat, es: seq<Edge>)
    requires Square(vs, m) && (forall e :: e in es ==> e in edges && e.source in vs && e.target in vs)
    requires Sound(edges, vs, m)
    ensures Sound(edges, vs, DirectAll(vs, m, es))
  {
    if es != [] {
      var init := es[..|es| - 1];
      var e := es[|es| - 1];
      assert e in edges;
      DirectAllSound(edges, vs, m, init);
      DirectSound(edges, vs, DirectAll(vs, m, init), e);
    }
  }

  lemma DirectSound(edges: seq<Edge>, vs: seq<string>, m: Mat, e: Edge)
    requires Square(vs, m) && e in edges && e.source in vs && e.target in vs && Sound(edges, vs, m)
    ensures Square(vs, Direct(m, e)) && Sound(edges, vs, Direct(m, e))
  {
    var r := Direct(m, e);
    forall x, y | x in vs && y in vs
      ensures SoundCell(edges, r, x, y)
    {
      if x == e.source && y == e.target {
        assert Chained(edges, [e], x, y);
        assert [e][0].target == e.target && TotalWeight([e]) == e.weight;
      } else {
        assert r.dist[x][y] == m.dist[x][y] && r.next[x][y] == m.next[x][y];
        assert SoundCell(edges, m, x, y);
      }
    }
  }

  lemma BlankSound(edges: seq<Edge>, vs: seq<string>, m: Mat)
    requires Blank(vs, m)
    ensures Sound(edges, vs, m)
  {
  }

  // ---------------------------------------------------------------------
  // One round in place is the round computed from the matrices before it,
  // as long as the diagonal entry of `k` is not negative: row `k` and
  // column `k` then stay as they were during the whole round.

  /** The entry `(i, j)` after the round through `k`, read off `m`. */
  function RefDist(m: Mat, k: string, i: string, j: string): int
    requires i in m.dist && k in m.dist && k in m.dist[i] && j in m.dist[k] && j in m.dist[i]
  {
    if Better(m, k, i, j) then m.dist[i][k] + m.dist[k][j] else m.dist[i][j]
  }

  function RefNext(m: Mat, k: string, i: string, j: string): Option<string>
    requires i in m.dist && k in m.dist && k in m.dist[i] && j in m.dist[k] && j in m.dist[i]
    requires i in m.next && k in m.next[i] && j in m.next[i]
  {
    if Better(m, k, i, j) then m.next[i][k] else m.next[i][j]
  }

  /** The pair `(i, j)` comes before row `a`, column `b` in loop order. */
  ghost predicate Done(vs: seq<string>, i: string, j: string, a: nat, b: nat)
    requires i in vs && j in vs
  {
    IndexOf(vs, i) < a || (IndexOf(vs, i) == a && IndexOf(vs, j) < b)
  }

  /** `cur` holds the round's values on the pairs done, `m0`'s elsewhere. */
  ghost predicate Partial(vs: seq<string>, m0: Mat, cur: Mat, k: string, a: nat, b: nat)
    requires Square(vs, m0) && Square(vs, cur) && k in vs
  {
    forall i, j :: i in vs && j in vs ==> PartialCell(vs, m0, cur, k, a, b, i, j)
  }

  ghost predicate PartialCell(vs: seq<string>, m0: Mat, cur: Mat, k: string, a: nat, b: nat, i: string, j: string)
    requires Square(vs, m0) && Square(vs, cur) && k in vs && i in vs && j in vs
  {
    if Done(vs, i, j, a, b) then cur.dist[i][j] == RefDist(m0, k, i, j) && cur.next[i][j] == RefNext(m0, k, i, j)
    else cur.dist[i][j] == m0.dist[i][j] && cur.next[i][j] == m0.next[i][j]
  }

  /** What the step on `(vs[a], vs[b])` reads is still `m0`'s. */
  lemma PartialReads(vs: seq<string>, m0: Mat, cur: Mat, k: string, a: nat, b: nat)
    requires Square(vs, m0) && Square(vs, cur) && k in vs && Distinct(vs) && a < |vs| && b < |vs|
    requires Partial(vs, m0, cur, k, a, b) && m0.dist[k][k] >= 0
    ensures var i, j := vs[a], vs[b];
            cur.dist[i][k] == m0.dist[i][k] && cur.dist[k][j] == m0.dist[k][j] && cur.next[i][k] == m0.next[i][k]
            && cur.dist[i][j] == m0.dist[i][j]
  {
    var i, j := vs[a], vs[b];
    DistinctIndexOf(vs, a);
    DistinctIndexOf(vs, b);
    assert !Done(vs, i, j, a, b);
    assert !Better(m0, k, i, k) && !Better(m0, k, k, j);
    assert PartialCell(vs, m0, cur, k, a, b, i, k) && PartialCell(vs, m0, cur, k, a, b, k, j);
    assert PartialCell(vs, m0, cur, k, a, b, i, j);
    if Done(vs, i, k, a, b) {
      assert cur.dist[i][k] == RefDist(m0, k, i, k) && cur.next[i][k] == RefNext(m0, k, i, k);
    } else {
      assert cur.dist[i][k] == m0.dist[i][k] && cur.next[i][k] == m0.next[i][k];
    }
    if Done(vs, k, j, a, b) {
      assert cur.dist[k][j] == RefDist(m0, k, k, j);
    } else {
      assert cur.dist[k][j] == m0.dist[k][j];
    }
  }

  lemma PartialStep(vs: seq<string>, m0: Mat, cur: Mat, k: string, a: nat, b: nat)
    requires Square(vs, m0) && Square(vs, cur) && k in vs && Distinct(vs) && a < |vs| && b < |vs|
    requires Partial(vs, m0, cur, k, a, b) && m0.dist[k][k] >= 0
    ensures Partial(vs, m0, Step(vs, cur, k, vs[a], vs[b]), k, a, b + 1)
  {
    var i, j := vs[a], vs[b];
    PartialReads(vs, m0, cur, k, a, b);
    var r := Step(vs, cur, k, i, j);
    DistinctIndexOf(vs, a);
    DistinctIndexOf(vs, b);
    assert r.dist[i][j] == RefDist(m0, k, i, j) && r.next[i][j] == RefNext(m0, k, i, j);
    forall x, y | x in vs && y in vs
      ensures PartialCell(vs, m0, r, k, a, b + 1, x, y)
    {
      if x != i || y != j {
        PartialOther(vs, m0, cur, k, a, b, x, y);
      }
    }
  }

  /** A cell other than the one the step writes keeps its state. */
  lemma PartialOther(vs: seq<string>, m0: Mat, cur: Mat, k: string, a: nat, b: nat, x: string, y: string)
    requires Square(vs, m0) && Square(vs, cur) && k in vs && Distinct(vs) && a < |vs| && b < |vs|
    requires x in vs && y in vs && (x != vs[a] || y != vs[b])
    requires PartialCell(vs, m0, cur, k, a, b, x, y)
    requires IndexOf(vs, vs[a]) == a && IndexOf(vs, vs[b]) == b
    ensures PartialCell(vs, m0, Step(vs, cur, k, vs[a], vs[b]), k, a, b + 1, x, y)
  {
    StepOther(vs, cur, k, vs[a], vs[b], x, y);
    assert Done(vs, x, y, a, b + 1) == Done(vs, x, y, a, b);
  }

  /** A step changes only its own entry. */
  lemma StepOther(vs: seq<string>, m: Mat, k: string, i: string, j: string, x: string, y: string)
    requires Square(vs, m) && k in vs && i in vs && j in vs && x in vs && y in vs && (x != i || y != j)
    ensures Step(vs, m, k, i, j).dist[x][y] == m.dist[x][y] && Step(vs, m, k, i, j).next[x][y] == m.next[x][y]
  {
  }

  lemma {:induction false} ColsPartial(vs: seq<string>, m0: Mat, cur: Mat, k: string, a: nat, b: nat)
    requires Square(vs, m0) && Square(vs, cur) && k in vs && Distinct(vs) && a < |vs| && b <= |vs|
    requires Partial(vs, m0, cur, k, a, 0) && m0.dist[k][k] >= 0
    ensures Partial(vs, m0, Cols(vs, cur, k, vs[a], vs[..b]), k, a, b)
  {
    if b == 0 {
      assert vs[..b] == [];
    } else {
      ColsPartial(vs, m0, cur, k, a, b - 1);
      ColsStep(vs, m0, cur, k, a, b);
    }
  }

  /** One more column of row `a` extends the pairs done by one. */
  lemma ColsStep(vs: seq<string>, m0: Mat, cur: Mat, k: string, a: nat, b: nat)
    requires Square(vs, m0) && Square(vs, cur) && k in vs && Distinct(vs) && a < |vs| && 0 < b <= |vs|
    requires Partial(vs, m0, Cols(vs, cur, k, vs[a], vs[..b - 1]), k, a, b - 1) && m0.dist[k][k] >= 0
    ensures Partial(vs, m0, Cols(vs, cur, k, vs[a], vs[..b]), k, a, b)
  {
    PartialStep(vs, m0, Cols(vs, cur, k, vs[a], vs[..b - 1]), k, a, b - 1);
    ColsSnoc(vs, cur, k, a, b);
  }

  /** The `j` loop over the first `b` names is the loop over the first
      `b - 1` names followed by one more step. */
  lemma ColsSnoc(vs: seq<string>, cur: Mat, k: string, a: nat, b: nat)
    requires Square(vs, cur) && k in vs && a < |vs| && 0 < b <= |vs|
    ensures Cols(vs, cur, k, vs[a], vs[..b]) == Step(vs, Cols(vs, cur, k, vs[a], vs[..b - 1]), k, vs[a], vs[b - 1])
  {
    PrefixOfPrefix(vs, b);
    assert vs[..b][b - 1] == vs[b - 1];
  }

  lemma RowEnd(vs: seq<string>, m0: Mat, cur: Mat, k: string, a: nat)
    requires Square(vs, m0) && Square(vs, cur) && k in vs && Distinct(vs) && a < |vs|
    requires Partial(vs, m0, cur, k, a, |vs|)
    ensures Partial(vs, m0, cur, k, a + 1, 0)
  {
    forall x, y | x in vs && y in vs
      ensures PartialCell(vs, m0, cur, k, a + 1, 0, x, y)
    {
      assert PartialCell(vs, m0, cur, k, a, |vs|, x, y);
      assert Done(vs, x, y, a + 1, 0) == Done(vs, x, y, a, |vs|);
    }
  }

  lemma PartialBase(vs: seq<string>, m0: Mat, k: string)
    requires Square(vs, m0) && k in vs
    ensures Partial(vs, m0, m0, k, 0, 0)
  {
    forall x, y | x in vs && y in vs
      ensures PartialCell(vs, m0, m0, k, 0, 0, x, y)
    {
      assert !Done(vs, x, y, 0, 0);
    }
  }

  lemma {:induction false} RowsPartial(vs: seq<string>, m0: Mat, k: string, a: nat)
    requires Square(vs, m0) && k in vs && Distinct(vs) && a <= |vs| && m0.dist[k][k] >= 0
    ensures Partial(vs, m0, Rows(vs, m0, k, vs[..a]), k, a, 0)
  {
    if a == 0 {
      assert vs[..a] == [];
      PartialBase(vs, m0, k);
    } else {
      RowsPartial(vs, m0, k, a - 1);
      PrefixOfPrefix(vs, a);
      var prior := Rows(vs, m0, k, vs[..a - 1]);
      ColsPartial(vs, m0, prior, k, a - 1, |vs|);
      FullPrefix(vs);
      var after := Cols(vs, prior, k, vs[a - 1], vs);
      assert Rows(vs, m0, k, vs[..a]) == after by {
        assert vs[..a][a - 1] == vs[a - 1];
      }
      RowEnd(vs, m0, after, k, a - 1);
    }
  }

  /** The in-place round through `k` equals the round computed from the
      matrices before it. */
  lemma RoundExact(vs: seq<string>, m: Mat, k: string)
    requires Square(vs, m) && k in vs && Distinct(vs) && m.dist[k][k] >= 0
    ensures forall i, j :: i in vs && j in vs ==>
              Rows(vs, m, k, vs).dist[i][j] == RefDist(m, k, i, j) && Rows(vs, m, k, vs).next[i][j] == RefNext(m, k, i, j)
  {
    RowsPartial(vs, m, k, |vs|);
    FullPrefix(vs);
    var r := Rows(vs, m, k, vs);
    forall i, j | i in vs && j in vs
      ensures r.dist[i][j] == RefDist(m, k, i, j) && r.next[i][j] == RefNext(m, k, i, j)
    {
      assert PartialCell(vs, m, r, k, |vs|, 0, i, j);
      assert Done(vs, i, j, |vs|, 0);
    }
  }

  // ---------------------------------------------------------------------
  // Optimality: after the rounds through `ks`, no entry exceeds the weight
  // of a walk whose inner vertices are all in `ks`.

  /** Every vertex the walk passes through, its ends aside, is in `ks`. */
  predicate Inner(es: seq<Edge>, ks: seq<string>) {
    forall t :: 0 <= t < |es| - 1 ==> es[t].target in ks
  }

  /** Every stretch of the walk weighs less than `MaxValue`, the value
      that stands for "no path". */
  predicate Bounded(es: seq<Edge>) {
    forall x, y :: 0 <= x <= y <= |es| ==> TotalWeight(es[x..y]) < MaxValue
  }

  ghost predicate Below(edges: seq<Edge>, vs: seq<string>, m: Mat, ks: seq<string>)
    requires Square(vs, m)
  {
    forall i, j, es: seq<Edge> :: i in vs && j in vs && Chained(edges, es, i, j) && Inner(es, ks) && Bounded(es)
      ==> m.dist[i][j] <= TotalWeight(es)
  }

  lemma BoundedSlice(es: seq<Edge>, x: nat, y: nat)
    requires Bounded(es) && x <= y <= |es|
    ensures Bounded(es[x..y])
  {
    forall x', y' | 0 <= x' <= y' <= y - x
      ensures TotalWeight(es[x..y][x'..y']) < MaxValue
    {
      SliceOfSlice(es, x, y, x', y');
    }
  }

  lemma SliceOfSlice(es: seq<Edge>, x: nat, y: nat, x': nat, y': nat)
    requires x <= y <= |es| && x' <= y' <= y - x
    ensures es[x..y][x'..y'] == es[x + x'..x + y']
  {
    var a, b := es[x..y][x'..y'], es[x + x'..x + y'];
    assert |a| == |b|;
    forall k | 0 <= k < |a|
      ensures a[k] == b[k]
    {
      assert a[k] == es[x + x' + k];
    }
  }

  /** Before any round, entries are bounded by walks of at most one edge. */
  lemma BelowBase(g: Graph, blank: Mat)
    requires Blank(g.vertices, blank) && EndpointsIn(g)
    ensures Below(g.edges, g.vertices, LighterAll(g.vertices, blank, g.edges), [])
  {
    var vs := g.vertices;
    var m := LighterAll(vs, blank, g.edges);
    forall i, j, es: seq<Edge> | i in vs && j in vs && Chained(g.edges, es, i, j) && Inner(es, []) && Bounded(es)
      ensures m.dist[i][j] <= TotalWeight(es)
    {
      BaseWalk(g.edges, es, i, j);
      LighterLeast(vs, blank, g.edges, i, j);
    }
  }

  /** A walk with no inner vertex is empty or a single edge. */
  lemma BaseWalk(edges: seq<Edge>, es: seq<Edge>, i: string, j: string)
    requires Chained(edges, es, i, j) && Inner(es, [])
    ensures |es| <= 1
    ensures es == [] ==> i == j && TotalWeight(es) == 0
    ensures |es| == 1 ==> es[0] in edges && es[0].source == i && es[0].target == j && TotalWeight(es) == es[0].weight
  {
  }

  /** The first and the last visit of `k` inside a walk whose inner
      vertices are in `ks + [k]`: before the first and after the last, the
      inner vertices are in `ks`. */
  lemma Visits(es: seq<Edge>, ks: seq<string>, k: string, t0: nat) returns (p: nat, q: nat)
    requires Inner(es, ks + [k]) && t0 < |es| - 1 && es[t0].target == k
    ensures p <= q < |es| - 1 && es[p].target == k && es[q].target == k
    ensures Inner(es[..p + 1], ks) && Inner(es[q + 1..], ks)
  {
    p := 0;
    while es[p].target != k
      invariant p <= t0 && forall u :: 0 <= u < p ==> es[u].target != k
      decreases t0 - p
    {
      p := p + 1;
    }
    q := |es| - 2;
    while es[q].target != k
      invariant t0 <= q < |es| - 1 && forall u :: q < u < |es| - 1 ==> es[u].target != k
      decreases q - t0
    {
      q := q - 1;
    }
    var w1, w3 := es[..p + 1], es[q + 1..];
    forall u | 0 <= u < |w1| - 1
      ensures w1[u].target in ks
    {
      assert w1[u] == es[u] && es[u].target in ks + [k];
    }
    forall u | 0 <= u < |w3| - 1
      ensures w3[u].target in ks
    {
      assert w3[u] == es[q + 1 + u] && es[q + 1 + u].target in ks + [k];
    }
  }

  /** A walk cut at two of its stops is three walks whose weights add up. */
  lemma SplitThree(edges: seq<Edge>, es: seq<Edge>, i: string, j: string, p: nat, q: nat)
    requires Chained(edges, es, i, j) && p <= q < |es| - 1
    ensures Chained(edges, es[..p + 1], i, es[p].target)
    ensures Chained(edges, es[p + 1..q + 1], es[p].target, es[q].target)
    ensures Chained(edges, es[q + 1..], es[q].target, j)
    ensures TotalWeight(es) == TotalWeight(es[..p + 1]) + TotalWeight(es[p + 1..q + 1]) + TotalWeight(es[q + 1..])
  {
    ChainedPrefix(edges, es, i, j, p + 1);
    ChainedMiddle(edges, es, i, j, p + 1, q + 1);
    ChainedSuffix(edges, es, i, j, q + 1);
    WeightThree(es, p + 1, q + 1);
  }

  /** The weight of a walk cut in three is the sum of the parts' weights. */
  lemma WeightThree(es: seq<Edge>, x: nat, y: nat)
    requires x <= y <= |es|
    ensures TotalWeight(es) == TotalWeight(es[..x]) + TotalWeight(es[x..y]) + TotalWeight(es[y..])
  {
    assert es == es[..x] + es[x..y] + es[y..];
    TotalWeightAppend(es[..x] + es[x..y], es[y..]);
    TotalWeightAppend(es[..x], es[x..y]);
  }

  lemma BoundedParts(es: seq<Edge>, p: nat, q: nat)
    requires Bounded(es) && p <= q < |es| - 1
    ensures Bounded(es[..p + 1]) && Bounded(es[q + 1..])
    ensures TotalWeight(es[..p + 1]) < MaxValue && TotalWeight(es[q + 1..]) < MaxValue
  {
    BoundedSlice(es, 0, p + 1);
    BoundedSlice(es, q + 1, |es|);
    assert es[..p + 1] == es[0..p + 1] && es[q + 1..] == es[q + 1..|es|];
    assert es[..p + 1][0..p + 1] == es[..p + 1];
    assert es[q + 1..][0..|es| - q - 1] == es[q + 1..];
  }

  /** A walk that passes through `k` weighs at least the walk up to the
      first visit plus the walk from the last one. */
  lemma ThroughK(g: Graph, pot: map<string, int>, m: Mat, ks: seq<string>, k: string, i: string, j: string, es: seq<Edge>, t0: nat)
    requires Square(g.vertices, m) && k in g.vertices && i in g.vertices && j in g.vertices && Feasible(g, pot)
    requires Below(g.edges, g.vertices, m, ks)
    requires Chained(g.edges, es, i, j) && Inner(es, ks + [k]) && Bounded(es)
    requires t0 < |es| - 1 && es[t0].target == k
    ensures m.dist[i][k] < MaxValue && m.dist[k][j] < MaxValue && m.dist[i][k] + m.dist[k][j] <= TotalWeight(es)
  {
    var p, q := Visits(es, ks, k, t0);
    SplitThree(g.edges, es, i, j, p, q);
    BoundedParts(es, p, q);
    var w1, w2, w3 := es[..p + 1], es[p + 1..q + 1], es[q + 1..];
    assert m.dist[i][k] <= TotalWeight(w1);
    assert m.dist[k][j] <= TotalWeight(w3);
    CycleNonNegative(g, pot, w2, k);
  }

  /** The round through `k` extends the bound to walks through `k`. */
  lemma RoundBelow(g: Graph, pot: map<string, int>, m: Mat, ks: seq<string>, k: string)
    requires Square(g.vertices, m) && k in g.vertices && Distinct(g.vertices) && Feasible(g, pot)
    requires m.dist[k][k] >= 0 && Below(g.edges, g.vertices, m, ks)
    ensures Below(g.edges, g.vertices, Rows(g.vertices, m, k, g.vertices), ks + [k])
  {
    var vs := g.vertices;
    var r := Rows(vs, m, k, vs);
    RoundExact(vs, m, k);
    forall i, j, es: seq<Edge> | i in vs && j in vs && Chained(g.edges, es, i, j) && Inner(es, ks + [k]) && Bounded(es)
      ensures r.dist[i][j] <= TotalWeight(es)
    {
      assert r.dist[i][j] == RefDist(m, k, i, j);
      RefBelow(g, pot, m, ks, k, i, j, es);
    }
  }

  /** The reference entry of the round is bounded by every walk whose inner
      vertices are in `ks + [k]`: through `k` or around it. */
  lemma RefBelow(g: Graph, pot: map<string, int>, m: Mat, ks: seq<string>, k: string, i: string, j: string, es: seq<Edge>)
    requires Square(g.vertices, m) && k in g.vertices && i in g.vertices && j in g.vertices && Feasible(g, pot)
    requires Below(g.edges, g.vertices, m, ks)
    requires Chained(g.edges, es, i, j) && Inner(es, ks + [k]) && Bounded(es)
    ensures RefDist(m, k, i, j) <= TotalWeight(es)
  {
    if t0 :| 0 <= t0 < |es| - 1 && es[t0].target == k {
      ThroughK(g, pot, m, ks, k, i, j, es, t0);
    } else {
      assert Inner(es, ks);
    }
  }

  /** Sound entries on the diagonal are never negative. */
  lemma DiagNonNegative(g: Graph, pot: map<string, int>, m: Mat, k: string)
    requires Square(g.vertices, m) && k in g.vertices && Feasible(g, pot) && Sound(g.edges, g.vertices, m)
    ensures m.dist[k][k] >= 0
  {
    assert SoundCell(g.edges, m, k, k);
    if m.next[k][k].Some? {
      var es: seq<Edge> :| Chained(g.edges, es, k, k) && TotalWeight(es) == m.dist[k][k];
      CycleNonNegative(g, pot, es, k);
    }
  }

  lemma RoundsSnoc(vs: seq<string>, m: Mat, t: nat)
    requires Square(vs, m) && 0 < t <= |vs|
    ensures Rounds(vs, m, vs[..t]) == Rows(vs, Rounds(vs, m, vs[..t - 1]), vs[t - 1], vs)
    ensures vs[..t - 1] + [vs[t - 1]] == vs[..t]
  {
    PrefixOfPrefix(vs, t);
    assert vs[..t][t - 1] == vs[t - 1];
  }

  lemma {:induction false} RoundsBelow(g: Graph, pot: map<string, int>, m: Mat, t: nat)
    requires Square(g.vertices, m) && Distinct(g.vertices) && Feasible(g, pot) && t <= |g.vertices|
    requires Sound(g.edges, g.vertices, m) && Below(g.edges, g.vertices, m, [])
    ensures Below(g.edges, g.vertices, Rounds(g.vertices, m, g.vertices[..t]), g.vertices[..t])
  {
    var vs := g.vertices;
    if t == 0 {
      assert vs[..t] == [];
    } else {
      RoundsBelow(g, pot, m, t - 1);
      RoundsBelowStep(g, pot, m, t);
    }
  }

  /** Round `t` keeps the bound, one more vertex allowed inside. */
  lemma RoundsBelowStep(g: Graph, pot: map<string, int>, m: Mat, t: nat)
    requires Square(g.vertices, m) && Distinct(g.vertices) && Feasible(g, pot) && 0 < t <= |g.vertices|
    requires Sound(g.edges, g.vertices, m)
    requires Below(g.edges, g.vertices, Rounds(g.vertices, m, g.vertices[..t - 1]), g.vertices[..t - 1])
    ensures Below(g.edges, g.vertices, Rounds(g.vertices, m, g.vertices[..t]), g.vertices[..t])
  {
    var vs := g.vertices;
    var prior := Rounds(vs, m, vs[..t - 1]);
    RoundsSound(g.edges, vs, m, vs[..t - 1]);
    DiagNonNegative(g, pot, prior, vs[t - 1]);
    RoundBelow(g, pot, prior, vs[..t - 1], vs[t - 1]);
    RoundsSnoc(vs, m, t);
  }

  /** With no negative cycle, every final distance is the weight of a walk
      whose first hop is the recorded next vertex, and no bounded walk
      between the same vertices weighs less. */
  lemma FloydOptimal(g: Graph, pot: map<string, int>, blank: Mat)
    requires Distinct(g.vertices) && EndpointsIn(g) && Feasible(g, pot) && Blank(g.vertices, blank)
    ensures var m := Rounds(g.vertices, LighterAll(g.vertices, blank, g.edges), g.vertices);
            Sound(g.edges, g.vertices, m)
            && forall i, j, es: seq<Edge> :: i in g.vertices && j in g.vertices && Chained(g.edges, es, i, j) && Bounded(es)
                 ==> m.dist[i][j] <= TotalWeight(es)
  {
    var vs := g.vertices;
    var m0 := LighterAll(vs, blank, g.edges);
    BlankSound(g.edges, vs, blank);
    LighterSound(g.edges, vs, blank, g.edges);
    RoundsSound(g.edges, vs, m0, vs);
    BelowBase(g, blank);
    RoundsBelow(g, pot, m0, |vs|);
    FullPrefix(vs);
    var m := Rounds(vs, m0, vs);
    forall i, j, es: seq<Edge> | i in vs && j in vs && Chained(g.edges, es, i, j) && Bounded(es)
      ensures m.dist[i][j] <= TotalWeight(es)
    {
      assert Inner(es, vs) by {
        forall t | 0 <= t < |es| - 1 ensures es[t].target in vs {
          assert es[t] in g.edges;
        }
      }
    }
  }
}
