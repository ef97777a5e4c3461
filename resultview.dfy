/** The Bellman-Ford result panel: reading a table cell `"(d, p)"` back and
    rebuilding the shortest paths of the last row by following the
    predecessors. */
module ResultView {
  import opened Common
  import opened Text
  import opened LinkedMap
  import BellmanFord
  import GraphModel

  /** A cell read back: the distance (`null` when infinite or not a number)
      and the predecessor (`null` for "*" or "null"). */
  datatype Cell = Cell(dist: Option<int>, pred: Option<string>)

  predicate NoLineTerminator(s: string) {
    forall i :: 0 <= i < |s| ==> !IsLineTerminator(s[i])
  }

  /** `\s*(.*?)` on the text before the closing ")": the greedy `\s*` skips
      the leading white space, and the rest is the second group when it
      spans no line terminator. */
  function Group(r: string): Option<string>
    decreases |r|
  {
    if r != [] && IsJsSpace(r[0]) then Group(r[1..])
    else if NoLineTerminator(r) then Some(r) else None
  }

  /** The second group is the text with its leading white space trimmed,
      and it exists exactly when that holds no line terminator. */
  lemma {:induction false} GroupTrims(r: string)
    ensures Group(r).Some? <==> NoLineTerminator(TrimStart(r))
    ensures Group(r).Some? ==> Group(r).value == TrimStart(r) && NoLineTerminator(Group(r).value)
    decreases |r|
  {
    if r != [] && IsJsSpace(r[0]) {
      GroupTrims(r[1..]);
    }
  }

  /** The part of `/^\((.*?),\s*(.*?)\)$/` after the comma: the text must end
      with ")", and the second group is read from what comes before it. */
  function Tail(r: string): Option<string> {
    if r != [] && r[|r| - 1] == ')' then Group(r[..|r| - 1]) else None
  }

  /** The lazy first group: the position of the first comma from `i` on
      after which the rest matches; `.` stops at a line terminator. */
  function CommaAt(s: string, i: nat): (k: Option<nat>)
    requires i <= |s|
    ensures k.Some? ==> i <= k.value < |s| && s[k.value] == ','
    decreases |s| - i
  {
    if i == |s| || IsLineTerminator(s[i]) then None
    else if s[i] == ',' && Tail(s[i + 1..]).Some? then Some(i)
    else CommaAt(s, i + 1)
  }

  /** The rest after the comma found matches. */
  lemma {:induction false} CommaAtTail(s: string, i: nat)
    requires i <= |s|
    ensures CommaAt(s, i).Some? ==> Tail(s[CommaAt(s, i).value + 1..]).Some?
    decreases |s| - i
  {
    if i < |s| && !IsLineTerminator(s[i]) && !(s[i] == ',' && Tail(s[i + 1..]).Some?) {
      CommaAtTail(s, i + 1);
    }
  }

  /** `val.match(/^\((.*?),\s*(.*?)\)$/)`: the two groups, if it matches. */
  function Match(val: string): (m: Option<(string, string)>)
    ensures m.Some? ==> val != [] && val[0] == '(' && val[|val| - 1] == ')'
    ensures m.Some? ==> NoLineTerminator(m.value.1)
  {
    if val != [] && val[0] == '(' then
      var s := val[1..];
      match CommaAt(s, 0)
      case None => None
      case Some(k) =>
        CommaAtTail(s, 0);
        GroupTrims(s[k + 1..][..|s[k + 1..]| - 1]);
        assert s[k + 1..][|s[k + 1..]| - 1] == val[|val| - 1];
        Some((s[..k], Tail(s[k + 1..]).value))
    else None
  }

  /** When the text after the first comma matches, the first group stops at
      that comma.  (Otherwise the lazy group moves on to a later comma:
      "(a,b, \nc)" gives the groups "a,b" and "c".) */
  lemma FirstComma(val: string, k: nat)
    requires 0 < k < |val| && val[0] == '(' && val[k] == ','
    requires forall m :: 0 < m < k ==> val[m] != ',' && !IsLineTerminator(val[m])
    requires Tail(val[k + 1..]).Some?
    ensures Match(val) == Some((val[1..k], Tail(val[k + 1..]).value))
  {
    var s := val[1..];
    assert s[k - 1 + 1..] == val[k + 1..];
    assert s[..k - 1] == val[1..k];
    assert CommaAt(s, 0) == Some(k - 1) by {
      CommaSkip(s, 0, k - 1);
    }
  }

  /** Scanning skips a stretch without commas or line terminators. */
  lemma {:induction false} CommaSkip(s: string, i: nat, j: nat)
    requires i <= j <= |s|
    requires forall m :: i <= m < j ==> s[m] != ',' && !IsLineTerminator(s[m])
    ensures CommaAt(s, i) == CommaAt(s, j)
    decreases j - i
  {
    if i < j {
      CommaSkip(s, i + 1, j);
    }
  }

  /** `parseCell(val)`. */
  function ParseCell(val: Option<string>): (c: Cell)
    ensures val.None? || val == Some("") ==> c == Cell(None, None)
    ensures c.pred.Some? ==> c.pred.value != "*" && c.pred.value != "null"
    ensures c.pred.Some? || c.dist.Some? ==> val.Some? && Match(val.value).Some?
  {
    if val.None? || val.value == "" then Cell(None, None)
    else
      match Match(val.value)
      case None => Cell(None, None)
      case Some(groups) =>
        var d := Trim(groups.0);
        var p := Trim(groups.1);
        Cell(if d == "∞" || d == "Infinity" then None else ParseNumber(d),
             if p == "*" || p == "null" then None else Some(p))
  }

  /** A name as a cell may show it: read back as itself. */
  predicate PlainName(n: string) {
    NoLineTerminator(n) && (n == [] || (!IsJsSpace(n[0]) && !IsJsSpace(n[|n| - 1])))
    && n != "*" && n != "null"
  }

  /** After the comma of a back-end cell: one space, the predecessor text
      and ")". */
  lemma TailOfCell(pt: string)
    requires NoLineTerminator(pt) && (pt == [] || !IsJsSpace(pt[0]))
    ensures Tail(" " + pt + ")") == Some(pt)
  {
    var r := " " + pt + ")";
    var body := r[..|r| - 1];
    assert body == " " + pt;
    assert body[1..] == pt;
    assert Group(body) == Group(pt);
  }

  /** The text of a back-end cell matches with the distance text and the
      predecessor text as its groups. */
  lemma MatchCell(dt: string, pt: string)
    requires forall m :: 0 <= m < |dt| ==> dt[m] != ',' && !IsLineTerminator(dt[m])
    requires NoLineTerminator(pt) && (pt == [] || !IsJsSpace(pt[0]))
    ensures Match("(" + dt + ", " + pt + ")") == Some((dt, pt))
  {
    var val := "(" + dt + ", " + pt + ")";
    var s := val[1..];
    assert s == dt + ", " + pt + ")";
    CellComma(dt, pt, s);
    CellGroups(dt, pt, s);
    MatchAt(val, |dt|);
  }

  /** The text before and after the comma of a back-end cell. */
  lemma CellGroups(dt: string, pt: string, s: string)
    requires NoLineTerminator(pt) && (pt == [] || !IsJsSpace(pt[0]))
    requires s == dt + ", " + pt + ")"
    ensures s[..|dt|] == dt && Tail(s[|dt| + 1..]) == Some(pt)
  {
    assert s[|dt| + 1..] == " " + pt + ")";
    TailOfCell(pt);
  }

  /** The groups around the comma the scan finds. */
  lemma MatchAt(val: string, k: nat)
    requires val != [] && val[0] == '(' && CommaAt(val[1..], 0) == Some(k)
    requires Tail(val[1..][k + 1..]).Some?
    ensures Match(val) == Some((val[1..][..k], Tail(val[1..][k + 1..]).value))
  {
  }

  /** The comma of a back-end cell is the first one. */
  lemma CellComma(dt: string, pt: string, s: string)
    requires forall m :: 0 <= m < |dt| ==> dt[m] != ',' && !IsLineTerminator(dt[m])
    requires NoLineTerminator(pt) && (pt == [] || !IsJsSpace(pt[0]))
    requires s == dt + ", " + pt + ")"
    ensures CommaAt(s, 0) == Some(|dt|)
  {
    assert s[|dt| + 1..] == " " + pt + ")";
    TailOfCell(pt);
    CommaSkip(s, 0, |dt|);
  }

  /** A matching text whose groups carry no surrounding white space: the
      groups are read as they stand. */
  lemma ParseGroups(val: string, dt: string, pt: string)
    requires Match(val) == Some((dt, pt))
    requires dt == [] || (!IsJsSpace(dt[0]) && !IsJsSpace(dt[|dt| - 1]))
    requires pt == [] || (!IsJsSpace(pt[0]) && !IsJsSpace(pt[|pt| - 1]))
    ensures ParseCell(Some(val))
            == Cell(if dt == "∞" || dt == "Infinity" then None else ParseNumber(dt),
                    if pt == "*" || pt == "null" then None else Some(pt))
  {
    TrimUnchanged(dt);
    TrimUnchanged(pt);
  }

  /** Round trip with the back end's cells: `parseCell` recovers the
      distance (`null` for the sentinel) and the predecessor. */
  lemma ParseCellOfCell(d: int, p: Option<string>)
    requires p.Some? ==> PlainName(p.value)
    ensures ParseCell(Some(BellmanFord.Cell(d, p)))
            == Cell(if d == GraphModel.MaxValue then None else Some(d), p)
  {
    var dt := BellmanFord.DistText(d);
    var pt := BellmanFord.PredText(p);
    if d == GraphModel.MaxValue {
      assert dt == "∞";
    } else {
      IntToStringUnspaced(d);
      ParseNumberIntToString(d);
      assert dt == IntToString(d);
      assert dt != "∞" && dt != "Infinity" by {
        assert dt[0] == '-' || '0' <= dt[0] <= '9';
      }
    }
    MatchCell(dt, pt);
    ParseGroups(BellmanFord.Cell(d, p), dt, pt);
  }

  // ---------------------------------------------------------------------
  // Shortest paths of the last row

  /** The path shown for a vertex: its cost (`null`: not reached) and its
      vertex sequence. */
  datatype Path = Path(to: string, cost: Option<int>, steps: seq<string>)

  /** The predecessor a cell of the row names. */
  function PredOf(states: Row, x: string): Option<string> {
    ParseCell(Get(states, x)).pred
  }

  /** The predecessor lookup of a row, as a function of the vertex. */
  function Preds(states: Row): string -> Option<string> {
    x => PredOf(states, x)
  }

  /** The loop test `curPred && curPred !== startName` (the guard apart). */
  predicate Continues(cur: Option<string>, start: string) {
    cur.Some? && cur.value != "" && cur.value != start
  }

  /** The backtracking loop from `cur` with `guard` steps used: the pushed
      vertices and the predecessor the loop stops at. */
  function Walk(pred: string -> Option<string>, start: string, cur: Option<string>, guard: nat)
    : (seq<string>, Option<string>)
    decreases 1000 - guard
  {
    if Continues(cur, start) && guard < 1000 then
      var w := Walk(pred, start, pred(cur.value), guard + 1);
      ([cur.value] + w.0, w.1)
    else ([], cur)
  }

  /** The vertex sequence before the reversal: `v`, the pushed
      predecessors, and the start if the chain reached it. */
  function Backwards(pred: string -> Option<string>, start: string, v: string): seq<string> {
    var w := Walk(pred, start, pred(v), 0);
    [v] + w.0 + (if w.1 == Some(start) then [start] else [])
  }

  /** The path to `v` given its distance, as the `map` callback computes it. */
  function PathWith(pred: string -> Option<string>, dist: Option<int>, start: string, v: string): Path {
    if v == start then Path(v, Some(0), [start])
    else if dist.None? then Path(v, None, [])
    else Path(v, dist, Reverse(Backwards(pred, start, v)))
  }

  function PathOf(states: Row, start: string, v: string): Path {
    PathWith(Preds(states), ParseCell(Get(states, v)).dist, start, v)
  }

  /** The backtracking loop: push predecessors until the start, a missing
      predecessor or the 1000-step guard, then push the start if reached and
      reverse. */
  method Rebuild(states: Row, start: string, v: string) returns (p: Path)
    ensures p == PathOf(states, start, v)
  {
    var c := ParseCell(Get(states, v));
    if v == start {
      return Path(v, Some(0), [start]);
    }
    if c.dist.None? {
      return Path(v, None, []);
    }
    var s := Backtrack(Preds(states), start, v);
    return Path(v, c.dist, Reverse(s));
  }

  /** The `while` loop and the final push of the start. */
  method Backtrack(pred: string -> Option<string>, start: string, v: string) returns (s: seq<string>)
    ensures s == Backwards(pred, start, v)
  {
    ghost var whole := Walk(pred, start, pred(v), 0);
    s := [v];
    var cur := pred(v);
    var guard := 0;
    while cur.Some? && cur.value != "" && cur.value != start && guard < 1000
      invariant guard <= 1000
      invariant s + Walk(pred, start, cur, guard).0 == [v] + whole.0
      invariant Walk(pred, start, cur, guard).1 == whole.1
      decreases 1000 - guard
    {
      ghost var rest := Walk(pred, start, pred(cur.value), guard + 1);
      assert Walk(pred, start, cur, guard) == ([cur.value] + rest.0, rest.1);
      assert s + ([cur.value] + rest.0) == (s + [cur.value]) + rest.0;
      s := s + [cur.value];
      cur := pred(cur.value);
      guard := guard + 1;
    }
    assert Walk(pred, start, cur, guard) == ([], cur);
    if cur == Some(start) {
      s := s + [start];
    }
  }

  /** What the backtracking walk guarantees: at most `1000 - guard` pushes,
      the first one is `cur`, each pushed vertex's predecessor is the next
      one pushed (or the stopping value), and the start is never pushed. */
  lemma {:induction false} WalkChain(pred: string -> Option<string>, start: string, cur: Option<string>, guard: nat)
    requires guard <= 1000
    ensures var w := Walk(pred, start, cur, guard);
            |w.0| <= 1000 - guard
            && (w.0 == [] ==> w.1 == cur)
            && (w.0 != [] ==> cur.Some? && w.0[0] == cur.value && pred(w.0[|w.0| - 1]) == w.1)
            && (forall i :: 0 <= i < |w.0| - 1 ==> pred(w.0[i]) == Some(w.0[i + 1]))
            && start !in w.0
    decreases 1000 - guard
  {
    if Continues(cur, start) && guard < 1000 {
      var rest := Walk(pred, start, pred(cur.value), guard + 1);
      WalkChain(pred, start, pred(cur.value), guard + 1);
      var w := Walk(pred, start, cur, guard);
      assert w.0 == [cur.value] + rest.0;
      forall i | 0 <= i < |w.0| - 1
        ensures pred(w.0[i]) == Some(w.0[i + 1])
      {
        if i > 0 {
          assert w.0[i] == rest.0[i - 1] && w.0[i + 1] == rest.0[i];
        }
      }
    }
  }

  /** Before the reversal: `v` first, each vertex followed by its
      predecessor, at most 1002 vertices, and the start present exactly
      when the chain reached it, then as the last vertex. */
  lemma BackwardsChain(pred: string -> Option<string>, start: string, v: string)
    requires v != start
    ensures var u := Backwards(pred, start, v);
            u[0] == v && |u| <= 1002
            && (forall i :: 0 <= i < |u| - 1 ==> pred(u[i]) == Some(u[i + 1]))
            && (start in u <==> Walk(pred, start, pred(v), 0).1 == Some(start))
            && (start in u ==> u[|u| - 1] == start)
  {
    var w := Walk(pred, start, pred(v), 0);
    WalkChain(pred, start, pred(v), 0);
    var u := Backwards(pred, start, v);
    forall i | 0 <= i < |u| - 1
      ensures pred(u[i]) == Some(u[i + 1])
    {
      if i == 0 {
        assert u[0] == v;
      } else if i <= |w.0| - 1 {
        assert u[i] == w.0[i - 1] && u[i + 1] == w.0[i];
      } else {
        assert u[i] == w.0[|w.0| - 1];
      }
    }
  }

  /** Reversal turns "followed by its predecessor" into "preceded by it". */
  lemma ReverseChain(pred: string -> Option<string>, u: seq<string>, x: string)
    requires forall i :: 0 <= i < |u| - 1 ==> pred(u[i]) == Some(u[i + 1])
    ensures var r := Reverse(u);
            (forall i :: 0 <= i < |r| - 1 ==> pred(r[i + 1]) == Some(r[i]))
            && (x in r <==> x in u)
  {
    var r := Reverse(u);
    var n := |u|;
    forall i | 0 <= i < n - 1
      ensures pred(r[i + 1]) == Some(r[i])
    {
      assert r[i + 1] == u[n - 2 - i] && r[i] == u[n - 1 - i];
    }
    if x in u {
      var k :| 0 <= k < n && u[k] == x;
      assert r[n - 1 - k] == x;
    }
  }

  /** A reached vertex's path ends at it and follows the predecessors
      from one vertex to the next; it starts at the start exactly when the
      chain reached it; it holds at most 1002 vertices. */
  lemma PathShape(pred: string -> Option<string>, dist: Option<int>, start: string, v: string)
    requires v != start
    ensures var p := PathWith(pred, dist, start, v);
            p.to == v && p.cost == dist
            && (p.cost.None? ==> p.steps == [])
            && (p.cost.Some? ==>
                  p.steps != [] && p.steps[|p.steps| - 1] == v && |p.steps| <= 1002
                  && (forall i :: 0 <= i < |p.steps| - 1 ==> pred(p.steps[i + 1]) == Some(p.steps[i]))
                  && (start in p.steps <==> Walk(pred, start, pred(v), 0).1 == Some(start))
                  && (start in p.steps ==> p.steps[0] == start))
  {
    if dist.Some? {
      BackwardsChain(pred, start, v);
      ReverseChain(pred, Backwards(pred, start, v), start);
    }
  }

  /** The start of the table: the first row's `choiceName`, else the first
      vertex of that row. */
  function StartName(table: seq<BellmanFord.Line>): (s: Option<string>)
    requires table != []
    ensures s.None? ==> Keys(table[0].states) == []
    ensures table[0].choiceName.Some? ==> s == table[0].choiceName
  {
    if table[0].choiceName.Some? then table[0].choiceName
    else if table[0].states != [] then Some(table[0].states[0].key)
    else None
  }

  /** The paths of the vertices `vs` other than the start, in order. */
  function PathsFrom(vs: seq<string>, states: Row, start: string): seq<Path> {
    if vs == [] then []
    else
      var v := vs[|vs| - 1];
      PathsFrom(vs[..|vs| - 1], states, start) + (if v == start then [] else [PathOf(states, start, v)])
  }

  /** `paths`: computed from the last row only, for the vertices of the
      first row. */
  function PathsOf(table: seq<BellmanFord.Line>): seq<Path>
    requires table != []
  {
    match StartName(table)
    case None => []
    case Some(start) => PathsFrom(Keys(table[0].states), table[|table| - 1].states, start)
  }

  /** The `map` and `filter` over the first row's vertices. */
  method ShortestPaths(table: seq<BellmanFord.Line>) returns (paths: seq<Path>)
    requires table != []
    ensures paths == PathsOf(table)
  {
    var start := StartName(table);
    if start.None? {
      return [];
    }
    var vertices := Keys(table[0].states);
    var last := table[|table| - 1].states;
    paths := [];
    var i := 0;
    while i < |vertices|
      invariant 0 <= i <= |vertices|
      invariant paths == PathsFrom(vertices[..i], last, start.value)
    {
      assert vertices[..i + 1][..i] == vertices[..i];
      var p := Rebuild(last, start.value, vertices[i]);
      if p.to != start.value {
        paths := paths + [p];
      }
      i := i + 1;
    }
    assert vertices[..i] == vertices;
  }

  /** Each vertex other than the start gets exactly its path, and the
      start gets none. */
  lemma {:induction false} PathsCover(vs: seq<string>, states: Row, start: string)
    ensures forall p :: p in PathsFrom(vs, states, start) ==>
              p.to != start && p.to in vs && p == PathOf(states, start, p.to)
    ensures forall v :: v in vs && v != start ==> PathOf(states, start, v) in PathsFrom(vs, states, start)
    ensures Distinct(vs) ==> |PathsFrom(vs, states, start)| == |vs| - (if start in vs then 1 else 0)
  {
    if vs != [] {
      var init := vs[..|vs| - 1];
      var v := vs[|vs| - 1];
      assert vs == init + [v];
      PathsCover(init, states, start);
      if Distinct(vs) {
        assert Distinct(init);
        assert v !in init;
      }
    }
  }

  /** A last row with the start `a` at distance 0 and `b` reached from it
      at distance `d`: the path to `b` costs `d` and goes `a` → `b`. */
  lemma TwoVertexPath(a: string, b: string, d: int)
    requires a != b && PlainName(a) && d != GraphModel.MaxValue
    ensures PathOf([Entry(a, BellmanFord.Cell(0, None)), Entry(b, BellmanFord.Cell(d, Some(a)))], a, b)
            == Path(b, Some(d), [a, b])
  {
    var states := [Entry(a, BellmanFord.Cell(0, None)), Entry(b, BellmanFord.Cell(d, Some(a)))];
    assert Get(states, b) == Some(BellmanFord.Cell(d, Some(a)));
    ParseCellOfCell(d, Some(a));
    var pred := Preds(states);
    assert pred(b) == Some(a);
    assert Walk(pred, a, Some(a), 0) == ([], Some(a));
    assert Backwards(pred, a, b) == [b, a];
  }
}
