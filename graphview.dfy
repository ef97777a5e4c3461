/** The integer and string decisions of the graph view: whether a link has
    a reverse, whether it is drawn curved and on which side, and the colour
    each link and weight label takes from the highlight map. */
module GraphView {
  import opened Common
  import App

  /** A link once the force layout has resolved its ends to nodes: the two
      node ids and the weight. */
  datatype DrawnLink = DrawnLink(source: string, target: string, weight: int)

  /** `links.some(l => l.source.id === d.target.id && l.target.id === d.source.id)`. */
  predicate HasReverse(links: seq<DrawnLink>, d: DrawnLink) {
    exists l :: l in links && l.source == d.target && l.target == d.source
  }

  /** A link's reverse has a reverse: the link itself. */
  lemma ReverseOfReverse(links: seq<DrawnLink>, d: DrawnLink, r: DrawnLink)
    requires d in links && r in links && r.source == d.target && r.target == d.source
    ensures HasReverse(links, d) && HasReverse(links, r)
  {
  }

  /** `s.charCodeAt(0)`: the first UTF-16 code unit (the high surrogate for
      a character beyond the basic plane), `None` for NaN on "". */
  function FirstCodeUnit(s: string): (u: Option<int>)
    ensures u.None? <==> s == []
    ensures u.Some? ==> 0 <= u.value < 0x1_0000
    ensures u.Some? && (s[0] as int) < 0x1_0000 ==> u.value == s[0] as int
  {
    if s == [] then None
    else
      var c := s[0] as int;
      if c < 0x1_0000 then Some(c) else Some(0xD800 + (c - 0x1_0000) / 0x400)
  }

  /** `sumCharCodes % 2 === 0 ? 1 : -1`: NaN (an empty id) is not even. */
  function Side(source: string, target: string): (f: int)
    ensures f == 1 || f == -1
    ensures f == 1 <==> source != [] && target != []
                         && (FirstCodeUnit(source).value + FirstCodeUnit(target).value) % 2 == 0
  {
    match (FirstCodeUnit(source), FirstCodeUnit(target))
    case (Some(a), Some(b)) => if (a + b) % 2 == 0 then 1 else -1
    case _ => -1
  }

  /** Swapping the ends leaves the factor unchanged, so the two links of a
      reciprocal pair take the same factor; their normals point opposite
      ways, so the two curves bend apart. */
  lemma SideSymmetric(source: string, target: string)
    ensures Side(source, target) == Side(target, source)
  {
  }

  /** How a link is drawn: a straight segment, or a quadratic curve whose
      control point is pushed along the normal times `side`. */
  datatype Shape = Straight | Curve(side: int)

  /** `hasReverse && directed`: the path of a link in this view. */
  function ShapeOf(links: seq<DrawnLink>, d: DrawnLink, directed: bool): (s: Shape)
    ensures s.Curve? <==> directed && HasReverse(links, d)
    ensures s.Curve? ==> s.side == Side(d.source, d.target)
  {
    if HasReverse(links, d) && directed then Curve(Side(d.source, d.target)) else Straight
  }

  /** In undirected mode every link is a straight segment. */
  lemma UndirectedStraight(links: seq<DrawnLink>, d: DrawnLink)
    ensures ShapeOf(links, d, false) == Straight
  {
  }

  /** In directed mode both links of a reciprocal pair curve, with the same
      factor. */
  lemma ReciprocalCurves(links: seq<DrawnLink>, d: DrawnLink, r: DrawnLink)
    requires d in links && r in links && r.source == d.target && r.target == d.source
    ensures ShapeOf(links, d, true).Curve? && ShapeOf(links, r, true).Curve?
    ensures ShapeOf(links, d, true).side == ShapeOf(links, r, true).side
  {
    ReverseOfReverse(links, d, r);
    SideSymmetric(d.source, d.target);
  }

  // ---------------------------------------------------------------------
  // Colours

  const LinkGrey: string := "#8b9bb4"
  const LabelGrey: string := "#cbd5e1"
  const DeepRed: string := "#b31212"

  /** `highlightEdges?.[key]` as a truthy value: absent map, absent key and
      "" all give `None`. */
  function Lookup(highlight: Option<map<string, string>>, key: string): (c: Option<string>)
    ensures c.Some? <==> highlight.Some? && key in highlight.value && highlight.value[key] != ""
    ensures c.Some? ==> c.value == highlight.value[key]
  {
    if highlight.Some? && key in highlight.value && highlight.value[key] != "" then Some(highlight.value[key])
    else None
  }

  /** `a || b` on two lookups. */
  function Either(a: Option<string>, b: Option<string>): Option<string> {
    if a.Some? then a else b
  }

  function OrDefault(c: Option<string>, default: string): string {
    if c.Some? then c.value else default
  }

  /** The colour read under either orientation of the link. */
  function EitherKey(highlight: Option<map<string, string>>, s: string, t: string): (c: Option<string>)
    ensures c.Some? <==> Lookup(highlight, App.EdgeKey(s, t)).Some? || Lookup(highlight, App.EdgeKey(t, s)).Some?
    ensures Lookup(highlight, App.EdgeKey(s, t)).Some? ==> c == Lookup(highlight, App.EdgeKey(s, t))
  {
    Either(Lookup(highlight, App.EdgeKey(s, t)), Lookup(highlight, App.EdgeKey(t, s)))
  }

  /** The stroke set when the highlight map changes. */
  function Stroke(highlight: Option<map<string, string>>, s: string, t: string): (c: string)
    ensures EitherKey(highlight, s, t).None? ==> c == LinkGrey
    ensures EitherKey(highlight, s, t).Some? ==> c == EitherKey(highlight, s, t).value
  {
    OrDefault(EitherKey(highlight, s, t), LinkGrey)
  }

  /** The weight label's fill when the labels are created: a highlight red
      is deepened. */
  function InitialLabelFill(highlight: Option<map<string, string>>, s: string, t: string): (c: string)
    ensures EitherKey(highlight, s, t) == Some(App.Red) ==> c == DeepRed
    ensures EitherKey(highlight, s, t).None? ==> c == LabelGrey
    ensures EitherKey(highlight, s, t).Some? && EitherKey(highlight, s, t) != Some(App.Red) ==>
              c == EitherKey(highlight, s, t).value
  {
    var color := EitherKey(highlight, s, t);
    if color == Some(App.Red) then DeepRed else OrDefault(color, LabelGrey)
  }

  /** The weight label's fill on every tick and on a highlight change: no
      deepening. */
  function LabelFill(highlight: Option<map<string, string>>, s: string, t: string): (c: string)
    ensures EitherKey(highlight, s, t).None? ==> c == LabelGrey
    ensures EitherKey(highlight, s, t).Some? ==> c == EitherKey(highlight, s, t).value
  {
    OrDefault(EitherKey(highlight, s, t), LabelGrey)
  }

  /** With no disagreement between the two keys of an edge, the colours do
      not depend on the link's orientation. */
  lemma OrientationFree(highlight: Option<map<string, string>>, s: string, t: string)
    requires Lookup(highlight, App.EdgeKey(s, t)).Some? && Lookup(highlight, App.EdgeKey(t, s)).Some? ==>
               Lookup(highlight, App.EdgeKey(s, t)) == Lookup(highlight, App.EdgeKey(t, s))
    ensures Stroke(highlight, s, t) == Stroke(highlight, t, s)
    ensures LabelFill(highlight, s, t) == LabelFill(highlight, t, s)
    ensures InitialLabelFill(highlight, s, t) == InitialLabelFill(highlight, t, s)
  {
  }

  /** Once steps 0..k of the highlight sequence have fired, each of those
      edges is drawn red, in either orientation, with a red label once
      ticking. */
  lemma HighlightedRed(rows: seq<App.Row>, k: nat, i: nat)
    requires i < k <= |rows|
    ensures var h := Some(App.Painted(rows[..k]));
            Stroke(h, rows[i].source, rows[i].target) == App.Red
            && Stroke(h, rows[i].target, rows[i].source) == App.Red
            && LabelFill(h, rows[i].source, rows[i].target) == App.Red
            && InitialLabelFill(h, rows[i].source, rows[i].target) == DeepRed
  {
    App.HighlightAfter(rows, k, i);
    App.PaintedKeys(rows[..k]);
  }
}
