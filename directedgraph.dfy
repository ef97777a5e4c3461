/** The directed graph view: the same reverse-link test and side factor as
    the graph view, but every link with a reverse is curved and colours are
    read under the link's own orientation only. */
module DirectedGraphView {
  import opened Common
  import opened GraphView
  import App

  /** `hasReverse`: a curve whenever a reverse link exists. */
  function DirectedShape(links: seq<DrawnLink>, d: DrawnLink): (s: Shape)
    ensures s.Curve? <==> HasReverse(links, d)
    ensures s.Curve? ==> s.side == Side(d.source, d.target)
  {
    if HasReverse(links, d) then Curve(Side(d.source, d.target)) else Straight
  }

  /** The directed view draws each link as the graph view does in directed
      mode. */
  lemma SameAsDirectedMode(links: seq<DrawnLink>, d: DrawnLink)
    ensures DirectedShape(links, d) == ShapeOf(links, d, true)
  {
  }

  /** The paths drawn: none for a missing or empty node list, else one per
      link in link order. */
  function DirectedShapes(nodes: seq<string>, links: seq<DrawnLink>): (shapes: seq<Shape>)
    ensures nodes == [] ==> shapes == []
    ensures nodes != [] ==> |shapes| == |links|
                            && forall i :: 0 <= i < |links| ==> shapes[i] == DirectedShape(links, links[i])
  {
    if nodes == [] then []
    else seq(|links|, i requires 0 <= i < |links| => DirectedShape(links, links[i]))
  }

  /** Both links of a reciprocal pair curve, with the same factor. */
  lemma ReciprocalCurve(links: seq<DrawnLink>, d: DrawnLink, r: DrawnLink)
    requires d in links && r in links && r.source == d.target && r.target == d.source
    ensures DirectedShape(links, d).Curve? && DirectedShape(links, r).Curve?
    ensures DirectedShape(links, d).side == DirectedShape(links, r).side
  {
    ReciprocalCurves(links, d, r);
  }

  /** The stroke on a highlight change: the oriented key only. */
  function OrientedStroke(highlight: Option<map<string, string>>, s: string, t: string): (c: string)
    ensures Lookup(highlight, App.EdgeKey(s, t)).None? ==> c == LinkGrey
    ensures Lookup(highlight, App.EdgeKey(s, t)).Some? ==> c == Lookup(highlight, App.EdgeKey(s, t)).value
  {
    OrDefault(Lookup(highlight, App.EdgeKey(s, t)), LinkGrey)
  }

  /** The label's fill when created: the oriented key, a highlight red
      deepened. */
  function OrientedInitialLabelFill(highlight: Option<map<string, string>>, s: string, t: string): (c: string)
    ensures Lookup(highlight, App.EdgeKey(s, t)) == Some(App.Red) ==> c == DeepRed
    ensures Lookup(highlight, App.EdgeKey(s, t)).None? ==> c == LabelGrey
    ensures Lookup(highlight, App.EdgeKey(s, t)).Some? && Lookup(highlight, App.EdgeKey(s, t)) != Some(App.Red) ==>
              c == Lookup(highlight, App.EdgeKey(s, t)).value
  {
    var color := Lookup(highlight, App.EdgeKey(s, t));
    if color == Some(App.Red) then DeepRed else OrDefault(color, LabelGrey)
  }

  /** The label's fill on every tick and on a highlight change. */
  function OrientedLabelFill(highlight: Option<map<string, string>>, s: string, t: string): (c: string)
    ensures Lookup(highlight, App.EdgeKey(s, t)).None? ==> c == LabelGrey
    ensures Lookup(highlight, App.EdgeKey(s, t)).Some? ==> c == Lookup(highlight, App.EdgeKey(s, t)).value
  {
    OrDefault(Lookup(highlight, App.EdgeKey(s, t)), LabelGrey)
  }

  /** A colour written under one orientation only is not seen on the link
      drawn the other way, where the graph view sees it. */
  lemma OneOrientationOnly(highlight: map<string, string>, s: string, t: string, color: string)
    requires s != t && '_' !in s && '_' !in t && color != "" && color != LinkGrey
    requires App.EdgeKey(s, t) !in highlight
    ensures OrientedStroke(Some(highlight[App.EdgeKey(t, s) := color]), s, t) == LinkGrey
    ensures Stroke(Some(highlight[App.EdgeKey(t, s) := color]), s, t) == color
  {
    EdgeKeyTurns(s, t);
  }

  /** The two orientations of an edge between distinct ends without "_"
      have distinct keys ("x_x" and "x" share the key "x_x_x"). */
  lemma EdgeKeyTurns(s: string, t: string)
    requires s != t && '_' !in s && '_' !in t
    ensures App.EdgeKey(s, t) != App.EdgeKey(t, s)
  {
    if App.EdgeKey(s, t) == App.EdgeKey(t, s) {
      JoinInjective(s, t, t, s);
    }
  }

  /** Since the highlight sequence writes both orientations, each fired
      edge is red in the directed view whichever way it is drawn. */
  lemma HighlightedRedOriented(rows: seq<App.Row>, k: nat, i: nat)
    requires i < k <= |rows|
    ensures var h := Some(App.Painted(rows[..k]));
            OrientedStroke(h, rows[i].source, rows[i].target) == App.Red
            && OrientedStroke(h, rows[i].target, rows[i].source) == App.Red
            && OrientedLabelFill(h, rows[i].target, rows[i].source) == App.Red
            && OrientedInitialLabelFill(h, rows[i].target, rows[i].source) == DeepRed
  {
    App.HighlightAfter(rows, k, i);
    App.PaintedKeys(rows[..k]);
  }
}
