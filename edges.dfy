/** The bounding box `CircularCloudLayouter` keeps in its `edges` dictionary
    (TagsCloudVisualization/CircularCloudLayouter.cs): the extreme coordinates
    of every hull point so far, under the keys "maxX", "minX", "maxY" and "minY". */
module Edges {
  import opened Drawing
  import opened RectangleExtensions

  /** The dictionary's four string keys. */
  datatype Bound = MaxX | MinX | MaxY | MinY

  /** The four bounds `edges` keeps. */
  predicate HasEdges(edges: map<Bound, real>)
  {
    MaxX in edges && MinX in edges && MaxY in edges && MinY in edges
  }

  /** `p` lies in the box the bounds describe. */
  predicate Inside(edges: map<Bound, real>, p: PointF)
    requires HasEdges(edges)
  {
    edges[MinX] <= p.x <= edges[MaxX] && edges[MinY] <= p.y <= edges[MaxY]
  }

  /** `InitEdges`: all four bounds at the centre, a box holding the centre alone. */
  function InitEdges(center: Point): (r: map<Bound, real>)
    ensures HasEdges(r)
    ensures forall p :: Inside(r, p) <==> p == ToPointF(center)
  {
    map[MaxX := center.x as real, MinX := center.x as real,
        MaxY := center.y as real, MinY := center.y as real]
  }

  function Max(a: real, b: real): real
  {
    if a < b then b else a
  }

  function Min(a: real, b: real): real
  {
    if a < b then a else b
  }

  /** The bounds after `RefreshEdges(p)`: the smallest box holding the old box and `p`. */
  function Widen(edges: map<Bound, real>, p: PointF): (r: map<Bound, real>)
    requires HasEdges(edges)
    ensures HasEdges(r) && r.Keys == edges.Keys
    ensures Inside(r, p)
    ensures forall q :: Inside(edges, q) ==> Inside(r, q)
  {
    edges[MaxX := Max(edges[MaxX], p.x)][MinX := Min(edges[MinX], p.x)]
         [MaxY := Max(edges[MaxY], p.y)][MinY := Min(edges[MinY], p.y)]
  }

  /** `Widen` gives the smallest such box: any box holding the old box and the
      point holds the widened one. */
  lemma WidenSmallest(edges: map<Bound, real>, p: PointF, e: map<Bound, real>)
    requires HasEdges(edges) && HasEdges(e)
    requires edges[MinX] <= edges[MaxX] && edges[MinY] <= edges[MaxY]
    requires Inside(e, p) && forall q :: Inside(edges, q) ==> Inside(e, q)
    ensures forall q :: Inside(Widen(edges, p), q) ==> Inside(e, q)
  {
    assert Inside(edges, PointF(edges[MinX], edges[MinY]));
    assert Inside(edges, PointF(edges[MaxX], edges[MaxY]));
  }

  /** Refreshing with a point already inside the box changes nothing; in
      particular refreshing twice with the same point is refreshing once. */
  lemma WidenInsideUnchanged(edges: map<Bound, real>, p: PointF)
    requires HasEdges(edges)
    ensures Inside(edges, p) ==> Widen(edges, p) == edges
    ensures Widen(Widen(edges, p), p) == Widen(edges, p)
  {
  }

  /** The order of two refreshes does not matter. */
  lemma WidenCommutes(edges: map<Bound, real>, p: PointF, q: PointF)
    requires HasEdges(edges)
    ensures Widen(Widen(edges, p), q) == Widen(Widen(edges, q), p)
  {
  }

  /** The bounds after refreshing with each of `points` in turn. */
  function Envelope(edges: map<Bound, real>, points: seq<PointF>): (r: map<Bound, real>)
    requires HasEdges(edges)
    ensures HasEdges(r) && r.Keys == edges.Keys
    ensures forall i :: 0 <= i < |points| ==> Inside(r, points[i])
    ensures forall q :: Inside(edges, q) ==> Inside(r, q)
    decreases |points|
  {
    if |points| == 0 then edges
    else Widen(Envelope(edges, points[..|points| - 1]), points[|points| - 1])
  }

  /** `CheckEdgeValue`: `point` lies on one of the four lines the bounds describe. */
  function CheckEdgeValue(edges: map<Bound, real>, point: PointF): (r: bool)
    requires HasEdges(edges)
    ensures r ==> !(edges[MinX] < point.x < edges[MaxX] && edges[MinY] < point.y < edges[MaxY])
  {
    point.x == edges[MaxX] || point.x == edges[MinX] || point.y == edges[MaxY] || point.y == edges[MinY]
  }

  /** A point that widened the box lies on its edge afterwards, and so does every
      point on the edge of a box that widening leaves alone. */
  lemma WidenedPointOnEdge(edges: map<Bound, real>, p: PointF)
    requires HasEdges(edges)
    ensures !Inside(edges, p) ==> CheckEdgeValue(Widen(edges, p), p)
    ensures Inside(edges, p) ==> (CheckEdgeValue(Widen(edges, p), p) <==> CheckEdgeValue(edges, p))
  {
  }

  /** The bounds once the first rectangle is placed: the centre plus and minus half
      the width and half the height. */
  lemma FirstPlacementEdges(center: Point, size: Size)
    requires size.width >= 0 && size.height >= 0
    ensures var r := Envelope(InitEdges(center), Corners(RectangleAt(center, size)));
            && r[MaxX] == center.x as real + size.width as real / 2.0
            && r[MinX] == center.x as real - size.width as real / 2.0
            && r[MaxY] == center.y as real + size.height as real / 2.0
            && r[MinY] == center.y as real - size.height as real / 2.0
  {
    var corners := Corners(RectangleAt(center, size));
    var e0 := InitEdges(center);
    assert Envelope(e0, corners[..0]) == e0;
    var e1 := Widen(e0, corners[0]);
    assert corners[..1][..0] == corners[..0];
    assert Envelope(e0, corners[..1]) == e1;
    var e2 := Widen(e1, corners[1]);
    assert corners[..2][..1] == corners[..1];
    assert Envelope(e0, corners[..2]) == e2;
    var e3 := Widen(e2, corners[2]);
    assert corners[..3][..2] == corners[..2];
    assert Envelope(e0, corners[..3]) == e3;
    var e4 := Widen(e3, corners[3]);
    assert corners[..4][..3] == corners[..3];
    assert corners[..4] == corners;
    assert Envelope(e0, corners) == e4;
  }

  /** The unit test: a 4 x 4 first rectangle at the origin leaves the bounds at
      plus and minus 2. */
  lemma FirstPlacementExamples()
    ensures var r := Envelope(InitEdges(Point(0, 0)), Corners(RectangleAt(Point(0, 0), Size(4, 4))));
            r[MaxX] == 2.0 && r[MinX] == -2.0 && r[MaxY] == 2.0 && r[MinY] == -2.0
  {
    FirstPlacementEdges(Point(0, 0), Size(4, 4));
  }
}
