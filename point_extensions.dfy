/** TagsCloudVisualization/PointExtensions.cs: `Shift` and `GetQuarter`, the
    quarter of the plane around a centre that a point falls in. */
module PointExtensions {
  import opened Drawing
  import Extensions

  /** The values `GetQuarter` returns.  They are not members of the `Quarter`
      enum of Extensions.cs, which names its values I to IV. */
  datatype Quarter = XandYPositive | OnlyXPositive | OnlyYPositive | XandYNonPositive

  /** `Shift`: the point moved by (dx, dy). */
  function Shift(p: Point, dx: int, dy: int): Point
  {
    Point(p.x + dx, p.y + dy)
  }

  /** This `Shift` and the one in Extensions.cs compute the same point. */
  lemma ShiftsAgree(p: Point, dx: int, dy: int)
    ensures Shift(p, dx, dy) == Extensions.Shift(p, dx, dy)
  {
  }

  /** `GetQuarter`: which side of the centre the point lies on along each axis,
      a coordinate equal to the centre's counting as not positive. */
  function GetQuarter(point: Point, center: Point): (r: Quarter)
    ensures r == XandYPositive <==> point.x > center.x && point.y > center.y
    ensures r == OnlyXPositive <==> point.x > center.x && point.y <= center.y
    ensures r == OnlyYPositive <==> point.x <= center.x && point.y > center.y
    ensures r == XandYNonPositive <==> point.x <= center.x && point.y <= center.y
  {
    if point.x > center.x then
      (if point.y > center.y then XandYPositive else OnlyXPositive)
    else
      (if point.y > center.y then OnlyYPositive else XandYNonPositive)
  }

  /** The quarter depends only on where the point lies relative to the centre:
      shifting both by the same amount, or moving the centre to the origin,
      changes nothing. */
  lemma GetQuarterShiftInvariant(point: Point, center: Point, dx: int, dy: int)
    ensures GetQuarter(Shift(point, dx, dy), Shift(center, dx, dy)) == GetQuarter(point, center)
    ensures GetQuarter(Shift(point, -center.x, -center.y), Point(0, 0)) == GetQuarter(point, center)
  {
  }

  /** The centre itself is in the non-positive quarter. */
  lemma CenterQuarter(center: Point)
    ensures GetQuarter(center, center) == XandYNonPositive
  {
  }
}
