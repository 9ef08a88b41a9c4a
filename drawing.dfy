/** The System.Drawing value types the tag-cloud code uses.  `PointF` holds
    `float` coordinates; every coordinate the layouter computes is an integer
    or a half-integer, so it is modelled with `real`. */
module Drawing {

  datatype Point = Point(x: int, y: int)

  datatype PointF = PointF(x: real, y: real)

  datatype Size = Size(width: int, height: int)

  /** `Rectangle(x, y, width, height)`.  The tag-cloud code reads (x, y) as the
      rectangle's centre. */
  datatype Rectangle = Rectangle(x: int, y: int, width: int, height: int)

  /** `new Rectangle(Point, Size)`. */
  function RectangleAt(location: Point, size: Size): Rectangle
  {
    Rectangle(location.x, location.y, size.width, size.height)
  }

  /** The implicit conversion from `Point` to `PointF`. */
  function ToPointF(p: Point): PointF
  {
    PointF(p.x as real, p.y as real)
  }
}
