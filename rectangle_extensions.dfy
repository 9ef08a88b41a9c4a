/** `RectangleExtensions.GetVertexes` of TagsCloudVisualization/CircularCloudLayouter.cs:
    the four corners of a rectangle whose (x, y) is its centre, listed from a
    chosen starting corner. */
module RectangleExtensions {
  import opened Drawing

  /** The corners in the order the source lists them before rotation, with y
      growing upwards: lower-left, upper-left, upper-right, lower-right. */
  function Corners(rect: Rectangle): (r: seq<PointF>)
    ensures |r| == 4
  {
    var halfWidth := rect.width as real / 2.0;
    var halfHeight := rect.height as real / 2.0;
    [ PointF(rect.x as real - halfWidth, rect.y as real - halfHeight),
      PointF(rect.x as real - halfWidth, rect.y as real + halfHeight),
      PointF(rect.x as real + halfWidth, rect.y as real + halfHeight),
      PointF(rect.x as real + halfWidth, rect.y as real - halfHeight) ]
  }

  /** The four corners read from position `shift` onwards, wrapping around. */
  function Rotate<T>(xs: seq<T>, shift: nat): (r: seq<T>)
    requires |xs| == 4
    ensures |r| == 4
  {
    seq(4, i requires 0 <= i < 4 => xs[(i + shift) % 4])
  }

  /** `GetVertexes`: fills a fresh array of four corners, the i-th being corner
      `(i + shift) % 4` of the list above. */
  method GetVertexes(rect: Rectangle, shift: nat) returns (result: array<PointF>)
    ensures fresh(result)
    ensures result[..] == Rotate(Corners(rect), shift)
  {
    var vertexes := Corners(rect);
    result := new PointF[4](_ => PointF(0.0, 0.0));
    for i := 0 to 4
      invariant forall j :: 0 <= j < i ==> result[j] == vertexes[(j + shift) % 4]
    {
      result[i] := vertexes[(i + shift) % 4];
    }
  }

  /** Shift 0 lists the corners in their own order. */
  lemma RotateZero<T>(xs: seq<T>)
    requires |xs| == 4
    ensures Rotate(xs, 0) == xs
  {
  }

  /** Adding to a remainder modulo 4 is adding before taking it. */
  lemma ModFourShift(x: nat, a: nat)
    ensures (x % 4 + a) % 4 == (x + a) % 4
  {
    var q := x / 4;
    assert x == 4 * q + x % 4;
    assert x % 4 + a == (x + a) - 4 * q;
  }

  /** Only the shift modulo 4 matters: a shift of 4 or more, which `GetVertexes`
      accepts although its callers pass 0 to 3, lists the corners as its
      remainder does. */
  lemma RotateReduce<T>(xs: seq<T>, shift: nat)
    requires |xs| == 4
    ensures Rotate(xs, shift) == Rotate(xs, shift % 4)
  {
    forall i | 0 <= i < 4
      ensures Rotate(xs, shift)[i] == Rotate(xs, shift % 4)[i]
    {
      ModFourShift(shift, i);
    }
  }

  /** A rotation is the list cut at `shift % 4` with its two halves swapped, so
      it lists every corner exactly once. */
  lemma RotateIsPermutation<T>(xs: seq<T>, shift: nat)
    requires |xs| == 4
    ensures Rotate(xs, shift) == xs[shift % 4..] + xs[..shift % 4]
    ensures multiset(Rotate(xs, shift)) == multiset(xs)
  {
    var k := shift % 4;
    assert Rotate(xs, shift) == xs[k..] + xs[..k];
    assert xs == xs[..k] + xs[k..];
  }

  /** The corners lie half a width and half a height from the centre: they span
      exactly `width` by `height` and their average is the centre. */
  lemma CornersAroundCentre(rect: Rectangle)
    ensures var c := Corners(rect);
            && c[2].x - c[0].x == rect.width as real
            && c[1].y - c[0].y == rect.height as real
            && c[0].x == c[1].x && c[2].x == c[3].x
            && c[0].y == c[3].y && c[1].y == c[2].y
            && (c[0].x + c[2].x) / 2.0 == rect.x as real
            && (c[0].y + c[1].y) / 2.0 == rect.y as real
  {
  }

  /** The unit test's rectangle centred at (1, 1) with sides 2 has corners
      (0, 0), (0, 2), (2, 2), (2, 0), listed from corner `shift % 4`. */
  lemma GetVertexesExample(shift: nat)
    ensures Corners(Rectangle(1, 1, 2, 2)) ==
              [PointF(0.0, 0.0), PointF(0.0, 2.0), PointF(2.0, 2.0), PointF(2.0, 0.0)]
    ensures forall i :: 0 <= i < 4 ==>
              Rotate(Corners(Rectangle(1, 1, 2, 2)), shift)[i] ==
                [PointF(0.0, 0.0), PointF(0.0, 2.0), PointF(2.0, 2.0), PointF(2.0, 0.0)][(i + shift) % 4]
  {
  }
}
