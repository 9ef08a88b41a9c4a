/** TagsCloudVisualization/Extensions.cs: the `Quarter` enum and its own copy of
    `PointExtensions.Shift`. */
module Extensions {
  import opened Drawing

  /** The four quarters of the plane, as the enum names them. */
  datatype Quarter = I | II | III | IV

  /** The enum has exactly four distinct values. */
  lemma QuarterHasFourValues(q: Quarter)
    ensures q in {I, II, III, IV}
    ensures |{I, II, III, IV}| == 4
  {
    assert {I, II, III, IV} == {I} + {II} + {III} + {IV};
  }

  /** `Shift`: the point moved by (dx, dy); C# `int` overflow is not modelled. */
  function Shift(p: Point, dx: int, dy: int): Point
  {
    Point(p.x + dx, p.y + dy)
  }

  /** Shifting by nothing leaves the point alone, two shifts add up, and a shift
      is undone by the opposite one. */
  lemma ShiftAlgebra(p: Point, a: int, b: int, c: int, d: int)
    ensures Shift(p, 0, 0) == p
    ensures Shift(Shift(p, a, b), c, d) == Shift(p, a + c, b + d)
    ensures Shift(Shift(p, a, b), -a, -b) == p
  {
  }
}
