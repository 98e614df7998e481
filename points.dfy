/** The immutable 2-D point value of the demo: two real coordinates and the
    two-element array form in which points enter and leave the grouping engine. */
module Points {

  /** A coordinate index: 0 is x, 1 is y. */
  type Dim = d: int | 0 <= d < 2

  /** A point; its fields never change once constructed (they are readonly). */
  datatype Point = Point(x: real, y: real) {

    /** The coordinate with index `d`. */
    function Coord(d: Dim): real {
      if d == 0 then x else y
    }

    /** The array form `[x, y]`. */
    function ToArray(): (r: seq<real>)
      ensures |r| == 2
      ensures forall d: Dim :: r[d] == Coord(d)
      ensures Point(r[0], r[1]) == this
    {
      [x, y]
    }
  }

  /** Builds a point from the first two entries of an array, as `new Point(a[0], a[1])` does. */
  function FromArray(a: seq<real>): (p: Point)
    requires |a| >= 2
    ensures p.x == a[0] && p.y == a[1]
    ensures |a| == 2 ==> p.ToArray() == a
  {
    Point(a[0], a[1])
  }

  /** Rebuilding a point from its array form gives the same point. */
  lemma FromArrayOfToArray(p: Point)
    ensures FromArray(p.ToArray()) == p
  {
  }

  /** Two points are equal exactly when all their coordinates are. */
  lemma PointExtensionality(p: Point, q: Point)
    ensures p == q <==> forall d: Dim :: p.Coord(d) == q.Coord(d)
  {
    if forall d: Dim :: p.Coord(d) == q.Coord(d) {
      assert p.Coord(0) == q.Coord(0) && p.Coord(1) == q.Coord(1);
    }
  }
}
