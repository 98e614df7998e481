/** The geometry primitives of the engine: point-to-point distance and the
    centroid (coordinate-wise mean) of a collection of points.

    Distances are modelled SQUARED: the square root the code applies is
    monotone, so on exact reals it never changes which center is nearer (see
    `RootsPreserveOrder`), and leaving it out keeps the model on exact reals.
    In floating point, rounding the root can turn two different squared
    distances into a tie, which goes to cluster 0; that is not modelled. */
module Utility {
  import opened Points

  /** The squared Euclidean distance between `p` and the reference point `q`. */
  function SquaredDistance(p: Point, q: Point): (r: real)
    ensures r >= 0.0
    ensures r == 0.0 <==> p == q
  {
    var dx, dy := p.x - q.x, p.y - q.y;
    SquaresNonNegative(dx, dy);
    dx * dx + dy * dy
  }

  /** A sum of two squares is non-negative and is zero only when both terms are. */
  lemma SquaresNonNegative(a: real, b: real)
    ensures a * a + b * b >= 0.0
    ensures a * a + b * b == 0.0 <==> a == 0.0 && b == 0.0
  {
    SquareSign(a);
    SquareSign(b);
    if a * a + b * b == 0.0 {
      ZeroProduct(a, a);
      ZeroProduct(b, b);
    }
  }

  lemma SquareSign(a: real)
    ensures a * a >= 0.0
    ensures a != 0.0 ==> a * a > 0.0
  {
    if a < 0.0 {
      var m := -a;
      assert m * m > 0.0;
      assert a * a == m * m;
    }
  }

  lemma ZeroProduct(a: real, b: real)
    requires a * b == 0.0
    ensures a == 0.0 || b == 0.0
  {
  }

  /** Swapping the point and the reference point leaves the distance unchanged. */
  lemma DistanceSymmetric(p: Point, q: Point)
    ensures SquaredDistance(p, q) == SquaredDistance(q, p)
  {
    assert (p.x - q.x) * (p.x - q.x) == (q.x - p.x) * (q.x - p.x);
    assert (p.y - q.y) * (p.y - q.y) == (q.y - p.y) * (q.y - p.y);
  }

  /** Comparing the non-negative square roots `s`, `t` of two squared distances
      gives the same answer as comparing the squared distances themselves, so the
      nearer center is the same whether or not the root is taken. */
  lemma RootsPreserveOrder(a: real, b: real, s: real, t: real)
    requires s >= 0.0 && t >= 0.0 && s * s == a && t * t == b
    ensures s < t <==> a < b
    ensures s == t <==> a == b
  {
    if s < t {
      calc {
        a;
        s * s;
      <= { MulMonotone(s, t, s); }
        t * s;
      < { MulStrict(s, t, t); }
        t * t;
        b;
      }
    } else if t < s {
      calc {
        b;
        t * t;
      <= { MulMonotone(t, s, t); }
        s * t;
      < { MulStrict(t, s, s); }
        s * s;
        a;
      }
    } else {
      assert a == b;
    }
  }

  /** The sum over `ps` of coordinate `d`. */
  function Sum(ps: seq<Point>, d: Dim): real
  {
    if |ps| == 0 then 0.0 else ps[0].Coord(d) + Sum(ps[1..], d)
  }

  /** The centroid of a non-empty collection: each coordinate is the mean of
      that coordinate over the inputs, i.e. `points.mean(0)`. */
  function Centroid(ps: seq<Point>): (c: Point)
    requires |ps| >= 1
    ensures c.Coord(0) * (|ps| as real) == Sum(ps, 0)
    ensures c.Coord(1) * (|ps| as real) == Sum(ps, 1)
  {
    var n := |ps| as real;
    var c := Point(Sum(ps, 0) / n, Sum(ps, 1) / n);
    DivTimes(Sum(ps, 0), n);
    DivTimes(Sum(ps, 1), n);
    c
  }

  lemma DivTimes(s: real, n: real)
    requires n > 0.0
    ensures (s / n) * n == s
  {
  }

  lemma {:induction false} SumAppend(a: seq<Point>, b: seq<Point>, d: Dim)
    ensures Sum(a + b, d) == Sum(a, d) + Sum(b, d)
  {
    if a == [] {
      assert a + b == b;
    } else {
      assert (a + b)[1..] == a[1..] + b;
      SumAppend(a[1..], b, d);
    }
  }

  /** Taking out the point at index `j` takes its coordinate out of the sum. */
  lemma SumRemove(b: seq<Point>, j: nat, d: Dim)
    requires j < |b|
    ensures Sum(b, d) == b[j].Coord(d) + Sum(b[..j] + b[j + 1..], d)
  {
    assert b == (b[..j] + [b[j]]) + b[j + 1..];
    SumAppend(b[..j] + [b[j]], b[j + 1..], d);
    SumAppend(b[..j], [b[j]], d);
    SumAppend(b[..j], b[j + 1..], d);
    assert Sum([b[j]], d) == b[j].Coord(d);
  }

  /** Taking out the point at index `j` takes one copy of it out of the multiset. */
  lemma MultisetRemove(b: seq<Point>, j: nat)
    requires j < |b|
    ensures multiset(b[..j] + b[j + 1..]) == multiset(b) - multiset{b[j]}
  {
    assert b == (b[..j] + [b[j]]) + b[j + 1..];
  }

  /** The sum of a coordinate does not depend on the order of the points. */
  lemma {:induction false} SumPermutation(a: seq<Point>, b: seq<Point>, d: Dim)
    requires multiset(a) == multiset(b)
    ensures Sum(a, d) == Sum(b, d)
    decreases |a|
  {
    if |a| == 0 {
      assert |b| == |multiset(b)| == 0;
    } else {
      assert a[0] in multiset(b);
      var j :| 0 <= j < |b| && b[j] == a[0];
      var aRest, bRest := a[1..], b[..j] + b[j + 1..];
      MultisetRemove(b, j);
      assert a == [a[0]] + aRest;
      assert multiset(aRest) == multiset(a) - multiset{a[0]};
      assert multiset(aRest) == multiset(bRest);
      SumPermutation(aRest, bRest, d);
      SumRemove(b, j, d);
    }
  }

  /** Reordering the inputs does not change the centroid. */
  lemma CentroidPermutation(a: seq<Point>, b: seq<Point>)
    requires |a| >= 1 && multiset(a) == multiset(b)
    ensures |b| == |a| && Centroid(a) == Centroid(b)
  {
    assert |a| == |multiset(a)| == |multiset(b)| == |b|;
    SumPermutation(a, b, 0);
    SumPermutation(a, b, 1);
  }

  /** The coordinate sum of `n` copies of `p` is `n` times `p`'s coordinate. */
  lemma {:induction false} SumOfCopies(p: Point, n: nat, d: Dim)
    ensures Sum(seq(n, _ => p), d) == (n as real) * p.Coord(d)
  {
    if n > 0 {
      var s := seq(n, _ => p);
      assert s[0] == p;
      assert s[1..] == seq(n - 1, _ => p);
      SumOfCopies(p, n - 1, d);
      assert Sum(s, d) == p.Coord(d) + ((n - 1) as real) * p.Coord(d);
    }
  }

  /** The centroid of `n` copies of one point is that point. */
  lemma CentroidOfCopies(p: Point, n: nat)
    requires n >= 1
    ensures Centroid(seq(n, _ => p)) == p
  {
    var c := Centroid(seq(n, _ => p));
    forall d: Dim ensures c.Coord(d) == p.Coord(d) {
      SumOfCopies(p, n, d);
      assert c.Coord(d) * (n as real) == p.Coord(d) * (n as real);
    }
    PointExtensionality(c, p);
  }

  /** If every input lies in `[lo, hi]` in coordinate `d`, the sum lies in `[n * lo, n * hi]`. */
  lemma {:induction false} SumBounds(ps: seq<Point>, d: Dim, lo: real, hi: real)
    requires forall i :: 0 <= i < |ps| ==> lo <= ps[i].Coord(d) <= hi
    ensures (|ps| as real) * lo <= Sum(ps, d) <= (|ps| as real) * hi
  {
    if |ps| > 0 {
      SumBounds(ps[1..], d, lo, hi);
      assert (|ps| as real) * lo == lo + (|ps[1..]| as real) * lo;
      assert (|ps| as real) * hi == hi + (|ps[1..]| as real) * hi;
    }
  }

  /** If every input lies in `[lo, hi]` in coordinate `d`, so does the centroid. */
  lemma CentroidWithinBounds(ps: seq<Point>, d: Dim, lo: real, hi: real)
    requires |ps| >= 1
    requires forall i :: 0 <= i < |ps| ==> lo <= ps[i].Coord(d) <= hi
    ensures lo <= Centroid(ps).Coord(d) <= hi
  {
    var n := |ps| as real;
    var c := Centroid(ps).Coord(d);
    var s := Sum(ps, d);
    SumBounds(ps, d, lo, hi);
    assert n * lo <= s <= n * hi;
    assert c * n == s;
    if c < lo {
      MulStrict(c, lo, n);
    } else if c > hi {
      MulStrict(hi, c, n);
    }
  }

  lemma MulMonotone(a: real, b: real, n: real)
    requires a <= b && n >= 0.0
    ensures a * n <= b * n
  {
    assert b * n - a * n == (b - a) * n;
  }

  lemma MulStrict(a: real, b: real, n: real)
    requires a < b && n > 0.0
    ensures a * n < b * n
  {
    assert b * n - a * n == (b - a) * n;
  }
}
