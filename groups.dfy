/** The record the grouping engine returns: one cluster index per input point
    and the two center points, with the two "is-default" predicates that tell
    the caller whether a cluster has too few members to be drawn. */
module Groups {
  import opened Points

  /** The number of entries of `a` equal to `v`: `a.filter(n => n === v).length`. */
  function Count(a: seq<int>, v: int): (n: nat)
    ensures n <= |a|
  {
    if |a| == 0 then 0 else (if a[0] == v then 1 else 0) + Count(a[1..], v)
  }

  /** Both fields are stored as given; the predicates only read them. */
  datatype GroupData = GroupData(assignments: seq<int>, centerPoints: seq<Point>) {

    /** Cluster 0 has fewer than two members: no two points are assigned to it. */
    predicate Group1IsDefault()
      ensures Group1IsDefault() <==> !TwoPositionsHold(assignments, 0)
    {
      CountAtLeastTwo(assignments, 0);
      Count(assignments, 0) < 2
    }

    /** Cluster 1 has fewer than two members: no two points are assigned to it. */
    predicate Group2IsDefault()
      ensures Group2IsDefault() <==> !TwoPositionsHold(assignments, 1)
    {
      CountAtLeastTwo(assignments, 1);
      Count(assignments, 1) < 2
    }
  }

  /** Whether some two distinct positions of `a` hold `v`. */
  ghost predicate TwoPositionsHold(a: seq<int>, v: int) {
    exists i, j :: 0 <= i < j < |a| && a[i] == v && a[j] == v
  }

  /** Some entry is `v` exactly when the count of `v` is positive. */
  lemma {:induction false} CountPositive(a: seq<int>, v: int)
    ensures Count(a, v) >= 1 <==> exists i :: 0 <= i < |a| && a[i] == v
  {
    if |a| > 0 {
      CountPositive(a[1..], v);
      if a[0] != v && exists i :: 0 <= i < |a| && a[i] == v {
        var i :| 0 <= i < |a| && a[i] == v;
        assert a[1..][i - 1] == v;
      }
      if exists i :: 0 <= i < |a[1..]| && a[1..][i] == v {
        var i :| 0 <= i < |a[1..]| && a[1..][i] == v;
        assert a[i + 1] == v;
      }
    }
  }

  /** The count of `v` is at least two exactly when two distinct positions hold `v`. */
  lemma {:induction false} CountAtLeastTwo(a: seq<int>, v: int)
    ensures Count(a, v) >= 2 <==> TwoPositionsHold(a, v)
  {
    if |a| > 0 {
      var t := a[1..];
      CountAtLeastTwo(t, v);
      CountPositive(t, v);
      if TwoPositionsHold(a, v) {
        var i, j :| 0 <= i < j < |a| && a[i] == v && a[j] == v;
        if i == 0 {
          assert t[j - 1] == v;
        } else {
          assert t[i - 1] == v && t[j - 1] == v;
        }
      }
      if Count(a, v) >= 2 {
        if a[0] == v {
          var j :| 0 <= j < |t| && t[j] == v;
          assert a[0] == v && a[j + 1] == v;
        } else {
          var i, j :| 0 <= i < j < |t| && t[i] == v && t[j] == v;
          assert a[i + 1] == v && a[j + 1] == v;
        }
      }
    }
  }

  /** Every entry is a cluster index, 0 or 1. */
  ghost predicate AllClusterIndices(a: seq<int>) {
    forall i :: 0 <= i < |a| ==> a[i] == 0 || a[i] == 1
  }

  /** With every entry 0 or 1, the members of the two clusters make up all
      points: the caller takes the count of cluster 1 as the length minus the
      count of cluster 0. */
  lemma {:induction false} CountsPartition(a: seq<int>)
    requires AllClusterIndices(a)
    ensures Count(a, 0) + Count(a, 1) == |a|
  {
    if |a| > 0 {
      assert AllClusterIndices(a[1..]) by {
        forall i | 0 <= i < |a[1..]| ensures a[1..][i] == 0 || a[1..][i] == 1 {
          assert a[1..][i] == a[i + 1];
        }
      }
      CountsPartition(a[1..]);
    }
  }

  /** With at least three assignments, all 0 or 1, some cluster has at least
      two members, so at least one group is drawn. */
  lemma AtLeastOneGroupShown(g: GroupData)
    requires AllClusterIndices(g.assignments) && |g.assignments| >= 3
    ensures !g.Group1IsDefault() || !g.Group2IsDefault()
  {
    CountsPartition(g.assignments);
  }

  /** With fewer than two assignments both groups are default. */
  lemma FewAssignmentsBothDefault(g: GroupData)
    requires |g.assignments| < 2
    ensures g.Group1IsDefault() && g.Group2IsDefault()
  {
  }
}
