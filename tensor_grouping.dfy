/** The two-cluster grouping engine: a fixed number of assign-then-recenter
    rounds over a list of 2-D points, starting from two seed centers.

    The vectorised tensor operations of the original (`sub`, `square`, `sum`,
    `argMin`, `equal`/`where`/`gather`, `mean`) are modelled as functions on
    sequences; the round loop itself is the method `RefineFrom`, proved equal
    to `Outcome` (the report of the last of `Iterate`d functional rounds
    `Round`) through the loop-side view `Remaining` and `RemainingIsOutcome`. */
module TensorGrouping {
  import opened Points
  import opened Utility
  import opened Groups

  datatype Option<T> = None | Some(value: T)

  /** A cluster index: the engine always works with exactly two clusters. */
  type ClusterIndex = k: int | 0 <= k < 2

  /** The two centers of a round, for cluster 0 and cluster 1. */
  datatype Centers = Centers(c0: Point, c1: Point) {

    function Get(k: ClusterIndex): Point {
      if k == 0 then c0 else c1
    }

    /** The centers as the two-row centroid tensor. */
    function AsSeq(): (s: seq<Point>)
      ensures |s| == 2 && forall k: ClusterIndex :: s[k] == Get(k)
    {
      [c0, c1]
    }
  }

  // ---------------------------------------------------------------------------
  // Distances and assignment
  // ---------------------------------------------------------------------------

  /** One row of the distance matrix: the (squared) distance from `p` to each
      centroid in turn. */
  function DistanceRow(p: Point, centroids: seq<Point>): (row: seq<real>)
    ensures |row| == |centroids|
  {
    if |centroids| == 0 then [] else [SquaredDistance(p, centroids[0])] + DistanceRow(p, centroids[1..])
  }

  /** `getDistances`: one row per point, one column per centroid. */
  function GetDistances(centroids: seq<Point>, points: seq<Point>): (m: seq<seq<real>>)
    ensures |m| == |points|
    ensures forall i :: 0 <= i < |m| ==> |m[i]| == |centroids|
  {
    if |points| == 0 then [] else [DistanceRow(points[0], centroids)] + GetDistances(centroids, points[1..])
  }

  /** Entry `j` of a row is the distance from the point to centroid `j`. */
  lemma {:induction false} DistanceRowEntries(p: Point, centroids: seq<Point>)
    ensures forall j :: 0 <= j < |centroids| ==> DistanceRow(p, centroids)[j] == SquaredDistance(p, centroids[j])
  {
    if |centroids| > 0 {
      var rest := centroids[1..];
      DistanceRowEntries(p, rest);
      var row := DistanceRow(p, centroids);
      forall j | 0 < j < |centroids| ensures row[j] == SquaredDistance(p, centroids[j]) {
        assert row[j] == DistanceRow(p, rest)[j - 1] && rest[j - 1] == centroids[j];
      }
    }
  }

  /** Row `i` of the distance matrix is the row of point `i`. */
  lemma {:induction false} GetDistancesRows(centroids: seq<Point>, points: seq<Point>)
    ensures forall i :: 0 <= i < |points| ==> GetDistances(centroids, points)[i] == DistanceRow(points[i], centroids)
  {
    if |points| > 0 {
      var rest := points[1..];
      GetDistancesRows(centroids, rest);
      var m := GetDistances(centroids, points);
      forall i | 0 < i < |points| ensures m[i] == DistanceRow(points[i], centroids) {
        assert m[i] == GetDistances(centroids, rest)[i - 1] && rest[i - 1] == points[i];
      }
    }
  }

  /** Entry `[i][j]` of the distance matrix is the distance from point `i` to
      centroid `j`, so it is non-negative and zero exactly when they coincide. */
  lemma GetDistancesEntries(centroids: seq<Point>, points: seq<Point>)
    ensures var m := GetDistances(centroids, points);
            forall i, j :: 0 <= i < |points| && 0 <= j < |centroids| ==>
              m[i][j] == SquaredDistance(points[i], centroids[j]) &&
              m[i][j] >= 0.0 && (m[i][j] == 0.0 <==> points[i] == centroids[j])
  {
    var m := GetDistances(centroids, points);
    GetDistancesRows(centroids, points);
    forall i, j | 0 <= i < |points| && 0 <= j < |centroids|
      ensures m[i][j] == SquaredDistance(points[i], centroids[j]) &&
              m[i][j] >= 0.0 && (m[i][j] == 0.0 <==> points[i] == centroids[j])
    {
      var row := DistanceRow(points[i], centroids);
      assert m[i] == row;
      DistanceRowEntries(points[i], centroids);
      assert row[j] == SquaredDistance(points[i], centroids[j]);
    }
  }

  /** `argMin` of one row: the index of the FIRST smallest entry, as a
      left-to-right scan with a strict comparison finds it. */
  function ArgMin(row: seq<real>): (r: nat)
    requires |row| >= 1
    ensures r < |row|
  {
    if |row| == 1 then 0
    else
      var k := ArgMin(row[..|row| - 1]);
      if row[|row| - 1] < row[k] then |row| - 1 else k
  }

  /** `argMin` finds a smallest entry, and every entry before it is strictly
      larger: it is the first smallest one. */
  lemma {:induction false} ArgMinIsFirstMinimum(row: seq<real>)
    requires |row| >= 1
    ensures var r := ArgMin(row);
            (forall j :: 0 <= j < |row| ==> row[r] <= row[j]) &&
            (forall j :: 0 <= j < r ==> row[r] < row[j])
  {
    if |row| > 1 {
      var init := row[..|row| - 1];
      ArgMinIsFirstMinimum(init);
      var k := ArgMin(init);
      assert forall j :: 0 <= j < |init| ==> init[j] == row[j];
    }
  }

  /** `distances.argMin(-1)`: for every point, the index of its nearest centroid. */
  function Assign(distances: seq<seq<real>>): (a: seq<int>)
    requires forall i :: 0 <= i < |distances| ==> |distances[i]| >= 1
    ensures |a| == |distances|
  {
    if |distances| == 0 then [] else [ArgMin(distances[0]) as int] + Assign(distances[1..])
  }

  /** Entry `i` of the assignment is the `argMin` of row `i`, a valid column. */
  lemma {:induction false} AssignEntries(distances: seq<seq<real>>)
    requires forall i :: 0 <= i < |distances| ==> |distances[i]| >= 1
    ensures forall i :: 0 <= i < |distances| ==>
              Assign(distances)[i] == ArgMin(distances[i]) && 0 <= Assign(distances)[i] < |distances[i]|
  {
    if |distances| > 0 {
      AssignEntries(distances[1..]);
    }
  }

  /** The single rule the assignment step follows with two centers. */
  function Nearer(p: Point, w: Centers): int {
    if SquaredDistance(p, w.c1) < SquaredDistance(p, w.c0) then 1 else 0
  }

  /** With two centers, `argMin` picks center 1 exactly when the point is
      strictly closer to it; an exact tie goes to center 0. */
  lemma ArgMinOfTwo(d0: real, d1: real)
    ensures ArgMin([d0, d1]) == (if d1 < d0 then 1 else 0)
  {
    assert [d0, d1][0] == d0 && [d0, d1][1] == d1;
  }

  /** On exact reals, `argMin` over the rooted distances (the code takes the
      square root) picks the same center as `Nearer` on squared distances. */
  lemma ArgMinOfRootsIsNearer(p: Point, w: Centers, s0: real, s1: real)
    requires s0 >= 0.0 && s0 * s0 == SquaredDistance(p, w.c0)
    requires s1 >= 0.0 && s1 * s1 == SquaredDistance(p, w.c1)
    ensures ArgMin([s0, s1]) == Nearer(p, w)
  {
    ArgMinOfTwo(s0, s1);
    RootsPreserveOrder(SquaredDistance(p, w.c1), SquaredDistance(p, w.c0), s1, s0);
  }

  /** The assignment step against two working centers assigns every point to
      the nearer one, ties to cluster 0. */
  lemma {:induction false} AssignToNearer(points: seq<Point>, w: Centers)
    ensures var a := Assign(GetDistances(w.AsSeq(), points));
            |a| == |points| && forall i :: 0 <= i < |points| ==> a[i] == Nearer(points[i], w)
  {
    var m := GetDistances(w.AsSeq(), points);
    var a := Assign(m);
    GetDistancesEntries(w.AsSeq(), points);
    AssignEntries(m);
    forall i | 0 <= i < |points| ensures a[i] == Nearer(points[i], w) {
      var ws := w.AsSeq();
      assert m[i][0] == SquaredDistance(points[i], ws[0]) && ws[0] == w.c0;
      assert m[i][1] == SquaredDistance(points[i], ws[1]) && ws[1] == w.c1;
      assert m[i] == [m[i][0], m[i][1]];
      ArgMinOfTwo(m[i][0], m[i][1]);
      assert a[i] == ArgMin(m[i]);
    }
  }

  // ---------------------------------------------------------------------------
  // Partition and recentering
  // ---------------------------------------------------------------------------

  /** `points.gather(where(equal(k, assignments)))`: the points assigned to
      cluster `k`, in their original order. */
  function Members(points: seq<Point>, assignments: seq<int>, k: int): (r: seq<Point>)
    requires |points| == |assignments|
    ensures |r| == Count(assignments, k)
  {
    if |points| == 0 then []
    else
      var rest := Members(points[1..], assignments[1..], k);
      if assignments[0] == k then [points[0]] + rest else rest
  }

  /** A point is a member of cluster `k` exactly when some position holding
      that point is assigned to `k`. */
  lemma {:induction false} MembersExactly(points: seq<Point>, assignments: seq<int>, k: int, p: Point)
    requires |points| == |assignments|
    ensures p in Members(points, assignments, k) <==>
            exists i :: 0 <= i < |points| && assignments[i] == k && points[i] == p
  {
    if |points| > 0 {
      var pointsTail, assignmentsTail := points[1..], assignments[1..];
      MembersExactly(pointsTail, assignmentsTail, k, p);
      if exists i :: 0 <= i < |points| && assignments[i] == k && points[i] == p {
        var i :| 0 <= i < |points| && assignments[i] == k && points[i] == p;
        if i > 0 {
          assert assignmentsTail[i - 1] == k && pointsTail[i - 1] == p;
        }
      }
      if exists i :: 0 <= i < |pointsTail| && assignmentsTail[i] == k && pointsTail[i] == p {
        var i :| 0 <= i < |pointsTail| && assignmentsTail[i] == k && pointsTail[i] == p;
        assert assignments[i + 1] == k && points[i + 1] == p;
      }
    }
  }

  /** Partitioning distributes over concatenation, so members keep the
      relative order they have in the input. */
  lemma {:induction false} MembersAppend(p1: seq<Point>, a1: seq<int>, p2: seq<Point>, a2: seq<int>, k: int)
    requires |p1| == |a1| && |p2| == |a2|
    ensures Members(p1 + p2, a1 + a2, k) == Members(p1, a1, k) + Members(p2, a2, k)
  {
    if |p1| > 0 {
      assert (p1 + p2)[1..] == p1[1..] + p2;
      assert (a1 + a2)[1..] == a1[1..] + a2;
      MembersAppend(p1[1..], a1[1..], p2, a2, k);
    } else {
      assert p1 + p2 == p2 && a1 + a2 == a2;
    }
  }

  /** The new center of cluster `k` in one round: the centroid of its members
      when it has at least two, else the caller's original seed. */
  function ClusterCenter(points: seq<Point>, assignments: seq<int>, k: int, seed: Point): (c: Point)
    requires |points| == |assignments|
    ensures Count(assignments, k) < 2 ==> c == seed
    ensures Count(assignments, k) >= 2 ==>
              c.Coord(0) * (Count(assignments, k) as real) == Sum(Members(points, assignments, k), 0) &&
              c.Coord(1) * (Count(assignments, k) as real) == Sum(Members(points, assignments, k), 1)
  {
    var members := Members(points, assignments, k);
    if |members| > 1 then Centroid(members) else seed
  }

  /** What one round produces: the assignment and the two recomputed centers. */
  datatype RoundResult = RoundResult(assignments: seq<int>, centers: Centers)

  /** One round: assign every point to the nearer working center, then
      recenter each cluster (falling back to the caller's seed). */
  function Round(points: seq<Point>, working: Centers, seeds: Centers): (r: RoundResult)
    ensures |r.assignments| == |points|
  {
    var a := Assign(GetDistances(working.AsSeq(), points));
    RoundResult(a, Centers(ClusterCenter(points, a, 0, seeds.c0), ClusterCenter(points, a, 1, seeds.c1)))
  }

  /** Every point is assigned to the nearer working center, ties to cluster 0. */
  lemma RoundAssignsNearer(points: seq<Point>, working: Centers, seeds: Centers)
    ensures var r := Round(points, working, seeds);
            forall i :: 0 <= i < |points| ==> r.assignments[i] == Nearer(points[i], working)
  {
    AssignToNearer(points, working);
  }

  /** A cluster with at least two members in a round gets the centroid of
      exactly those members; a smaller one gets the caller's seed. Which points
      are members is `MembersExactly`, their input order `MembersAppend`, and
      that the centroid is their mean `Centroid` with `CentroidPermutation`,
      `CentroidOfCopies` and `CentroidWithinBounds`. */
  lemma RoundRecenters(points: seq<Point>, working: Centers, seeds: Centers, k: ClusterIndex)
    ensures var r := Round(points, working, seeds);
            r.centers.Get(k) ==
              if Count(r.assignments, k) >= 2 then Centroid(Members(points, r.assignments, k))
              else seeds.Get(k)
  {
  }

  /** The working centers after `n` rounds that start from `start`: each round
      starts from the centers the previous round computed. */
  function Iterate(points: seq<Point>, start: Centers, seeds: Centers, n: nat): Centers
    decreases n
  {
    if n == 0 then start else Iterate(points, Round(points, start, seeds).centers, seeds, n - 1)
  }

  /** The centers after `n >= 1` rounds are the ones the `n`-th round computes
      from the centers after `n - 1`. */
  lemma {:induction false} IterateLast(points: seq<Point>, start: Centers, seeds: Centers, n: nat)
    requires n >= 1
    ensures Iterate(points, start, seeds, n) == Round(points, Iterate(points, start, seeds, n - 1), seeds).centers
    decreases n
  {
    if n > 1 {
      IterateLast(points, Round(points, start, seeds).centers, seeds, n - 1);
    }
  }

  /** The round-0 working centers as the code builds them: cluster 0 gets its
      seed, cluster 1 gets `(seed1.y, seed1.y)`. */
  function Round0Centers(seeds: Centers): (w: Centers)
    ensures w.c0.ToArray() == [seeds.c0.x, seeds.c0.y] && w.c1.ToArray() == [seeds.c1.y, seeds.c1.y]
  {
    Centers(seeds.c0, Point(seeds.c1.y, seeds.c1.y))
  }

  /** The round-0 working center of cluster 1 is its seed only when that seed
      happens to have equal coordinates. */
  lemma Round0CenterIsSeedOnlyOnDiagonal(seeds: Centers)
    ensures Round0Centers(seeds).c0 == seeds.c0
    ensures Round0Centers(seeds).c1 == seeds.c1 <==> seeds.c1.x == seeds.c1.y
  {
  }

  /** What the engine reports about a round: its assignment and its two centers. */
  function Report(r: RoundResult): (g: GroupData)
    ensures g == GroupData(r.assignments, [FromArray(r.centers.c0.ToArray()), FromArray(r.centers.c1.ToArray())])
  {
    FromArrayOfToArray(r.centers.c0);
    FromArrayOfToArray(r.centers.c1);
    GroupData(r.assignments, [r.centers.c0, r.centers.c1])
  }

  /** The result of `rounds` rounds from the working centers `start`: the report
      of the last round, which runs from the centers the earlier rounds leave. */
  function Outcome(points: seq<Point>, start: Centers, seeds: Centers, rounds: nat): GroupData
    requires rounds >= 1
  {
    Report(Round(points, Iterate(points, start, seeds, rounds - 1), seeds))
  }

  /** The same rounds seen from the loop's side: with working centers `working`
      and `n` rounds still to run, the report that will be returned; `last` is
      the report already in hand, returned when no round remains. */
  function Remaining(points: seq<Point>, working: Centers, seeds: Centers, n: nat, last: GroupData): GroupData
    decreases n
  {
    if n == 0 then last
    else
      var r := Round(points, working, seeds);
      Remaining(points, r.centers, seeds, n - 1, Report(r))
  }

  /** With a round still to run, the loop runs it and carries its report. */
  lemma RemainingStep(points: seq<Point>, working: Centers, seeds: Centers, n: nat, last: GroupData)
    requires n >= 1
    ensures var r := Round(points, working, seeds);
            Remaining(points, working, seeds, n, last) == Remaining(points, r.centers, seeds, n - 1, Report(r))
  {
  }

  /** At least one round to run: the report returned is the last round's, so
      the loop's view and the round-count view agree, whatever `last` is. */
  lemma {:induction false} RemainingIsOutcome(points: seq<Point>, start: Centers, seeds: Centers, n: nat, last: GroupData)
    requires n >= 1
    ensures Remaining(points, start, seeds, n, last) == Outcome(points, start, seeds, n)
    decreases n
  {
    var r := Round(points, start, seeds);
    assert Remaining(points, start, seeds, n, last) == Remaining(points, r.centers, seeds, n - 1, Report(r));
    if n > 1 {
      RemainingIsOutcome(points, r.centers, seeds, n - 1, Report(r));
    }
  }

  /** Each round starts from the centers the previous one computed: running
      `n + 1` rounds is running one round and then `n` more from its centers. */
  lemma NextRoundStartsFromCenters(points: seq<Point>, start: Centers, seeds: Centers, n: nat)
    requires n >= 1
    ensures Outcome(points, start, seeds, n + 1) ==
            Outcome(points, Round(points, start, seeds).centers, seeds, n)
  {
    assert Iterate(points, start, seeds, n) == Iterate(points, Round(points, start, seeds).centers, seeds, n - 1);
  }

  /** The returned assignment has one entry per point, every entry is 0 or 1,
      and a point is assigned 1 exactly when it is strictly nearer the last
      round's working center 1 (a tie goes to cluster 0). */
  lemma OutcomeAssignments(points: seq<Point>, start: Centers, seeds: Centers, rounds: nat)
    requires rounds >= 1
    ensures var g := Outcome(points, start, seeds, rounds);
            var w := Iterate(points, start, seeds, rounds - 1);
            |g.assignments| == |points| && AllClusterIndices(g.assignments) &&
            forall i :: 0 <= i < |points| ==>
              (g.assignments[i] == 1 <==> SquaredDistance(points[i], w.c1) < SquaredDistance(points[i], w.c0))
  {
    var w := Iterate(points, start, seeds, rounds - 1);
    RoundAssignsNearer(points, w, seeds);
  }

  /** Returned center `k` is the centroid of exactly the points the returned
      assignment puts in cluster `k` when there are at least two of them, and
      the caller's seed `k` otherwise. */
  lemma OutcomeCenters(points: seq<Point>, start: Centers, seeds: Centers, rounds: nat, k: ClusterIndex)
    requires rounds >= 1
    ensures var g := Outcome(points, start, seeds, rounds);
            |g.assignments| == |points| && |g.centerPoints| == 2 &&
            g.centerPoints[k] ==
              if Count(g.assignments, k) >= 2 then Centroid(Members(points, g.assignments, k))
              else seeds.Get(k)
  {
    var w := Iterate(points, start, seeds, rounds - 1);
    RoundRecenters(points, w, seeds, k);
  }

  /** A group the caller marks as default is drawn at the caller's seed. */
  lemma DefaultGroupsKeepSeeds(points: seq<Point>, start: Centers, seeds: Centers, rounds: nat)
    requires rounds >= 1
    ensures var g := Outcome(points, start, seeds, rounds);
            |g.centerPoints| == 2 &&
            (g.Group1IsDefault() ==> g.centerPoints[0] == seeds.c0) &&
            (g.Group2IsDefault() ==> g.centerPoints[1] == seeds.c1)
  {
    OutcomeCenters(points, start, seeds, rounds, 0);
    OutcomeCenters(points, start, seeds, rounds, 1);
  }

  /** Round 0 as written: for seeds `(0, 0)` and `(3, 0)` the working center of
      cluster 1 is `(0, 0)`, so the point `(3, 0)` -- the seed of cluster 1
      itself -- ties and is assigned to cluster 0. */
  lemma Round0SeedPointMisassigned()
    ensures var seeds := Centers(Point(0.0, 0.0), Point(3.0, 0.0));
            Round0Centers(seeds).c1 == Point(0.0, 0.0) &&
            Outcome([Point(3.0, 0.0), Point(0.0, 0.0)], Round0Centers(seeds), seeds, 1).assignments == [0, 0]
  {
    var seeds := Centers(Point(0.0, 0.0), Point(3.0, 0.0));
    var points := [Point(3.0, 0.0), Point(0.0, 0.0)];
    OutcomeAssignments(points, Round0Centers(seeds), seeds, 1);
    var a := Outcome(points, Round0Centers(seeds), seeds, 1).assignments;
    assert a[0] == 0 && a[1] == 0;
  }

  /** The round-0 working centers the code evidently intends: the two seeds.
      This is the definition of the corrected round-0 rows, and its ensures
      only spells those rows out in array form; the property the correction
      buys is proved in `IntendedRound0AssignsSeedPoint`. */
  function IntendedRound0Centers(seeds: Centers): (w: Centers)
    ensures w.c0.ToArray() == [seeds.c0.x, seeds.c0.y] && w.c1.ToArray() == [seeds.c1.x, seeds.c1.y]
  {
    seeds
  }

  /** From the intended round-0 centers, a point that is the seed of cluster 1
      (and not the seed of cluster 0) is assigned to cluster 1 in round 0. */
  lemma IntendedRound0AssignsSeedPoint(points: seq<Point>, seeds: Centers, i: nat)
    requires i < |points| && points[i] == seeds.c1 && points[i] != seeds.c0
    ensures Outcome(points, IntendedRound0Centers(seeds), seeds, 1).assignments[i] == 1
  {
    OutcomeAssignments(points, IntendedRound0Centers(seeds), seeds, 1);
    assert SquaredDistance(points[i], seeds.c1) == 0.0;
  }

  // ---------------------------------------------------------------------------
  // The engine
  // ---------------------------------------------------------------------------

  /** The per-cluster pass of one round (an async closure inside the round
      loop of the code): each cluster with at least two members overwrites its
      slot of `means` with the centroid of its members, and after every cluster
      the round's outputs are saved. */
  method RecenterClusters(points: seq<Point>, assignments: seq<int>, means: array<Point>)
    returns (centroidsIntermediate: Option<Centers>, assignmentsIterated: seq<int>,
             mean0Iterated: seq<real>, mean1Iterated: seq<real>)
    requires |points| == |assignments| && means.Length == 2
    modifies means
    ensures means[0] == ClusterCenter(points, assignments, 0, old(means[0]))
    ensures means[1] == ClusterCenter(points, assignments, 1, old(means[1]))
    ensures centroidsIntermediate == Some(Centers(means[0], means[1]))
    ensures assignmentsIterated == assignments
    ensures mean0Iterated == means[0].ToArray() && mean1Iterated == means[1].ToArray()
  {
    // In the code these four are the loop's outer variables and still hold the
    // previous round's values here; the first cluster pass overwrites all four,
    // so starting them empty changes nothing the caller can see.
    centroidsIntermediate, assignmentsIterated, mean0Iterated, mean1Iterated := None, [], [], [];
    var clusterIndex := 0;
    while clusterIndex < 2
      invariant 0 <= clusterIndex <= 2
      invariant means[0] == if clusterIndex > 0 then ClusterCenter(points, assignments, 0, old(means[0])) else old(means[0])
      invariant means[1] == if clusterIndex > 1 then ClusterCenter(points, assignments, 1, old(means[1])) else old(means[1])
      invariant clusterIndex >= 1 ==>
        centroidsIntermediate == Some(Centers(means[0], means[1])) &&
        assignmentsIterated == assignments &&
        mean0Iterated == means[0].ToArray() && mean1Iterated == means[1].ToArray()
    {
      var clusterPoints := Members(points, assignments, clusterIndex);
      if |clusterPoints| > 1 {
        means[clusterIndex] := Centroid(clusterPoints);
      }
      centroidsIntermediate := Some(Centers(means[0], means[1]));
      assignmentsIterated := assignments;
      mean0Iterated := means[0].ToArray();
      mean1Iterated := means[1].ToArray();
      clusterIndex := clusterIndex + 1;
    }
  }

  /** The body of one refinement round of `iterativeGroup`: distances to the
      working centers, the nearest-center assignment, fresh per-round `means`
      seeded with the caller's `initialCentroids`, and the per-cluster pass.
      Its outputs are exactly those of the functional round `Round`. */
  method RefinementRound(points: seq<Point>, centroids: Centers, initialCentroids: seq<Point>)
    returns (centroidsIntermediate: Option<Centers>, assignmentsIterated: seq<int>,
             mean0Iterated: seq<real>, mean1Iterated: seq<real>)
    requires |initialCentroids| >= 2
    ensures var r := Round(points, centroids, Centers(initialCentroids[0], initialCentroids[1]));
            centroidsIntermediate == Some(r.centers) && assignmentsIterated == r.assignments &&
            mean0Iterated == r.centers.c0.ToArray() && mean1Iterated == r.centers.c1.ToArray()
  {
    var seeds := Centers(initialCentroids[0], initialCentroids[1]);
    var distances := GetDistances(centroids.AsSeq(), points);
    var assignments := Assign(distances);
    var means := new Point[] [FromArray(initialCentroids[0].ToArray()), FromArray(initialCentroids[1].ToArray())];
    centroidsIntermediate, assignmentsIterated, mean0Iterated, mean1Iterated :=
      RecenterClusters(points, assignments, means);
  }

  /** The round loop of `iterativeGroup`: exactly `refinements` rounds, no
      early exit, from the working centers `start`, always falling back to the
      caller's `initialCentroids`. */
  method RefineFrom(points: seq<Point>, start: Centers, refinements: nat, initialCentroids: seq<Point>)
    returns (g: GroupData)
    requires refinements >= 1 && |initialCentroids| >= 2
    ensures var seeds := Centers(initialCentroids[0], initialCentroids[1]);
            g == Outcome(points, start, seeds, refinements)
  {
    ghost var seeds := Centers(initialCentroids[0], initialCentroids[1]);
    var centroids := start;
    var centroidsIntermediate: Option<Centers> := None;
    var assignmentsIterated: seq<int> := [];
    var mean0Iterated: seq<real> := [];
    var mean1Iterated: seq<real> := [];
    ghost var target := Outcome(points, start, seeds, refinements);
    RemainingIsOutcome(points, start, seeds, refinements, GroupData([], []));
    var i := 0;
    while i < refinements
      invariant 0 <= i <= refinements
      invariant i == 0 ==> centroids == start
      invariant i >= 1 ==>
        |mean0Iterated| == 2 && |mean1Iterated| == 2 &&
        target == Remaining(points, centroids, seeds, refinements - i,
                            GroupData(assignmentsIterated, [FromArray(mean0Iterated), FromArray(mean1Iterated)]))
    {
      ghost var r := Round(points, centroids, seeds);
      ghost var inHand := if i == 0 then GroupData([], [])
                          else GroupData(assignmentsIterated, [FromArray(mean0Iterated), FromArray(mean1Iterated)]);
      RemainingStep(points, centroids, seeds, refinements - i, inHand);
      centroidsIntermediate, assignmentsIterated, mean0Iterated, mean1Iterated :=
        RefinementRound(points, centroids, initialCentroids);
      if centroidsIntermediate.Some? {
        centroids := centroidsIntermediate.value;
      }
      FromArrayOfToArray(r.centers.c0);
      FromArrayOfToArray(r.centers.c1);
      assert GroupData(assignmentsIterated, [FromArray(mean0Iterated), FromArray(mean1Iterated)]) == Report(r);
      i := i + 1;
    }
    g := GroupData(assignmentsIterated, [
      FromArray(mean0Iterated),
      FromArray(mean1Iterated)
    ]);
  }

  /** `iterativeGroup`: builds the round-0 working centers from the seeds as
      the code does (cluster 1 from the seed's `y` twice) and runs the rounds. */
  method IterativeGroup(points: seq<Point>, refinements: nat, initialCentroids: seq<Point>)
    returns (g: GroupData)
    requires refinements >= 1 && |initialCentroids| >= 2
    ensures var seeds := Centers(initialCentroids[0], initialCentroids[1]);
            g == Outcome(points, Round0Centers(seeds), seeds, refinements)
  {
    var initialCentroidsRaw := [
      [initialCentroids[0].x, initialCentroids[0].y],
      [initialCentroids[1].y, initialCentroids[1].y]
    ];
    var centroids := Centers(FromArray(initialCentroidsRaw[0]), FromArray(initialCentroidsRaw[1]));
    g := RefineFrom(points, centroids, refinements, initialCentroids);
  }

  /** `iterativeGroup` with the round-0 row of cluster 1 built from the seed's
      `x` and `y`, as evidently intended: the rounds start from the seeds. */
  method IntendedIterativeGroup(points: seq<Point>, refinements: nat, initialCentroids: seq<Point>)
    returns (g: GroupData)
    requires refinements >= 1 && |initialCentroids| >= 2
    ensures var seeds := Centers(initialCentroids[0], initialCentroids[1]);
            g == Outcome(points, IntendedRound0Centers(seeds), seeds, refinements)
  {
    var initialCentroidsRaw := [
      [initialCentroids[0].x, initialCentroids[0].y],
      [initialCentroids[1].x, initialCentroids[1].y]
    ];
    var centroids := Centers(FromArray(initialCentroidsRaw[0]), FromArray(initialCentroidsRaw[1]));
    g := RefineFrom(points, centroids, refinements, initialCentroids);
  }

  /** `tf.tensor2d` over rows of two numbers: the point list the engine reads. */
  function Tensor2D(rows: seq<seq<real>>): (ps: seq<Point>)
    requires forall i :: 0 <= i < |rows| ==> |rows[i]| == 2
    ensures |ps| == |rows| && forall i :: 0 <= i < |rows| ==> ps[i].ToArray() == rows[i]
  {
    seq(|rows|, i requires 0 <= i < |rows| => FromArray(rows[i]))
  }

  /** `groupPointsFromArray`: the caller-facing entry. The points go through
      their array form into the engine unchanged; `refinements` is the
      configured round count. The caller only groups at least two points. */
  method GroupPointsFromArray(points: seq<Point>, initialCentroids: seq<Point>, refinements: nat)
    returns (g: GroupData)
    requires |points| >= 2 && refinements >= 1 && |initialCentroids| >= 2
    ensures var seeds := Centers(initialCentroids[0], initialCentroids[1]);
            g == Outcome(points, Round0Centers(seeds), seeds, refinements)
  {
    var pointArrayData := seq(|points|, i requires 0 <= i < |points| => points[i].ToArray());
    var pointDataTensor := Tensor2D(pointArrayData);
    assert pointDataTensor == points by {
      forall i | 0 <= i < |points| ensures pointDataTensor[i] == points[i] {
        assert pointDataTensor[i].ToArray() == points[i].ToArray();
      }
    }
    g := IterativeGroup(pointDataTensor, refinements, initialCentroids);
  }
}
