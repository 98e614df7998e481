# pointbox grouping engine in Dafny

This project models the two-cluster grouping engine of a point-plotting demo.
The caller passes a list of 2-D points and two seed centers. The engine then
runs a fixed number of refinement rounds and returns a `GroupData` record: one
cluster index (0 or 1) per point, plus the two center points. Each round:

1. computes the distance from every point to each of the two working centers
   (`getDistances`);
2. assigns every point to its nearer center, with ties going to cluster 0 (`argMin`);
3. gathers each cluster's members and replaces that cluster's center with
   their coordinate-wise mean (`centroid`), or keeps the caller's original
   seed when the cluster has fewer than two members;
4. uses those two centers as the next round's working centers.

`GroupData` reports a group as "default" (not drawn) when fewer than two
points are assigned to it.

The model has four modules, one per source file:

- `Points` (`src/Point.ts`): the immutable point value, its array form `[x, y]` and the round trip back.
- `Utility` (`src/utility.ts`): squared distance and centroid, with their algebraic properties.
- `Groups` (`src/GroupData.ts`): the result record, its two predicates, and the counting facts the caller relies on.
- `TensorGrouping` (`src/tensorGrouping.ts`): the distance matrix, the assignment, the partition, one functional round `Round`, and the imperative engine.

The functional round is what `IterativeGroup` is proved against:
- `RefineFrom` is the `while` loop over rounds; `IterativeGroup` builds the round-0 centers and calls it.
- `RefinementRound` is the body of that loop.
- `RecenterClusters` is the inner per-cluster loop. It overwrites the slots of a `means` array.

The loop is specified by `Remaining`, which gives the rounds still to run. `RemainingIsOutcome` proves that `Remaining` agrees with the round-count view `Outcome`.

Tensors are modelled as sequences and numbers as mathematical reals.

Distances are squared, with no square root. The root is monotone, so on exact
reals it never changes which center is nearer; `RootsPreserveOrder` and
`ArgMinOfRootsIsNearer` prove this (floating point is discussed under "## Left out").

Two behaviours of the code are modelled exactly as written:
- **Round-0 center of cluster 1.** It is built from the seed's `y` twice (`Round0Centers`). See "## Findings".
- **Fallback seed.** An undersized cluster falls back to the caller's ORIGINAL seed, not to the previous round's center.

## Model

| member | source | states |
|---|---|---|
| Points.Point.ToArray | src/Point.ts:18-20 | The array form has length 2, holds `x` then `y`, and rebuilding a point from its two entries gives the same point. |
| Points.FromArray | src/Point.ts:10-13 | The constructor stores its two arguments as `x` and `y`; for a two-entry array, converting back with `toArray` gives that array. |
| Points.FromArrayOfToArray | src/Point.ts:10-20 | Rebuilding a point from its `toArray` result gives an equal point (the round trip into and out of the engine). |
| Points.PointExtensionality | src/Point.ts:9-13 | Two points are equal exactly when both their coordinates are. |
| Utility.SquaredDistance | src/utility.ts:50-52 | The distance is non-negative, and it is zero exactly when the point and the reference point coincide. |
| Utility.DistanceSymmetric | src/utility.ts:51 | Swapping the point and the reference point leaves the distance unchanged. |
| Utility.RootsPreserveOrder | src/utility.ts:51 | For non-negative roots `s`, `t` of `a`, `b`: `s < t` iff `a < b`, and `s == t` iff `a == b`. Comparing squared distances therefore picks the same nearer center as comparing rooted ones. |
| Utility.Centroid | src/utility.ts:42-44 | Each coordinate of the centroid, times the number of inputs, is the sum of that coordinate over the inputs; that is, it is the arithmetic mean. |
| Utility.SumPermutation | src/utility.ts:43 | The coordinate sum of two collections holding the same multiset of points is equal. |
| Utility.CentroidPermutation | src/utility.ts:43 | Reordering the inputs does not change the centroid. |
| Utility.CentroidOfCopies | src/utility.ts:43 | The centroid of `n >= 1` copies of `p` is `p`. |
| Utility.CentroidWithinBounds | src/utility.ts:43 | If every input's coordinate `d` lies in `[lo, hi]`, so does the centroid's. |
| Groups.Count | src/GroupData.ts:14-17 | The number of entries equal to a value is at most the length. |
| Groups.CountAtLeastTwo | src/GroupData.ts:13-18 | The count of `v` is at least 2 exactly when two distinct positions hold `v`. |
| Groups.GroupData.Group1IsDefault | src/GroupData.ts:13-15 | `group1IsDefault` (fewer than two assignments equal 0) holds iff no two distinct positions are assigned 0. |
| Groups.GroupData.Group2IsDefault | src/GroupData.ts:16-18 | `group2IsDefault` (fewer than two assignments equal 1) holds iff no two distinct positions are assigned 1. |
| Groups.CountsPartition | src/App.tsx:64-65 | With all entries 0 or 1, the count of 0s plus the count of 1s is the length, as the caller relies on when it derives the second count. |
| Groups.AtLeastOneGroupShown | src/GroupData.ts:12-18 | With at least 3 assignments, all 0 or 1, at least one group is not default. |
| Groups.FewAssignmentsBothDefault | src/GroupData.ts:12-18 | With fewer than 2 assignments both groups are default. |
| TensorGrouping.DistanceRow | src/tensorGrouping.ts:28-30 | A point's row has one entry per centroid. |
| TensorGrouping.GetDistances | src/tensorGrouping.ts:23-32 | The matrix has one row per point and one column per centroid. |
| TensorGrouping.GetDistancesEntries | src/tensorGrouping.ts:23-32 | Entry `[i][j]` is the distance from point `i` to centroid `j`; it is non-negative, and zero exactly when the two coincide. |
| TensorGrouping.ArgMin | src/tensorGrouping.ts:58 | `argMin` returns an index of the row. |
| TensorGrouping.ArgMinIsFirstMinimum | src/tensorGrouping.ts:58 | The entry at that index is no larger than any entry, and every earlier entry is strictly larger: it is the FIRST minimum. |
| TensorGrouping.Assign | src/tensorGrouping.ts:58 | There is one assignment per distance row. |
| TensorGrouping.AssignEntries | src/tensorGrouping.ts:58 | Assignment `i` is the `argMin` of row `i`, a valid column index. |
| TensorGrouping.ArgMinOfTwo | src/tensorGrouping.ts:58 | On a two-entry row, `argMin` is 1 exactly when the second entry is strictly smaller. |
| TensorGrouping.ArgMinOfRootsIsNearer | src/tensorGrouping.ts:58 | On exact reals, `argMin` over the two rooted distances the code compares picks the same center as `Nearer` on squared distances, ties to cluster 0. |
| TensorGrouping.AssignToNearer | src/tensorGrouping.ts:53-58 | Against two working centers, every point is assigned to the strictly nearer one, and a tie goes to cluster 0. |
| TensorGrouping.Members | src/tensorGrouping.ts:69-75 | The gathered cluster has as many points as there are assignments equal to `k`. |
| TensorGrouping.MembersExactly | src/tensorGrouping.ts:69-75 | A point is gathered into cluster `k` iff some position holding it is assigned `k`. |
| TensorGrouping.MembersAppend | src/tensorGrouping.ts:72-75 | Gathering distributes over concatenation, so members keep their input order. |
| TensorGrouping.ClusterCenter | src/tensorGrouping.ts:60-86 | With fewer than two members the cluster keeps the caller seed; with at least two, each coordinate times the member count is the members' coordinate sum (the mean). |
| TensorGrouping.Round | src/tensorGrouping.ts:53-101 | One round yields one assignment per point. |
| TensorGrouping.RoundAssignsNearer | src/tensorGrouping.ts:53-58 | In a round, each point's assignment is its nearer working center, ties to cluster 0. |
| TensorGrouping.RoundRecenters | src/tensorGrouping.ts:60-86 | A cluster with at least 2 members gets the centroid of exactly its members, in input order; a smaller one gets the caller's seed `initialCentroids[k]`. |
| TensorGrouping.Iterate | src/tensorGrouping.ts:52-101 | The working centers after `n` rounds from `start`, each round starting from the centers the previous one computed. |
| TensorGrouping.IterateLast | src/tensorGrouping.ts:99-101 | The centers after `n >= 1` rounds are those the `n`-th round computes from the centers after `n - 1`. |
| TensorGrouping.Round0Centers | src/tensorGrouping.ts:41-46 | The round-0 rows as written: `[seed0.x, seed0.y]` and `[seed1.y, seed1.y]`. |
| TensorGrouping.Round0CenterIsSeedOnlyOnDiagonal | src/tensorGrouping.ts:41-46 | The round-0 center of cluster 0 is its seed. The round-0 center of cluster 1 equals its seed only when that seed's `x` equals its `y`. |
| TensorGrouping.Report | src/tensorGrouping.ts:115-118 | The returned record holds the round's assignment and the two points rebuilt from the saved mean arrays, which are the round's two centers. |
| TensorGrouping.RemainingIsOutcome | src/tensorGrouping.ts:52-101 | Running the loop's remaining `n >= 1` rounds returns the report of the last round, taken from the centers the earlier rounds leave. |
| TensorGrouping.NextRoundStartsFromCenters | src/tensorGrouping.ts:89-101 | The next round's working centers are the centers the previous round computed. |
| TensorGrouping.OutcomeAssignments | src/tensorGrouping.ts:53-93 | The returned assignment has one entry per point, all 0 or 1. A point is assigned 1 iff it is strictly nearer the last round's working center 1. |
| TensorGrouping.OutcomeCenters | src/tensorGrouping.ts:60-118 | Returned center `k` is the centroid of the points the returned assignment puts in `k` when there are at least 2 of them, and `initialCentroids[k]` otherwise. |
| TensorGrouping.DefaultGroupsKeepSeeds | src/tensorGrouping.ts:60-86 | When `group1IsDefault` (resp. `group2IsDefault`) holds, returned center 0 (resp. 1) is the caller's seed. |
| TensorGrouping.Round0SeedPointMisassigned | src/tensorGrouping.ts:41-46 | As written, seeds (0,0) and (3,0) give round-0 center 1 = (0,0), and the point (3,0) — seed 1 itself — is assigned to cluster 0. |
| TensorGrouping.IntendedRound0Centers | src/tensorGrouping.ts:41-46 | The intended round-0 rows are `[seed0.x, seed0.y]` and `[seed1.x, seed1.y]`. |
| TensorGrouping.IntendedRound0AssignsSeedPoint | src/tensorGrouping.ts:41-46 | From the intended round-0 centers, a point equal to seed 1 and not to seed 0 is assigned to cluster 1. |
| TensorGrouping.RecenterClusters | src/tensorGrouping.ts:65-97 | The per-cluster pass leaves in `means[k]` the centroid of cluster `k` when it has at least 2 members, else the slot's old value. It saves the assignment and both means as arrays, and `centroidsIntermediate` is set. |
| TensorGrouping.RefinementRound | src/tensorGrouping.ts:53-97 | One loop iteration's outputs are exactly the round's centers, assignment and mean arrays, with `means` seeded from `initialCentroids` each round. |
| TensorGrouping.RefineFrom | src/tensorGrouping.ts:47-119 | Exactly `refinements` rounds from the given working centers, with fallback to the caller's seeds; the result is the last round's report. |
| TensorGrouping.IterativeGroup | src/tensorGrouping.ts:34-119 | From the as-written round-0 centers (cluster 1 from the seed's `y` twice), the result is the outcome of `refinements` rounds. |
| TensorGrouping.IntendedIterativeGroup | src/tensorGrouping.ts:34-119 | The corrected engine: from round-0 centers equal to the seeds, the result is the outcome of `refinements` rounds. |
| TensorGrouping.Tensor2D | src/tensorGrouping.ts:127-128 | Rows of two numbers become one point per row, each with that row as its array form. |
| TensorGrouping.GroupPointsFromArray | src/tensorGrouping.ts:123-132 | The points pass through their array form unchanged into the engine. The result is the engine's outcome for those points and seeds. |

## Left out

- **Square root**: distances are modelled squared. On exact reals, `RootsPreserveOrder` and `ArgMinOfRootsIsNearer` show this does not change any nearest-center choice. In floating point it can (see the next line).
- **Floating point**: all arithmetic is on exact reals, and the mean divides exactly. In float32, rounding the square root can map two different squared distances to the same value; that tie goes to cluster 0, which the model does not capture.
- **TensorFlow.js machinery**: memory management (`tf.tidy`, `dispose`, `gcEnabled`), shape juggling (`expandDims`, `squeeze`, `stack`, `reshape`) and the webgpu backend are foreign-library calls. Tensors are plain sequences and points here.
- **Async/await**: `iterativeGroup`, its inner closure and `groupPointsFromArray` are modelled as synchronous. The closure becomes the method `RecenterClusters`.
- **Round count**: `refinements` comes from a configuration module, which is not part of this model. It is a parameter here.
- **Seed count**: `RefinementRound`, `RefineFrom`, `IterativeGroup`, `IntendedIterativeGroup` and `GroupPointsFromArray` require at least two seeds. With fewer, the code fails when it reads the missing seed; the only caller passes exactly two. Extra seeds are ignored, by the code and the model alike.
- **Zero rounds**: `IterativeGroup` requires `refinements >= 1`. With 0 rounds the code returns empty assignments and points with undefined coordinates.
- **`centroidsIntermediate`**: its null check is modelled with `Option`. After any round it holds a value.
- **Logging**: `Logger` calls are console output and are left out.
- **Not part of this core**: `randomSeedCentroid` (randomness; seeds are inputs here), `round2` and `Point.toString` (display formatting), `getMousePos`, `functionDemo` and `logMemory`.
- **UI files**: `App.tsx`, `AboutBox.tsx` and `color.ts` are not modelled. Two exceptions:
  - Their "at least two points" guard becomes a precondition of `GroupPointsFromArray`.
  - Their count arithmetic becomes `CountsPartition`.
- **Immutability**: readonly point fields and unchanged inputs need no proof, because datatype and sequence values are immutable in Dafny. Likewise, the `GroupData` constructor storing its arguments is the datatype constructor itself.
- **Tensor2D**: requires two entries per row. `tf.tensor2d` rejects ragged input, and every row here comes from `toArray`.

## Findings

| source | as written | input that shows it | evidently intended | confidence | as-written member | corrected member |
|---|---|---|---|---|---|---|
| src/tensorGrouping.ts:43 | The round-0 working center of cluster 1 takes the seed's `y` for both coordinates | Seeds (0,0) and (3,0), points (3,0) and (0,0): both points are assigned to cluster 0 in round 0, although (3,0) is seed 1 itself | `[initialCentroids[1].x, initialCentroids[1].y]`, like row 0 on line 42 and the fallback on line 62 | high, not executed | TensorGrouping.Round0SeedPointMisassigned | TensorGrouping.IntendedRound0AssignsSeedPoint |

The engine entry points `IterativeGroup` and `GroupPointsFromArray` model the code as written. `IntendedIterativeGroup` is the corrected engine. It runs the same round loop `RefineFrom` from `IntendedRound0Centers`, the seeds themselves. `Outcome` and every outcome lemma are stated for an arbitrary start, so they apply to the corrected engine without change.
