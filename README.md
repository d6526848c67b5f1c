# planar geometry primitives and reference convex hulls, in Dafny

This project models two parts of the `polypaths_planar_override` package:

- The vector core of its C extension header, `planar.h`:
  - the orientation macro `SIDE`;
  - `segments_intersect`;
  - the lexicographic comparator `compare_vec_lexi` and the `VEC_EQ`/`VEC_NEQ`/`VEC_LT` macros;
  - the tolerance test `almost_eq`;
  - the bounding-box builder `polypaths_planar_overrideBBox_fromSeq2` and its half-open containment macro;
  - polygon allocation `Poly_new` and the polygon's cache flag word.
- The two reference convex-hull algorithms of the performance script `test/perf/poly_hull.py`: `graham_hull` (really Andrew's monotone chain) and `quick_hull` with its helper `_qhull_partition`.

Coordinates are exact `real` numbers, not doubles.

Files:

- `wrappers.dfy` (`Wrappers`): `Option`, `Result` and the Python exceptions the code can raise.
- `planar_geom.dfy` (`Geom`): `Vec2`, `Side`, `SegmentsIntersect`, `CompareVecLexi`, `VecEq`/`VecNeq`/`VecLt` and `AlmostEq`.
- `planar_bbox.dfy` (`BBoxes`):
  - the `BBox` class whose `min`/`max` fields `FromSeq2` updates in its loop;
  - `ExtentOf`, the value that loop computes;
  - `ContainsPoint`.
- `planar_poly.dfy` (`Polygons`):
  - the flag word as a `bv64`, with the transitions the polygon tests observe, extended to the untested hint combinations by assumption;
  - the `Polygon` class: `size + 2` slots in an `array`, with `vert` one slot in;
  - `PolyNew`, `SetItem` and the cached `IsConvex`/`IsSimple` queries.
- `hull_graham.dfy` (`Graham`):
  - lexicographic sorting;
  - the stack loop `BuildChain`, proved equal to `ChainOf`;
  - `GrahamHull`.
- `hull_quick.dfy` (`QuickHull`):
  - The methods `QhullPartition` and `QuickHull` follow the source's loops. They are proved equal to the functions `Partition` and `QuickHullOf`:
    - `FurthestOf` folds over the first loop of `_qhull_partition`;
    - `SplitOf` folds over the second;
    - `ExtremesOf` and `SidesOf` fold over the loops of `quick_hull`.
  - The barycentric test is related to `SIDE`. With the Binet–Cauchy identity, the denominator is `SIDE(p0, p1, pp)` squared. When the partition point pp is strictly left of the line, `v < 0` holds exactly when the point is strictly left of `p0 -> pp`, and `u < 0` exactly when it is strictly left of `pp -> p1`.

`quick_hull`'s Python exceptions are results, not preconditions:

- `IndexError`: `points[0]` on no points.
- `UnboundLocalError`: no point has distance above `-1.0`.
- `ZeroDivisionError`: line 110.

Two things follow from the model:

- `quick_hull` cannot fail on a non-empty input except by `ZeroDivisionError` (`QuickHull.QuickHullErrors`).
- That error does happen on ordinary input with three colinear points, as in `(0, 0), (1, 0), (2, 0)`. The middle point becomes the lower side's partition point, and it lies on that side's line (`QuickHull.QuickHullColinearRaises`).
- More generally, when no point lies strictly right of the line from the leftmost to the rightmost point and some other point lies on it, `quick_hull` raises `ZeroDivisionError` (`QuickHull.QuickHullRaisesOnColinearLower`).

## Model

| member | source | states |
|---|---|---|
| Geom.B2I | lib/polypaths_planar_override/planar.h:185-186 | C's conversion of a comparison to the int 1 when it holds and 0 when it does not; SegmentsIntersect and CompareVecLexi state what the converted tests mean |
| Geom.Sign | lib/polypaths_planar_override/planar.h:185-186 | the three-valued sign: -1, 0 or 1, zero exactly at zero, positive exactly for positive reals |
| Geom.Side | lib/polypaths_planar_override/planar.h:92-93 | the SIDE macro: the cross product of b - a and c - a; its properties are the lemmas below |
| Geom.SideAntisymmetric | lib/polypaths_planar_override/planar.h:89-93 | swapping the line's two points negates SIDE |
| Geom.SideZeroAtEndpoints | lib/polypaths_planar_override/planar.h:89-93 | SIDE is zero when the third point is either line point |
| Geom.SideCyclic | lib/polypaths_planar_override/planar.h:89-93 | SIDE is unchanged by rotating its three points cyclically |
| Geom.SideAffine | lib/polypaths_planar_override/planar.h:89-93 | on the segment p -> q, SIDE interpolates linearly between its values at p and q |
| Geom.SignsDiffer | lib/polypaths_planar_override/planar.h:185-186 | the test `(p > 0) != (q > 0) \| (p == 0) != (q == 0)` holds exactly when p and q have different signs |
| Geom.SegmentsIntersect | lib/polypaths_planar_override/planar.h:176-187 | the result is 0 or 1, and it is 1 exactly when c and d get different SIDE signs from a->b and a and b get different SIDE signs from c->d |
| Geom.SegmentsIntersectSymmetric | lib/polypaths_planar_override/planar.h:176-187 | swapping the two segments does not change the result |
| Geom.SegmentsIntersectReversal | lib/polypaths_planar_override/planar.h:176-187 | reversing either segment does not change the result |
| Geom.CollinearSegmentsDoNotIntersect | lib/polypaths_planar_override/planar.h:176-187 | two segments on one line give 0 |
| Geom.SharedEndpointIntersects | lib/polypaths_planar_override/planar.h:176-187 | non-colinear segments sharing an endpoint give 1, in all four orientations |
| Geom.ProperCrossingHasCommonPoint | lib/polypaths_planar_override/planar.h:176-187 | a result of 1 with all four SIDE values non-zero means a common point strictly inside both segments |
| Geom.CrossingPointAgrees | lib/polypaths_planar_override/planar.h:181-184 | the crossing parameters computed from the four SIDE values name one point of both supporting lines |
| Geom.VecEq | lib/polypaths_planar_override/planar.h:84 | VEC_EQ holds exactly when the vectors are equal |
| Geom.VecNeq | lib/polypaths_planar_override/planar.h:85 | VEC_NEQ is the negation of VEC_EQ |
| Geom.VecLt | lib/polypaths_planar_override/planar.h:86-87 | VEC_LT: x less, or x equal and y less; its order properties are VecLtStrictTotalOrder |
| Geom.VecLtStrictTotalOrder | lib/polypaths_planar_override/planar.h:86-87 | VEC_LT is irreflexive, asymmetric, transitive and connected on distinct vectors |
| Geom.CompareVecLexi | lib/polypaths_planar_override/planar.h:189-197 | the comparator returns -1, 0 or 1; 0 exactly for VEC_EQ, negative exactly for VEC_LT(a, b), positive exactly for VEC_LT(b, a) |
| Geom.CompareVecLexiAntisymmetric | lib/polypaths_planar_override/planar.h:189-197 | compare(a, b) == -compare(b, a) |
| Geom.CompareVecLexiTransitive | lib/polypaths_planar_override/planar.h:189-197 | the weak and the strict forms of the comparator's order are transitive |
| Geom.AlmostEq | lib/polypaths_planar_override/planar.h:53 | almost_eq(a, b) holds exactly for b strictly within epsilon of a |
| Geom.AlmostEqProperties | lib/polypaths_planar_override/planar.h:53 | the test is symmetric, reflexive for a positive tolerance, accepts half a tolerance and rejects a whole one |
| Geom.AlmostEqNotTransitive | lib/polypaths_planar_override/planar.h:53 | with the default tolerance, 0 ~ 0.75e and 0.75e ~ 1.5e, but not 0 ~ 1.5e |
| BBoxes.BBox.constructor | lib/polypaths_planar_override/planar.h:513-514 | the zero-filled object `tp_alloc` returns: both corners are (0, 0) before the loop sets them; FromSeq2 overwrites them with the sentinels |
| BBoxes.Grow | lib/polypaths_planar_override/planar.h:519-530 | one iteration of the loop: four independent updates of the corners |
| BBoxes.ExtentOf | lib/polypaths_planar_override/planar.h:516-531 | the corners after the loop has seen every point, from the sentinels; FromSeq2 is proved to compute it and ExtentBounds/ExtentAttained state its meaning |
| BBoxes.FromSeq2 | lib/polypaths_planar_override/planar.h:506-534 | a fresh box whose corners are the extent of the sequence after the min/max loop |
| BBoxes.ExtentBounds | lib/polypaths_planar_override/planar.h:518-531 | every point lies within the box: min.x <= p.x <= max.x and min.y <= p.y <= max.y |
| BBoxes.ExtentWithinSentinels | lib/polypaths_planar_override/planar.h:516-517 | the box never widens past the FLT_MAX sentinels |
| BBoxes.ExtentAttained | lib/polypaths_planar_override/planar.h:518-531 | on non-empty in-range input, each of the four bounds is the coordinate of some point |
| BBoxes.ExtentOfOnePoint | build/lib/planar/test/test_box.py:25-28 | a single in-range point gives min == max == that point |
| BBoxes.ExtentOfNothing | lib/polypaths_planar_override/planar.h:516-517 | no points leave the inverted sentinels min = FLT_MAX, max = -FLT_MAX |
| BBoxes.ContainsPoint | lib/polypaths_planar_override/planar.h:536-538 | the containment macro; its half-open meaning is ContainsCorners and ContainsImpliesClosed |
| BBoxes.ContainsCorners | lib/polypaths_planar_override/planar.h:536-538 | (min.x, max.y) is inside exactly when the box has positive width and height; min, max and (max.x, min.y) are never inside |
| BBoxes.ContainsImpliesClosed | lib/polypaths_planar_override/planar.h:536-538 | containment is half-open: x in [min.x, max.x) and y in (min.y, max.y] |
| BBoxes.EmptyBoxContainsNothing | lib/polypaths_planar_override/planar.h:516-517 | the sentinel box contains no point |
| BBoxes.PointBoxContainsNothing | lib/polypaths_planar_override/planar.h:536-538 | the box of one point contains no point, not even that one |
| BBoxes.ContainsPointExample | build/lib/planar/test/test_box.py:175-184 | the box of (-1, -2) and (3, 0) contains (-1, 0) and (-0.5, -1) but none of (-1, -2), (3, 0) and (3, -2) |
| Polygons.HasFlag | lib/polypaths_planar_override/planar.h:143 | a bit of the `flags` word is set; InitialFlags, Invalidated, RecordConvex and RecordSimple state how the word moves |
| Polygons.ConvexKnown | lib/polypaths_planar_override/planar.h:152-153 | the POLY_CONVEX_KNOWN_FLAG bit; its transitions are InitialFlags, Invalidated and RecordConvex |
| Polygons.Convex | lib/polypaths_planar_override/planar.h:153-154 | the POLY_CONVEX_FLAG bit; its transitions are InitialFlags, Invalidated and RecordConvex |
| Polygons.SimpleKnown | lib/polypaths_planar_override/planar.h:154-155 | the POLY_SIMPLE_KNOWN_FLAG bit; its transitions are InitialFlags, Invalidated, RecordConvex and RecordSimple |
| Polygons.Simple | lib/polypaths_planar_override/planar.h:155-156 | the POLY_SIMPLE_FLAG bit; its transitions are InitialFlags, Invalidated, RecordConvex and RecordSimple |
| Polygons.NothingKnown | lib/polypaths_planar_override/planar.h:152-161 | none of the six known bits is set; Invalidated and HintsOfLargerPolygons state when that holds |
| Polygons.FlagsConsistent | lib/polypaths_planar_override/planar.h:152-161 | a value bit only with its known bit, and known convex implies known simple; InitialFlags, Invalidated, RecordConvex and RecordSimple preserve it |
| Polygons.InitialFlags | test/test_polygon.py:45-81 | the flags are consistent and hold only cache bits |
| Polygons.Invalidated | test/test_polygon.py:140-176 | a vertex assignment clears every cache bit, keeps every other bit, and leaves the word consistent |
| Polygons.RecordConvex | test/test_polygon.py:83-125 | after classification convexity is known with the classifier's answer; a convex answer makes simplicity known true; a non-convex answer leaves simplicity as it was |
| Polygons.RecordSimple | test/test_polygon.py:126-138 | after the test simplicity is known with its answer, and convexity is untouched |
| Polygons.TriangleIsKnownConvexAndSimple | test/test_polygon.py:45-53 | a triangle is known convex and known simple, whatever the hints, `is_convex=False` included |
| Polygons.HintsOfLargerPolygons | test/test_polygon.py:55-81 | with no hints nothing is known; `is_convex=True` makes the polygon known convex and simple; `is_simple=True` alone leaves convexity unknown |
| Polygons.MutationScenario | test/test_polygon.py:140-176 | the flag states of the mutation test, step by step |
| Polygons.Polygon.Alloc | lib/polypaths_planar_override/planar.h:554-558 | size + 2 zero-filled slots, vert one slot in, a zero flag word |
| Polygons.Polygon.Vert | lib/polypaths_planar_override/planar.h:557 | `vert[i]`, the slot one past `data[i]`; Vertices states that the size vertices are data[1] to data[size] |
| Polygons.Polygon.Vertices | lib/polypaths_planar_override/planar.h:552-557 | the size vertices, vertex i being data[i + 1] |
| Polygons.Polygon.IsConvexKnown | test/test_polygon.py:45-48 | the `is_convex_known` property: the convex-known flag bit |
| Polygons.Polygon.IsSimpleKnown | test/test_polygon.py:50-53 | the `is_simple_known` property: the simple-known flag bit |
| Polygons.Polygon.SetItem | test/test_polygon.py:140-176 | an index within [-size, size) replaces that vertex (a negative index counts from the end) and invalidates the caches; any other index is an IndexError that changes nothing |
| Polygons.Polygon.IsConvex | test/test_polygon.py:83-95 | a known answer is returned without change; otherwise the classifier's answer is cached and returned |
| Polygons.Polygon.IsSimple | test/test_polygon.py:126-138 | a known answer is returned without change; otherwise the test's answer is cached and returned |
| Polygons.PolyNew | lib/polypaths_planar_override/planar.h:542-560 | fails with ValueError("Polygon: minimum of 3 vertices required") exactly when size < 3; otherwise a fresh polygon of size vertices in size + 2 slots, vert[i] being data[i + 1] |
| Polygons.FromPoints | test/test_polygon.py:25-37 | fewer than 3 points is a ValueError; otherwise the polygon holds the points in order, with the flags the hints set |
| Graham.SortedCons | test/perf/poly_hull.py:20 | a sequence with a head is sorted exactly when its tail is sorted and lies above the head |
| Graham.AllAboveByElements | test/perf/poly_hull.py:20 | a lower bound of a sequence bounds any sub-multiset of it |
| Graham.Insert | test/perf/poly_hull.py:20 | one insertion step of the sort; InsertPermutes and InsertSorted state its meaning |
| Graham.InsertPermutes | test/perf/poly_hull.py:20 | insertion adds exactly the new point |
| Graham.InsertSorted | test/perf/poly_hull.py:20 | insertion into a sorted sequence keeps it sorted |
| Graham.SortLexi | test/perf/poly_hull.py:20 | `sorted` returns a lexicographically sorted permutation of its input |
| Graham.Reverse | test/perf/poly_hull.py:37 | `[::-1]` has the same length, with entry i being entry n-1-i of the input |
| Graham.TrimEnds | test/perf/poly_hull.py:47 | `[1:-1]` drops the first and the last entry, and is empty below two entries |
| Graham.StrictTurnsPrefix | test/perf/poly_hull.py:25-32 | popping keeps the chain's strict turns |
| Graham.StrictTurnsPush | test/perf/poly_hull.py:25-33 | pushing a point that makes a strict clockwise turn with the top two keeps the chain's strict turns |
| Graham.PopWhile | test/perf/poly_hull.py:25-32 | the inner loop pops only from the top, never pops the first entry, and stops at a strict clockwise turn (SIDE < 0) or one entry |
| Graham.ChainOf | test/perf/poly_hull.py:24-33 | the specification of one chain: every point in order is pushed after PopWhile; BuildChain is proved to compute it |
| Graham.ChainEnds | test/perf/poly_hull.py:24-33 | the chain starts at the first point and ends at the last; it has two entries once there are two points; it is no longer than the points |
| Graham.ChainTurnsStrictly | test/perf/poly_hull.py:25-33 | every three consecutive chain entries turn strictly clockwise (SIDE < 0) |
| Graham.ChainOfPrefixStep | test/perf/poly_hull.py:24-33 | one outer iteration pops, then pushes the next point |
| Graham.BuildChain | test/perf/poly_hull.py:21-33 | the stack loop computes the chain of the points |
| Graham.GrahamHullOf | test/perf/poly_hull.py:15-47 | the specification of the hull: the upper chain of the sorted points, then the chain of the reversed order without its ends |
| Graham.GrahamHull | test/perf/poly_hull.py:15-47 | the upper chain followed by the lower chain without its ends; every point is an input point; the first point is the lexicographic minimum |
| Graham.EmbedsPrefix | test/perf/poly_hull.py:25-32 | a prefix of an embedded chain is embedded by the prefix of its indices |
| Graham.EmbedsPush | test/perf/poly_hull.py:33 | pushing the next point extends the embedding |
| Graham.ChainIsSubsequence | test/perf/poly_hull.py:24-46 | each chain is a subsequence of the order it was built from |
| Graham.SubsequenceElements | test/perf/poly_hull.py:24-46 | a subsequence holds only points of its sequence |
| Graham.SortedElements | test/perf/poly_hull.py:20 | sorting keeps exactly the input points |
| Graham.ReversedElements | test/perf/poly_hull.py:37 | reversal keeps exactly the input points |
| Graham.GrahamHullElements | test/perf/poly_hull.py:15-47 | every point of the hull is an input point |
| Graham.SortedFirstIsMinimum | test/perf/poly_hull.py:20 | the head of a sorted sequence is its minimum |
| Graham.GrahamHullStartsAtMinimum | test/perf/poly_hull.py:20-33 | on non-empty input, the hull starts at the lexicographically smallest point |
| Graham.ChainsShareEnds | test/perf/poly_hull.py:24-47 | the upper chain runs from the smallest point to the largest and the lower chain back; both turn strictly at every interior entry; the hull is the upper chain followed by the lower chain without its ends |
| QuickHull.BinetCauchy | test/perf/poly_hull.py:107-116 | dot(a,c)·dot(b,d) − dot(a,d)·dot(b,c) = cross(a,b)·cross(c,d) |
| QuickHull.CrossIsSide | test/perf/poly_hull.py:105-106 | the cross product of a − c and b − c is SIDE(c, a, b) |
| QuickHull.Denominator | test/perf/poly_hull.py:105-110 | the barycentric denominator of pp -> p0 -> p1; DenominatorIsSquare states that it is SIDE(p0, p1, pp) squared |
| QuickHull.Barycentric | test/perf/poly_hull.py:105-116 | the barycentric coordinates u and v of a point; BarycentricSigns, BarycentricOfPartitionPoint and BarycentricNotBothNegative state their signs |
| QuickHull.DenominatorIsSquare | test/perf/poly_hull.py:105-110 | the barycentric denominator is SIDE(p0, p1, pp) squared, zero exactly for a colinear partition point |
| QuickHull.BarycentricSigns | test/perf/poly_hull.py:105-123 | with pp strictly left of p0 -> p1: v < 0 exactly when the point is strictly left of p0 -> pp, and u < 0 exactly when it is strictly left of pp -> p1 |
| QuickHull.BarycentricOfPartitionPoint | test/perf/poly_hull.py:117-123 | the partition point has u = v = 0, so it goes to neither list |
| QuickHull.SideSplit | test/perf/poly_hull.py:117-118 | SIDE splits over a fourth point |
| QuickHull.BarycentricNotBothNegative | test/perf/poly_hull.py:117-118 | for a point no further than the partition point, u and v are not both negative |
| QuickHull.FurthestOf | test/perf/poly_hull.py:86-94 | the first loop of `_qhull_partition` as a fold from (-1.0, unbound); FurthestIsFirstMaximum states its meaning |
| QuickHull.FurthestIsFirstMaximum | test/perf/poly_hull.py:86-94 | the search yields the maximal distance, at least -1.0; no point is found exactly when every distance is at most -1.0; a found point is an input point at that distance, and every earlier point is strictly closer |
| QuickHull.FurthestIsAPoint | test/perf/poly_hull.py:90-94 | a found partition point is one of the points |
| QuickHull.SplitOf | test/perf/poly_hull.py:111-123 | the second loop as a fold: v < 0 goes left, otherwise u < 0 goes right; SplitMembers and SplitShrinks state its meaning |
| QuickHull.SplitMembers | test/perf/poly_hull.py:111-123 | the left list holds exactly the points with v < 0; the right list holds exactly those with v >= 0 and u < 0 |
| QuickHull.SplitShrinks | test/perf/poly_hull.py:111-123 | together the two lists are no longer than the points, and shorter when the partition point is among them, so the recursion terminates |
| QuickHull.Partition | test/perf/poly_hull.py:84-137 | the specification of `_qhull_partition`: what it appends to hull, or the error it raises; PartitionShape and PartitionFailsOnlyByDivision state its meaning |
| QuickHull.QhullPartition | test/perf/poly_hull.py:84-137 | the call appends the partition of the points to hull, or raises its error |
| QuickHull.Appended | test/perf/poly_hull.py:125-137 | hull after a call that appends to it, or that call's error; QhullPartition's ensures uses it to tie the mutated hull to Partition |
| QuickHull.SetAdd | test/perf/poly_hull.py:66-68 | `set.add` on a set kept as a sequence; SetAddNoRepeats states its meaning |
| QuickHull.Discard | test/perf/poly_hull.py:69-72 | `set.discard` keeps exactly the entries other than x |
| QuickHull.NoRepeatsCons | test/perf/poly_hull.py:57-58 | a sequence with a head has no repeats exactly when its tail has none and does not hold the head |
| QuickHull.SetAddNoRepeats | test/perf/poly_hull.py:66-68 | `set.add` keeps a set a set and adds exactly the point |
| QuickHull.DiscardNoRepeats | test/perf/poly_hull.py:69-72 | `set.discard` keeps a set a set |
| QuickHull.ExtremesOf | test/perf/poly_hull.py:51-56 | the extremes loop as a fold; ExtremesBound, LeftmostIsFirst and RightmostIsFirst state its meaning |
| QuickHull.SidesOf | test/perf/poly_hull.py:57-68 | the side loop as a fold; SidesMembers states its meaning |
| QuickHull.UpperLower | test/perf/poly_hull.py:57-72 | the two sets after the four discards; UpperLowerMembers states its meaning |
| QuickHull.HalfHull | test/perf/poly_hull.py:73-81 | one side of the hull: a partition of a non-empty set, or just the start point |
| QuickHull.QuickHullOf | test/perf/poly_hull.py:49-82 | the specification of quick_hull: upper side then lower side, or the first error; QuickHullErrors and QuickHullShape state its meaning |
| QuickHull.QuickHull | test/perf/poly_hull.py:49-82 | the method computes quick_hull's result or error |
| QuickHull.ExtremesBound | test/perf/poly_hull.py:51-56 | leftmost and rightmost are input points with the least and the greatest x |
| QuickHull.LeftmostIsFirst | test/perf/poly_hull.py:51-56 | leftmost is the first point of least x |
| QuickHull.RightmostIsFirst | test/perf/poly_hull.py:51-56 | rightmost is the first point of greatest x, though the `elif` skips points that lowered leftmost |
| QuickHull.SidesMembers | test/perf/poly_hull.py:57-68 | the upper set is exactly the points with SIDE > 0 and the lower set exactly the rest; neither has repeats |
| QuickHull.UpperLowerMembers | test/perf/poly_hull.py:57-72 | after the discards both sets exclude leftmost and rightmost; otherwise the upper set is exactly the points strictly left of the line and the lower set exactly the rest |
| QuickHull.PartitionShape | test/perf/poly_hull.py:125-137 | with p0 not among the points, a successful partition appends p0 first and after it only input points, so never p1 when p1 is not among them |
| QuickHull.PartitionFailsOnlyByDivision | test/perf/poly_hull.py:86-110 | on non-empty points none of which is strictly right of the line, partition_point is always bound, so the only error is ZeroDivisionError |
| QuickHull.QuickHullErrors | test/perf/poly_hull.py:49-82 | no points raise IndexError; any other input succeeds or raises ZeroDivisionError |
| QuickHull.PartitionOfColinear | test/perf/poly_hull.py:84-110 | points that all lie on the line make `_qhull_partition` raise ZeroDivisionError |
| QuickHull.QuickHullRaisesOnColinearLower | test/perf/poly_hull.py:49-82 | with no point strictly right of leftmost -> rightmost and another point on that line, quick_hull raises ZeroDivisionError |
| QuickHull.QuickHullShape | test/perf/poly_hull.py:73-82 | a successful hull is leftmost, then upper points, then rightmost, then lower points other than the ends; every point is an input point |
| QuickHull.PartitionOfOnePoint | test/perf/poly_hull.py:84-137 | one point is its own partition point: off the line it appends p0 and the point; on the line it raises ZeroDivisionError; with SIDE -1.0 or below it raises UnboundLocalError |
| QuickHull.DiscardCons | test/perf/poly_hull.py:69-72 | `set.discard` on a sequence with a head |
| QuickHull.ColinearExtremes | test/perf/poly_hull.py:51-56 | for three points in increasing x, given left, middle, right, the extremes are the outer two |
| QuickHull.ColinearUpperLower | test/perf/poly_hull.py:57-72 | for three colinear points, the upper set is empty and the lower set is just the middle point |
| QuickHull.QuickHullColinearRaises | test/perf/poly_hull.py:49-110 | quick_hull raises ZeroDivisionError on three colinear points given as left, middle, right |
| QuickHull.QuickHullColinearExample | test/perf/poly_hull.py:49-82 | quick_hull raises ZeroDivisionError on (0, 0), (1, 0), (2, 0) |

Proof helpers about plain arithmetic and sequences have no row, because they model no source line. These are Geom.FractionInUnit, QuickHull.ProductPositive, QuickHull.ProductZero, QuickHull.SquareSign, QuickHull.ScaledSign, QuickHull.ConcatAssociative and QuickHull.ConcatIndex.

## Left out

- QuickHull.Partition: Python's recursion limit is not modelled. Deep recursion at `poly_hull.py` lines 126 and 133 would raise RecursionError; here the recursion has no depth bound.
- Python C-API plumbing in planar.h: argument parsing, reference counting, type checks, `repr`, the `*_FromDoubles` allocators and the error macros. These are foreign calls.
- `cos_sin_deg`, `radians`, `degrees` and `hash_double`: floating-point trigonometry and bit-level hashing.
- `lib/polypaths_planar_override/cmodule.c`: module registration. `EPSILON2` is unused because nothing here squares the tolerance.
- Double-precision effects: NaN, rounding, overflow past ±FLT_MAX, and the epsilon behaviour at boundaries. All arithmetic is exact on reals.
- Geom.AlmostEq: epsilon is a parameter because the module lets it be changed at run time. The default tolerance is a constant.
- BBoxes.FromSeq2: allocation failure (a NULL result) is not modelled.
- The Python `BoundingBox` class rejects an empty sequence with ValueError before `fromSeq2` runs. That check is not part of this model; `ExtentOfNothing` states the C builder's own sentinel result.
- Polygons.PolyNew: allocation failure is not modelled.
- The `data[0]`/`data[size + 1]` copies of the last and first vertices are written by callers that are not part of this model; the slots are only allocated here.
- The convexity and simplicity classifiers, centroid, radii, winding and crossing containment, y-monotone tests, tangents and the production `Polygon.convex_hull` are not part of this model: their source is not among the modelled files.
  - `IsConvex` and `IsSimple` take the classifier's answer as a parameter.
  - The flag transitions follow the polygon tests. The C code that sets the flags is not part of this model. Four modelled choices are assumptions that no test observes:
    - Polygons.InitialFlags: `is_convex=False` on more than three vertices gives "convex known, not convex";
    - Polygons.InitialFlags: `is_convex=True` overrides `is_simple=False`;
    - Polygons.InitialFlags: `is_simple=False` gives "simple known, not simple";
    - Polygons.Polygon.SetItem: assigning a vertex clears a triangle's known bits too, as it does for larger polygons.
- Python `set` iteration is in hash order. Sets are modelled as sequences without repeats in insertion order. Which point wins a tie in `_qhull_partition`, and the order of `left_points`/`right_points`, therefore follow insertion order.
- The inline cross products in `poly_hull.py` are written as calls of `Side`, and the inline dot products as one `Barycentric` value; the formulas are the source's.
- `graham_hull` turns points into tuples before sorting; points are kept as `Vec2` values here.
- QuickHull.QuickHullShape: convexity of the returned hulls (the timing harness's check) is not proved. Only the split into an upper and a lower chain, the end points and membership are.
- Graham.GrahamHull: convexity of the whole hull is not proved. The strict turns of each chain are (`ChainsShareEnds`).
- The random point generation and the timing harness of `poly_hull.py` (lines 139-227) and the other perf scripts: randomness, timing and calls into code that is not part of this model.
