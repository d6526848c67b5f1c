/** The reference hull `quick_hull`: split the points by the line from the
    leftmost to the rightmost point, then let `_qhull_partition` recurse on
    the point furthest from each line, dropping what lies inside the
    triangle it spans.

    The Python errors the code can raise are results: IndexError for no
    points, UnboundLocalError when no point is further than -1.0 from the
    line, ZeroDivisionError when the partition point is colinear with the
    line. Python sets are modelled as sequences without repeats, kept in
    insertion order.

    Each stage is written twice: a function (`Partition`, `QuickHullOf`)
    that is the specification, about which the properties below are
    proved, and a method (`QhullPartition`, `QuickHull`) that runs the
    source's loops and is proved equal to it. */
module QuickHull {
  import opened Geom
  import opened Wrappers

  // ---------------------------------------------------------------------
  // Vector arithmetic of `planar.Vec2`

  function Sub(a: Vec2, b: Vec2): Vec2
  {
    Vec2(a.x - b.x, a.y - b.y)
  }

  /** `a.dot(b)`; `a.length2` is `Dot(a, a)`. */
  function Dot(a: Vec2, b: Vec2): real
  {
    a.x * b.x + a.y * b.y
  }

  /** The 2D cross product. */
  function Cross(a: Vec2, b: Vec2): real
  {
    a.x * b.y - a.y * b.x
  }

  /** The Binet-Cauchy identity in the plane. */
  lemma BinetCauchy(a: Vec2, b: Vec2, c: Vec2, d: Vec2)
    ensures Dot(a, c) * Dot(b, d) - Dot(a, d) * Dot(b, c) == Cross(a, b) * Cross(c, d)
  {
  }

  /** The cross product of the vectors from c to a and b is SIDE(c, a, b). */
  lemma CrossIsSide(a: Vec2, b: Vec2, c: Vec2)
    ensures Cross(Sub(a, c), Sub(b, c)) == Side(c, a, b)
  {
  }

  // ---------------------------------------------------------------------
  // Barycentric coordinates (lines 105-117)

  /** u and v of the source, kept as one value. */
  datatype Bary = Bary(u: real, v: real)

  /** The barycentric denominator of the triangle pp -> p0 -> p1: the product
      of the squared lengths of pp -> p0 and pp -> p1, less the square of
      their dot product. */
  function Denominator(p0: Vec2, p1: Vec2, pp: Vec2): real
  {
    var v0 := Sub(p0, pp);
    var v1 := Sub(p1, pp);
    Dot(v0, v0) * Dot(v1, v1) - Dot(v0, v1) * Dot(v0, v1)
  }

  /** u and v of point p, from the dot products and `inv_denom`. */
  function Barycentric(p0: Vec2, p1: Vec2, pp: Vec2, invDenom: real, p: Vec2): Bary
  {
    var v0 := Sub(p0, pp);
    var v1 := Sub(p1, pp);
    var v2 := Sub(p, pp);
    var dot00 := Dot(v0, v0);
    var dot01 := Dot(v0, v1);
    var dot11 := Dot(v1, v1);
    var dot02 := Dot(v0, v2);
    var dot12 := Dot(v1, v2);
    Bary((dot11 * dot02 - dot01 * dot12) * invDenom, (dot00 * dot12 - dot01 * dot02) * invDenom)
  }

  /** The denominator is the square of SIDE(p0, p1, pp): it is zero exactly
      when the partition point is colinear with the line. */
  lemma DenominatorIsSquare(p0: Vec2, p1: Vec2, pp: Vec2)
    ensures Denominator(p0, p1, pp) == Side(p0, p1, pp) * Side(p0, p1, pp)
    ensures Denominator(p0, p1, pp) == 0.0 <==> Side(p0, p1, pp) == 0.0
  {
    var v0 := Sub(p0, pp);
    var v1 := Sub(p1, pp);
    BinetCauchy(v0, v1, v0, v1);
    CrossIsSide(p0, p1, pp);
    SideCyclic(p0, p1, pp);
    var d := Side(p0, p1, pp);
    assert Cross(v0, v1) == d;
    assert Denominator(p0, p1, pp) == d * d;
    SquareSign(Denominator(p0, p1, pp), d);
  }

  /** A product of two positive reals is positive. */
  lemma ProductPositive(p: real, a: real, b: real)
    requires p == a * b && a > 0.0 && b > 0.0
    ensures p > 0.0
  {
  }

  /** A product with a zero factor is zero. */
  lemma ProductZero(p: real, a: real, b: real)
    requires p == a * b && a == 0.0
    ensures p == 0.0
  {
  }

  /** A square is positive, or zero at zero. */
  lemma SquareSign(p: real, d: real)
    requires p == d * d
    ensures d != 0.0 ==> p > 0.0
    ensures d == 0.0 ==> p == 0.0
  {
    if d > 0.0 {
      ProductPositive(p, d, d);
    } else if d < 0.0 {
      assert p == (-d) * (-d);
      ProductPositive(p, -d, -d);
    } else {
      ProductZero(p, d, d);
    }
  }

  /** x * y * z with x and z positive has the sign of y. */
  lemma ScaledSign(x: real, y: real, z: real)
    requires x > 0.0 && z > 0.0
    ensures x * y * z < 0.0 <==> y < 0.0
    ensures x * y * z > 0.0 <==> y > 0.0
  {
    if y < 0.0 {
      assert x * (-y) > 0.0;
      assert x * (-y) * z > 0.0;
    } else if y > 0.0 {
      assert x * y > 0.0;
    } else {
      assert x * y == 0.0;
    }
  }

  /** With its own denominator and the partition point strictly left of
      p0 -> p1 (SIDE > 0): v < 0 exactly when p is strictly left of
      p0 -> pp, and u < 0 exactly when p is strictly left of pp -> p1. */
  lemma BarycentricSigns(p0: Vec2, p1: Vec2, pp: Vec2, p: Vec2)
    requires Side(p0, p1, pp) > 0.0
    ensures Denominator(p0, p1, pp) != 0.0
    ensures var b := Barycentric(p0, p1, pp, 1.0 / Denominator(p0, p1, pp), p);
            (b.v < 0.0 <==> Side(p0, pp, p) > 0.0) &&
            (b.u < 0.0 <==> Side(pp, p1, p) > 0.0)
  {
    DenominatorIsSquare(p0, p1, pp);
    var d := Side(p0, p1, pp);
    var inv := 1.0 / Denominator(p0, p1, pp);
    assert inv > 0.0;
    var v0 := Sub(p0, pp);
    var v1 := Sub(p1, pp);
    var v2 := Sub(p, pp);
    var b := Barycentric(p0, p1, pp, inv, p);
    BinetCauchy(v0, v1, v0, v2);
    BinetCauchy(v1, v0, v1, v2);
    CrossIsSide(p0, p1, pp);
    SideCyclic(p0, p1, pp);
    CrossIsSide(p0, p, pp);
    CrossIsSide(p1, p, pp);
    assert Cross(v1, v0) == -d;
    assert b.v == d * Side(pp, p0, p) * inv;
    assert b.u == d * (-Side(pp, p1, p)) * inv;
    ScaledSign(d, Side(pp, p0, p), inv);
    ScaledSign(d, -Side(pp, p1, p), inv);
    SideCyclic(pp, p0, p);
    SideAntisymmetric(p0, pp, p);
  }

  /** The partition point itself has u = v = 0. */
  lemma BarycentricOfPartitionPoint(p0: Vec2, p1: Vec2, pp: Vec2, invDenom: real)
    ensures Barycentric(p0, p1, pp, invDenom, pp) == Bary(0.0, 0.0)
  {
  }

  /** SIDE splits over a fourth point d. */
  lemma SideSplit(a: Vec2, b: Vec2, c: Vec2, d: Vec2)
    ensures Side(a, b, c) == Side(d, b, c) + Side(a, d, c) + Side(a, b, d)
  {
  }

  /** The source's remark: since the partition point is furthest from
      p0 -> p1, u and v are never both negative. */
  lemma BarycentricNotBothNegative(p0: Vec2, p1: Vec2, pp: Vec2, p: Vec2)
    requires Side(p0, p1, pp) > 0.0
    requires Side(p0, p1, p) <= Side(p0, p1, pp)
    ensures Denominator(p0, p1, pp) != 0.0
    ensures var b := Barycentric(p0, p1, pp, 1.0 / Denominator(p0, p1, pp), p);
            !(b.v < 0.0 && b.u < 0.0)
  {
    BarycentricSigns(p0, p1, pp, p);
    var b := Barycentric(p0, p1, pp, 1.0 / Denominator(p0, p1, pp), p);
    if b.v < 0.0 && b.u < 0.0 {
      SideSplit(p0, p1, p, pp);
      assert false;
    }
  }

  // ---------------------------------------------------------------------
  // The furthest point (lines 86-95)

  /** The first loop of `_qhull_partition` after it has visited `points`:
      the largest distance seen, starting from -1.0, and the point that
      first reached it (None while `partition_point` is still unbound).
      The distance is the source's cross product, which is SIDE(p0, p1, p). */
  function FurthestOf(points: seq<Vec2>, p0: Vec2, p1: Vec2): (real, Option<Vec2>)
  {
    if |points| == 0 then (-1.0, None)
    else
      var prev := FurthestOf(points[..|points| - 1], p0, p1);
      var p := points[|points| - 1];
      var dist := Side(p0, p1, p);
      if dist > prev.0 then (dist, Some(p)) else prev
  }

  /** The search finds the maximal distance: it is at least -1.0 and no
      point is further; no point is found exactly when every distance is
      at most -1.0; a found point is an input point at that distance, and
      every earlier point is strictly closer, so the first maximum wins. */
  lemma {:induction false} FurthestIsFirstMaximum(points: seq<Vec2>, p0: Vec2, p1: Vec2)
    ensures FurthestOf(points, p0, p1).0 >= -1.0
    ensures forall q :: q in points ==> Side(p0, p1, q) <= FurthestOf(points, p0, p1).0
    ensures FurthestOf(points, p0, p1).1.None? <==> forall q :: q in points ==> Side(p0, p1, q) <= -1.0
    ensures FurthestOf(points, p0, p1).1.None? ==> FurthestOf(points, p0, p1).0 == -1.0
    ensures FurthestOf(points, p0, p1).1.Some? ==>
      var pp := FurthestOf(points, p0, p1).1.value;
      Side(p0, p1, pp) == FurthestOf(points, p0, p1).0 &&
      exists i :: 0 <= i < |points| && points[i] == pp &&
        forall j :: 0 <= j < i ==> Side(p0, p1, points[j]) < Side(p0, p1, pp)
  {
    if |points| > 0 {
      var n := |points|;
      var init := points[..n - 1];
      var p := points[n - 1];
      FurthestIsFirstMaximum(init, p0, p1);
      var prev := FurthestOf(init, p0, p1);
      assert points == init + [p];
      forall q | q in points ensures q in init || q == p {
      }
      if Side(p0, p1, p) > prev.0 {
        assert points[n - 1] == p;
        forall j | 0 <= j < n - 1 ensures Side(p0, p1, points[j]) < Side(p0, p1, p) {
          assert points[j] in init;
        }
      } else if prev.1.Some? {
        var pp := prev.1.value;
        var i :| 0 <= i < |init| && init[i] == pp &&
          forall j :: 0 <= j < i ==> Side(p0, p1, init[j]) < Side(p0, p1, pp);
        assert points[i] == pp;
        forall j | 0 <= j < i ensures Side(p0, p1, points[j]) < Side(p0, p1, pp) {
          assert points[j] == init[j];
        }
      }
    }
  }

  /** A found partition point is one of the points. */
  lemma FurthestIsAPoint(points: seq<Vec2>, p0: Vec2, p1: Vec2)
    requires FurthestOf(points, p0, p1).1.Some?
    ensures FurthestOf(points, p0, p1).1.value in points
  {
    FurthestIsFirstMaximum(points, p0, p1);
  }

  // ---------------------------------------------------------------------
  // The split into left and right points (lines 100-123)

  /** The second loop of `_qhull_partition` after it has visited `points`:
      v < 0 sends a point to the left list, otherwise u < 0 to the right
      list, otherwise (inside the triangle, or the partition point) it is
      dropped. */
  function SplitOf(points: seq<Vec2>, p0: Vec2, p1: Vec2, pp: Vec2, invDenom: real): (seq<Vec2>, seq<Vec2>)
  {
    if |points| == 0 then ([], [])
    else
      var prev := SplitOf(points[..|points| - 1], p0, p1, pp, invDenom);
      var p := points[|points| - 1];
      var b := Barycentric(p0, p1, pp, invDenom, p);
      if b.v < 0.0 then (prev.0 + [p], prev.1)
      else if b.u < 0.0 then (prev.0, prev.1 + [p])
      else prev
  }

  /** Exactly the points with v < 0 go left, and exactly those with
      v >= 0 and u < 0 go right; so no point goes both ways. */
  lemma {:induction false} SplitMembers(points: seq<Vec2>, p0: Vec2, p1: Vec2, pp: Vec2, invDenom: real, q: Vec2)
    ensures q in SplitOf(points, p0, p1, pp, invDenom).0 <==>
      q in points && Barycentric(p0, p1, pp, invDenom, q).v < 0.0
    ensures q in SplitOf(points, p0, p1, pp, invDenom).1 <==>
      q in points && Barycentric(p0, p1, pp, invDenom, q).v >= 0.0 && Barycentric(p0, p1, pp, invDenom, q).u < 0.0
  {
    if |points| > 0 {
      var init := points[..|points| - 1];
      SplitMembers(init, p0, p1, pp, invDenom, q);
      assert points == init + [points[|points| - 1]];
    }
  }

  /** Each point goes to at most one list, and the partition point to
      neither, so the two lists together are shorter than the points when
      the partition point is among them: the recursion measure decreases. */
  lemma {:induction false} SplitShrinks(points: seq<Vec2>, p0: Vec2, p1: Vec2, pp: Vec2, invDenom: real)
    ensures |SplitOf(points, p0, p1, pp, invDenom).0| + |SplitOf(points, p0, p1, pp, invDenom).1|
         <= |points| - (if pp in points then 1 else 0)
  {
    if |points| > 0 {
      var init := points[..|points| - 1];
      var p := points[|points| - 1];
      SplitShrinks(init, p0, p1, pp, invDenom);
      assert points == init + [p];
      assert pp in points <==> pp in init || pp == p;
      if p == pp {
        BarycentricOfPartitionPoint(p0, p1, pp, invDenom);
      }
    }
  }

  // ---------------------------------------------------------------------
  // _qhull_partition

  /** The points `_qhull_partition(hull, points, p0, p1)` appends to hull,
      or the error it raises. */
  function Partition(points: seq<Vec2>, p0: Vec2, p1: Vec2): Result<seq<Vec2>>
    decreases |points|
  {
    var found := FurthestOf(points, p0, p1).1;
    if found.None? then Err(UnboundLocalError)
    else
      var pp := found.value;
      var denom := Denominator(p0, p1, pp);
      if denom == 0.0 then Err(ZeroDivisionError)
      else
        var split := SplitOf(points, p0, p1, pp, 1.0 / denom);
        FurthestIsAPoint(points, p0, p1);
        SplitShrinks(points, p0, p1, pp, 1.0 / denom);
        var left := if |split.0| > 1 then Partition(split.0, p0, pp) else Ok([p0] + split.0);
        if left.Err? then left
        else
          var right := if |split.1| > 1 then Partition(split.1, pp, p1) else Ok([pp] + split.1);
          if right.Err? then right
          else Ok(left.value + right.value)
  }

  /** hull after a call that appends `r`, or the error of the call. */
  function Appended(hull: seq<Vec2>, r: Result<seq<Vec2>>): Result<seq<Vec2>>
  {
    if r.Ok? then Ok(hull + r.value) else r
  }

  lemma ConcatAssociative(a: seq<Vec2>, b: seq<Vec2>, c: seq<Vec2>)
    ensures a + b + c == a + (b + c)
  {
  }

  /** `_qhull_partition`: appends to hull, passed in and returned. */
  method QhullPartition(hull: seq<Vec2>, points: seq<Vec2>, p0: Vec2, p1: Vec2) returns (r: Result<seq<Vec2>>)
    ensures r == Appended(hull, Partition(points, p0, p1))
    decreases |points|
  {
    var furthest := -1.0;
    var partitionPoint: Option<Vec2> := None;
    for i := 0 to |points|
      invariant (furthest, partitionPoint) == FurthestOf(points[..i], p0, p1)
    {
      var p := points[i];
      // the cross product of p0 -> p1 with p0 -> p
      var dist := Side(p0, p1, p);
      if dist > furthest {
        furthest := dist;
        partitionPoint := Some(p);
      }
      assert points[..i + 1][..i] == points[..i];
    }
    assert points[..|points|] == points;
    if partitionPoint.None? {
      assert Partition(points, p0, p1) == Err(UnboundLocalError);
      assert Appended(hull, Partition(points, p0, p1)) == Err(UnboundLocalError);
      return Err(UnboundLocalError);
    }
    var pp := partitionPoint.value;
    var v0 := Sub(p0, pp);
    var v1 := Sub(p1, pp);
    var dot00 := Dot(v0, v0);
    var dot01 := Dot(v0, v1);
    var dot11 := Dot(v1, v1);
    var denom := dot00 * dot11 - dot01 * dot01;
    assert denom == Denominator(p0, p1, pp);
    if denom == 0.0 {
      assert Partition(points, p0, p1) == Err(ZeroDivisionError);
      assert Appended(hull, Partition(points, p0, p1)) == Err(ZeroDivisionError);
      return Err(ZeroDivisionError);
    }
    var invDenom := 1.0 / denom;
    var left: seq<Vec2> := [];
    var right: seq<Vec2> := [];
    for i := 0 to |points|
      invariant (left, right) == SplitOf(points[..i], p0, p1, pp, invDenom)
    {
      var p := points[i];
      var b := Barycentric(p0, p1, pp, invDenom, p);
      if b.v < 0.0 {
        left := left + [p];
      } else if b.u < 0.0 {
        right := right + [p];
      }
      assert points[..i + 1][..i] == points[..i];
    }
    assert points[..|points|] == points;
    FurthestIsAPoint(points, p0, p1);
    SplitShrinks(points, p0, p1, pp, invDenom);
    ghost var leftPart := if |left| > 1 then Partition(left, p0, pp) else Ok([p0] + left);
    ghost var rightPart := if |right| > 1 then Partition(right, pp, p1) else Ok([pp] + right);
    assert Partition(points, p0, p1) ==
      if leftPart.Err? then leftPart
      else if rightPart.Err? then rightPart
      else Ok(leftPart.value + rightPart.value);
    var h := hull;
    if |left| > 1 {
      var res := QhullPartition(h, left, p0, pp);
      if res.Err? {
        assert res == leftPart;
        assert Appended(hull, Partition(points, p0, p1)) == res;
        return res;
      }
      h := res.value;
    } else {
      h := h + [p0] + left;
    }
    assert h == hull + leftPart.value;
    if |right| > 1 {
      var res := QhullPartition(h, right, pp, p1);
      if res.Err? {
        assert res == rightPart;
        assert Appended(hull, Partition(points, p0, p1)) == res;
        return res;
      }
      h := res.value;
    } else {
      h := h + [pp] + right;
    }
    assert leftPart.Ok? && rightPart.Ok?;
    ConcatAssociative(hull, leftPart.value, rightPart.value);
    assert Partition(points, p0, p1) == Ok(leftPart.value + rightPart.value);
    assert h == hull + (leftPart.value + rightPart.value);
    r := Ok(h);
  }

  // ---------------------------------------------------------------------
  // quick_hull (lines 49-82)

  /** The first loop of quick_hull after visiting `points`, starting from
      `start` as both extremes: a strictly smaller x replaces leftmost,
      otherwise a strictly larger x replaces rightmost. */
  function ExtremesOf(points: seq<Vec2>, start: Vec2): (Vec2, Vec2)
  {
    if |points| == 0 then (start, start)
    else
      var prev := ExtremesOf(points[..|points| - 1], start);
      var p := points[|points| - 1];
      if p.x < prev.0.x then (p, prev.1)
      else if p.x > prev.1.x then (prev.0, p)
      else prev
  }

  /** `set.add`: a set kept as a sequence without repeats. */
  function SetAdd(s: seq<Vec2>, p: Vec2): seq<Vec2>
  {
    if p in s then s else s + [p]
  }

  /** `set.discard`: keeps every entry but x. */
  function Discard(s: seq<Vec2>, x: Vec2): (r: seq<Vec2>)
    ensures forall q :: q in r <==> q in s && q != x
  {
    if |s| == 0 then []
    else
      var rest := Discard(s[1..], x);
      assert forall q :: q in s <==> q == s[0] || q in s[1..];
      if s[0] == x then rest else [s[0]] + rest
  }

  /** No entry occurs twice. */
  predicate NoRepeats(s: seq<Vec2>)
  {
    forall i, j :: 0 <= i < j < |s| ==> s[i] != s[j]
  }

  /** A sequence with a head has no repeats when its tail has none and
      does not hold the head. */
  lemma NoRepeatsCons(a: Vec2, t: seq<Vec2>)
    ensures NoRepeats([a] + t) <==> a !in t && NoRepeats(t)
  {
    var s := [a] + t;
    if a !in t && NoRepeats(t) {
      forall i, j | 0 <= i < j < |s| ensures s[i] != s[j] {
        assert s[j] == t[j - 1];
        if i > 0 {
          assert s[i] == t[i - 1];
        }
      }
    }
    if NoRepeats(s) {
      forall k | 0 <= k < |t| ensures t[k] != a {
        assert s[0] == a && s[k + 1] == t[k];
      }
      forall i, j | 0 <= i < j < |t| ensures t[i] != t[j] {
        assert s[i + 1] == t[i] && s[j + 1] == t[j];
      }
    }
  }

  /** set.add keeps a set a set. */
  lemma SetAddNoRepeats(s: seq<Vec2>, p: Vec2)
    requires NoRepeats(s)
    ensures NoRepeats(SetAdd(s, p))
    ensures forall q :: q in SetAdd(s, p) <==> q in s || q == p
  {
    if p !in s {
      var r := s + [p];
      forall i, j | 0 <= i < j < |r| ensures r[i] != r[j] {
        if j == |s| {
          assert r[i] == s[i];
        } else {
          assert r[i] == s[i] && r[j] == s[j];
        }
      }
    }
  }

  /** set.discard keeps a set a set. */
  lemma {:induction false} DiscardNoRepeats(s: seq<Vec2>, x: Vec2)
    requires NoRepeats(s)
    ensures NoRepeats(Discard(s, x))
  {
    if |s| > 0 {
      assert s == [s[0]] + s[1..];
      NoRepeatsCons(s[0], s[1..]);
      DiscardNoRepeats(s[1..], x);
      if s[0] != x {
        NoRepeatsCons(s[0], Discard(s[1..], x));
      }
    }
  }

  /** The second loop of quick_hull after visiting `points`: points strictly
      left of leftmost -> rightmost (SIDE > 0) go to the upper set, all
      others to the lower set. The source's test is the cross product of
      leftmost -> rightmost with leftmost -> p, which is
      SIDE(leftmost, rightmost, p). */
  function SidesOf(points: seq<Vec2>, l: Vec2, r: Vec2): (seq<Vec2>, seq<Vec2>)
  {
    if |points| == 0 then ([], [])
    else
      var prev := SidesOf(points[..|points| - 1], l, r);
      var p := points[|points| - 1];
      if Side(l, r, p) > 0.0 then (SetAdd(prev.0, p), prev.1) else (prev.0, SetAdd(prev.1, p))
  }

  /** The upper and lower sets after the endpoints are discarded. */
  function UpperLower(points: seq<Vec2>, l: Vec2, r: Vec2): (seq<Vec2>, seq<Vec2>)
  {
    var sides := SidesOf(points, l, r);
    (Discard(Discard(sides.0, l), r), Discard(Discard(sides.1, l), r))
  }

  /** One side of the hull: `_qhull_partition` on a non-empty set, or just
      the start point. */
  function HalfHull(side: seq<Vec2>, a: Vec2, b: Vec2): Result<seq<Vec2>>
  {
    if |side| > 0 then Partition(side, a, b) else Ok([a])
  }

  /** The hull quick_hull returns, or the error it raises. */
  function QuickHullOf(points: seq<Vec2>): Result<seq<Vec2>>
  {
    if |points| == 0 then Err(IndexError)
    else
      var ext := ExtremesOf(points, points[0]);
      var sets := UpperLower(points, ext.0, ext.1);
      var upper := HalfHull(sets.0, ext.0, ext.1);
      if upper.Err? then upper
      else
        var lower := HalfHull(sets.1, ext.1, ext.0);
        if lower.Err? then lower
        else Ok(upper.value + lower.value)
  }

  /** quick_hull. */
  method QuickHull(points: seq<Vec2>) returns (r: Result<seq<Vec2>>)
    ensures r == QuickHullOf(points)
  {
    if |points| == 0 {
      return Err(IndexError);
    }
    var leftmost := points[0];
    var rightmost := points[0];
    for i := 0 to |points|
      invariant (leftmost, rightmost) == ExtremesOf(points[..i], points[0])
    {
      var p := points[i];
      if p.x < leftmost.x {
        leftmost := p;
      } else if p.x > rightmost.x {
        rightmost := p;
      }
      assert points[..i + 1][..i] == points[..i];
    }
    assert points[..|points|] == points;
    var upperPoints: seq<Vec2> := [];
    var lowerPoints: seq<Vec2> := [];
    for i := 0 to |points|
      invariant (upperPoints, lowerPoints) == SidesOf(points[..i], leftmost, rightmost)
    {
      var p := points[i];
      if Side(leftmost, rightmost, p) > 0.0 {
        upperPoints := SetAdd(upperPoints, p);
      } else {
        lowerPoints := SetAdd(lowerPoints, p);
      }
      assert points[..i + 1][..i] == points[..i];
    }
    assert points[..|points|] == points;
    upperPoints := Discard(upperPoints, leftmost);
    upperPoints := Discard(upperPoints, rightmost);
    lowerPoints := Discard(lowerPoints, leftmost);
    lowerPoints := Discard(lowerPoints, rightmost);
    assert (upperPoints, lowerPoints) == UpperLower(points, leftmost, rightmost);
    ghost var upperPart := HalfHull(upperPoints, leftmost, rightmost);
    ghost var lowerPart := HalfHull(lowerPoints, rightmost, leftmost);
    assert QuickHullOf(points) ==
      if upperPart.Err? then upperPart
      else if lowerPart.Err? then lowerPart
      else Ok(upperPart.value + lowerPart.value);
    var hull: seq<Vec2> := [];
    if |upperPoints| > 0 {
      r := QhullPartition(hull, upperPoints, leftmost, rightmost);
      if r.Err? {
        assert r == upperPart;
        return;
      }
      hull := r.value;
    } else {
      hull := hull + [leftmost];
    }
    assert upperPart.Ok? && hull == upperPart.value;
    if |lowerPoints| > 0 {
      r := QhullPartition(hull, lowerPoints, rightmost, leftmost);
      if r.Err? {
        assert r == lowerPart;
        return;
      }
      hull := r.value;
    } else {
      hull := hull + [rightmost];
    }
    assert lowerPart.Ok? && hull == upperPart.value + lowerPart.value;
    r := Ok(hull);
  }

  // ---------------------------------------------------------------------
  // Properties of quick_hull

  /** leftmost and rightmost are input points, with the least and the
      greatest x. */
  lemma {:induction false} ExtremesBound(points: seq<Vec2>)
    requires |points| > 0
    ensures var e := ExtremesOf(points, points[0]);
      e.0 in points && e.1 in points && forall q :: q in points ==> e.0.x <= q.x <= e.1.x
  {
    var n := |points|;
    var init := points[..n - 1];
    assert points == init + [points[n - 1]];
    if n > 1 {
      assert init[0] == points[0];
      ExtremesBound(init);
    }
  }

  /** With strict comparisons leftmost is the first point with the least
      x. */
  lemma {:induction false} LeftmostIsFirst(points: seq<Vec2>)
    requires |points| > 0
    ensures var e := ExtremesOf(points, points[0]);
      exists i :: 0 <= i < |points| && points[i] == e.0 && forall j :: 0 <= j < i ==> points[j].x > e.0.x
  {
    var n := |points|;
    var init := points[..n - 1];
    var e := ExtremesOf(points, points[0]);
    if n == 1 {
      assert init == [];
      assert ExtremesOf(init, points[0]) == (points[0], points[0]);
      assert points[0] == e.0;
    } else {
      assert init[0] == points[0];
      LeftmostIsFirst(init);
      var prev := ExtremesOf(init, points[0]);
      var i :| 0 <= i < |init| && init[i] == prev.0 && forall j :: 0 <= j < i ==> init[j].x > prev.0.x;
      if e.0 == prev.0 {
        assert points[i] == e.0;
        forall j | 0 <= j < i ensures points[j].x > e.0.x {
          assert points[j] == init[j];
        }
      } else {
        ExtremesBound(init);
        forall j | 0 <= j < n - 1 ensures points[j].x > e.0.x {
          assert points[j] == init[j] && init[j] in init;
        }
      }
    }
  }

  /** With strict comparisons rightmost is the first point with the
      greatest x: the `elif` skips no candidate, since a point left of
      leftmost is never right of rightmost. */
  lemma {:induction false} RightmostIsFirst(points: seq<Vec2>)
    requires |points| > 0
    ensures var e := ExtremesOf(points, points[0]);
      exists i :: 0 <= i < |points| && points[i] == e.1 && forall j :: 0 <= j < i ==> points[j].x < e.1.x
  {
    var n := |points|;
    var init := points[..n - 1];
    var e := ExtremesOf(points, points[0]);
    if n == 1 {
      assert init == [];
      assert ExtremesOf(init, points[0]) == (points[0], points[0]);
      assert points[0] == e.1;
    } else {
      assert init[0] == points[0];
      RightmostIsFirst(init);
      var prev := ExtremesOf(init, points[0]);
      var i :| 0 <= i < |init| && init[i] == prev.1 && forall j :: 0 <= j < i ==> init[j].x < prev.1.x;
      if e.1 == prev.1 {
        assert points[i] == e.1;
        forall j | 0 <= j < i ensures points[j].x < e.1.x {
          assert points[j] == init[j];
        }
      } else {
        ExtremesBound(init);
        forall j | 0 <= j < n - 1 ensures points[j].x < e.1.x {
          assert points[j] == init[j] && init[j] in init;
        }
      }
    }
  }

  /** The upper set holds exactly the input points strictly left of the
      line (SIDE > 0), the lower set exactly the others; both are sets. */
  lemma {:induction false} SidesMembers(points: seq<Vec2>, l: Vec2, r: Vec2)
    ensures forall q :: q in SidesOf(points, l, r).0 <==> q in points && Side(l, r, q) > 0.0
    ensures forall q :: q in SidesOf(points, l, r).1 <==> q in points && Side(l, r, q) <= 0.0
    ensures NoRepeats(SidesOf(points, l, r).0) && NoRepeats(SidesOf(points, l, r).1)
  {
    if |points| > 0 {
      var init := points[..|points| - 1];
      var p := points[|points| - 1];
      SidesMembers(init, l, r);
      assert points == init + [p];
      var prev := SidesOf(init, l, r);
      SetAddNoRepeats(prev.0, p);
      SetAddNoRepeats(prev.1, p);
    }
  }

  /** After the discards: upper points are the input points strictly left
      of leftmost -> rightmost other than its two ends, lower points the
      remaining input points other than the two ends. */
  lemma UpperLowerMembers(points: seq<Vec2>, l: Vec2, r: Vec2)
    ensures forall q :: q in UpperLower(points, l, r).0 <==>
      q in points && Side(l, r, q) > 0.0 && q != l && q != r
    ensures forall q :: q in UpperLower(points, l, r).1 <==>
      q in points && Side(l, r, q) <= 0.0 && q != l && q != r
    ensures NoRepeats(UpperLower(points, l, r).0) && NoRepeats(UpperLower(points, l, r).1)
  {
    var sides := SidesOf(points, l, r);
    SidesMembers(points, l, r);
    DiscardNoRepeats(sides.0, l);
    DiscardNoRepeats(Discard(sides.0, l), r);
    DiscardNoRepeats(sides.1, l);
    DiscardNoRepeats(Discard(sides.1, l), r);
  }

  /** Provided p0 is not among the points, a successful partition appends
      p0 first and after it only input points; in particular it never
      appends p1 when p1 is not among the points. */
  lemma {:induction false} PartitionShape(points: seq<Vec2>, p0: Vec2, p1: Vec2)
    requires p0 !in points
    ensures Partition(points, p0, p1).Ok? ==>
      var h := Partition(points, p0, p1).value;
      |h| > 0 && h[0] == p0 && forall i :: 0 < i < |h| ==> h[i] in points
    decreases |points|
  {
    var found := FurthestOf(points, p0, p1).1;
    if found.Some? && Denominator(p0, p1, found.value) != 0.0 {
      var pp := found.value;
      var inv := 1.0 / Denominator(p0, p1, pp);
      var split := SplitOf(points, p0, p1, pp, inv);
      FurthestIsAPoint(points, p0, p1);
      SplitShrinks(points, p0, p1, pp, inv);
      forall q ensures (q in split.0 ==> q in points) && (q in split.1 ==> q in points) {
        SplitMembers(points, p0, p1, pp, inv, q);
      }
      SplitMembers(points, p0, p1, pp, inv, pp);
      BarycentricOfPartitionPoint(p0, p1, pp, inv);
      assert pp !in split.1;
      var left := if |split.0| > 1 then Partition(split.0, p0, pp) else Ok([p0] + split.0);
      var right := if |split.1| > 1 then Partition(split.1, pp, p1) else Ok([pp] + split.1);
      if |split.0| > 1 {
        PartitionShape(split.0, p0, pp);
      }
      if |split.1| > 1 {
        PartitionShape(split.1, pp, p1);
      }
      if left.Ok? && right.Ok? {
        var h := left.value + right.value;
        assert Partition(points, p0, p1) == Ok(h);
        forall i | 0 < i < |h| ensures h[i] in points {
          if i < |left.value| {
            assert h[i] == left.value[i];
          } else {
            var k := i - |left.value|;
            assert h[i] == right.value[k];
          }
        }
      }
    }
  }

  /** On points none of which lies strictly right of p0 -> p1, partition
      never leaves partition_point unbound: every recursive call sees only
      points strictly left of its own line. Only a colinear partition point
      can still make it fail, with ZeroDivisionError. */
  lemma {:induction false} PartitionFailsOnlyByDivision(points: seq<Vec2>, p0: Vec2, p1: Vec2)
    requires |points| > 0
    requires forall q :: q in points ==> Side(p0, p1, q) >= 0.0
    ensures Partition(points, p0, p1).Ok? || Partition(points, p0, p1).error == ZeroDivisionError
    decreases |points|
  {
    FurthestIsFirstMaximum(points, p0, p1);
    assert points[0] in points;
    var found := FurthestOf(points, p0, p1).1;
    assert found.Some?;
    var pp := found.value;
    if Denominator(p0, p1, pp) != 0.0 {
      DenominatorIsSquare(p0, p1, pp);
      assert Side(p0, p1, pp) >= Side(p0, p1, points[0]) >= 0.0;
      assert Side(p0, p1, pp) > 0.0;
      var inv := 1.0 / Denominator(p0, p1, pp);
      var split := SplitOf(points, p0, p1, pp, inv);
      FurthestIsAPoint(points, p0, p1);
      SplitShrinks(points, p0, p1, pp, inv);
      forall q | q in split.0 ensures Side(p0, pp, q) >= 0.0 {
        SplitMembers(points, p0, p1, pp, inv, q);
        BarycentricSigns(p0, p1, pp, q);
      }
      forall q | q in split.1 ensures Side(pp, p1, q) >= 0.0 {
        SplitMembers(points, p0, p1, pp, inv, q);
        BarycentricSigns(p0, p1, pp, q);
      }
      if |split.0| > 1 {
        PartitionFailsOnlyByDivision(split.0, p0, pp);
      }
      if |split.1| > 1 {
        PartitionFailsOnlyByDivision(split.1, pp, p1);
      }
    }
  }

  /** quick_hull raises IndexError on no points; otherwise at most
      ZeroDivisionError, never UnboundLocalError. */
  lemma QuickHullErrors(points: seq<Vec2>)
    ensures |points| == 0 ==> QuickHullOf(points) == Err(IndexError)
    ensures |points| > 0 ==> QuickHullOf(points).Ok? || QuickHullOf(points).error == ZeroDivisionError
  {
    if |points| > 0 {
      var ext := ExtremesOf(points, points[0]);
      var l, r := ext.0, ext.1;
      var sets := UpperLower(points, l, r);
      UpperLowerMembers(points, l, r);
      if |sets.0| > 0 {
        assert sets.0[0] in sets.0;
        PartitionFailsOnlyByDivision(sets.0, l, r);
      }
      if |sets.1| > 0 {
        forall q | q in sets.1 ensures Side(r, l, q) >= 0.0 {
          SideAntisymmetric(l, r, q);
        }
        assert sets.1[0] in sets.1;
        PartitionFailsOnlyByDivision(sets.1, r, l);
      }
    }
  }

  /** A successful quick_hull emits leftmost, then upper points (strictly
      left of leftmost -> rightmost), then rightmost at some index k, then
      lower points (on or right of the line, neither end): the chain from
      leftmost to rightmost and back. Every emitted point is an input
      point. */
  lemma QuickHullShape(points: seq<Vec2>)
    requires QuickHullOf(points).Ok?
    ensures var h := QuickHullOf(points).value;
      var ext := ExtremesOf(points, points[0]);
      |h| >= 2 && h[0] == ext.0 &&
      (forall q :: q in h ==> q in points) &&
      exists k :: 0 < k < |h| && h[k] == ext.1 &&
        (forall i :: 0 < i < k ==> Side(ext.0, ext.1, h[i]) > 0.0) &&
        (forall i :: k < i < |h| ==> Side(ext.0, ext.1, h[i]) <= 0.0 && h[i] != ext.0 && h[i] != ext.1)
  {
    var h := QuickHullOf(points).value;
    var ext := ExtremesOf(points, points[0]);
    var l, r := ext.0, ext.1;
    ExtremesBound(points);
    var sets := UpperLower(points, l, r);
    UpperLowerMembers(points, l, r);
    var upper := HalfHull(sets.0, l, r);
    var lower := HalfHull(sets.1, r, l);
    if |sets.0| > 0 {
      PartitionShape(sets.0, l, r);
    }
    if |sets.1| > 0 {
      PartitionShape(sets.1, r, l);
    }
    var u, w := upper.value, lower.value;
    assert h == u + w;
    assert |u| > 0 && u[0] == l && forall i :: 0 < i < |u| ==> u[i] in sets.0;
    assert |w| > 0 && w[0] == r && forall i :: 0 < i < |w| ==> w[i] in sets.1;
    var k := |u|;
    ConcatIndex(u, w, 0);
    ConcatIndex(u, w, k);
    forall i | 0 < i < k ensures Side(l, r, h[i]) > 0.0 {
      ConcatIndex(u, w, i);
    }
    forall i | k < i < |h| ensures Side(l, r, h[i]) <= 0.0 && h[i] != l && h[i] != r {
      ConcatIndex(u, w, i);
    }
    forall q | q in h ensures q in points {
      var i :| 0 <= i < |h| && h[i] == q;
      ConcatIndex(u, w, i);
    }
  }

  /** Indexing into a concatenation. */
  lemma ConcatIndex(a: seq<Vec2>, b: seq<Vec2>, i: int)
    requires 0 <= i < |a| + |b|
    ensures (a + b)[i] == if i < |a| then a[i] else b[i - |a|]
  {
  }

  // ---------------------------------------------------------------------
  // Colinear input

  /** A single point is its own partition point: `_qhull_partition` on it
      appends p0 and the point when the point is off the line, raises
      ZeroDivisionError when it is on the line and UnboundLocalError
      when its SIDE is -1.0 or below. */
  lemma PartitionOfOnePoint(q: Vec2, p0: Vec2, p1: Vec2)
    ensures Partition([q], p0, p1) ==
      if Side(p0, p1, q) <= -1.0 then Err(UnboundLocalError)
      else if Side(p0, p1, q) == 0.0 then Err(ZeroDivisionError)
      else Ok([p0, q])
  {
    assert [q][..0] == [];
    assert FurthestOf([], p0, p1) == (-1.0, None);
    DenominatorIsSquare(p0, p1, q);
    if Side(p0, p1, q) > -1.0 && Side(p0, p1, q) != 0.0 {
      assert FurthestOf([q], p0, p1).1 == Some(q);
      var inv := 1.0 / Denominator(p0, p1, q);
      BarycentricOfPartitionPoint(p0, p1, q, inv);
      assert SplitOf([], p0, p1, q, inv) == ([], []);
      assert SplitOf([q], p0, p1, q, inv) == ([], []);
      assert [p0] + [] + ([q] + []) == [p0, q];
    }
  }

  /** set.discard on a sequence with a head. */
  lemma DiscardCons(h: Vec2, t: seq<Vec2>, x: Vec2)
    ensures Discard([h] + t, x) == if h == x then Discard(t, x) else [h] + Discard(t, x)
  {
    assert ([h] + t)[1..] == t;
  }

  /** Three colinear points, the middle one (by x) second: the extremes
      are the outer two. */
  lemma ColinearExtremes(a: Vec2, c: Vec2, b: Vec2)
    requires a.x < c.x < b.x
    ensures ExtremesOf([a, c, b], a) == (a, b)
  {
    assert [a, c, b][..2] == [a, c];
    assert [a, c][..1] == [a];
    assert [a][..0] == [];
    assert ExtremesOf([a], a) == (a, a);
    assert ExtremesOf([a, c], a) == (a, c);
  }

  /** Every point of the three is on the line, so all go to the lower
      set, and only the middle one stays after the endpoints are
      discarded. */
  lemma ColinearUpperLower(a: Vec2, c: Vec2, b: Vec2)
    requires a.x < c.x < b.x
    requires Side(a, b, c) == 0.0
    ensures UpperLower([a, c, b], a, b) == ([], [c])
  {
    SideZeroAtEndpoints(a, b);
    assert [a, c, b][..2] == [a, c];
    assert [a, c][..1] == [a];
    assert [a][..0] == [];
    assert SidesOf([], a, b) == ([], []);
    assert SetAdd([], a) == [a];
    assert SidesOf([a], a, b) == ([], [a]);
    assert c !in [a] && b !in [a, c];
    assert SetAdd([a], c) == [a, c] && SetAdd([a, c], b) == [a, c, b];
    assert SidesOf([a, c], a, b) == ([], [a, c]);
    assert SidesOf([a, c, b], a, b) == ([], [a, c, b]);
    DiscardCons(b, [], a);
    DiscardCons(c, [b], a);
    DiscardCons(a, [c, b], a);
    assert [a, c, b] == [a] + [c, b] && [c, b] == [c] + [b] && [b] == [b] + [];
    assert Discard([a, c, b], a) == [c, b];
    DiscardCons(b, [], b);
    DiscardCons(c, [b], b);
    assert Discard([c, b], b) == [c];
  }

  /** quick_hull raises ZeroDivisionError on three colinear points given
      as left, middle, right, although their hull is well defined: the
      middle point is the lower side's partition point, and it lies on
      that side's line. */
  lemma QuickHullColinearRaises(a: Vec2, c: Vec2, b: Vec2)
    requires a.x < c.x < b.x
    requires Side(a, b, c) == 0.0
    ensures QuickHullOf([a, c, b]) == Err(ZeroDivisionError)
  {
    ColinearExtremes(a, c, b);
    ColinearUpperLower(a, c, b);
    SideAntisymmetric(a, b, c);
    PartitionOfOnePoint(c, b, a);
  }

  /** Points that all lie on the line p0 -> p1 make `_qhull_partition`
      raise ZeroDivisionError: the partition point it picks is on the line. */
  lemma PartitionOfColinear(points: seq<Vec2>, p0: Vec2, p1: Vec2)
    requires |points| > 0
    requires forall q :: q in points ==> Side(p0, p1, q) == 0.0
    ensures Partition(points, p0, p1) == Err(ZeroDivisionError)
  {
    FurthestIsFirstMaximum(points, p0, p1);
    assert points[0] in points;
    var pp := FurthestOf(points, p0, p1).1.value;
    DenominatorIsSquare(p0, p1, pp);
  }

  /** The converse side of QuickHullErrors for the lower half: when no point
      lies strictly right of leftmost -> rightmost and some point other
      than those two lies on that line, quick_hull raises
      ZeroDivisionError (the upper half raises that error or succeeds, and
      the lower half then raises it). */
  lemma QuickHullRaisesOnColinearLower(points: seq<Vec2>)
    requires |points| > 0
    requires var ext := ExtremesOf(points, points[0]);
      forall q :: q in points ==> Side(ext.0, ext.1, q) >= 0.0
    requires var ext := ExtremesOf(points, points[0]);
      exists q :: q in points && q != ext.0 && q != ext.1 && Side(ext.0, ext.1, q) == 0.0
    ensures QuickHullOf(points) == Err(ZeroDivisionError)
  {
    var ext := ExtremesOf(points, points[0]);
    var l, r := ext.0, ext.1;
    var sets := UpperLower(points, l, r);
    UpperLowerMembers(points, l, r);
    QuickHullErrors(points);
    var c :| c in points && c != l && c != r && Side(l, r, c) == 0.0;
    assert c in sets.1;
    forall q | q in sets.1 ensures Side(r, l, q) == 0.0 {
      SideAntisymmetric(l, r, q);
    }
    PartitionOfColinear(sets.1, r, l);
  }

  /** For instance (0, 0), (1, 0), (2, 0). */
  lemma QuickHullColinearExample()
    ensures QuickHullOf([Vec2(0.0, 0.0), Vec2(1.0, 0.0), Vec2(2.0, 0.0)]) == Err(ZeroDivisionError)
  {
    QuickHullColinearRaises(Vec2(0.0, 0.0), Vec2(1.0, 0.0), Vec2(2.0, 0.0));
  }
}
