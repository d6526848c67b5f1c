/** Vector primitives of the planar C core: the orientation test `SIDE`,
    segment crossing, lexicographic comparison, exact and epsilon equality.
    Coordinates are exact reals rather than doubles. */
module Geom {

  /** A point or vector of the plane (`polypaths_planar_override_vec2_t`). */
  datatype Vec2 = Vec2(x: real, y: real)

  /** C's conversion of a comparison result to the int 0 or 1. */
  function B2I(b: bool): int
  {
    if b then 1 else 0
  }

  /** Three-valued sign of a real. */
  function Sign(r: real): (s: int)
    ensures s == -1 || s == 0 || s == 1
    ensures s == 0 <==> r == 0.0
    ensures s > 0 <==> r > 0.0
  {
    if r > 0.0 then 1 else if r < 0.0 then -1 else 0
  }

  // ---------------------------------------------------------------------
  // SIDE(a, b, c)

  /** The SIDE macro: the cross product of b - a and c - a. */
  function Side(a: Vec2, b: Vec2, c: Vec2): real
  {
    (b.x - a.x) * (c.y - a.y) - (c.x - a.x) * (b.y - a.y)
  }

  /** Swapping the two points of the line negates SIDE. */
  lemma SideAntisymmetric(a: Vec2, b: Vec2, c: Vec2)
    ensures Side(a, b, c) == -Side(b, a, c)
  {
  }

  /** A point that is one of the two line points is colinear. */
  lemma SideZeroAtEndpoints(a: Vec2, b: Vec2)
    ensures Side(a, b, a) == 0.0 && Side(a, b, b) == 0.0
  {
  }

  /** SIDE is invariant under cyclic rotation of its three points. */
  lemma SideCyclic(a: Vec2, b: Vec2, c: Vec2)
    ensures Side(a, b, c) == Side(b, c, a) == Side(c, a, b)
  {
  }

  /** SIDE is affine in its third argument: for a point on the segment
      from p to q, it interpolates between the values at p and q. */
  lemma SideAffine(a: Vec2, b: Vec2, p: Vec2, q: Vec2, t: real)
    ensures Side(a, b, Vec2(p.x + t * (q.x - p.x), p.y + t * (q.y - p.y)))
         == (1.0 - t) * Side(a, b, p) + t * Side(a, b, q)
  {
  }

  // ---------------------------------------------------------------------
  // segments_intersect

  /** The C test on two values: their signs differ. */
  lemma SignsDiffer(p: real, q: real)
    ensures ((p > 0.0) != (q > 0.0) || (p == 0.0) != (q == 0.0)) <==> Sign(p) != Sign(q)
  {
  }

  /** segments_intersect: 1 if segment a->b crosses segment c->d, else 0.
      Each half of the test `(d > 0) != (e > 0) | (d == 0) != (e == 0)`
      holds exactly when the two SIDE values have different signs. */
  function SegmentsIntersect(a: Vec2, b: Vec2, c: Vec2, d: Vec2): (r: int)
    ensures r == 0 || r == 1
    ensures r == 1 <==>
      Sign(Side(a, b, c)) != Sign(Side(a, b, d)) &&
      Sign(Side(c, d, a)) != Sign(Side(c, d, b))
  {
    var dir1 := (b.x - a.x) * (c.y - a.y) - (c.x - a.x) * (b.y - a.y);
    var dir2 := (b.x - a.x) * (d.y - a.y) - (d.x - a.x) * (b.y - a.y);
    var dir3 := (d.x - c.x) * (a.y - c.y) - (a.x - c.x) * (d.y - c.y);
    var dir4 := (d.x - c.x) * (b.y - c.y) - (b.x - c.x) * (d.y - c.y);
    assert dir1 == Side(a, b, c) && dir2 == Side(a, b, d);
    assert dir3 == Side(c, d, a) && dir4 == Side(c, d, b);
    SignsDiffer(dir1, dir2);
    SignsDiffer(dir3, dir4);
    B2I(((dir1 > 0.0) != (dir2 > 0.0) || (dir1 == 0.0) != (dir2 == 0.0))
        && ((dir3 > 0.0) != (dir4 > 0.0) || (dir3 == 0.0) != (dir4 == 0.0)))
  }

  /** The test does not depend on which segment is named first. */
  lemma SegmentsIntersectSymmetric(a: Vec2, b: Vec2, c: Vec2, d: Vec2)
    ensures SegmentsIntersect(a, b, c, d) == SegmentsIntersect(c, d, a, b)
  {
  }

  /** Reversing either segment does not change the test. */
  lemma SegmentsIntersectReversal(a: Vec2, b: Vec2, c: Vec2, d: Vec2)
    ensures SegmentsIntersect(a, b, c, d) == SegmentsIntersect(b, a, c, d)
    ensures SegmentsIntersect(a, b, c, d) == SegmentsIntersect(a, b, d, c)
  {
    SideAntisymmetric(a, b, c);
    SideAntisymmetric(a, b, d);
  }

  /** Two segments on one line never count as intersecting: when c and d
      both lie on the line through a and b the result is 0. In particular
      a degenerate segment (a == b) intersects nothing. */
  lemma CollinearSegmentsDoNotIntersect(a: Vec2, b: Vec2, c: Vec2, d: Vec2)
    requires Side(a, b, c) == 0.0 && Side(a, b, d) == 0.0
    ensures SegmentsIntersect(a, b, c, d) == 0
  {
  }

  /** Two non-colinear segments that share an endpoint intersect, whichever
      endpoints are shared. */
  lemma SharedEndpointIntersects(a: Vec2, b: Vec2, d: Vec2)
    requires Side(a, b, d) != 0.0
    ensures SegmentsIntersect(a, b, a, d) == 1
    ensures SegmentsIntersect(a, b, d, a) == 1
    ensures SegmentsIntersect(b, a, a, d) == 1
    ensures SegmentsIntersect(b, a, d, a) == 1
  {
    SideZeroAtEndpoints(a, b);
    SideZeroAtEndpoints(a, d);
    assert Side(a, d, b) == -Side(a, b, d);
    SegmentsIntersectReversal(a, b, a, d);
    SegmentsIntersectReversal(b, a, a, d);
  }

  /** The point a + t * (b - a). */
  function Lerp(a: Vec2, b: Vec2, t: real): Vec2
  {
    Vec2(a.x + t * (b.x - a.x), a.y + t * (b.y - a.y))
  }

  /** A proper crossing (all four SIDE values non-zero and the result 1)
      has a common point strictly inside both segments. */
  lemma ProperCrossingHasCommonPoint(a: Vec2, b: Vec2, c: Vec2, d: Vec2)
    requires Side(a, b, c) != 0.0 && Side(a, b, d) != 0.0
    requires Side(c, d, a) != 0.0 && Side(c, d, b) != 0.0
    requires SegmentsIntersect(a, b, c, d) == 1
    ensures exists t: real, s: real :: 0.0 < t < 1.0 && 0.0 < s < 1.0 && Lerp(a, b, t) == Lerp(c, d, s)
  {
    var d1, d2, d3, d4 := Side(a, b, c), Side(a, b, d), Side(c, d, a), Side(c, d, b);
    // The signs differ pairwise, so d3 - d4 and d1 - d2 are non-zero.
    var k := (b.x - a.x) * (d.y - c.y) - (b.y - a.y) * (d.x - c.x);
    assert d3 - d4 == k;
    assert d1 - d2 == -k;
    assert k != 0.0;
    var t := d3 / k;
    var s := -d1 / k;
    FractionInUnit(d3, d4);
    FractionInUnit(d1, d2);
    assert t == d3 / (d3 - d4);
    assert s == d1 / (d1 - d2);
    CrossingPointAgrees(a, b, c, d, k);
    assert Lerp(a, b, t) == Lerp(c, d, s);
  }

  /** For p and q of opposite signs, p / (p - q) lies strictly between 0 and 1. */
  lemma FractionInUnit(p: real, q: real)
    requires Sign(p) != Sign(q) && p != 0.0 && q != 0.0
    ensures p - q != 0.0 && 0.0 < p / (p - q) < 1.0
  {
    if p > 0.0 {
      assert q < 0.0;
      assert p / (p - q) * (p - q) == p;
    } else {
      assert q > 0.0;
      assert p / (p - q) * (p - q) == p;
    }
  }

  /** The crossing parameters of the two supporting lines give one point. */
  lemma CrossingPointAgrees(a: Vec2, b: Vec2, c: Vec2, d: Vec2, k: real)
    requires k == (b.x - a.x) * (d.y - c.y) - (b.y - a.y) * (d.x - c.x)
    requires k != 0.0
    ensures Lerp(a, b, Side(c, d, a) / k) == Lerp(c, d, -Side(a, b, c) / k)
  {
    var t := Side(c, d, a) / k;
    var s := -Side(a, b, c) / k;
    assert t * k == Side(c, d, a);
    assert s * k == -Side(a, b, c);
    var rx, ry := b.x - a.x, b.y - a.y;
    var qx, qy := d.x - c.x, d.y - c.y;
    assert k * (a.x + t * rx) == k * (c.x + s * qx) by {
      calc {
        k * (a.x + t * rx);
        k * a.x + (t * k) * rx;
        k * a.x + Side(c, d, a) * rx;
        k * c.x - Side(a, b, c) * qx;
        k * c.x + (s * k) * qx;
        k * (c.x + s * qx);
      }
    }
    assert k * (a.y + t * ry) == k * (c.y + s * qy) by {
      calc {
        k * (a.y + t * ry);
        k * a.y + (t * k) * ry;
        k * a.y + Side(c, d, a) * ry;
        k * c.y - Side(a, b, c) * qy;
        k * c.y + (s * k) * qy;
        k * (c.y + s * qy);
      }
    }
  }

  // ---------------------------------------------------------------------
  // VEC_EQ, VEC_NEQ, VEC_LT and compare_vec_lexi

  /** VEC_EQ: both coordinates equal; this is exactly value equality. */
  predicate VecEq(a: Vec2, b: Vec2)
    ensures VecEq(a, b) <==> a == b
  {
    (a.x == b.x) && (a.y == b.y)
  }

  /** VEC_NEQ: some coordinate differs. */
  predicate VecNeq(a: Vec2, b: Vec2)
    ensures VecNeq(a, b) <==> !VecEq(a, b)
  {
    (a.x != b.x) || (a.y != b.y)
  }

  /** VEC_LT: lexicographic "less than", x first, then y. */
  predicate VecLt(a: Vec2, b: Vec2)
  {
    (a.x < b.x) || ((a.x == b.x) && (a.y < b.y))
  }

  /** VEC_LT is a strict total order: irreflexive, asymmetric, transitive
      and connected. */
  lemma VecLtStrictTotalOrder(a: Vec2, b: Vec2, c: Vec2)
    ensures !VecLt(a, a)
    ensures !(VecLt(a, b) && VecLt(b, a))
    ensures VecLt(a, b) && VecLt(b, c) ==> VecLt(a, c)
    ensures a != b ==> VecLt(a, b) || VecLt(b, a)
  {
  }

  /** compare_vec_lexi, the qsort comparator: -1, 0 or 1 by x, then y. */
  function CompareVecLexi(a: Vec2, b: Vec2): (r: int)
    ensures r == -1 || r == 0 || r == 1
    ensures r == 0 <==> VecEq(a, b)
    ensures r < 0 <==> VecLt(a, b)
    ensures r > 0 <==> VecLt(b, a)
  {
    var result := B2I(a.x > b.x) - B2I(a.x < b.x);
    if result != 0 then result else B2I(a.y > b.y) - B2I(a.y < b.y)
  }

  /** The comparator is antisymmetric. */
  lemma CompareVecLexiAntisymmetric(a: Vec2, b: Vec2)
    ensures CompareVecLexi(a, b) == -CompareVecLexi(b, a)
  {
  }

  /** The comparator is transitive, in its weak and its strict form. */
  lemma CompareVecLexiTransitive(a: Vec2, b: Vec2, c: Vec2)
    ensures CompareVecLexi(a, b) <= 0 && CompareVecLexi(b, c) <= 0 ==> CompareVecLexi(a, c) <= 0
    ensures CompareVecLexi(a, b) < 0 && CompareVecLexi(b, c) <= 0 ==> CompareVecLexi(a, c) < 0
  {
    VecLtStrictTotalOrder(a, b, c);
  }

  // ---------------------------------------------------------------------
  // almost_eq

  /** The module's default tolerance (`polypaths_planar_override_EPSILON`). */
  const DefaultEpsilon: real := 0.00001

  /** almost_eq(a, b): |a - b| < epsilon, epsilon being the tolerance then in
      force (it can be changed at run time, so it is a parameter here). */
  predicate AlmostEq(a: real, b: real, epsilon: real)
    ensures AlmostEq(a, b, epsilon) <==> a - epsilon < b < a + epsilon
  {
    (if a - b < 0.0 then b - a else a - b) < epsilon
  }

  /** The tolerance test is symmetric, reflexive for a positive tolerance,
      accepts half a tolerance and rejects a whole one. */
  lemma AlmostEqProperties(a: real, b: real, epsilon: real)
    ensures AlmostEq(a, b, epsilon) == AlmostEq(b, a, epsilon)
    ensures epsilon > 0.0 ==> AlmostEq(a, a, epsilon)
    ensures epsilon > 0.0 ==> AlmostEq(a, a + epsilon / 2.0, epsilon) && AlmostEq(a, a - epsilon / 2.0, epsilon)
    ensures !AlmostEq(a, a + epsilon, epsilon) && !AlmostEq(a, a - epsilon, epsilon)
  {
  }

  /** The tolerance test is not transitive. */
  lemma AlmostEqNotTransitive()
    ensures AlmostEq(0.0, DefaultEpsilon * 0.75, DefaultEpsilon)
    ensures AlmostEq(DefaultEpsilon * 0.75, DefaultEpsilon * 1.5, DefaultEpsilon)
    ensures !AlmostEq(0.0, DefaultEpsilon * 1.5, DefaultEpsilon)
  {
  }
}
