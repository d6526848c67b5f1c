/** Axis-aligned bounding boxes: `polypaths_planar_overrideBBox_fromSeq2`
    and the half-open containment macro. */
module BBoxes {
  import opened Geom

  /** FLT_MAX, the largest finite single-precision value, used as the
      initial (inverted) extent of a box. */
  const FltMax: real := 340282346638528859811704183484516925440.0

  /** The value of a box: its min and max corners. */
  datatype Extent = Extent(min: Vec2, max: Vec2)

  /** The extent a box starts from before any point is seen. */
  const Sentinel: Extent := Extent(Vec2(FltMax, FltMax), Vec2(-FltMax, -FltMax))

  /** One iteration of the min/max loop: four independent updates. */
  function Grow(e: Extent, p: Vec2): Extent
  {
    var minX := if p.x < e.min.x then p.x else e.min.x;
    var maxX := if p.x > e.max.x then p.x else e.max.x;
    var minY := if p.y < e.min.y then p.y else e.min.y;
    var maxY := if p.y > e.max.y then p.y else e.max.y;
    Extent(Vec2(minX, minY), Vec2(maxX, maxY))
  }

  /** The extent after the loop has visited every point of `pts` in order. */
  function ExtentOf(pts: seq<Vec2>): Extent
  {
    if |pts| == 0 then Sentinel else Grow(ExtentOf(pts[..|pts| - 1]), pts[|pts| - 1])
  }

  /** A bounding box object whose corners the builder updates in place. */
  class BBox {
    var min: Vec2
    var max: Vec2

    /** A freshly allocated box; the allocator zero-fills it. */
    constructor ()
      ensures min == Vec2(0.0, 0.0) && max == Vec2(0.0, 0.0)
    {
      min := Vec2(0.0, 0.0);
      max := Vec2(0.0, 0.0);
    }

    /** The box's current corners as a value. */
    function Value(): Extent
      reads this
    {
      Extent(min, max)
    }
  }

  /** polypaths_planar_overrideBBox_fromSeq2: allocate a box, set the
      inverted sentinels, then widen it by every point of the sequence. */
  method FromSeq2(pts: seq<Vec2>) returns (b: BBox)
    ensures fresh(b)
    ensures b.Value() == ExtentOf(pts)
  {
    b := new BBox();
    b.min := Vec2(FltMax, FltMax);
    b.max := Vec2(-FltMax, -FltMax);
    var i := 0;
    while i < |pts|
      invariant 0 <= i <= |pts|
      invariant b.Value() == ExtentOf(pts[..i])
    {
      var vec := pts[i];
      if vec.x < b.min.x {
        b.min := b.min.(x := vec.x);
      }
      if vec.x > b.max.x {
        b.max := b.max.(x := vec.x);
      }
      if vec.y < b.min.y {
        b.min := b.min.(y := vec.y);
      }
      if vec.y > b.max.y {
        b.max := b.max.(y := vec.y);
      }
      assert pts[..i + 1][..i] == pts[..i];
      i := i + 1;
    }
    assert pts[..i] == pts;
  }

  /** Every visited point lies within the extent, whatever its coordinates. */
  lemma {:induction false} ExtentBounds(pts: seq<Vec2>)
    ensures forall p :: p in pts ==>
      ExtentOf(pts).min.x <= p.x <= ExtentOf(pts).max.x &&
      ExtentOf(pts).min.y <= p.y <= ExtentOf(pts).max.y
  {
    if |pts| > 0 {
      var init := pts[..|pts| - 1];
      ExtentBounds(init);
      forall p | p in pts
        ensures ExtentOf(pts).min.x <= p.x <= ExtentOf(pts).max.x
        ensures ExtentOf(pts).min.y <= p.y <= ExtentOf(pts).max.y
      {
        if p != pts[|pts| - 1] {
          assert p in init;
        }
      }
    }
  }

  /** The extent never widens past the sentinels. */
  lemma {:induction false} ExtentWithinSentinels(pts: seq<Vec2>)
    ensures ExtentOf(pts).min.x <= FltMax && ExtentOf(pts).min.y <= FltMax
    ensures ExtentOf(pts).max.x >= -FltMax && ExtentOf(pts).max.y >= -FltMax
  {
    if |pts| > 0 {
      ExtentWithinSentinels(pts[..|pts| - 1]);
    }
  }

  /** Coordinates within +-FLT_MAX. */
  predicate InRange(p: Vec2)
  {
    -FltMax <= p.x <= FltMax && -FltMax <= p.y <= FltMax
  }

  /** On a non-empty sequence of in-range points every bound of the extent
      is the coordinate of some point. */
  lemma {:induction false} ExtentAttained(pts: seq<Vec2>)
    requires |pts| > 0
    requires forall p :: p in pts ==> InRange(p)
    ensures exists p :: p in pts && p.x == ExtentOf(pts).min.x
    ensures exists p :: p in pts && p.x == ExtentOf(pts).max.x
    ensures exists p :: p in pts && p.y == ExtentOf(pts).min.y
    ensures exists p :: p in pts && p.y == ExtentOf(pts).max.y
  {
    var last := pts[|pts| - 1];
    var init := pts[..|pts| - 1];
    var e := ExtentOf(pts);
    assert last in pts;
    if |init| == 0 {
      assert init == [];
      assert ExtentOf(init) == Sentinel;
      assert e == Grow(ExtentOf(init), last);
    } else {
      ExtentAttained(init);
      var p1 :| p1 in init && p1.x == ExtentOf(init).min.x;
      var p2 :| p2 in init && p2.x == ExtentOf(init).max.x;
      var p3 :| p3 in init && p3.y == ExtentOf(init).min.y;
      var p4 :| p4 in init && p4.y == ExtentOf(init).max.y;
      assert p1 in pts && p2 in pts && p3 in pts && p4 in pts;
    }
  }

  /** A single in-range point gives a box with min == max == that point. */
  lemma ExtentOfOnePoint(p: Vec2)
    requires InRange(p)
    ensures ExtentOf([p]) == Extent(p, p)
  {
    assert [p][..0] == [];
  }

  /** With no points the box keeps the inverted sentinels. */
  lemma ExtentOfNothing()
    ensures ExtentOf([]) == Extent(Vec2(FltMax, FltMax), Vec2(-FltMax, -FltMax))
  {
  }

  /** Box containment (`polypaths_planar_overrideBBox_contains_point`):
      half-open, x in [min.x, max.x) and y in (min.y, max.y]. */
  predicate ContainsPoint(b: Extent, p: Vec2)
  {
    (p.x >= b.min.x) && (p.x < b.max.x) && (p.y > b.min.y) && (p.y <= b.max.y)
  }

  /** The corner (min.x, max.y) belongs to a box with positive width and
      height; the corners min and max, and (max.x, min.y), never do. */
  lemma ContainsCorners(b: Extent)
    ensures ContainsPoint(b, Vec2(b.min.x, b.max.y)) <==> b.min.x < b.max.x && b.min.y < b.max.y
    ensures !ContainsPoint(b, b.min)
    ensures !ContainsPoint(b, b.max)
    ensures !ContainsPoint(b, Vec2(b.max.x, b.min.y))
  {
  }

  /** A contained point lies within the closed box, strictly inside its
      left-open bounds. */
  lemma ContainsImpliesClosed(b: Extent, p: Vec2)
    requires ContainsPoint(b, p)
    ensures b.min.x <= p.x < b.max.x && b.min.y < p.y <= b.max.y
  {
  }

  /** The box of no points contains nothing. */
  lemma EmptyBoxContainsNothing(p: Vec2)
    ensures !ContainsPoint(ExtentOf([]), p)
  {
  }

  /** The box of a single point contains nothing, not even the point. */
  lemma PointBoxContainsNothing(v: Vec2, p: Vec2)
    requires InRange(v)
    ensures !ContainsPoint(ExtentOf([v]), p)
  {
    ExtentOfOnePoint(v);
  }

  /** The box of (-1, -2) and (3, 0): it contains (-1, 0) and (-0.5, -1),
      but not its corners (-1, -2), (3, 0) and (3, -2). */
  lemma ContainsPointExample()
    ensures ExtentOf([Vec2(-1.0, -2.0), Vec2(3.0, 0.0)]) == Extent(Vec2(-1.0, -2.0), Vec2(3.0, 0.0))
    ensures ContainsPoint(ExtentOf([Vec2(-1.0, -2.0), Vec2(3.0, 0.0)]), Vec2(-1.0, 0.0))
    ensures ContainsPoint(ExtentOf([Vec2(-1.0, -2.0), Vec2(3.0, 0.0)]), Vec2(-0.5, -1.0))
    ensures !ContainsPoint(ExtentOf([Vec2(-1.0, -2.0), Vec2(3.0, 0.0)]), Vec2(-1.0, -2.0))
    ensures !ContainsPoint(ExtentOf([Vec2(-1.0, -2.0), Vec2(3.0, 0.0)]), Vec2(3.0, 0.0))
    ensures !ContainsPoint(ExtentOf([Vec2(-1.0, -2.0), Vec2(3.0, 0.0)]), Vec2(3.0, -2.0))
  {
    var pts := [Vec2(-1.0, -2.0), Vec2(3.0, 0.0)];
    assert pts[..1] == [Vec2(-1.0, -2.0)];
    assert [Vec2(-1.0, -2.0)][..0] == [];
  }
}
