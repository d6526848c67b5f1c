/** Polygon storage (`Poly_new`) and the polygon's cache flag word. */
module Polygons {
  import opened Geom
  import opened Wrappers

  // ---------------------------------------------------------------------
  // The flag word

  const ConvexKnownFlag: bv64 := 0x1
  const ConvexFlag: bv64 := 0x2
  const SimpleKnownFlag: bv64 := 0x4
  const SimpleFlag: bv64 := 0x8
  const DegenKnownFlag: bv64 := 0x10
  const DegenFlag: bv64 := 0x20
  const DupVertsKnownFlag: bv64 := 0x40
  const DupVertsFlag: bv64 := 0x80
  const CentroidKnownFlag: bv64 := 0x100
  const RadiusKnownFlag: bv64 := 0x200

  /** Every cache bit, known and value bits alike. */
  const CacheFlags: bv64 := 0x3FF

  predicate HasFlag(flags: bv64, flag: bv64)
  {
    flags & flag != 0
  }

  predicate ConvexKnown(flags: bv64) { HasFlag(flags, ConvexKnownFlag) }
  predicate Convex(flags: bv64) { HasFlag(flags, ConvexFlag) }
  predicate SimpleKnown(flags: bv64) { HasFlag(flags, SimpleKnownFlag) }
  predicate Simple(flags: bv64) { HasFlag(flags, SimpleFlag) }

  /** No cached property is known. */
  predicate NothingKnown(flags: bv64)
  {
    !HasFlag(flags, ConvexKnownFlag) && !HasFlag(flags, SimpleKnownFlag) &&
    !HasFlag(flags, DegenKnownFlag) && !HasFlag(flags, DupVertsKnownFlag) &&
    !HasFlag(flags, CentroidKnownFlag) && !HasFlag(flags, RadiusKnownFlag)
  }

  /** The consistency the flag word keeps: a value bit is only set with its
      known bit, and a polygon known to be convex is known to be simple. */
  predicate FlagsConsistent(flags: bv64)
  {
    (Convex(flags) ==> ConvexKnown(flags)) &&
    (Simple(flags) ==> SimpleKnown(flags)) &&
    (ConvexKnown(flags) && Convex(flags) ==> SimpleKnown(flags) && Simple(flags))
  }

  /** The flags of a new polygon of `size` vertices given the optional
      `is_convex` and `is_simple` hints: a triangle is always convex and
      simple, whatever the hints; a convex hint also settles simplicity. */
  function InitialFlags(size: nat, isConvex: Option<bool>, isSimple: Option<bool>): (f: bv64)
    ensures FlagsConsistent(f)
    ensures f & !CacheFlags == 0
  {
    if size == 3 then
      ConvexKnownFlag | ConvexFlag | SimpleKnownFlag | SimpleFlag
    else if isConvex == Some(true) then
      ConvexKnownFlag | ConvexFlag | SimpleKnownFlag | SimpleFlag
    else
      var convex: bv64 := if isConvex == Some(false) then ConvexKnownFlag else 0;
      var simple: bv64 :=
        match isSimple
        case None => 0
        case Some(true) => SimpleKnownFlag | SimpleFlag
        case Some(false) => SimpleKnownFlag;
      convex | simple
  }

  /** A vertex assignment clears every cached property. */
  function Invalidated(flags: bv64): (f: bv64)
    ensures NothingKnown(f) && FlagsConsistent(f)
    ensures f & CacheFlags == 0
    ensures f & !CacheFlags == flags & !CacheFlags
  {
    flags & !CacheFlags
  }

  /** Caches the result of the convexity classifier. When the polygon is
      convex, simplicity becomes known too; otherwise it is left alone. */
  function RecordConvex(flags: bv64, isConvex: bool): (f: bv64)
    requires FlagsConsistent(flags)
    ensures FlagsConsistent(f)
    ensures ConvexKnown(f) && (Convex(f) <==> isConvex)
    ensures isConvex ==> SimpleKnown(f) && Simple(f)
    ensures !isConvex ==> (SimpleKnown(f) <==> SimpleKnown(flags)) && (Simple(f) <==> Simple(flags))
  {
    if isConvex then flags | ConvexKnownFlag | ConvexFlag | SimpleKnownFlag | SimpleFlag
    else (flags | ConvexKnownFlag) & !ConvexFlag
  }

  /** Caches the result of the simplicity test; only called while
      simplicity is unknown. Convexity is left alone. */
  function RecordSimple(flags: bv64, isSimple: bool): (f: bv64)
    requires FlagsConsistent(flags) && !SimpleKnown(flags)
    ensures FlagsConsistent(f)
    ensures SimpleKnown(f) && (Simple(f) <==> isSimple)
    ensures (ConvexKnown(f) <==> ConvexKnown(flags)) && (Convex(f) <==> Convex(flags))
  {
    if isSimple then flags | SimpleKnownFlag | SimpleFlag
    else (flags | SimpleKnownFlag) & !SimpleFlag
  }

  /** A triangle is known convex and known simple, even when told it is not
      convex. */
  lemma TriangleIsKnownConvexAndSimple(isConvex: Option<bool>, isSimple: Option<bool>)
    ensures ConvexKnown(InitialFlags(3, isConvex, isSimple)) && Convex(InitialFlags(3, isConvex, isSimple))
    ensures SimpleKnown(InitialFlags(3, isConvex, isSimple)) && Simple(InitialFlags(3, isConvex, isSimple))
  {
  }

  /** Without hints nothing is known about a polygon of more than three
      vertices; the hint `is_convex=True` makes it known convex and simple;
      the hint `is_simple=True` alone leaves convexity unknown. */
  lemma HintsOfLargerPolygons(size: nat)
    requires size > 3
    ensures NothingKnown(InitialFlags(size, None, None))
    ensures ConvexKnown(InitialFlags(size, Some(true), None)) && Convex(InitialFlags(size, Some(true), None))
    ensures SimpleKnown(InitialFlags(size, Some(true), None)) && Simple(InitialFlags(size, Some(true), None))
    ensures SimpleKnown(InitialFlags(size, None, Some(true))) && Simple(InitialFlags(size, None, Some(true)))
    ensures !ConvexKnown(InitialFlags(size, None, Some(true)))
  {
  }

  /** The sequence of cache states of the mutation test: a convex square is
      classified, a vertex is moved (everything unknown), reclassified as
      convex, moved to a concave but simple shape, and so on. Which way the
      classifiers answer is the test's; the flag word follows. */
  lemma MutationScenario()
    ensures var f0 := InitialFlags(4, None, None);
            var f1 := RecordConvex(f0, true);
            var f2 := Invalidated(f1);
            var f3 := RecordConvex(f2, true);
            var f4 := Invalidated(f3);
            var f5 := RecordConvex(f4, false);
            var f6 := RecordSimple(f5, true);
            var f7 := Invalidated(f6);
            var f8 := RecordConvex(f7, false);
            var f9 := RecordSimple(f8, false);
            !ConvexKnown(f0) && !SimpleKnown(f0) &&
            ConvexKnown(f1) && Convex(f1) && SimpleKnown(f1) && Simple(f1) &&
            !ConvexKnown(f2) && !SimpleKnown(f2) &&
            Convex(f3) && Simple(f3) &&
            !ConvexKnown(f4) && !SimpleKnown(f4) &&
            ConvexKnown(f5) && !Convex(f5) && !SimpleKnown(f5) &&
            SimpleKnown(f6) && Simple(f6) && ConvexKnown(f6) && !Convex(f6) &&
            !ConvexKnown(f7) && !SimpleKnown(f7) &&
            ConvexKnown(f9) && !Convex(f9) && SimpleKnown(f9) && !Simple(f9)
  {
  }

  // ---------------------------------------------------------------------
  // The polygon object

  /** A polygon object: `size` vertices stored in `data` starting at offset
      `vert`, with one spare slot at either end, and its flag word. */
  class Polygon {
    var data: array<Vec2>
    var size: nat
    var vert: nat
    var flags: bv64

    /** The layout Poly_new establishes and the flag word's consistency. */
    ghost predicate Valid()
      reads this
    {
      size >= 3 && data.Length == size + 2 && vert == 1 && FlagsConsistent(flags)
    }

    /** The allocation inside Poly_new: `size + 2` zero-filled slots, the
        vertex pointer one slot in, and a zero flag word. */
    constructor Alloc(size: nat)
      requires size >= 3
      ensures Valid()
      ensures fresh(data)
      ensures this.size == size && data.Length == size + 2 && vert == 1 && flags == 0
      ensures forall i :: 0 <= i < data.Length ==> data[i] == Vec2(0.0, 0.0)
    {
      data := new Vec2[size + 2](_ => Vec2(0.0, 0.0));
      this.size := size;
      vert := 1;
      flags := 0;
    }

    /** vert[i]. */
    function Vert(i: nat): Vec2
      reads this, data
      requires Valid() && i < size
    {
      data[vert + i]
    }

    /** The vertices in order. */
    function Vertices(): (vs: seq<Vec2>)
      reads this, data
      requires Valid()
      ensures |vs| == size
      ensures forall i :: 0 <= i < size ==> vs[i] == Vert(i) == data[i + 1]
    {
      data[vert..vert + size]
    }

    predicate IsConvexKnown()
      reads this
    {
      ConvexKnown(flags)
    }

    predicate IsSimpleKnown()
      reads this
    {
      SimpleKnown(flags)
    }

    /** `poly[i] = v`: Python indexing (negative indices count from the
        end); the assignment clears every cache. */
    method SetItem(i: int, v: Vec2) returns (r: Option<PyError>)
      requires Valid()
      modifies this`flags, data
      ensures Valid()
      ensures r == None <==> -(size as int) <= i < size
      ensures r != None ==> r == Some(IndexError) && flags == old(flags) && Vertices() == old(Vertices())
      ensures r == None ==> flags == Invalidated(old(flags))
      ensures r == None ==> Vertices() == old(Vertices())[if i < 0 then i + size else i := v]
      ensures data[0] == old(data[0]) && data[size + 1] == old(data[size + 1])
    {
      if i < -(size as int) || i >= size {
        return Some(IndexError);
      }
      var j := if i < 0 then i + size else i;
      data[vert + j] := v;
      flags := Invalidated(flags);
      r := None;
    }

    /** The `is_convex` property: the cached answer when known, otherwise
        `classify` (the classifier's answer for the current vertices,
        which this model takes as given) is cached and returned. */
    method IsConvex(classify: bool) returns (r: bool)
      requires Valid()
      modifies this`flags
      ensures Valid()
      ensures old(ConvexKnown(flags)) ==> r == old(Convex(flags)) && flags == old(flags)
      ensures !old(ConvexKnown(flags)) ==> r == classify && flags == RecordConvex(old(flags), classify)
    {
      if ConvexKnown(flags) {
        r := Convex(flags);
      } else {
        flags := RecordConvex(flags, classify);
        r := classify;
      }
    }

    /** The `is_simple` property, cached the same way. */
    method IsSimple(classify: bool) returns (r: bool)
      requires Valid()
      modifies this`flags
      ensures Valid()
      ensures old(SimpleKnown(flags)) ==> r == old(Simple(flags)) && flags == old(flags)
      ensures !old(SimpleKnown(flags)) ==> r == classify && flags == RecordSimple(old(flags), classify)
    {
      if SimpleKnown(flags) {
        r := Simple(flags);
      } else {
        flags := RecordSimple(flags, classify);
        r := classify;
      }
    }
  }

  /** The message Poly_new raises ValueError with. */
  const TooFewVertices: string := "Polygon: minimum of 3 vertices required"

  /** Poly_new: fewer than 3 vertices is a ValueError; otherwise a polygon
      with `size` vertices in `size + 2` slots, vert[i] being data[i + 1]. */
  method PolyNew(size: int) returns (r: Result<Polygon>)
    ensures r.Err? <==> size < 3
    ensures r.Err? ==> r.error == ValueError(TooFewVertices)
    ensures r.Ok? ==> fresh(r.value) && fresh(r.value.data) && r.value.Valid()
    ensures r.Ok? ==> r.value.size == size && r.value.data.Length == size + 2 && r.value.flags == 0
    ensures r.Ok? ==> forall i :: 0 <= i < size ==> r.value.Vert(i) == r.value.data[i + 1]
  {
    if size < 3 {
      return Err(ValueError(TooFewVertices));
    }
    var poly := new Polygon.Alloc(size);
    r := Ok(poly);
  }

  /** `Polygon(points, is_convex, is_simple)`: Poly_new for the number of
      points, the points copied in order, and the flags set from the hints. */
  method FromPoints(points: seq<Vec2>, isConvex: Option<bool>, isSimple: Option<bool>)
    returns (r: Result<Polygon>)
    ensures r.Err? <==> |points| < 3
    ensures r.Err? ==> r.error == ValueError(TooFewVertices)
    ensures r.Ok? ==> fresh(r.value) && fresh(r.value.data) && r.value.Valid()
    ensures r.Ok? ==> r.value.Vertices() == points
    ensures r.Ok? ==> r.value.flags == InitialFlags(|points|, isConvex, isSimple)
  {
    r := PolyNew(|points|);
    if r.Err? {
      return;
    }
    var poly := r.value;
    forall i | 0 <= i < |points| {
      poly.data[i + 1] := points[i];
    }
    poly.flags := InitialFlags(|points|, isConvex, isSimple);
    assert poly.Vertices() == points;
  }
}
