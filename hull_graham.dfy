/** The reference hull `graham_hull`: a monotone chain over the points sorted
    lexicographically, building an upper and a lower chain with a stack.

    Each stage is written twice: a function (`ChainOf`, `GrahamHullOf`)
    that is the specification, about which the properties are proved, and
    a method (`BuildChain`, `GrahamHull`) that runs the source's loops and
    is proved equal to it. */
module Graham {
  import opened Geom

  // ---------------------------------------------------------------------
  // Lexicographic sorting (Python's `sorted` on coordinate tuples)

  /** Tuple order on points: x first, then y. */
  predicate LexLe(a: Vec2, b: Vec2)
  {
    CompareVecLexi(a, b) <= 0
  }

  predicate SortedLexi(s: seq<Vec2>)
  {
    forall i, j :: 0 <= i < j < |s| ==> LexLe(s[i], s[j])
  }

  /** Every entry of s is at or above q. */
  predicate AllAbove(q: Vec2, s: seq<Vec2>)
  {
    forall j :: 0 <= j < |s| ==> LexLe(q, s[j])
  }

  /** A sequence with a head is sorted when its head is below its sorted
      tail. */
  lemma SortedCons(q: Vec2, s: seq<Vec2>)
    ensures SortedLexi([q] + s) <==> AllAbove(q, s) && SortedLexi(s)
  {
    var t := [q] + s;
    if AllAbove(q, s) && SortedLexi(s) {
      forall i, j | 0 <= i < j < |t| ensures LexLe(t[i], t[j]) {
        assert t[j] == s[j - 1];
        if i > 0 {
          assert t[i] == s[i - 1];
        }
      }
    }
    if SortedLexi(t) {
      forall j | 0 <= j < |s| ensures LexLe(q, s[j]) {
        assert t[0] == q && t[j + 1] == s[j];
      }
      forall i, j | 0 <= i < j < |s| ensures LexLe(s[i], s[j]) {
        assert t[i + 1] == s[i] && t[j + 1] == s[j];
      }
    }
  }

  /** AllAbove depends only on the entries of s. */
  lemma AllAboveByElements(q: Vec2, s: seq<Vec2>, t: seq<Vec2>)
    requires AllAbove(q, s) && multiset(t) <= multiset(s)
    ensures AllAbove(q, t)
  {
    forall j | 0 <= j < |t| ensures LexLe(q, t[j]) {
      assert t[j] in multiset(t);
      assert t[j] in multiset(s);
      var k :| 0 <= k < |s| && s[k] == t[j];
    }
  }

  /** One step of insertion sort: p goes before the first entry it is not
      above. */
  function Insert(p: Vec2, s: seq<Vec2>): seq<Vec2>
  {
    if |s| == 0 then [p]
    else if LexLe(p, s[0]) then [p] + s
    else [s[0]] + Insert(p, s[1..])
  }

  /** Inserting adds exactly p. */
  lemma {:induction false} InsertPermutes(p: Vec2, s: seq<Vec2>)
    ensures multiset(Insert(p, s)) == multiset(s) + multiset{p}
  {
    if |s| > 0 && !LexLe(p, s[0]) {
      InsertPermutes(p, s[1..]);
      assert s == [s[0]] + s[1..];
    }
  }

  /** Inserting into a sorted sequence keeps it sorted. */
  lemma {:induction false} InsertSorted(p: Vec2, s: seq<Vec2>)
    requires SortedLexi(s)
    ensures SortedLexi(Insert(p, s))
  {
    if |s| == 0 {
    } else if LexLe(p, s[0]) {
      forall j | 0 <= j < |s| ensures LexLe(p, s[j]) {
        CompareVecLexiTransitive(p, s[0], s[j]);
      }
      SortedCons(p, s);
    } else {
      var rest := Insert(p, s[1..]);
      assert s == [s[0]] + s[1..];
      SortedCons(s[0], s[1..]);
      InsertSorted(p, s[1..]);
      InsertPermutes(p, s[1..]);
      CompareVecLexiAntisymmetric(s[0], p);
      assert AllAbove(s[0], s[1..] + [p]) by {
        var u := s[1..] + [p];
        forall j | 0 <= j < |u| ensures LexLe(s[0], u[j]) {
          if j < |s[1..]| {
            assert u[j] == s[1..][j];
          }
        }
      }
      assert multiset(s[1..] + [p]) == multiset(rest);
      AllAboveByElements(s[0], s[1..] + [p], rest);
      SortedCons(s[0], rest);
    }
  }

  /** `sorted(points)`: a lexicographically sorted permutation. */
  function SortLexi(s: seq<Vec2>): (r: seq<Vec2>)
    ensures SortedLexi(r)
    ensures multiset(r) == multiset(s)
    ensures |r| == |s|
  {
    if |s| == 0 then []
    else
      assert s == [s[0]] + s[1..];
      var t := SortLexi(s[1..]);
      InsertSorted(s[0], t);
      InsertPermutes(s[0], t);
      Insert(s[0], t)
  }

  /** `points[::-1]`. */
  function Reverse(s: seq<Vec2>): (r: seq<Vec2>)
    ensures |r| == |s|
    ensures forall i :: 0 <= i < |s| ==> r[i] == s[|s| - 1 - i]
  {
    if |s| == 0 then [] else [s[|s| - 1]] + Reverse(s[..|s| - 1])
  }

  /** Python's `s[1:-1]`: everything but the first and last entries. */
  function TrimEnds(s: seq<Vec2>): (r: seq<Vec2>)
    ensures |s| >= 2 ==> |r| == |s| - 2 && forall i :: 0 <= i < |r| ==> r[i] == s[i + 1]
    ensures |s| < 2 ==> r == []
  {
    if |s| < 2 then [] else s[1..|s| - 1]
  }

  // ---------------------------------------------------------------------
  // The chain

  /** Every three consecutive entries make a strict clockwise turn
      (negative SIDE). */
  predicate StrictTurns(c: seq<Vec2>)
  {
    forall k :: 0 <= k < |c| - 2 ==> TurnsAt(c, k)
  }

  /** Entries k, k + 1 and k + 2 of c make a strict clockwise turn. */
  predicate TurnsAt(c: seq<Vec2>, k: int)
    requires 0 <= k < |c| - 2
  {
    Side(c[k], c[k + 1], c[k + 2]) < 0.0
  }

  /** A prefix of a strictly turning chain turns strictly. */
  lemma StrictTurnsPrefix(c: seq<Vec2>, n: nat)
    requires StrictTurns(c) && n <= |c|
    ensures StrictTurns(c[..n])
  {
    var d := c[..n];
    forall k | 0 <= k < |d| - 2 ensures TurnsAt(d, k) {
      assert TurnsAt(c, k);
      assert d[k] == c[k] && d[k + 1] == c[k + 1] && d[k + 2] == c[k + 2];
    }
  }

  /** Pushing a point that makes a strict turn with the top two entries
      keeps the chain strictly turning. */
  lemma StrictTurnsPush(c: seq<Vec2>, p: Vec2)
    requires StrictTurns(c)
    requires |c| <= 1 || Side(c[|c| - 2], c[|c| - 1], p) < 0.0
    ensures StrictTurns(c + [p])
  {
    var d := c + [p];
    forall k | 0 <= k < |d| - 2 ensures TurnsAt(d, k) {
      if k < |c| - 2 {
        assert TurnsAt(c, k);
        assert d[k] == c[k] && d[k + 1] == c[k + 1] && d[k + 2] == c[k + 2];
      } else {
        assert d[k] == c[|c| - 2] && d[k + 1] == c[|c| - 1] && d[k + 2] == p;
      }
    }
  }

  /** The inner `while` loop: pop while the top two entries and p do not
      make a strict clockwise turn (SIDE >= 0), never popping the first
      entry. */
  function PopWhile(chain: seq<Vec2>, p: Vec2): (r: seq<Vec2>)
    ensures |r| <= |chain| && r == chain[..|r|]
    ensures |chain| >= 1 ==> |r| >= 1
    ensures |r| <= 1 || Side(r[|r| - 2], r[|r| - 1], p) < 0.0
    decreases |chain|
  {
    if |chain| > 1 && Side(chain[|chain| - 2], chain[|chain| - 1], p) >= 0.0 then
      PopWhile(chain[..|chain| - 1], p)
    else
      chain
  }

  /** The chain after the outer `for` loop has pushed every point of pts. */
  function ChainOf(pts: seq<Vec2>): seq<Vec2>
  {
    if |pts| == 0 then [] else PopWhile(ChainOf(pts[..|pts| - 1]), pts[|pts| - 1]) + [pts[|pts| - 1]]
  }

  /** The first entry is never popped and the last point is always pushed:
      a chain runs from the first point of its order to the last, and has
      two entries or more once there are two points. */
  lemma {:induction false} ChainEnds(pts: seq<Vec2>)
    ensures |pts| == 0 ==> ChainOf(pts) == []
    ensures |pts| > 0 ==> |ChainOf(pts)| >= 1 && ChainOf(pts)[0] == pts[0]
    ensures |pts| > 0 ==> ChainOf(pts)[|ChainOf(pts)| - 1] == pts[|pts| - 1]
    ensures |pts| >= 2 ==> |ChainOf(pts)| >= 2
    ensures |ChainOf(pts)| <= |pts|
  {
    if |pts| > 0 {
      var init := pts[..|pts| - 1];
      ChainEnds(init);
      assert |pts| > 1 ==> init[0] == pts[0];
    }
  }

  /** The loop invariant of both chains: every three consecutive entries
      turn strictly clockwise, so left turns and colinear middle points
      have been popped. */
  lemma {:induction false} ChainTurnsStrictly(pts: seq<Vec2>)
    ensures StrictTurns(ChainOf(pts))
  {
    if |pts| > 0 {
      var prev := ChainOf(pts[..|pts| - 1]);
      var kept := PopWhile(prev, pts[|pts| - 1]);
      ChainTurnsStrictly(pts[..|pts| - 1]);
      StrictTurnsPrefix(prev, |kept|);
      StrictTurnsPush(kept, pts[|pts| - 1]);
    }
  }

  /** One more point: the chain of a longer prefix is the popped chain of
      the shorter one with the new point pushed. */
  lemma ChainOfPrefixStep(pts: seq<Vec2>, i: nat)
    requires i < |pts|
    ensures ChainOf(pts[..i + 1]) == PopWhile(ChainOf(pts[..i]), pts[i]) + [pts[i]]
  {
    assert pts[..i + 1][..i] == pts[..i];
  }

  /** The loop over one ordering of the points (lines 24-33, and the same
      code again at 37-46 over the reversed order). */
  method BuildChain(pts: seq<Vec2>) returns (chain: seq<Vec2>)
    ensures chain == ChainOf(pts)
  {
    chain := [];
    for i := 0 to |pts|
      invariant chain == ChainOf(pts[..i])
    {
      var p := pts[i];
      ghost var start := chain;
      while |chain| > 1
        invariant PopWhile(chain, p) == PopWhile(start, p)
        decreases |chain|
      {
        var v0 := chain[|chain| - 2];
        var v1 := chain[|chain| - 1];
        // the source's inline cross product is exactly Side(v0, v1, p)
        if Side(v0, v1, p) >= 0.0 {
          chain := chain[..|chain| - 1];
        } else {
          break;
        }
      }
      assert PopWhile(chain, p) == chain;
      ChainOfPrefixStep(pts, i);
      chain := chain + [p];
    }
    assert pts[..|pts|] == pts;
  }

  /** The hull graham_hull returns, as a value. */
  function GrahamHullOf(points: seq<Vec2>): seq<Vec2>
  {
    var s := SortLexi(points);
    ChainOf(s) + TrimEnds(ChainOf(Reverse(s)))
  }

  /** graham_hull: sort, build the upper chain, build the lower chain over
      the reversed order, and return the upper chain followed by the lower
      one without its two ends. */
  method GrahamHull(points: seq<Vec2>) returns (hull: seq<Vec2>)
    ensures hull == GrahamHullOf(points)
    ensures forall q :: q in hull ==> q in points
    ensures |points| > 0 ==> |hull| > 0 && forall q :: q in points ==> LexLe(hull[0], q)
  {
    var sorted := SortLexi(points);
    var upper := BuildChain(sorted);
    var lower := BuildChain(Reverse(sorted));
    hull := upper + TrimEnds(lower);
    GrahamHullElements(points);
    if |points| > 0 {
      GrahamHullStartsAtMinimum(points);
    }
  }

  // ---------------------------------------------------------------------
  // Properties

  /** `idx` embeds c in s: strictly increasing positions of s holding the
      entries of c. */
  ghost predicate Embeds(idx: seq<int>, c: seq<Vec2>, s: seq<Vec2>)
  {
    |idx| == |c| &&
    (forall j :: 0 <= j < |idx| ==> 0 <= idx[j] < |s| && c[j] == s[idx[j]]) &&
    (forall j, k :: 0 <= j < k < |idx| ==> idx[j] < idx[k])
  }

  /** c is a subsequence of s. */
  ghost predicate IsSubsequence(c: seq<Vec2>, s: seq<Vec2>)
  {
    exists idx :: Embeds(idx, c, s)
  }

  /** The first m positions of an embedding embed the first m entries. */
  lemma EmbedsPrefix(idx: seq<int>, c: seq<Vec2>, s: seq<Vec2>, m: nat)
    requires Embeds(idx, c, s) && m <= |c|
    ensures Embeds(idx[..m], c[..m], s)
  {
  }

  /** An embedding into all but the last entry of s extends by that entry. */
  lemma EmbedsPush(idx: seq<int>, c: seq<Vec2>, s: seq<Vec2>)
    requires |s| > 0 && Embeds(idx, c, s[..|s| - 1])
    ensures Embeds(idx + [|s| - 1], c + [s[|s| - 1]], s)
  {
  }

  /** Each chain is a subsequence of the order it was built from. */
  lemma {:induction false} ChainIsSubsequence(pts: seq<Vec2>)
    ensures IsSubsequence(ChainOf(pts), pts)
  {
    if |pts| == 0 {
      assert Embeds([], ChainOf(pts), pts);
    } else {
      var n := |pts|;
      var init := pts[..n - 1];
      var prev := ChainOf(init);
      var kept := PopWhile(prev, pts[n - 1]);
      ChainIsSubsequence(init);
      var idx :| Embeds(idx, prev, init);
      EmbedsPrefix(idx, prev, init, |kept|);
      EmbedsPush(idx[..|kept|], kept, pts);
      assert Embeds(idx[..|kept|] + [n - 1], ChainOf(pts), pts);
    }
  }

  /** Every entry of a subsequence is an entry of the sequence. */
  lemma SubsequenceElements(c: seq<Vec2>, s: seq<Vec2>)
    requires IsSubsequence(c, s)
    ensures forall q :: q in c ==> q in s
  {
    var idx :| Embeds(idx, c, s);
    forall q | q in c ensures q in s {
      var j :| 0 <= j < |c| && c[j] == q;
      assert s[idx[j]] == q;
    }
  }

  /** Sorting keeps exactly the entries of its input. */
  lemma SortedElements(points: seq<Vec2>)
    ensures forall q :: q in SortLexi(points) <==> q in points
  {
    var s := SortLexi(points);
    assert multiset(s) == multiset(points);
    forall q ensures q in s <==> q in points {
      assert q in s <==> q in multiset(s);
      assert q in points <==> q in multiset(points);
    }
  }

  /** Reversing keeps exactly the entries of its input. */
  lemma ReversedElements(s: seq<Vec2>)
    ensures forall q :: q in Reverse(s) <==> q in s
  {
    var r := Reverse(s);
    forall q | q in r ensures q in s {
      var k :| 0 <= k < |r| && r[k] == q;
      assert s[|s| - 1 - k] == q;
    }
    forall q | q in s ensures q in r {
      var k :| 0 <= k < |s| && s[k] == q;
      assert r[|s| - 1 - k] == q;
    }
  }

  /** Every point graham_hull returns is one of its input points. */
  lemma GrahamHullElements(points: seq<Vec2>)
    ensures forall q :: q in GrahamHullOf(points) ==> q in points
  {
    var s := SortLexi(points);
    var r := Reverse(s);
    ChainIsSubsequence(s);
    ChainIsSubsequence(r);
    SubsequenceElements(ChainOf(s), s);
    SubsequenceElements(ChainOf(r), r);
    SortedElements(points);
    ReversedElements(s);
    var lower := ChainOf(r);
    forall q | q in TrimEnds(lower) ensures q in lower {
      var j :| 0 <= j < |TrimEnds(lower)| && TrimEnds(lower)[j] == q;
      assert q == lower[j + 1];
    }
  }

  /** The first entry of a sorted sequence is below every entry of it. */
  lemma SortedFirstIsMinimum(s: seq<Vec2>)
    requires SortedLexi(s) && |s| > 0
    ensures forall q :: q in s ==> LexLe(s[0], q)
  {
    forall q | q in s ensures LexLe(s[0], q) {
      var j :| 0 <= j < |s| && s[j] == q;
      if j == 0 {
        assert CompareVecLexi(q, q) == 0;
      }
    }
  }

  /** The hull starts at the lexicographically smallest input point. */
  lemma GrahamHullStartsAtMinimum(points: seq<Vec2>)
    requires |points| > 0
    ensures |GrahamHullOf(points)| > 0
    ensures forall q :: q in points ==> LexLe(GrahamHullOf(points)[0], q)
  {
    var s := SortLexi(points);
    SortedFirstIsMinimum(s);
    ChainEnds(s);
    forall q | q in points ensures LexLe(s[0], q) {
      assert q in multiset(s);
    }
  }

  /** The two chains share their ends: the upper one runs from the smallest
      point to the largest, the lower one back, and both turn strictly
      clockwise at every interior entry. The hull therefore gets each end
      once, from the upper chain. */
  lemma ChainsShareEnds(points: seq<Vec2>)
    requires |points| > 0
    ensures var s := SortLexi(points);
            var upper := ChainOf(s);
            var lower := ChainOf(Reverse(s));
            upper[0] == lower[|lower| - 1] == s[0] &&
            upper[|upper| - 1] == lower[0] == s[|s| - 1] &&
            StrictTurns(upper) && StrictTurns(lower) &&
            GrahamHullOf(points) == upper + TrimEnds(lower)
  {
    var s := SortLexi(points);
    ChainEnds(s);
    ChainEnds(Reverse(s));
    ChainTurnsStrictly(s);
    ChainTurnsStrictly(Reverse(s));
  }
}
