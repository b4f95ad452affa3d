/**
 * Plane vectors and the point-to-segment distance of src/utils/geometry.ts.
 *
 * All numbers are reals. The source returns a Euclidean distance (a square root);
 * this module returns the SQUARED distance, so callers compare it against squared
 * thresholds and no square root is needed.
 */
module Geometry {

  datatype Vec = Vec(x: real, y: real)

  function Add(u: Vec, v: Vec): Vec { Vec(u.x + v.x, u.y + v.y) }
  function Sub(u: Vec, v: Vec): Vec { Vec(u.x - v.x, u.y - v.y) }
  function Scale(v: Vec, k: real): Vec { Vec(v.x * k, v.y * k) }
  /**
   * A product of two reals. Dot and Cross multiply through it, so that the lemmas
   * about products below apply to their terms.
   */
  function Mul(a: real, b: real): real { a * b }
  function Dot(u: Vec, v: Vec): real { Mul(u.x, v.x) + Mul(u.y, v.y) }
  /** The z component of the cross product of u and v. */
  function Cross(u: Vec, v: Vec): real { Mul(u.x, v.y) - Mul(u.y, v.x) }
  function LenSq(v: Vec): real { Dot(v, v) }
  function DistSq(p: Vec, q: Vec): real { LenSq(Sub(p, q)) }
  function Midpoint(a: Vec, b: Vec): Vec { Vec((a.x + b.x) * 0.5, (a.y + b.y) * 0.5) }

  /** The point a + s·(b − a) of the line through a and b. */
  function PointAt(a: Vec, b: Vec, s: real): Vec { Add(a, Scale(Sub(b, a), s)) }

  /** Phaser.Math.Clamp: the value bounded below by lo and above by hi. */
  function Clamp(v: real, lo: real, hi: real): (r: real)
    requires lo <= hi
    ensures lo <= r <= hi
    ensures lo <= v <= hi ==> r == v
    ensures v < lo ==> r == lo
    ensures v > hi ==> r == hi
  {
    if v < lo then lo else if v > hi then hi else v
  }

  /** A square is never negative. */
  lemma SquareNonNeg(x: real)
    ensures x * x >= 0.0
  {
    if x < 0.0 {
      assert x * x == (-x) * (-x);
      MulNonNeg(-x, -x);
    } else {
      MulNonNeg(x, x);
    }
  }

  /** The square of a non-zero real is positive. */
  lemma SquarePos(x: real)
    requires x != 0.0
    ensures x * x > 0.0
  {
    if x > 0.0 {
      MulPos(x, x);
    } else {
      MulPos(-x, -x);
      assert x * x == (-x) * (-x);
    }
  }

  /** The product of two non-negative reals is non-negative. */
  lemma MulNonNeg(x: real, y: real)
    requires x >= 0.0 && y >= 0.0
    ensures x * y >= 0.0
  {
  }

  /** The product of two positive reals is positive. */
  lemma MulPos(x: real, y: real)
    requires x > 0.0 && y > 0.0
    ensures x * y > 0.0
  {
  }

  /** The squared length of a vector is zero exactly for the zero vector. */
  lemma LenSqZero(v: Vec)
    ensures LenSq(v) >= 0.0
    ensures LenSq(v) == 0.0 <==> v == Vec(0.0, 0.0)
  {
    SelfProductNonNeg(v.x);
    SelfProductNonNeg(v.y);
    if v.x != 0.0 {
      SelfProductPos(v.x);
    } else if v.y != 0.0 {
      SelfProductPos(v.y);
    }
  }

  /** Mul(a, a) is never negative. */
  lemma SelfProductNonNeg(a: real)
    ensures Mul(a, a) >= 0.0
  {
    if a != 0.0 {
      SelfProductPos(a);
    }
  }

  /** Mul(a, a) is positive for a non-zero a. */
  lemma SelfProductPos(a: real)
    requires a != 0.0
    ensures Mul(a, a) > 0.0
  {
    if a > 0.0 {
      ProductPos(a, a);
    } else {
      ProductPos(-a, -a);
      assert Mul(-a, -a) == Mul(a, a);
    }
  }

  /** Mul of two positive reals is positive. */
  lemma ProductPos(a: real, b: real)
    requires a > 0.0 && b > 0.0
    ensures Mul(a, b) > 0.0
  {
  }

  /** Two points are at distance zero exactly when they are equal. */
  lemma DistSqZeroIffEqual(p: Vec, q: Vec)
    ensures DistSq(p, q) >= 0.0
    ensures DistSq(p, q) == 0.0 <==> p == q
  {
    LenSqZero(Sub(p, q));
    SubZero(p, q);
  }

  /** p − q is the zero vector exactly when p == q. */
  lemma SubZero(p: Vec, q: Vec)
    ensures Sub(p, q) == Vec(0.0, 0.0) <==> p == q
  {
  }

  /**
   * The parameter t of the closest point: the projection of ap onto ab divided by
   * |ab|², left at 0 for a degenerate segment, then clamped to [0, 1].
   */
  function ProjectionParam(p: Vec, a: Vec, b: Vec): (t: real)
    ensures 0.0 <= t <= 1.0
    ensures a == b ==> t == 0.0
  {
    var ab := Sub(b, a);
    var abLenSq := LenSq(ab);
    var raw := if abLenSq != 0.0 then Dot(Sub(p, a), ab) / abLenSq else 0.0;
    Clamp(raw, 0.0, 1.0)
  }

  /** The point of segment ab the source measures the distance to. */
  function ClosestPoint(p: Vec, a: Vec, b: Vec): Vec
  {
    PointAt(a, b, ProjectionParam(p, a, b))
  }

  /** distancePointToSegment(p, a, b), squared. */
  function SegmentDistSq(p: Vec, a: Vec, b: Vec): real
  {
    DistSq(p, ClosestPoint(p, a, b))
  }

  /** The distance from p to segment ab is strictly below r (r ≥ 0). */
  predicate WithinDistance(p: Vec, a: Vec, b: Vec, r: real)
    requires r >= 0.0
  {
    SegmentDistSq(p, a, b) < r * r
  }

  /** The distance from p to segment ab is strictly above r (r ≥ 0). */
  predicate BeyondDistance(p: Vec, a: Vec, b: Vec, r: real)
    requires r >= 0.0
  {
    SegmentDistSq(p, a, b) > r * r
  }

  /** |u − s·w|² expanded as a quadratic in s. */
  lemma ExpandAlong(u: Vec, w: Vec, s: real)
    ensures LenSq(Sub(u, Scale(w, s))) == LenSq(u) - 2.0 * s * Dot(u, w) + s * s * LenSq(w)
  {
    var ux, uy, wx, wy := u.x, u.y, w.x, w.y;
    assert (ux - wx * s) * (ux - wx * s) == ux * ux - 2.0 * s * (ux * wx) + s * s * (wx * wx);
    assert (uy - wy * s) * (uy - wy * s) == uy * uy - 2.0 * s * (uy * wy) + s * s * (wy * wy);
  }

  /** The squared distance from p to PointAt(a, b, s) as a quadratic in s. */
  lemma DistToPointAt(p: Vec, a: Vec, b: Vec, s: real)
    ensures DistSq(p, PointAt(a, b, s))
         == LenSq(Sub(p, a)) - 2.0 * s * Dot(Sub(p, a), Sub(b, a)) + s * s * LenSq(Sub(b, a))
  {
    assert Sub(p, PointAt(a, b, s)) == Sub(Sub(p, a), Scale(Sub(b, a), s));
    ExpandAlong(Sub(p, a), Sub(b, a), s);
  }

  /** f(s) − f(t) for the quadratic f(x) = U − 2xD + x²L. */
  lemma QuadraticDifference(U: real, L: real, D: real, s: real, t: real)
    ensures (U - 2.0 * s * D + s * s * L) - (U - 2.0 * t * D + t * t * L)
         == (s - t) * (L * (s + t) - 2.0 * D)
  {
  }

  /**
   * The quadratic f(x) = U − 2xD + x²L (L ≥ 0) attains its minimum over [0, 1]
   * at the clamped vertex t.
   */
  lemma QuadraticMinimum(U: real, L: real, D: real, s: real, t: real)
    requires L >= 0.0 && 0.0 <= s <= 1.0
    requires L == 0.0 ==> D == 0.0 && t == 0.0
    requires L > 0.0 ==> t == Clamp(D / L, 0.0, 1.0)
    ensures U - 2.0 * t * D + t * t * L <= U - 2.0 * s * D + s * s * L
  {
    QuadraticDifference(U, L, D, s, t);
    if L > 0.0 {
      var raw := D / L;
      assert raw * L == D;
      if raw < 0.0 {
        assert t == 0.0;
        assert D < 0.0;
        MulNonNeg(L, s);
        MulNonNeg(s, L * s - 2.0 * D);
      } else if raw > 1.0 {
        assert t == 1.0;
        assert D > L by {
          assert (raw - 1.0) * L == D - L;
          MulPos(raw - 1.0, L);
        }
        MulNonNeg(L, 1.0 - s);
        MulNonNeg(1.0 - s, 2.0 * D - L * (s + 1.0));
        assert (s - t) * (L * (s + t) - 2.0 * D) == (1.0 - s) * (2.0 * D - L * (s + 1.0));
      } else {
        assert t == raw;
        assert (s - t) * (L * (s + t) - 2.0 * D) == L * ((s - t) * (s - t)) by {
          assert D == t * L;
        }
        SquareNonNeg(s - t);
        MulNonNeg(L, (s - t) * (s - t));
      }
    }
  }

  /** What the source's branch and clamp make of t, in terms of |ab|² and ap·ab. */
  lemma ProjectionParamCases(p: Vec, a: Vec, b: Vec)
    ensures var L, D := LenSq(Sub(b, a)), Dot(Sub(p, a), Sub(b, a));
      && L >= 0.0
      && (L == 0.0 ==> D == 0.0 && ProjectionParam(p, a, b) == 0.0)
      && (L > 0.0 ==> ProjectionParam(p, a, b) == Clamp(D / L, 0.0, 1.0))
  {
    var w := Sub(b, a);
    LenSqZero(w);
    if LenSq(w) == 0.0 {
      DotZero(Sub(p, a), w);
    }
  }

  /** The dot product with the zero vector is zero. */
  lemma DotZero(u: Vec, w: Vec)
    requires w == Vec(0.0, 0.0)
    ensures Dot(u, w) == 0.0
  {
  }

  /**
   * The closest point is closest: no point of segment ab is nearer to p than the
   * point the source measures to.
   */
  lemma ClosestIsMinimal(p: Vec, a: Vec, b: Vec, s: real)
    requires 0.0 <= s <= 1.0
    ensures SegmentDistSq(p, a, b) <= DistSq(p, PointAt(a, b, s))
  {
    var t := ProjectionParam(p, a, b);
    DistToPointAt(p, a, b, s);
    DistToPointAt(p, a, b, t);
    ProjectionParamCases(p, a, b);
    QuadraticMinimum(LenSq(Sub(p, a)), LenSq(Sub(b, a)), Dot(Sub(p, a), Sub(b, a)), s, t);
  }

  /** PointAt of a degenerate segment is its one point. */
  lemma PointAtDegenerate(a: Vec, s: real)
    ensures PointAt(a, a, s) == a
  {
  }

  /** For a degenerate segment (a == b) the result is the distance to a. */
  lemma DegenerateSegment(p: Vec, a: Vec)
    ensures SegmentDistSq(p, a, a) == DistSq(p, a)
  {
    PointAtDegenerate(a, ProjectionParam(p, a, a));
  }

  /** The closest point lies on segment ab. */
  lemma ClosestOnSegment(p: Vec, a: Vec, b: Vec)
    ensures exists s :: 0.0 <= s <= 1.0 && ClosestPoint(p, a, b) == PointAt(a, b, s)
  {
    var t := ProjectionParam(p, a, b);
    assert ClosestPoint(p, a, b) == PointAt(a, b, t);
  }

  /** The result is never negative, and is zero for every point of the segment. */
  lemma ZeroOnSegment(p: Vec, a: Vec, b: Vec, s: real)
    requires 0.0 <= s <= 1.0
    requires p == PointAt(a, b, s)
    ensures SegmentDistSq(p, a, b) == 0.0
  {
    ClosestIsMinimal(p, a, b, s);
    DistSqZeroIffEqual(p, PointAt(a, b, s));
    DistSqZeroIffEqual(p, ClosestPoint(p, a, b));
  }

  /** In particular it is zero at both endpoints. */
  lemma ZeroAtEndpoints(a: Vec, b: Vec)
    ensures SegmentDistSq(a, a, b) == 0.0
    ensures SegmentDistSq(b, a, b) == 0.0
  {
    assert a == PointAt(a, b, 0.0);
    assert b == PointAt(a, b, 1.0);
    ZeroOnSegment(a, a, b, 0.0);
    ZeroOnSegment(b, a, b, 1.0);
  }

  /** The result is no larger than the distance to either endpoint. */
  lemma NoFartherThanEndpoints(p: Vec, a: Vec, b: Vec)
    ensures 0.0 <= SegmentDistSq(p, a, b)
    ensures SegmentDistSq(p, a, b) <= DistSq(p, a)
    ensures SegmentDistSq(p, a, b) <= DistSq(p, b)
  {
    DistSqZeroIffEqual(p, ClosestPoint(p, a, b));
    assert PointAt(a, b, 0.0) == a;
    assert PointAt(a, b, 1.0) == b;
    ClosestIsMinimal(p, a, b, 0.0);
    ClosestIsMinimal(p, a, b, 1.0);
  }

  /** Lagrange's identity in the plane: |u|²|w|² − (u·w)² == (u × w)². */
  lemma Lagrange(u: Vec, w: Vec)
    ensures LenSq(u) * LenSq(w) - Dot(u, w) * Dot(u, w) == Cross(u, w) * Cross(u, w)
  {
    var ux, uy, wx, wy := u.x, u.y, w.x, w.y;
    assert (ux * ux + uy * uy) * (wx * wx + wy * wy) - (ux * wx + uy * wy) * (ux * wx + uy * wy)
        == (ux * wy - uy * wx) * (ux * wy - uy * wx);
  }

  /** D / L lies in [0, 1] when 0 ≤ D ≤ L and L > 0, and times L gives back D. */
  lemma RatioInUnit(D: real, L: real)
    requires L > 0.0 && 0.0 <= D <= L
    ensures 0.0 <= D / L <= 1.0
    ensures D / L * L == D
  {
    var raw := D / L;
    assert raw * L == D;
    if raw < 0.0 { MulPos(-raw, L); }
    if raw > 1.0 { MulPos(raw - 1.0, L); }
  }

  /** U − 2tD + t²L, multiplied by L, is U·L − D² when t·L == D. */
  lemma VertexValue(U: real, L: real, D: real, t: real)
    requires t * L == D
    ensures (U - 2.0 * t * D + t * t * L) * L == U * L - D * D
  {
    assert (U - 2.0 * t * D + t * t * L) * L == U * L - 2.0 * D * (t * L) + (t * L) * (t * L);
  }

  /**
   * When the projection of p falls inside a proper segment, the result is the
   * perpendicular distance to line ab: |ab|²·d² == cross(ap, ab)².
   */
  lemma PerpendicularInside(p: Vec, a: Vec, b: Vec)
    requires a != b
    requires 0.0 <= Dot(Sub(p, a), Sub(b, a)) <= LenSq(Sub(b, a))
    ensures SegmentDistSq(p, a, b) * LenSq(Sub(b, a))
         == Cross(Sub(p, a), Sub(b, a)) * Cross(Sub(p, a), Sub(b, a))
  {
    var u, w := Sub(p, a), Sub(b, a);
    var L, D := LenSq(w), Dot(u, w);
    SubZero(b, a);
    LenSqZero(w);
    ProjectionParamCases(p, a, b);
    var t := ProjectionParam(p, a, b);
    RatioInUnit(D, L);
    DistToPointAt(p, a, b, t);
    VertexValue(LenSq(u), L, D, t);
    Lagrange(u, w);
  }
}
