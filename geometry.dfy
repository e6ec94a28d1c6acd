/**
 * Plane geometry of the evacuation map, in container pixel coordinates.
 * Coordinates are reals; a distance that the code only compares against a
 * threshold is handled through its square, which is exact over the reals.
 */
module Geometry {

  /** A point `{left, top}` in container coordinates. */
  datatype Point = Point(left: real, top: real)

  /** An axis-aligned rectangle as measured from the page (`getBoundingClientRect`). */
  datatype Rect = Rect(left: real, top: real, width: real, height: real)

  function Sq(x: real): real { x * x }

  function Abs(x: real): (r: real)
    ensures r >= 0.0 && (r == x || r == -x)
  {
    if x < 0.0 then -x else x
  }

  function Min(a: real, b: real): real { if a <= b then a else b }
  function Max(a: real, b: real): real { if a <= b then b else a }

  /** JavaScript's `len || 1` for a length: zero falls back to one. */
  function OrOne(x: real): (r: real)
    ensures r != 0.0
    ensures x != 0.0 ==> r == x
  {
    if x == 0.0 then 1.0 else x
  }

  /** `Math.max(lo, Math.min(x, hi))` */
  function Clamp(x: real, lo: real, hi: real): (r: real)
    ensures lo <= hi ==> lo <= r <= hi
    ensures lo <= x <= hi ==> r == x
    ensures x < lo ==> r == lo
    ensures lo <= hi && x > hi ==> r == hi
  {
    Max(lo, Min(x, hi))
  }

  /** Linear interpolation from `a` (t = 0) to `b` (t = 1). */
  function Lerp(a: Point, b: Point, t: real): (p: Point)
    ensures t == 0.0 ==> p == a
    ensures t == 1.0 ==> p == b
    ensures a.top == b.top ==> p.top == a.top
    ensures a.left == b.left ==> p.left == a.left
  {
    Point(a.left + (b.left - a.left) * t, a.top + (b.top - a.top) * t)
  }

  /** Squared Euclidean distance. */
  function Dist2(a: Point, b: Point): real
  {
    Sq(a.left - b.left) + Sq(a.top - b.top)
  }

  // Products are reasoned about through opaque results `q`, which keeps the
  // solver's arithmetic linear in everything but the single step at hand.

  lemma MulPosOf(x: real, y: real, q: real)
    requires q == x * y && x > 0.0 && y > 0.0
    ensures q > 0.0
  {
  }

  lemma MulNonnegOf(x: real, y: real, q: real)
    requires q == x * y && x >= 0.0 && y >= 0.0
    ensures q >= 0.0
  {
  }

  lemma SqPos(x: real)
    requires x != 0.0
    ensures Sq(x) > 0.0
  {
    if x > 0.0 { MulPosOf(x, x, Sq(x)); } else { MulPosOf(-x, -x, Sq(x)); }
  }

  lemma SqNonneg(x: real)
    ensures Sq(x) >= 0.0
  {
    if x != 0.0 { SqPos(x); } else { assert Sq(x) == 0.0 * 0.0; }
  }

  /** A squared distance is never negative; it is zero exactly between equal points. */
  lemma Dist2Facts(a: Point, b: Point)
    ensures Dist2(a, b) >= 0.0
    ensures Dist2(a, b) == 0.0 <==> a == b
  {
    SqNonneg(a.left - b.left);
    SqNonneg(a.top - b.top);
    if a.left != b.left { SqPos(a.left - b.left); }
    if a.top != b.top { SqPos(a.top - b.top); }
    if a == b {
      assert Sq(a.left - b.left) == 0.0 * 0.0 && Sq(a.top - b.top) == 0.0 * 0.0;
    }
  }

  /**
   * The host's `Math.hypot(dx, dy)`: the non-negative number whose square is
   * `dx*dx + dy*dy`. Lengths are computed by a function passed in as a
   * parameter; this predicate states what the real one satisfies.
   */
  ghost predicate IsHypot(h: (real, real) -> real)
  {
    forall dx: real, dy: real {:trigger h(dx, dy)} :: h(dx, dy) >= 0.0 && h(dx, dy) * h(dx, dy) == dx * dx + dy * dy
  }

  /** Two non-negative reals with equal squares are equal. */
  lemma SquareRootUnique(a: real, b: real)
    requires a >= 0.0 && b >= 0.0 && a * a == b * b
    ensures a == b
  {
    var gap := (a - b) * (a + b);
    assert gap == a * a - b * b;
    if a < b {
      MulPosOf(b - a, a + b, -gap);
    } else if b < a {
      MulPosOf(a - b, a + b, gap);
    }
  }

  /** Along an axis, `Math.hypot` is the absolute value. */
  lemma HypotOnAxis(h: (real, real) -> real, d: real)
    requires IsHypot(h)
    ensures h(d, 0.0) == Abs(d) && h(0.0, d) == Abs(d)
  {
    var a := h(d, 0.0);
    assert a >= 0.0 && a * a == d * d + 0.0 * 0.0;
    assert Abs(d) * Abs(d) == d * d;
    SquareRootUnique(a, Abs(d));
    var b := h(0.0, d);
    assert b >= 0.0 && b * b == 0.0 * 0.0 + d * d;
    SquareRootUnique(b, Abs(d));
  }

  /** `pointIsInsideArea`: the closed rectangle test. */
  predicate Inside(r: Rect, p: Point)
  {
    r.left <= p.left <= r.left + r.width && r.top <= p.top <= r.top + r.height
  }

  /** `clampToArea`: pull a point into the closed rectangle, coordinate by coordinate. */
  function ClampToArea(r: Rect, p: Point): (q: Point)
    ensures r.width >= 0.0 && r.height >= 0.0 ==> Inside(r, q)
    ensures Inside(r, p) ==> q == p
  {
    Point(Clamp(p.left, r.left, r.left + r.width), Clamp(p.top, r.top, r.top + r.height))
  }

  /** Result of `projectPointOnSegment`: the clamped parameter and the foot point. */
  datatype Projection = Projection(t: real, px: real, py: real)
  {
    function Foot(): Point { Point(px, py) }
  }

  /** Squared length of segment a-b (`len2` in the code). */
  function SegLen2(a: Point, b: Point): real
  {
    Sq(b.left - a.left) + Sq(b.top - a.top)
  }

  /** Scalar product of `p - a` with `b - a`. */
  function Along(a: Point, b: Point, p: Point): real
  {
    (p.left - a.left) * (b.left - a.left) + (p.top - a.top) * (b.top - a.top)
  }

  /**
   * `projectPointOnSegment`: the parameter of the perpendicular foot of `p`
   * on segment a-b, clamped to [0, 1]; a degenerate segment yields t = 0 at `a`.
   */
  function Project(a: Point, b: Point, p: Point): (r: Projection)
    ensures 0.0 <= r.t <= 1.0
    ensures r.Foot() == Lerp(a, b, r.t)
  {
    var len2 := SegLen2(a, b);
    if len2 == 0.0 then Projection(0.0, a.left, a.top)
    else
      var t := Clamp(Along(a, b, p) / len2, 0.0, 1.0);
      var f := Lerp(a, b, t);
      Projection(t, f.left, f.top)
  }

  /**
   * The clamped projection is the point of the segment nearest to `p`:
   * no point `Lerp(a, b, s)` with s in [0, 1] is closer.
   */
  lemma ProjectIsNearestOnSegment(a: Point, b: Point, p: Point, s: real)
    requires 0.0 <= s <= 1.0
    ensures Dist2(p, Project(a, b, p).Foot()) <= Dist2(p, Lerp(a, b, s))
  {
    var t := Project(a, b, p).t;
    if a == b {
      assert Lerp(a, b, s) == a && Lerp(a, b, t) == a;
    } else {
      var l := SegLen2(a, b);
      var k := Along(a, b, p);
      assert t * t * l - 2.0 * t * k <= s * s * l - 2.0 * s * k by {
        SegLenPositive(a, b);
        assert t == Clamp(k / l, 0.0, 1.0);
        DivFacts(k, l);
        QuadraticGap(l, k, s, t);
      }
      NearerByGap(a, b, p, s, t);
    }
  }

  /** A parameter `t` whose quadratic is no larger than that of `s` gives a foot no farther from `p`. */
  lemma NearerByGap(a: Point, b: Point, p: Point, s: real, t: real)
    requires t * t * SegLen2(a, b) - 2.0 * t * Along(a, b, p) <= s * s * SegLen2(a, b) - 2.0 * s * Along(a, b, p)
    ensures Dist2(p, Lerp(a, b, t)) <= Dist2(p, Lerp(a, b, s))
  {
    FootDistance(a, b, p, s);
    FootDistance(a, b, p, t);
  }

  lemma SegLenPositive(a: Point, b: Point)
    requires a != b
    ensures SegLen2(a, b) > 0.0
  {
    SqNonneg(b.left - a.left);
    SqNonneg(b.top - a.top);
    if a.left != b.left { SqPos(b.left - a.left); } else { SqPos(b.top - a.top); }
  }

  /** Squared distance from `p` to `Lerp(a, b, u)`, expanded as a quadratic in `u`. */
  lemma FootDistance(a: Point, b: Point, p: Point, u: real)
    ensures Dist2(p, Lerp(a, b, u))
         == Dist2(p, a) - 2.0 * u * Along(a, b, p) + u * u * SegLen2(a, b)
  {
    var f := Lerp(a, b, u);
    LawOfCosines(a, f, p);
    AlongScales(a, b, p, u);
    LengthScales(a, b, u);
  }

  /** |p - f|² = |p - a|² - 2 (p - a)·(f - a) + |f - a|². */
  lemma LawOfCosines(a: Point, f: Point, p: Point)
    ensures Dist2(p, f) == Dist2(p, a) - 2.0 * Along(a, f, p) + SegLen2(a, f)
  {
  }

  /** Moving the far end to `Lerp(a, b, u)` scales the scalar product by `u`. */
  lemma AlongScales(a: Point, b: Point, p: Point, u: real)
    ensures Along(a, Lerp(a, b, u), p) == u * Along(a, b, p)
  {
  }

  /** ... and the squared length by `u * u`. */
  lemma LengthScales(a: Point, b: Point, u: real)
    ensures SegLen2(a, Lerp(a, b, u)) == u * u * SegLen2(a, b)
  {
  }

  /** Dividing by a positive number keeps strict order. */
  lemma DivStrictMono(a: real, b: real, d: real)
    requires d > 0.0 && a < b
    ensures a / d < b / d
  {
    var x := b / d - a / d;
    assert x * d == b - a;
    if x <= 0.0 {
      MulNonnegOf(-x, d, -(x * d));
    }
  }

  lemma DivFacts(k: real, l: real)
    requires l > 0.0
    ensures (k / l) * l == k
    ensures k / l < 0.0 <==> k < 0.0
    ensures k / l > 1.0 <==> k > l
  {
    var q := k / l;
    assert q * l == k;
    if q < 0.0 { MulPosOf(-q, l, -k); }
    if k < 0.0 && q >= 0.0 { MulNonnegOf(q, l, k); }
    if q > 1.0 { MulPosOf(q - 1.0, l, k - l); }
    if k > l && q <= 1.0 { MulNonnegOf(1.0 - q, l, l - k); }
  }

  /** The quadratic `u*u*l - 2*u*k` over [0, 1] is smallest at the clamped vertex. */
  lemma QuadraticGap(l: real, k: real, s: real, t: real)
    requires l > 0.0 && 0.0 <= s <= 1.0
    requires t == Clamp(k / l, 0.0, 1.0)
    requires (k / l) * l == k
    requires k / l < 0.0 <==> k < 0.0
    requires k / l > 1.0 <==> k > l
    ensures t * t * l - 2.0 * t * k <= s * s * l - 2.0 * s * k
  {
    var gap := (s * s * l - 2.0 * s * k) - (t * t * l - 2.0 * t * k);
    if k < 0.0 {
      assert t == 0.0;
      MulNonnegOf(s, s * l - 2.0 * k, gap);
    } else if k > l {
      assert t == 1.0;
      assert 2.0 * k - l * (s + 1.0) >= 0.0 by {
        MulNonnegOf(1.0 - s, l, l - l * s);
      }
      MulNonnegOf(1.0 - s, 2.0 * k - l * (s + 1.0), gap);
    } else {
      assert t == k / l && k == t * l;
      MulNonnegOf(l, Sq(s - t), gap);
    }
  }
}
