/** Plane geometry over the reals (include/util/geometry.h, lib/util/geometry.cpp). */
module Geometry {

  datatype Vector = Vector(x: real, y: real)

  const ZERO := Vector(0.0, 0.0)

  function Plus(a: Vector, b: Vector): Vector { Vector(a.x + b.x, a.y + b.y) }

  function Minus(a: Vector, b: Vector): Vector { Vector(a.x - b.x, a.y - b.y) }

  function Scale(c: real, a: Vector): Vector { Vector(c * a.x, c * a.y) }

  function Dot(a: Vector, b: Vector): real { a.x * b.x + a.y * b.y }

  /** The direction a quarter turn to the left of `a`. */
  function Turned(a: Vector): Vector { Vector(-a.y, a.x) }

  function Square(a: Vector): real { Dot(a, a) }

  /** What is assumed of `sqrt`. */
  ghost predicate IsSqrt(sqrt: real -> real) {
    forall x :: x >= 0.0 ==> sqrt(x) >= 0.0 && sqrt(x) * sqrt(x) == x
  }

  function Length(sqrt: real -> real, p: Vector): real { sqrt(Square(p)) }

  function Distance(sqrt: real -> real, a: Vector, b: Vector): real { Length(sqrt, Minus(a, b)) }

  function Normalize(sqrt: real -> real, p: Vector): Vector
    requires Length(sqrt, p) != 0.0
  {
    var length := Length(sqrt, p);
    Vector(p.x / length, p.y / length)
  }

  predicate Less(l: real, r: real, epsilon: real) { l < r - epsilon }

  predicate Equal(l: real, r: real, epsilon: real) {
    if l - r < 0.0 then r - l < epsilon else l - r < epsilon
  }

  lemma Positive(a: real, b: real)
    requires a > 0.0 && b > 0.0
    ensures a * b > 0.0
  {}

  lemma PositiveProduct(a: real, b: real, q: real)
    requires a > 0.0 && b > 0.0 && q == a * b
    ensures q > 0.0
  {}

  lemma SquareOfReal(x: real)
    ensures x * x >= 0.0
  {}

  lemma SquareNonNegative(a: Vector)
    ensures Square(a) >= 0.0
  {
    SquareOfReal(a.x);
    SquareOfReal(a.y);
  }

  lemma LengthSquare(sqrt: real -> real, p: Vector)
    requires IsSqrt(sqrt)
    ensures Length(sqrt, p) >= 0.0 && Length(sqrt, p) * Length(sqrt, p) == Square(p)
  {
    SquareNonNegative(p);
  }

  lemma DistanceBothWays(sqrt: real -> real, a: Vector, b: Vector)
    ensures Distance(sqrt, a, b) == Distance(sqrt, b, a)
  {
    var x, y := a.x - b.x, a.y - b.y;
    assert Minus(a, b) == Vector(x, y) && Minus(b, a) == Vector(-x, -y);
    hide Minus, Square;
    SquareOfOpposite(x, y);
  }

  lemma SquareOfOpposite(x: real, y: real)
    ensures Square(Vector(-x, -y)) == Square(Vector(x, y))
  {}

  lemma Quotient(x: real, d: real)
    requires d != 0.0
    ensures x == d * (x / d)
  {}

  lemma CancelFactor(u: real, d: real)
    requires d > 0.0 && u * d == d
    ensures u == 1.0
  {
    if u > 1.0 { Positive(u - 1.0, d); }
    if u < 1.0 { Positive(1.0 - u, d); }
  }

  lemma ScaledDown(p: Vector, n: Vector, d: real, q: real)
    requires p == Scale(d, n) && d > 0.0 && d * d == q == Square(p)
    ensures Square(n) == 1.0
  {
    hide Square;
    PositiveProduct(d, d, q);
    ScaledSquare(d, n, q);
    CancelFactor(Square(n), q);
  }

  /** A vector divided by its length has length one and the direction of the vector. */
  lemma NormalizeIsUnit(sqrt: real -> real, p: Vector)
    requires IsSqrt(sqrt) && Length(sqrt, p) > 0.0
    ensures Square(Normalize(sqrt, p)) == 1.0
    ensures p == Scale(Length(sqrt, p), Normalize(sqrt, p))
  {
    hide IsSqrt, Square;
    var d, n := Length(sqrt, p), Normalize(sqrt, p);
    Quotient(p.x, d);
    Quotient(p.y, d);
    LengthSquare(sqrt, p);
    ScaledDown(p, n, d, Square(p));
  }

  lemma ScaledSquare(c: real, a: Vector, cc: real)
    requires cc == c * c
    ensures Square(Scale(c, a)) == Square(a) * cc
  {
    assert (c * a.x) * (c * a.x) == (a.x * a.x) * (c * c);
    assert (c * a.y) * (c * a.y) == (a.y * a.y) * (c * c);
  }

  lemma DotPlus(a: Vector, b: Vector, c: Vector)
    ensures Dot(Plus(a, b), c) == Dot(a, c) + Dot(b, c) && Dot(c, Plus(a, b)) == Dot(c, a) + Dot(c, b)
  {}

  lemma DotScale(k: real, a: Vector, b: Vector)
    ensures Dot(Scale(k, a), b) == k * Dot(a, b) && Dot(a, Scale(k, b)) == k * Dot(a, b)
  {
    Regroup(k, a.x, b.x);
    Regroup(k, a.y, b.y);
  }

  lemma Regroup(a: real, b: real, c: real)
    ensures (a * b) * c == a * (b * c) && b * (a * c) == a * (b * c)
  {}

  /** Adding `k n` for a unit `n`: the part along `n` grows by `k`, the part across it stays. */
  lemma AddAlong(a: Vector, k: real, n: Vector)
    requires Square(n) == 1.0
    ensures Dot(Plus(a, Scale(k, n)), n) == Dot(a, n) + k
    ensures Dot(Plus(a, Scale(k, n)), Turned(n)) == Dot(a, Turned(n))
    ensures Square(Plus(a, Scale(k, n))) == Square(a) + 2.0 * k * Dot(a, n) + k * k
  {
    var b := Scale(k, n);
    DotPlus(a, b, n);
    DotScale(k, n, n);
    DotPlus(a, b, Turned(n));
    DotScale(k, n, Turned(n));
    DotPlus(a, b, a);
    DotPlus(a, b, b);
    DotPlus(a, b, Plus(a, b));
    DotScale(k, a, n);
    DotScale(k, n, b);
    assert Dot(b, a) == Dot(a, b) == k * Dot(a, n);
    assert Dot(b, b) == k * k;
  }

  lemma Determined(x: real, y: real, p: real, q: real)
    requires p * p + q * q == 1.0 && x * p + y * q == 0.0 && y * p == x * q
    ensures x == 0.0
  {
    // 0 == p (x p + y q) == x p p + q (y p) == x (p p + q q) == x
    assert p * (x * p + y * q) == x * (p * p) + q * (y * p);
    assert q * (x * q) == x * (q * q);
    assert x * (p * p) + x * (q * q) == x * (p * p + q * q);
  }

  /** The parts along and across a unit vector determine a vector. */
  lemma PartsDetermine(a: Vector, b: Vector, n: Vector)
    requires Square(n) == 1.0
    requires Dot(a, n) == Dot(b, n) && Dot(a, Turned(n)) == Dot(b, Turned(n))
    ensures a == b
  {
    var c := Minus(a, b);
    DotMinus(a, b, n);
    DotMinus(a, b, Turned(n));
    Determined(c.x, c.y, n.x, n.y);
    Determined(c.y, -c.x, n.x, n.y);
  }

  lemma DotMinus(a: Vector, b: Vector, c: Vector)
    ensures Dot(Minus(a, b), c) == Dot(a, c) - Dot(b, c)
  {}

  /** The vector with part `p` along the unit vector `n` and part `q` across it. */
  function Compose(p: real, q: real, n: Vector): Vector { Plus(Scale(p, n), Scale(q, Turned(n))) }

  lemma ComposeParts(p: real, q: real, n: Vector)
    requires Square(n) == 1.0
    ensures Dot(Compose(p, q, n), n) == p && Dot(Compose(p, q, n), Turned(n)) == q
    ensures Square(Compose(p, q, n)) == p * p + q * q
  {
    var a, b, t := Scale(p, n), Scale(q, Turned(n)), Turned(n);
    assert Dot(t, n) == 0.0 == Dot(n, t) && Dot(t, t) == 1.0;
    hide Turned;
    DotPlus(a, b, n);
    DotScale(p, n, n);
    DotScale(q, t, n);
    DotPlus(a, b, t);
    DotScale(p, n, t);
    DotScale(q, t, t);
    DotPlus(a, b, Compose(p, q, n));
    DotScale(p, n, Compose(p, q, n));
    DotScale(q, t, Compose(p, q, n));
    hide Dot, Scale, Plus;
    assert Dot(Compose(p, q, n), n) == p && Dot(Compose(p, q, n), t) == q;
    DotCommutes(n, Compose(p, q, n));
    DotCommutes(t, Compose(p, q, n));
  }

  lemma DotCommutes(a: Vector, b: Vector)
    ensures Dot(a, b) == Dot(b, a)
  {}

  lemma Decompose(a: Vector, n: Vector)
    requires Square(n) == 1.0
    ensures a == Compose(Dot(a, n), Dot(a, Turned(n)), n)
    ensures Square(a) == Dot(a, n) * Dot(a, n) + Dot(a, Turned(n)) * Dot(a, Turned(n))
  {
    ComposeParts(Dot(a, n), Dot(a, Turned(n)), n);
    PartsDetermine(a, Compose(Dot(a, n), Dot(a, Turned(n)), n), n);
  }

  lemma SquareSign(x: real, xx: real)
    requires xx == x * x
    ensures xx >= 0.0 && (x != 0.0 ==> xx > 0.0)
  {
    SquareOfReal(x);
    if x > 0.0 {
      PositiveProduct(x, x, xx);
    } else if x < 0.0 {
      assert xx == (-x) * (-x);
      PositiveProduct(-x, -x, xx);
    }
  }

  lemma SumOfSquares(v: Vector, xx: real, yy: real)
    requires v != ZERO && xx >= 0.0 && yy >= 0.0 && (v.x != 0.0 ==> xx > 0.0) && (v.y != 0.0 ==> yy > 0.0)
    ensures xx + yy > 0.0
  {}

  lemma SquareOfMoving(v: Vector)
    requires v != ZERO
    ensures Square(v) > 0.0
  {
    var xx, yy := v.x * v.x, v.y * v.y;
    assert Square(v) == xx + yy;
    SquareSign(v.x, xx);
    SquareSign(v.y, yy);
    SumOfSquares(v, xx, yy);
  }

  lemma NoSquare()
    ensures Square(ZERO) == 0.0
  {}

  lemma NoLength(sqrt: real -> real)
    requires IsSqrt(sqrt)
    ensures Length(sqrt, ZERO) == 0.0
  {
    hide IsSqrt, Square, Length;
    NoSquare();
    LengthSquare(sqrt, ZERO);
    var l := Length(sqrt, ZERO);
    if l > 0.0 { PositiveProduct(l, l, Square(ZERO)); }
  }

  lemma RootOfSquare(sqrt: real -> real, x: real, xx: real)
    requires IsSqrt(sqrt) && x >= 0.0 && xx == x * x
    ensures sqrt(xx) == x
  {
    SquareOfReal(x);
    var r := sqrt(xx);
    assert r >= 0.0 && r * r == xx;
    hide IsSqrt;
    if r < x { SquareGrows(r, x, r * r, xx); }
    if x < r { SquareGrows(x, r, xx, r * r); }
  }

  lemma SquareGrows(a: real, b: real, aa: real, bb: real)
    requires 0.0 <= a < b && aa == a * a && bb == b * b
    ensures aa < bb
  {
    PositiveProduct(b - a, b + a, (b - a) * (b + a));
    assert (b - a) * (b + a) == b * b - a * a;
  }

  lemma LengthOfMoving(sqrt: real -> real, p: Vector)
    requires IsSqrt(sqrt) && p != ZERO
    ensures Length(sqrt, p) > 0.0
  {
    hide IsSqrt, Square, Length;
    SquareOfMoving(p);
    LengthSquare(sqrt, p);
    NoProduct(Length(sqrt, p));
  }

  lemma NoProduct(x: real)
    requires x * x > 0.0
    ensures x != 0.0
  {}

  lemma UnitLength(sqrt: real -> real)
    requires IsSqrt(sqrt)
    ensures Length(sqrt, Vector(1.0, 0.0)) == 1.0
  {
    hide IsSqrt, Square;
    UnitSquare();
    RootOfSquare(sqrt, 1.0, 1.0);
  }

  lemma UnitSquare()
    ensures Square(Vector(1.0, 0.0)) == 1.0
  {}
}
