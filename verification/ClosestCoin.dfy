/** The fallback of the predictive strategy (src/strategies/predictive_strategy.cpp, `MoveToClosestCoin`): towards
    the point of the ray to the closest coin that is next to where the player will be. */
module ClosestCoin {
  import opened Wrappers
  import opened Geometry
  import opened Physics
  import opened Coins

  const BIGGEST_DISTANCE := 100000000.0

  const ITERATIONS := 100

  // ---------------------------------------------------------------- the closest coin

  /** The first of the coins at the least distance, if any is nearer than the bound. */
  ghost predicate IsClosestCoin(sqrt: real -> real, p: Player, coins: seq<Coin>, r: Option<nat>) {
    match r
    case None => forall j :: 0 <= j < |coins| ==> BIGGEST_DISTANCE <= Distance(sqrt, p.center, coins[j].center)
    case Some(k) =>
      k < |coins| && Distance(sqrt, p.center, coins[k].center) < BIGGEST_DISTANCE
      && forall j :: 0 <= j < |coins| ==>
           Distance(sqrt, p.center, coins[k].center) <= Distance(sqrt, p.center, coins[j].center)
           && (j < k ==> Distance(sqrt, p.center, coins[k].center) < Distance(sqrt, p.center, coins[j].center))
  }

  method FindClosestCoin(sqrt: real -> real, p: Player, coins: seq<Coin>) returns (r: Option<nat>)
    ensures IsClosestCoin(sqrt, p, coins, r)
  {
    hide Distance;
    var minDistance := BIGGEST_DISTANCE;
    r := None;
    for coinIndex := 0 to |coins|
      invariant r.Some? ==> r.value < coinIndex && minDistance == Distance(sqrt, p.center, coins[r.value].center) < BIGGEST_DISTANCE
      invariant r.None? ==> minDistance == BIGGEST_DISTANCE
      invariant forall j :: 0 <= j < coinIndex ==> minDistance <= Distance(sqrt, p.center, coins[j].center)
      invariant r.Some? ==> forall j :: 0 <= j < r.value ==> minDistance < Distance(sqrt, p.center, coins[j].center)
    {
      var distToCoin := Distance(sqrt, p.center, coins[coinIndex].center);
      if distToCoin < minDistance {
        minDistance := distToCoin;
        r := Some(coinIndex);
      }
    }
  }

  // ---------------------------------------------------------------- the closest point of a segment

  function At(start: Vector, way: Vector, t: real): Vector { Plus(start, Scale(t, way)) }

  function Gap(start: Vector, way: Vector, point: Vector, t: real): real { Square(Minus(point, At(start, way, t))) }

  /** No point of the segment is nearer. */
  ghost predicate IsNearest(sqrt: real -> real, start: Vector, way: Vector, point: Vector, u: real) {
    0.0 <= u <= 1.0
    && forall t :: 0.0 <= t <= 1.0 ==> Distance(sqrt, point, At(start, way, u)) <= Distance(sqrt, point, At(start, way, t))
  }

  lemma GapDifference(start: Vector, way: Vector, point: Vector, x: real, y: real)
    ensures Gap(start, way, point, y) - Gap(start, way, point, x)
            == (y - x) * ((x + y) * Square(way) - 2.0 * Dot(Minus(point, start), way))
  {
    var v := Minus(point, start);
    OneAxis(v.x, way.x, x, y);
    OneAxis(v.y, way.y, x, y);
    var dx, dy, ex, ey := way.x * way.x, way.y * way.y, v.x * way.x, v.y * way.y;
    Distribute(y - x, x + y, dx, dy, ex, ey);
    SplitGap(start, way, point, x);
    SplitGap(start, way, point, y);
  }

  lemma SplitGap(start: Vector, way: Vector, point: Vector, t: real)
    ensures var v := Minus(point, start);
            Gap(start, way, point, t) == (v.x - t * way.x) * (v.x - t * way.x) + (v.y - t * way.y) * (v.y - t * way.y)
  {}

  lemma OneAxis(v: real, w: real, x: real, y: real)
    ensures (v - y * w) * (v - y * w) - (v - x * w) * (v - x * w) == (y - x) * ((x + y) * (w * w) - 2.0 * (v * w))
  {
    var a, b := y * w, x * w;
    assert (v - a) * (v - a) - (v - b) * (v - b) == (a - b) * (a + b - 2.0 * v);
    assert a - b == (y - x) * w && a + b == (x + y) * w;
    Regroup(y - x, w, a + b - 2.0 * v);
    assert w * (a + b - 2.0 * v) == w * ((x + y) * w) - 2.0 * (v * w);
    Regroup(w, x + y, w);
  }

  lemma Distribute(c: real, s: real, dx: real, dy: real, ex: real, ey: real)
    ensures c * (s * dx - 2.0 * ex) + c * (s * dy - 2.0 * ey) == c * (s * (dx + dy) - 2.0 * (ex + ey))
  {
    assert s * dx + s * dy == s * (dx + dy);
  }

  function Slope(start: Vector, way: Vector, point: Vector, s: real): real {
    s * Square(way) - 2.0 * Dot(Minus(point, start), way)
  }

  lemma SignOfProduct(a: real, b: real, q: real)
    requires a > 0.0 && q == a * b
    ensures (q > 0.0 <==> b > 0.0) && (q < 0.0 <==> b < 0.0)
  {
    if b > 0.0 {
      PositiveProduct(a, b, q);
    } else if b < 0.0 {
      PositiveProduct(a, -b, -q);
    }
  }

  lemma LengthOrder(sqrt: real -> real, a: Vector, b: Vector)
    requires IsSqrt(sqrt)
    ensures Length(sqrt, a) < Length(sqrt, b) <==> Square(a) < Square(b)
  {
    LengthSquare(sqrt, a);
    LengthSquare(sqrt, b);
    hide IsSqrt, Length, Square;
    var x, y := Length(sqrt, a), Length(sqrt, b);
    if x < y { SquareGrows(x, y, Square(a), Square(b)); }
    if y < x { SquareGrows(y, x, Square(b), Square(a)); }
  }

  /** Which of two points of the segment is nearer. */
  lemma NearerExactlyWhen(sqrt: real -> real, start: Vector, way: Vector, point: Vector, x: real, y: real)
    requires IsSqrt(sqrt) && x < y
    ensures Distance(sqrt, point, At(start, way, x)) < Distance(sqrt, point, At(start, way, y)) <==>
            Slope(start, way, point, x + y) > 0.0
    ensures Distance(sqrt, point, At(start, way, y)) < Distance(sqrt, point, At(start, way, x)) <==>
            Slope(start, way, point, x + y) < 0.0
  {
    LengthOrder(sqrt, Minus(point, At(start, way, x)), Minus(point, At(start, way, y)));
    LengthOrder(sqrt, Minus(point, At(start, way, y)), Minus(point, At(start, way, x)));
    GapDifference(start, way, point, x, y);
    hide IsSqrt, Length, At, Minus, Square, Dot;
    SignOfProduct(y - x, Slope(start, way, point, x + y), Gap(start, way, point, y) - Gap(start, way, point, x));
  }

  lemma SlopeGrows(start: Vector, way: Vector, point: Vector, s: real, t: real)
    requires s < t && Square(way) > 0.0
    ensures Slope(start, way, point, s) < Slope(start, way, point, t)
  {
    hide Square, Dot, Minus;
    PositiveProduct(t - s, Square(way), (t - s) * Square(way));
    assert (t - s) * Square(way) == t * Square(way) - s * Square(way);
  }

  /** One comparison of the search never cuts off the nearest point. */
  lemma Narrows(sqrt: real -> real, start: Vector, way: Vector, point: Vector, midLeft: real, midRight: real, u: real)
    requires IsSqrt(sqrt) && Square(way) > 0.0 && 0.0 <= midLeft < midRight <= 1.0
    requires IsNearest(sqrt, start, way, point, u)
    ensures if Distance(sqrt, point, At(start, way, midLeft)) < Distance(sqrt, point, At(start, way, midRight))
            then u <= midRight else midLeft <= u
  {
    hide IsSqrt, Distance, At, Slope, Square;
    NearerExactlyWhen(sqrt, start, way, point, midLeft, midRight);
    if u > midRight {
      NearerExactlyWhen(sqrt, start, way, point, midRight, u);
      SlopeGrows(start, way, point, midLeft + midRight, midRight + u);
    }
    if u < midLeft {
      NearerExactlyWhen(sqrt, start, way, point, u, midLeft);
      SlopeGrows(start, way, point, u + midLeft, midLeft + midRight);
    }
  }

  /** There is a nearest point: where the distance to the line is least, or the end on that side. */
  lemma NearestExists(sqrt: real -> real, start: Vector, way: Vector, point: Vector) returns (u: real)
    requires IsSqrt(sqrt) && Square(way) > 0.0
    ensures IsNearest(sqrt, start, way, point, u)
  {
    var d, e := Square(way), Dot(Minus(point, start), way);
    var b := e / d;
    Quotient(e, d);
    u := if b < 0.0 then 0.0 else if b > 1.0 then 1.0 else b;
    hide IsSqrt, Distance, At, Square, Dot, Minus;
    forall t | 0.0 <= t <= 1.0 ensures Distance(sqrt, point, At(start, way, u)) <= Distance(sqrt, point, At(start, way, t)) {
      SlopeSign(start, way, point, b, u + t);
      if u < t { NearerExactlyWhen(sqrt, start, way, point, u, t); }
      if t < u { NearerExactlyWhen(sqrt, start, way, point, t, u); }
    }
  }

  lemma SlopeSign(start: Vector, way: Vector, point: Vector, b: real, s: real)
    requires Square(way) > 0.0 && Dot(Minus(point, start), way) == Square(way) * b
    ensures Slope(start, way, point, s) < 0.0 <==> s < 2.0 * b
    ensures Slope(start, way, point, s) > 0.0 <==> s > 2.0 * b
  {
    hide Square, Dot, Minus;
    SignOfProduct(Square(way), s - 2.0 * b, Slope(start, way, point, s));
  }

  // ---------------------------------------------------------------- the search

  /** What is left of the segment after `k` thirds have been cut off. */
  function Width(k: nat): real { if k == 0 then 1.0 else Width(k - 1) * 2.0 / 3.0 }

  function HalfPower(k: nat): real { if k == 0 then 1.0 else HalfPower(k - 1) / 2.0 }

  lemma {:induction false} WidthBelow(k: nat)
    ensures 0.0 < Width(2 * k) <= HalfPower(k)
  {
    if k > 0 {
      WidthBelow(k - 1);
      assert Width(2 * k) == Width(2 * k - 1) * 2.0 / 3.0 && Width(2 * k - 1) == Width(2 * (k - 1)) * 2.0 / 3.0;
    }
  }

  /** A hundred steps along the whole ray leave less than a ten millionth. */
  lemma SearchIsPrecise()
    ensures 0.0 < Width(ITERATIONS) * BIGGEST_DISTANCE < 0.0000001
  {
    WidthBelow(50);
    assert HalfPower(0) == 1.0;
    TenHalvings(0);
    TenHalvings(10);
    TenHalvings(20);
    TenHalvings(30);
    TenHalvings(40);
  }

  lemma TenHalvings(k: nat)
    ensures HalfPower(k + 10) == HalfPower(k) / 1024.0
  {
    assert HalfPower(k + 2) == HalfPower(k) / 4.0;
    assert HalfPower(k + 4) == HalfPower(k + 2) / 4.0;
    assert HalfPower(k + 6) == HalfPower(k + 4) / 4.0;
    assert HalfPower(k + 8) == HalfPower(k + 6) / 4.0;
  }

  /** The nearest point stays between the bounds, and each step cuts off a third. */
  method Search(sqrt: real -> real, start: Vector, way: Vector, point: Vector) returns (t: real)
    requires IsSqrt(sqrt) && Square(way) > 0.0
    ensures 0.0 <= t <= 1.0
    ensures forall u :: IsNearest(sqrt, start, way, point, u) ==> t <= u <= t + Width(ITERATIONS)
  {
    hide IsSqrt, IsNearest, Distance, At, Square;
    var leftBound, rightBound := 0.0, 1.0;
    forall u | IsNearest(sqrt, start, way, point, u) ensures 0.0 <= u <= 1.0 { NearestWithin(sqrt, start, way, point, u); }
    for iter := 0 to ITERATIONS
      invariant 0.0 <= leftBound < rightBound <= 1.0 && rightBound - leftBound == Width(iter)
      invariant forall u :: IsNearest(sqrt, start, way, point, u) ==> leftBound <= u <= rightBound
    {
      var midLeft, midRight := (2.0 * leftBound + rightBound) / 3.0, (leftBound + 2.0 * rightBound) / 3.0;
      forall u | IsNearest(sqrt, start, way, point, u)
        ensures if Distance(sqrt, point, At(start, way, midLeft)) < Distance(sqrt, point, At(start, way, midRight))
                then u <= midRight else midLeft <= u
      {
        Narrows(sqrt, start, way, point, midLeft, midRight, u);
      }
      if Distance(sqrt, point, At(start, way, midLeft)) < Distance(sqrt, point, At(start, way, midRight)) {
        rightBound := midRight;
      } else {
        leftBound := midLeft;
      }
    }
    t := leftBound;
  }

  lemma NearestWithin(sqrt: real -> real, start: Vector, way: Vector, point: Vector, u: real)
    requires IsNearest(sqrt, start, way, point, u)
    ensures 0.0 <= u <= 1.0
  {}

  // ---------------------------------------------------------------- the acceleration

  /** From the next position to the point found; when that is less than one away, a unit further along. */
  function Shift(sqrt: real -> real, point: Vector, found: Vector, direction: Vector): Vector {
    var shift := Minus(found, point);
    if Length(sqrt, shift) < 1.0 then Plus(shift, direction) else shift
  }

  /** A unit vector that points from where the player will be to a point of the ray to the target that is within
      the precision of the search of the nearest one, or a unit past it; not a number when the player stands on the
      target. */
  ghost predicate IsWay(sqrt: real -> real, timeDelta: real, p: Player, target: Vector, r: Option<Vector>) {
    var direction := Minus(target, p.center);
    var next := Plus(p.center, Scale(timeDelta, p.velocity));
    if direction == ZERO then r.None?
    else
      Length(sqrt, direction) > 0.0
      && var n := Normalize(sqrt, direction);
         var way := Scale(BIGGEST_DISTANCE, n);
         r.Some? && Square(r.value) == 1.0
         && exists t, u :: IsNearest(sqrt, p.center, way, next, u) && 0.0 <= t <= u <= t + Width(ITERATIONS)
                           && var shift := Shift(sqrt, next, At(p.center, way, t), n);
                              Length(sqrt, shift) > 0.0 && shift == Scale(Length(sqrt, shift), r.value)
  }

  lemma ShiftMoves(sqrt: real -> real, point: Vector, found: Vector, direction: Vector)
    requires IsSqrt(sqrt) && Square(direction) == 1.0
    ensures Length(sqrt, Shift(sqrt, point, found, direction)) > 0.0
  {
    var shift := Minus(found, point);
    if Length(sqrt, shift) < 1.0 {
      if Plus(shift, direction) == ZERO {
        Opposite(shift, direction);
        hide IsSqrt, Square;
        RootOfSquare(sqrt, 1.0, 1.0);
      } else {
        LengthOfMoving(sqrt, Plus(shift, direction));
      }
    }
  }

  lemma Opposite(a: Vector, b: Vector)
    requires Plus(a, b) == ZERO
    ensures Square(a) == Square(b)
  {
    assert a.x == -b.x && a.y == -b.y;
  }

  lemma WayIsLong(sqrt: real -> real, n: Vector)
    requires Square(n) == 1.0
    ensures Square(Scale(BIGGEST_DISTANCE, n)) > 0.0
  {
    ScaledSquare(BIGGEST_DISTANCE, n, BIGGEST_DISTANCE * BIGGEST_DISTANCE);
  }

  method WayTo(sqrt: real -> real, timeDelta: real, p: Player, target: Vector) returns (r: Option<Vector>)
    requires IsSqrt(sqrt)
    ensures IsWay(sqrt, timeDelta, p, target, r)
  {
    hide IsSqrt, Length, Square, Normalize, Minus, At, Plus, IsNearest, Scale;
    var direction := Minus(target, p.center);
    if direction == ZERO { return None; }
    LengthOfMoving(sqrt, direction);
    NormalizeIsUnit(sqrt, direction);
    var n := Normalize(sqrt, direction);
    var way := Scale(BIGGEST_DISTANCE, n);
    var next := Plus(p.center, Scale(timeDelta, p.velocity));
    WayIsLong(sqrt, n);
    var t := Search(sqrt, p.center, way, next);
    ghost var u := NearestExists(sqrt, p.center, way, next);
    var shift := Minus(At(p.center, way, t), next);
    if Length(sqrt, shift) < 1.0 { shift := Plus(shift, n); }
    assert shift == Shift(sqrt, next, At(p.center, way, t), n);
    ShiftMoves(sqrt, next, At(p.center, way, t), n);
    NormalizeIsUnit(sqrt, shift);
    r := Some(Normalize(sqrt, shift));
    assert IsNearest(sqrt, p.center, way, next, u) && 0.0 <= t <= u <= t + Width(ITERATIONS);
  }

  /** What the fallback returns: to the right when no coin is near enough, else on the way to the closest. */
  ghost predicate IsFallback(sqrt: real -> real, timeDelta: real, p: Player, coins: seq<Coin>, r: Option<Vector>) {
    exists coin :: IsClosestCoin(sqrt, p, coins, coin)
                   && match coin
                      case None => r == Some(Vector(1.0, 0.0))
                      case Some(k) => IsWay(sqrt, timeDelta, p, coins[k].center, r)
  }

  method MoveToClosestCoin(sqrt: real -> real, timeDelta: real, p: Player, coins: seq<Coin>) returns (r: Option<Vector>)
    requires IsSqrt(sqrt)
    ensures IsFallback(sqrt, timeDelta, p, coins, r)
  {
    hide IsSqrt, IsWay;
    var coin := FindClosestCoin(sqrt, p, coins);
    if coin.None? { return Some(Vector(1.0, 0.0)); }
    r := WayTo(sqrt, timeDelta, p, coins[coin.value].center);
  }

  /** The fallback is a number exactly unless the player stands on the closest coin, and then it is a unit vector. */
  lemma FallbackIsUnit(sqrt: real -> real, timeDelta: real, p: Player, coins: seq<Coin>, r: Option<Vector>)
    requires IsFallback(sqrt, timeDelta, p, coins, r)
    ensures r.None? <==>
            exists k: nat :: k < |coins| && IsClosestCoin(sqrt, p, coins, Some(k)) && coins[k].center == p.center
    ensures r.Some? ==> Square(r.value) == 1.0
  {
    hide Distance, Length;
    var coin :| IsClosestCoin(sqrt, p, coins, coin)
                && match coin
                   case None => r == Some(Vector(1.0, 0.0))
                   case Some(k) => IsWay(sqrt, timeDelta, p, coins[k].center, r);
    forall k: nat | k < |coins| && IsClosestCoin(sqrt, p, coins, Some(k)) ensures coin == Some(k) {
      OneClosestCoin(sqrt, p, coins, coin, k);
    }
  }

  lemma OneClosestCoin(sqrt: real -> real, p: Player, coins: seq<Coin>, r: Option<nat>, k: nat)
    requires IsClosestCoin(sqrt, p, coins, r) && IsClosestCoin(sqrt, p, coins, Some(k))
    ensures r == Some(k)
  {
    hide Distance;
  }

  // ---------------------------------------------------------------- where it leads

  lemma RestIsNearest(sqrt: real -> real, start: Vector, way: Vector, u: real)
    requires IsSqrt(sqrt) && Square(way) > 0.0 && IsNearest(sqrt, start, way, start, u)
    ensures u == 0.0
  {
    hide IsSqrt, Slope, Square, At, Distance;
    assert Distance(sqrt, start, At(start, way, u)) <= Distance(sqrt, start, At(start, way, 0.0));
    if u > 0.0 {
      NearerExactlyWhen(sqrt, start, way, start, 0.0, u);
      SlopeFromStart(start, way, 0.0 + u);
    }
  }

  lemma SlopeFromStart(start: Vector, way: Vector, s: real)
    requires s > 0.0 && Square(way) > 0.0
    ensures Slope(start, way, start, s) > 0.0
  {
    assert Minus(start, start) == ZERO && Dot(ZERO, way) == 0.0;
    hide Square, Dot, Minus;
    PositiveProduct(s, Square(way), s * Square(way));
  }

  lemma AtStart(start: Vector, way: Vector)
    ensures Minus(At(start, way, 0.0), start) == ZERO
  {}

  lemma ShiftAtRest(sqrt: real -> real, start: Vector, way: Vector, n: Vector)
    requires IsSqrt(sqrt)
    ensures Shift(sqrt, start, At(start, way, 0.0), n) == n
  {
    AtStart(start, way);
    NoLength(sqrt);
    hide Length, IsSqrt, Minus, At;
  }

  lemma UnitScale(sqrt: real -> real, n: Vector, r: Vector)
    requires IsSqrt(sqrt) && Square(n) == 1.0 && n == Scale(Length(sqrt, n), r)
    ensures n == r
  {
    hide IsSqrt, Square;
    RootOfSquare(sqrt, 1.0, 1.0);
  }

  lemma NextAtRest(c: Vector, timeDelta: real)
    ensures Plus(c, Scale(timeDelta, ZERO)) == c
  {}

  /** A player at rest is accelerated straight towards the target: by the unit vector from it to there. */
  lemma RestGoesStraight(sqrt: real -> real, timeDelta: real, p: Player, target: Vector, r: Option<Vector>)
    requires IsSqrt(sqrt) && p.velocity == ZERO && target != p.center && IsWay(sqrt, timeDelta, p, target, r)
    ensures r.Some? && Square(r.value) == 1.0
    ensures Scale(Distance(sqrt, target, p.center), r.value) == Vector(target.x - p.center.x, target.y - p.center.y)
  {
    var direction := Minus(target, p.center);
    NextAtRest(p.center, timeDelta);
    var n := Normalize(sqrt, direction);
    var way := Scale(BIGGEST_DISTANCE, n);
    NormalizeIsUnit(sqrt, direction);
    WayIsLong(sqrt, n);
    hide Length, Square, IsSqrt, Normalize, IsNearest, At, Scale, Shift;
    var t, u :| IsNearest(sqrt, p.center, way, p.center, u) && 0.0 <= t <= u <= t + Width(ITERATIONS)
                && var shift := Shift(sqrt, p.center, At(p.center, way, t), n);
                   Length(sqrt, shift) > 0.0 && shift == Scale(Length(sqrt, shift), r.value);
    RestIsNearest(sqrt, p.center, way, u);
    ShiftAtRest(sqrt, p.center, way, n);
    UnitScale(sqrt, n, r.value);
  }

  /** So the fallback sends a player at rest straight to the closest coin, unless it stands on it. */
  lemma FallbackAtRest(sqrt: real -> real, timeDelta: real, p: Player, coins: seq<Coin>, r: Option<Vector>, k: nat)
    requires IsSqrt(sqrt) && p.velocity == ZERO && IsFallback(sqrt, timeDelta, p, coins, r)
    requires k < |coins| && IsClosestCoin(sqrt, p, coins, Some(k)) && coins[k].center != p.center
    ensures r.Some? && Square(r.value) == 1.0
    ensures var c := coins[k].center;
            Scale(Distance(sqrt, c, p.center), r.value) == Vector(c.x - p.center.x, c.y - p.center.y)
  {
    hide Distance, Length, IsWay, IsSqrt, Square, Scale;
    var coin :| IsClosestCoin(sqrt, p, coins, coin)
                && match coin
                   case None => r == Some(Vector(1.0, 0.0))
                   case Some(k) => IsWay(sqrt, timeDelta, p, coins[k].center, r);
    OneClosestCoin(sqrt, p, coins, coin, k);
    RestGoesStraight(sqrt, timeDelta, p, coins[k].center, r);
  }

  // ---------------------------------------------------------------- a moving player

  lemma CrossProduct(a: Vector, b: Vector)
    ensures Dot(a, b) * Dot(a, b) <= Square(a) * Square(b)
  {
    var c := a.x * b.y - a.y * b.x;
    SquareOfReal(c);
    Lagrange(a.x * b.x, a.y * b.y, a.x * b.y, a.y * b.x, a, b);
  }

  lemma Lagrange(p: real, q: real, r: real, s: real, a: Vector, b: Vector)
    requires p == a.x * b.x && q == a.y * b.y && r == a.x * b.y && s == a.y * b.x
    ensures (p + q) * (p + q) + (r - s) * (r - s) == Square(a) * Square(b)
  {
    assert p * q == r * s by { FourFactors(a.x, b.x, a.y, b.y); }
    assert (p + q) * (p + q) == p * p + q * q + 2.0 * (p * q);
    assert (r - s) * (r - s) == r * r + s * s - 2.0 * (r * s);
    SquareOfProduct(a.x, b.x);
    SquareOfProduct(a.y, b.y);
    SquareOfProduct(a.x, b.y);
    SquareOfProduct(a.y, b.x);
    Expand(a.x * a.x, a.y * a.y, b.x * b.x, b.y * b.y);
  }

  lemma FourFactors(a: real, b: real, c: real, d: real)
    ensures (a * b) * (c * d) == (a * d) * (c * b)
  {
    Regroup(a, b, c * d);
    Regroup(a, d, c * b);
    assert b * (c * d) == d * (c * b) by { Regroup(c, b, d); }
  }

  lemma SquareOfProduct(a: real, b: real)
    ensures (a * b) * (a * b) == (a * a) * (b * b)
  {
    FourFactors(a, b, a, b);
    FourFactors(a, b, b, a);
  }

  lemma Expand(a: real, b: real, c: real, d: real)
    ensures (a + b) * (c + d) == a * c + b * d + a * d + b * c
  {}

  lemma SmallRoot(x: real, xx: real)
    requires xx == x * x && xx < 1.0
    ensures -1.0 < x < 1.0
  {
    if x >= 1.0 { NonNegativeProduct(x - 1.0, x + 1.0, (x - 1.0) * (x + 1.0)); }
    if x <= -1.0 { NonNegativeProduct(-x - 1.0, -x + 1.0, (-x - 1.0) * (-x + 1.0)); }
  }

  lemma PartBelowLength(sqrt: real -> real, s: Vector, n: Vector)
    requires IsSqrt(sqrt) && Square(n) == 1.0 && Length(sqrt, s) < 1.0
    ensures Dot(s, n) > -1.0
  {
    LengthSquare(sqrt, s);
    CrossProduct(s, n);
    hide IsSqrt, Length, Square, Dot;
    var l := Length(sqrt, s);
    SquareGrows(l, 1.0, l * l, 1.0);
    SmallRoot(Dot(s, n), Dot(s, n) * Dot(s, n));
  }

  lemma ShiftAhead(sqrt: real -> real, point: Vector, found: Vector, n: Vector)
    requires IsSqrt(sqrt) && Square(n) == 1.0 && Length(sqrt, Minus(found, point)) < 1.0
    ensures Dot(Shift(sqrt, point, found, n), n) > 0.0
  {
    var s := Minus(found, point);
    PartBelowLength(sqrt, s, n);
    DotPlus(s, n, n);
    hide IsSqrt, Length, Minus, Dot;
    assert Dot(n, n) == Square(n);
  }

  lemma SignOfPart(r: Vector, n: Vector, l: real, shift: Vector)
    requires l > 0.0 && shift == Scale(l, r)
    ensures Dot(shift, n) > 0.0 <==> Dot(r, n) > 0.0
  {
    DotScale(l, r, n);
    hide Dot, Scale;
    SignOfProduct(l, Dot(r, n), Dot(shift, n));
  }

  lemma PartAlong(r: Vector, n: Vector, l: real, d: Vector)
    requires l > 0.0 && d == Scale(l, n)
    ensures Dot(r, d) > 0.0 <==> Dot(r, n) > 0.0
  {
    DotScale(l, r, n);
    hide Dot, Scale;
    SignOfProduct(l, Dot(r, n), Dot(r, d));
  }

  /** The triangle inequality. */
  lemma Triangle(sqrt: real -> real, a: Vector, b: Vector)
    requires IsSqrt(sqrt)
    ensures Length(sqrt, Plus(a, b)) <= Length(sqrt, a) + Length(sqrt, b)
  {
    LengthSquare(sqrt, a);
    LengthSquare(sqrt, b);
    LengthSquare(sqrt, Plus(a, b));
    CrossProduct(a, b);
    SquareOfSum(a, b);
    hide IsSqrt, Length, Square, Dot, Plus;
    var x, y, z := Length(sqrt, a), Length(sqrt, b), Length(sqrt, Plus(a, b));
    ProductBound(Dot(a, b), x, y);
    assert (x + y) * (x + y) == x * x + 2.0 * (x * y) + y * y;
    if z > x + y { SquareGrows(x + y, z, (x + y) * (x + y), z * z); }
  }

  lemma SquareOfSum(a: Vector, b: Vector)
    ensures Square(Plus(a, b)) == Square(a) + 2.0 * Dot(a, b) + Square(b)
  {
    DotPlus(a, b, a);
    DotPlus(a, b, b);
    DotPlus(a, b, Plus(a, b));
    DotCommutes(a, b);
    hide Dot, Plus;
  }

  lemma ProductBound(d: real, x: real, y: real)
    requires x >= 0.0 && y >= 0.0 && d * d <= (x * x) * (y * y)
    ensures d <= x * y
  {
    var q := x * y;
    SquareOfProduct(x, y);
    NonNegativeProduct(x, y, q);
    if d > q { SquareGrows(q, d, q * q, d * d); }
  }

  lemma LengthAlong(sqrt: real -> real, n: Vector, c: real)
    requires IsSqrt(sqrt) && Square(n) == 1.0 && c >= 0.0
    ensures Length(sqrt, Scale(c, n)) == c
  {
    ScaledSquare(c, n, c * c);
    hide IsSqrt, Square, Scale;
    RootOfSquare(sqrt, c, c * c);
  }

  lemma StepBack(start: Vector, n: Vector, b: real, t: real, u: real, point: Vector)
    ensures Minus(point, At(start, Scale(b, n), t))
            == Plus(Minus(point, At(start, Scale(b, n), u)), Scale((u - t) * b, n))
  {
    StepBackAxis(start.x, n.x, b, t, u, point.x);
    StepBackAxis(start.y, n.y, b, t, u, point.y);
  }

  lemma StepBackAxis(s: real, n: real, b: real, t: real, u: real, p: real)
    ensures p - (s + t * (b * n)) == p - (s + u * (b * n)) + (u - t) * b * n
  {
    var w := b * n;
    assert (u - t) * b * n == (u - t) * w by { Regroup(u - t, b, n); }
    assert (u - t) * w == u * w - t * w;
  }

  const PRECISION := 0.0000001

  lemma WithinPrecision(t: real, u: real)
    requires t <= u <= t + Width(ITERATIONS)
    ensures 0.0 <= (u - t) * BIGGEST_DISTANCE < PRECISION
  {
    SearchIsPrecise();
    var w := Width(ITERATIONS);
    hide Width;
    NonNegativeProduct(u - t, BIGGEST_DISTANCE, (u - t) * BIGGEST_DISTANCE);
    NonNegativeProduct(w - (u - t), BIGGEST_DISTANCE, (w - (u - t)) * BIGGEST_DISTANCE);
    assert (w - (u - t)) * BIGGEST_DISTANCE == w * BIGGEST_DISTANCE - (u - t) * BIGGEST_DISTANCE;
  }

  /** The point found is at most the precision farther away than any point of the ray. */
  lemma FoundIsNear(sqrt: real -> real, start: Vector, n: Vector, point: Vector, t: real, u: real, v: real)
    requires IsSqrt(sqrt) && Square(n) == 1.0 && 0.0 <= v <= 1.0
    requires IsNearest(sqrt, start, Scale(BIGGEST_DISTANCE, n), point, u) && 0.0 <= t <= u <= t + Width(ITERATIONS)
    ensures var way := Scale(BIGGEST_DISTANCE, n);
            Length(sqrt, Minus(At(start, way, t), point)) < Distance(sqrt, point, At(start, way, v)) + PRECISION
  {
    var way, c := Scale(BIGGEST_DISTANCE, n), (u - t) * BIGGEST_DISTANCE;
    assert Distance(sqrt, point, At(start, way, u)) <= Distance(sqrt, point, At(start, way, v));
    WithinPrecision(t, u);
    hide IsSqrt, Length, Square, At, Scale, Minus, Plus, Width, IsNearest;
    StepBack(start, n, BIGGEST_DISTANCE, t, u, point);
    Triangle(sqrt, Minus(point, At(start, way, u)), Scale(c, n));
    LengthAlong(sqrt, n, c);
    DistanceBothWays(sqrt, point, At(start, way, t));
  }

  /** A player that will be less than one, by more than the precision, from some point of the ray is accelerated
      with a positive part towards the target. */
  lemma PassingGoesOn(sqrt: real -> real, timeDelta: real, p: Player, target: Vector, r: Option<Vector>, v: real)
    requires IsSqrt(sqrt) && target != p.center && IsWay(sqrt, timeDelta, p, target, r) && 0.0 <= v <= 1.0
    requires Length(sqrt, Minus(target, p.center)) > 0.0
             && Distance(sqrt, Plus(p.center, Scale(timeDelta, p.velocity)),
                         At(p.center, Scale(BIGGEST_DISTANCE, Normalize(sqrt, Minus(target, p.center))), v)) <= 1.0 - PRECISION
    ensures r.Some? && Dot(r.value, Minus(target, p.center)) > 0.0
  {
    var direction, next := Minus(target, p.center), Plus(p.center, Scale(timeDelta, p.velocity));
    var n := Normalize(sqrt, direction);
    var way := Scale(BIGGEST_DISTANCE, n);
    NormalizeIsUnit(sqrt, direction);
    assert direction != ZERO;
    hide Length, Square, IsSqrt, Normalize, IsNearest, At, Scale, Shift, Minus, Plus, Dot;
    var t, u := FoundByTheSearch(sqrt, timeDelta, p, target, r);
    FoundIsNear(sqrt, p.center, n, next, t, u, v);
    var shift := Shift(sqrt, next, At(p.center, way, t), n);
    ShiftAhead(sqrt, next, At(p.center, way, t), n);
    SignOfPart(r.value, n, Length(sqrt, shift), shift);
    PartAlong(r.value, n, Length(sqrt, direction), direction);
  }

  /** From `point` the direction `r` leads to the point `t` of the ray, which is nearly the nearest one. */
  ghost predicate LeadsTo(sqrt: real -> real, start: Vector, way: Vector, point: Vector, r: Vector, t: real, l: real) {
    0.0 <= t <= 1.0 && l > 0.0
    && point.x + l * r.x == At(start, way, t).x && point.y + l * r.y == At(start, way, t).y
    && forall v :: 0.0 <= v <= 1.0 ==> Distance(sqrt, point, At(start, way, t)) < Distance(sqrt, point, At(start, way, v)) + PRECISION
  }

  lemma ScaledGap(point: Vector, q: Vector, r: Vector, l: real)
    requires Minus(q, point) == Scale(l, r)
    ensures point.x + l * r.x == q.x && point.y + l * r.y == q.y
  {}

  /** A player that will be one or more from every point of the ray is accelerated towards the nearest one. */
  lemma FarTurnsBack(sqrt: real -> real, timeDelta: real, p: Player, target: Vector, r: Option<Vector>)
    returns (t: real, l: real)
    requires IsSqrt(sqrt) && target != p.center && IsWay(sqrt, timeDelta, p, target, r)
    requires Length(sqrt, Minus(target, p.center)) > 0.0
             && var way := Scale(BIGGEST_DISTANCE, Normalize(sqrt, Minus(target, p.center)));
                forall v :: 0.0 <= v <= 1.0 ==>
                  1.0 <= Distance(sqrt, Plus(p.center, Scale(timeDelta, p.velocity)), At(p.center, way, v))
    ensures r.Some?
            && LeadsTo(sqrt, p.center, Scale(BIGGEST_DISTANCE, Normalize(sqrt, Minus(target, p.center))),
                       Plus(p.center, Scale(timeDelta, p.velocity)), r.value, t, l)
  {
    var direction, next := Minus(target, p.center), Plus(p.center, Scale(timeDelta, p.velocity));
    var n := Normalize(sqrt, direction);
    NormalizeIsUnit(sqrt, direction);
    assert direction != ZERO;
    hide Length, Square, IsSqrt, Normalize, IsNearest, At, Scale, Minus, Plus, Shift, LeadsTo, Distance;
    var u;
    t, u := FoundByTheSearch(sqrt, timeDelta, p, target, r);
    l := FoundLeads(sqrt, p.center, n, next, r.value, t, u);
  }

  lemma FoundByTheSearch(sqrt: real -> real, timeDelta: real, p: Player, target: Vector, r: Option<Vector>)
    returns (t: real, u: real)
    requires IsWay(sqrt, timeDelta, p, target, r) && Minus(target, p.center) != ZERO
    ensures r.Some? && Length(sqrt, Minus(target, p.center)) > 0.0
    ensures var n, next := Normalize(sqrt, Minus(target, p.center)), Plus(p.center, Scale(timeDelta, p.velocity));
            var way := Scale(BIGGEST_DISTANCE, n);
            var shift := Shift(sqrt, next, At(p.center, way, t), n);
            IsNearest(sqrt, p.center, way, next, u) && 0.0 <= t <= u <= t + Width(ITERATIONS)
            && Length(sqrt, shift) > 0.0 && shift == Scale(Length(sqrt, shift), r.value)
  {
    hide Length, Square, Normalize, IsNearest, At, Scale, Minus, Plus, Shift;
    var n, next := Normalize(sqrt, Minus(target, p.center)), Plus(p.center, Scale(timeDelta, p.velocity));
    var way := Scale(BIGGEST_DISTANCE, n);
    t, u :| IsNearest(sqrt, p.center, way, next, u) && 0.0 <= t <= u <= t + Width(ITERATIONS)
            && var shift := Shift(sqrt, next, At(p.center, way, t), n);
               Length(sqrt, shift) > 0.0 && shift == Scale(Length(sqrt, shift), r.value);
  }

  lemma FoundLeads(sqrt: real -> real, start: Vector, n: Vector, point: Vector, r: Vector, t: real, u: real) returns (l: real)
    requires IsSqrt(sqrt) && Square(n) == 1.0
    requires IsNearest(sqrt, start, Scale(BIGGEST_DISTANCE, n), point, u) && 0.0 <= t <= u <= t + Width(ITERATIONS)
    requires var way := Scale(BIGGEST_DISTANCE, n);
             var shift := Shift(sqrt, point, At(start, way, t), n);
             Length(sqrt, shift) > 0.0 && shift == Scale(Length(sqrt, shift), r)
    requires forall v :: 0.0 <= v <= 1.0 ==> 1.0 <= Distance(sqrt, point, At(start, Scale(BIGGEST_DISTANCE, n), v))
    ensures LeadsTo(sqrt, start, Scale(BIGGEST_DISTANCE, n), point, r, t, l)
  {
    hide Length, Square, IsSqrt, IsNearest, At, Scale, Minus;
    var way := Scale(BIGGEST_DISTANCE, n);
    NearestWithin(sqrt, start, way, point, u);
    DistanceBothWays(sqrt, point, At(start, way, t));
    assert 1.0 <= Distance(sqrt, point, At(start, way, t));
    assert Shift(sqrt, point, At(start, way, t), n) == Minus(At(start, way, t), point);
    hide Shift;
    l := Length(sqrt, Minus(At(start, way, t), point));
    ScaledGap(point, At(start, way, t), r, l);
    forall v | 0.0 <= v <= 1.0
      ensures Distance(sqrt, point, At(start, way, t)) < Distance(sqrt, point, At(start, way, v)) + PRECISION
    {
      FoundIsNear(sqrt, start, n, point, t, u, v);
    }
  }
}
