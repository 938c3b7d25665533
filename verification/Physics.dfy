/** What one pass of the emulator does to the players (lib/emulator/default_emulator.cpp,
    lib/emulator/helpers.cpp): collisions described by the parts of a velocity along and across the
    line of impact. Masses are equal, so energy is the sum of squared speeds and momentum the sum
    of velocities. */
module Physics {
  import opened Geometry

  datatype Player = Player(id: nat, score: real, center: Vector, radius: real, velocity: Vector)

  datatype Turn = Turn(playerId: nat, stateId: nat, acceleration: Vector)

  const NEARLY_ZERO := 0.000001

  // ---------------------------------------------------------------- energy and momentum

  function Energy(ps: seq<Player>): real {
    if ps == [] then 0.0 else Energy(ps[..|ps| - 1]) + Square(ps[|ps| - 1].velocity)
  }

  function Momentum(ps: seq<Player>): Vector {
    if ps == [] then Vector(0.0, 0.0) else Plus(Momentum(ps[..|ps| - 1]), ps[|ps| - 1].velocity)
  }

  /** Only velocities differ. */
  ghost predicate SameBodies(ps: seq<Player>, qs: seq<Player>) {
    |ps| == |qs| && forall k :: 0 <= k < |ps| ==> qs[k] == ps[k].(velocity := qs[k].velocity)
  }

  lemma {:induction false} EnergyUpdate(ps: seq<Player>, k: nat, p: Player)
    requires k < |ps|
    ensures Energy(ps[k := p]) == Energy(ps) - Square(ps[k].velocity) + Square(p.velocity)
  {
    hide Square;
    var n := |ps| - 1;
    if k < n {
      EnergyUpdate(ps[..n], k, p);
      assert ps[k := p][..n] == ps[..n][k := p];
    } else {
      assert ps[k := p][..n] == ps[..n];
    }
  }

  lemma {:induction false} MomentumUpdate(ps: seq<Player>, k: nat, p: Player)
    requires k < |ps|
    ensures Momentum(ps[k := p]) == Plus(Minus(Momentum(ps), ps[k].velocity), p.velocity)
  {
    var n := |ps| - 1;
    if k < n {
      MomentumUpdate(ps[..n], k, p);
      assert ps[k := p][..n] == ps[..n][k := p];
    } else {
      assert ps[k := p][..n] == ps[..n];
    }
  }

  lemma {:induction false} EnergyBoundsSpeed(ps: seq<Player>, k: nat)
    requires k < |ps|
    ensures 0.0 <= Square(ps[k].velocity) <= Energy(ps)
  {
    var n := |ps| - 1;
    SquareNonNegative(ps[n].velocity);
    EnergyNonNegative(ps[..n]);
    hide Square;
    if k < n { EnergyBoundsSpeed(ps[..n], k); }
  }

  lemma {:induction false} EnergyNonNegative(ps: seq<Player>)
    ensures Energy(ps) >= 0.0
  {
    if ps != [] {
      SquareNonNegative(ps[|ps| - 1].velocity);
      hide Square;
      EnergyNonNegative(ps[..|ps| - 1]);
    }
  }

  // ---------------------------------------------------------------- two players

  function Apart(sqrt: real -> real, a: Player, b: Player): real { Distance(sqrt, a.center, b.center) }

  /** The line of impact, from `b` to `a`; some fixed line when the centers nearly coincide. */
  function Axis(sqrt: real -> real, a: Player, b: Player): Vector {
    if Apart(sqrt, a, b) <= NEARLY_ZERO then Vector(1.0, 0.0) else Normalize(sqrt, Minus(a.center, b.center))
  }

  lemma AxisIsUnit(sqrt: real -> real, a: Player, b: Player)
    requires IsSqrt(sqrt)
    ensures Square(Axis(sqrt, a, b)) == 1.0
  {
    if Apart(sqrt, a, b) > NEARLY_ZERO { NormalizeIsUnit(sqrt, Minus(a.center, b.center)); }
  }

  /** The players collide. Centers that nearly coincide count as one unit apart in the second test
      of the source, so that such players collide only if their radii add up to one. */
  predicate Hit(sqrt: real -> real, a: Player, b: Player) {
    Apart(sqrt, a, b) <= a.radius + b.radius
    && (Apart(sqrt, a, b) <= NEARLY_ZERO ==> 1.0 <= a.radius + b.radius)
  }

  /** The velocity after impact: the part along the axis comes from the other player. */
  function Traded(own: Vector, other: Vector, n: Vector): Vector {
    Compose(Dot(other, n), Dot(own, Turned(n)), n)
  }

  function Bounce(sqrt: real -> real, ps: seq<Player>, i: nat, j: nat): (qs: seq<Player>)
    requires i < j < |ps|
    ensures |qs| == |ps|
  {
    if Hit(sqrt, ps[i], ps[j]) then
      var n := Axis(sqrt, ps[i], ps[j]);
      var v, w := Traded(ps[i].velocity, ps[j].velocity, n), Traded(ps[j].velocity, ps[i].velocity, n);
      ps[i := ps[i].(velocity := v)][j := ps[j].(velocity := w)]
    else ps
  }

  lemma TradedSquare(v: Vector, w: Vector, n: Vector)
    requires Square(n) == 1.0
    ensures Square(Traded(v, w, n)) == Dot(w, n) * Dot(w, n) + Dot(v, Turned(n)) * Dot(v, Turned(n))
  {
    ComposeParts(Dot(w, n), Dot(v, Turned(n)), n);
  }

  /** An impact keeps the sum of the velocities and the sum of their squares. */
  lemma TradeConserves(v: Vector, w: Vector, n: Vector)
    requires Square(n) == 1.0
    ensures Plus(Traded(v, w, n), Traded(w, v, n)) == Plus(v, w)
    ensures Square(Traded(v, w, n)) + Square(Traded(w, v, n)) == Square(v) + Square(w)
  {
    hide Dot, Square, Compose, Turned;
    Decompose(v, n);
    Decompose(w, n);
    TradedSquare(v, w, n);
    TradedSquare(w, v, n);
    ComposeSum(Dot(w, n), Dot(v, Turned(n)), Dot(v, n), Dot(w, Turned(n)), n);
    ComposeSum(Dot(v, n), Dot(v, Turned(n)), Dot(w, n), Dot(w, Turned(n)), n);
  }

  lemma ComposeSum(p: real, q: real, r: real, s: real, n: Vector)
    ensures Plus(Compose(p, q, n), Compose(r, s, n)) == Compose(p + r, q + s, n)
  {}

  /** A second impact along the same axis undoes the first. */
  lemma TradeTwice(v: Vector, w: Vector, n: Vector)
    requires Square(n) == 1.0
    ensures Traded(Traded(v, w, n), Traded(w, v, n), n) == v
  {
    ComposeParts(Dot(w, n), Dot(v, Turned(n)), n);
    ComposeParts(Dot(v, n), Dot(w, Turned(n)), n);
    Decompose(v, n);
  }

  /** The arithmetic of the source computes the traded velocities. */
  lemma ImpulseTrades(v: Vector, w: Vector, n: Vector)
    requires Square(n) == 1.0
    ensures Plus(v, Scale(Dot(w, n) - Dot(v, n), n)) == Traded(v, w, n)
    ensures Minus(w, Scale(Dot(w, n) - Dot(v, n), n)) == Traded(w, v, n)
  {
    ShiftIsTrade(v, w, n);
    ShiftIsTrade(w, v, n);
    OppositeShift(w, Dot(w, n) - Dot(v, n), n);
  }

  lemma ShiftIsTrade(v: Vector, w: Vector, n: Vector)
    requires Square(n) == 1.0
    ensures Plus(v, Scale(Dot(w, n) - Dot(v, n), n)) == Traded(v, w, n)
  {
    var k := Dot(w, n) - Dot(v, n);
    AddAlong(v, k, n);
    ComposeParts(Dot(w, n), Dot(v, Turned(n)), n);
    PartsDetermine(Plus(v, Scale(k, n)), Traded(v, w, n), n);
  }

  lemma OppositeShift(w: Vector, k: real, n: Vector)
    ensures Minus(w, Scale(k, n)) == Plus(w, Scale(-k, n))
  {}

  lemma TwoUpdates(ps: seq<Player>, i: nat, j: nat, p: Player, q: Player)
    requires i < j < |ps|
    requires Square(p.velocity) + Square(q.velocity) == Square(ps[i].velocity) + Square(ps[j].velocity)
    requires Plus(p.velocity, q.velocity) == Plus(ps[i].velocity, ps[j].velocity)
    ensures Energy(ps[i := p][j := q]) == Energy(ps)
    ensures Momentum(ps[i := p][j := q]) == Momentum(ps)
  {
    hide Square, Energy, Momentum;
    EnergyUpdate(ps, i, p);
    EnergyUpdate(ps[i := p], j, q);
    MomentumUpdate(ps, i, p);
    MomentumUpdate(ps[i := p], j, q);
    SameSum(Momentum(ps), ps[i].velocity, ps[j].velocity, p.velocity, q.velocity);
  }

  lemma BounceConserves(sqrt: real -> real, ps: seq<Player>, i: nat, j: nat)
    requires IsSqrt(sqrt) && i < j < |ps|
    ensures Energy(Bounce(sqrt, ps, i, j)) == Energy(ps)
    ensures Momentum(Bounce(sqrt, ps, i, j)) == Momentum(ps)
    ensures SameBodies(ps, Bounce(sqrt, ps, i, j))
  {
    hide Axis, Hit, Traded, Square, Energy, Momentum, IsSqrt, Plus;
    if Hit(sqrt, ps[i], ps[j]) {
      var n := Axis(sqrt, ps[i], ps[j]);
      AxisIsUnit(sqrt, ps[i], ps[j]);
      TradeConserves(ps[i].velocity, ps[j].velocity, n);
      var p := ps[i].(velocity := Traded(ps[i].velocity, ps[j].velocity, n));
      var q := ps[j].(velocity := Traded(ps[j].velocity, ps[i].velocity, n));
      TwoUpdates(ps, i, j, p, q);
    }
  }

  lemma SameSum(m: Vector, v: Vector, w: Vector, v': Vector, w': Vector)
    requires Plus(v', w') == Plus(v, w)
    ensures Plus(Minus(Plus(Minus(m, v), v'), w), w') == m
  {}

  /** How fast `a` recedes from `b` along the line of impact. */
  function Receding(sqrt: real -> real, a: Player, b: Player): real {
    Dot(Minus(a.velocity, b.velocity), Axis(sqrt, a, b))
  }

  /** An impact turns the relative velocity along the axis around, whatever it was: players that touch part
      exactly if they were approaching, and are driven together if they were parting. */
  lemma BounceReverses(sqrt: real -> real, ps: seq<Player>, i: nat, j: nat)
    requires IsSqrt(sqrt) && i < j < |ps| && Hit(sqrt, ps[i], ps[j])
    ensures var qs := Bounce(sqrt, ps, i, j);
            Receding(sqrt, qs[i], qs[j]) == -Receding(sqrt, ps[i], ps[j])
            && (Receding(sqrt, qs[i], qs[j]) > 0.0 <==> Receding(sqrt, ps[i], ps[j]) < 0.0)
  {
    var n, v, w := Axis(sqrt, ps[i], ps[j]), ps[i].velocity, ps[j].velocity;
    AxisIsUnit(sqrt, ps[i], ps[j]);
    ComposeParts(Dot(w, n), Dot(v, Turned(n)), n);
    ComposeParts(Dot(v, n), Dot(w, Turned(n)), n);
    DotMinus(v, w, n);
    DotMinus(Traded(v, w, n), Traded(w, v, n), n);
    hide Dot, Square, Turned, Compose, Hit, IsSqrt, Minus;
  }

  /** Nothing tests whether the players approach each other: two players that still touch when the
      same pair is handled again get their old velocities back. */
  lemma BounceTwice(sqrt: real -> real, ps: seq<Player>, i: nat, j: nat)
    requires IsSqrt(sqrt) && i < j < |ps|
    ensures Bounce(sqrt, Bounce(sqrt, ps, i, j), i, j) == ps
  {
    hide Traded, Square, IsSqrt;
    if Hit(sqrt, ps[i], ps[j]) {
      var n := Axis(sqrt, ps[i], ps[j]);
      AxisIsUnit(sqrt, ps[i], ps[j]);
      TradeTwice(ps[i].velocity, ps[j].velocity, n);
      TradeTwice(ps[j].velocity, ps[i].velocity, n);
    }
  }

  const RUNNER := Player(0, 0.0, Vector(1.0, 0.0), 1.0, Vector(1.0, 0.0))

  const SITTER := Player(1, 0.0, ZERO, 1.0, ZERO)

  lemma RunnerAxis(sqrt: real -> real)
    requires IsSqrt(sqrt)
    ensures Apart(sqrt, RUNNER, SITTER) == 1.0 && Axis(sqrt, RUNNER, SITTER) == Vector(1.0, 0.0)
  {
    hide IsSqrt, Length, Square;
    UnitLength(sqrt);
    var d := Minus(RUNNER.center, SITTER.center);
    assert d == Vector(1.0, 0.0);
    assert Normalize(sqrt, d) == Vector(1.0 / 1.0, 0.0 / 1.0);
  }

  /** Two touching players, the first running away from the second: the impact drives them together. */
  lemma PartingPlayersCollide(sqrt: real -> real)
    requires IsSqrt(sqrt)
    ensures var ps := [RUNNER, SITTER];
            var qs := Bounce(sqrt, ps, 0, 1);
            Receding(sqrt, ps[0], ps[1]) == 1.0 && Receding(sqrt, qs[0], qs[1]) == -1.0
  {
    hide IsSqrt, Bounce, Axis, Apart, Square;
    RunnerAxis(sqrt);
    assert Minus(RUNNER.velocity, SITTER.velocity) == Vector(1.0, 0.0);
    BounceReverses(sqrt, [RUNNER, SITTER], 0, 1);
  }

  lemma TradeMovesExactlyWhen(v: Vector, w: Vector, n: Vector)
    requires Square(n) == 1.0
    ensures Traded(v, w, n) != v <==> Dot(v, n) != Dot(w, n)
  {
    ComposeParts(Dot(w, n), Dot(v, Turned(n)), n);
    Decompose(v, n);
    hide Compose, Dot, Turned, Square;
  }

  /** Handling a pair changes the players exactly when they touch, do not stand at nearly the same spot with radii
      that add up to less than one, and differ in their velocities along the line of impact. */
  lemma PairChangesExactlyWhen(sqrt: real -> real, ps: seq<Player>, i: nat, j: nat)
    requires IsSqrt(sqrt) && i < j < |ps|
    ensures var a, b, n := ps[i], ps[j], Axis(sqrt, ps[i], ps[j]);
            Bounce(sqrt, ps, i, j) != ps <==>
            Apart(sqrt, a, b) <= a.radius + b.radius
            && !(Apart(sqrt, a, b) <= 0.000001 && a.radius + b.radius < 1.0)
            && Dot(a.velocity, n) != Dot(b.velocity, n)
  {
    hide IsSqrt, Axis, Apart, Dot, Square, Traded;
    var n, v, w := Axis(sqrt, ps[i], ps[j]), ps[i].velocity, ps[j].velocity;
    AxisIsUnit(sqrt, ps[i], ps[j]);
    TradeMovesExactlyWhen(v, w, n);
    TradeMovesExactlyWhen(w, v, n);
    var qs := Bounce(sqrt, ps, i, j);
    if Hit(sqrt, ps[i], ps[j]) {
      assert qs[i].velocity == Traded(v, w, n) && qs[j].velocity == Traded(w, v, n);
      if Traded(v, w, n) == v && Traded(w, v, n) == w { assert qs == ps; }
    }
  }

  /** Two small players at the same spot pass through each other. */
  lemma SameSpotNoHit(sqrt: real -> real, v: Vector, w: Vector)
    requires IsSqrt(sqrt)
    ensures var ps := [Player(0, 0.0, ZERO, 0.25, v), Player(1, 0.0, ZERO, 0.25, w)];
            Apart(sqrt, ps[0], ps[1]) <= ps[0].radius + ps[1].radius && Bounce(sqrt, ps, 0, 1) == ps
  {
    NoLength(sqrt);
    assert Minus(ZERO, ZERO) == ZERO;
    hide IsSqrt, Length;
  }

  // ---------------------------------------------------------------- all pairs

  /** The pairs from `(i, j)` on, in the order of the two loops. */
  function BallPass(sqrt: real -> real, ps: seq<Player>, i: nat, j: nat): (qs: seq<Player>)
    requires i < j
    ensures |qs| == |ps|
    decreases |ps| - i, |ps| - j
  {
    if i >= |ps| then ps
    else if j >= |ps| then BallPass(sqrt, ps, i + 1, i + 2)
    else BallPass(sqrt, Bounce(sqrt, ps, i, j), i, j + 1)
  }

  lemma SameBodiesTransitive(ps: seq<Player>, qs: seq<Player>, rs: seq<Player>)
    requires SameBodies(ps, qs) && SameBodies(qs, rs)
    ensures SameBodies(ps, rs)
  {}

  /** The pass over all pairs of players keeps energy and momentum; it changes only velocities. */
  lemma {:induction false} BallPassConserves(sqrt: real -> real, ps: seq<Player>, i: nat, j: nat)
    requires IsSqrt(sqrt) && i < j
    ensures Energy(BallPass(sqrt, ps, i, j)) == Energy(ps)
    ensures Momentum(BallPass(sqrt, ps, i, j)) == Momentum(ps)
    ensures SameBodies(ps, BallPass(sqrt, ps, i, j))
    decreases |ps| - i, |ps| - j
  {
    hide Bounce, Energy, Momentum, IsSqrt, SameBodies;
    if i >= |ps| {
      assert SameBodies(ps, ps) by { SameBodiesReflexive(ps); }
    } else if j >= |ps| {
      BallPassConserves(sqrt, ps, i + 1, i + 2);
    } else {
      BounceConserves(sqrt, ps, i, j);
      BallPassConserves(sqrt, Bounce(sqrt, ps, i, j), i, j + 1);
      SameBodiesTransitive(ps, Bounce(sqrt, ps, i, j), BallPass(sqrt, ps, i, j));
    }
  }

  lemma SameBodiesReflexive(ps: seq<Player>)
    ensures SameBodies(ps, ps)
  {}

  // ---------------------------------------------------------------- the border

  predicate Outside(sqrt: real -> real, fieldRadius: real, p: Player) {
    Length(sqrt, p.center) + p.radius > fieldRadius
  }

  predicate Fits(fieldRadius: real, ps: seq<Player>) {
    forall k :: 0 <= k < |ps| ==> ps[k].radius <= fieldRadius
  }

  function Abs(x: real): real { if x < 0.0 then -x else x }

  /** Direction to the middle of the field. */
  function Inward(sqrt: real -> real, center: Vector): Vector
    requires Length(sqrt, Scale(-1.0, center)) != 0.0
  {
    Normalize(sqrt, Scale(-1.0, center))
  }

  /** The part along the normal is turned inward. */
  function Reflected(v: Vector, n: Vector): Vector { Compose(Abs(Dot(v, n)), Dot(v, Turned(n)), n) }

  /** Where the source divides by zero: beyond the border and exactly in the middle, which takes a player
      larger than the field. */
  predicate OffCenter(sqrt: real -> real, fieldRadius: real, p: Player) {
    Outside(sqrt, fieldRadius, p) ==> p.center != ZERO
  }

  ghost predicate AllOffCenter(sqrt: real -> real, fieldRadius: real, ps: seq<Player>) {
    forall k :: 0 <= k < |ps| ==> OffCenter(sqrt, fieldRadius, ps[k])
  }

  lemma FitsIsOffCenter(sqrt: real -> real, fieldRadius: real, ps: seq<Player>)
    requires IsSqrt(sqrt) && Fits(fieldRadius, ps)
    ensures AllOffCenter(sqrt, fieldRadius, ps)
  {
    NoLength(sqrt);
  }

  lemma OffCenterLength(sqrt: real -> real, center: Vector)
    requires IsSqrt(sqrt) && center != ZERO
    ensures Length(sqrt, Scale(-1.0, center)) > 0.0
  {
    assert Scale(-1.0, center).x == -center.x && Scale(-1.0, center).y == -center.y;
    hide Scale;
    LengthOfMoving(sqrt, Scale(-1.0, center));
  }

  function Returned(sqrt: real -> real, fieldRadius: real, p: Player): Player
    requires OffCenter(sqrt, fieldRadius, p) && IsSqrt(sqrt)
  {
    if Outside(sqrt, fieldRadius, p) then
      OffCenterLength(sqrt, p.center);
      p.(velocity := Reflected(p.velocity, Inward(sqrt, p.center)))
    else p
  }

  /** Reflection keeps the speed, never points outward, and a second one changes nothing. */
  lemma ReflectionKeepsSpeed(v: Vector, n: Vector)
    requires Square(n) == 1.0
    ensures Square(Reflected(v, n)) == Square(v)
    ensures Dot(Reflected(v, n), n) >= 0.0
    ensures Reflected(Reflected(v, n), n) == Reflected(v, n)
    ensures Dot(v, n) >= 0.0 ==> Reflected(v, n) == v
  {
    ComposeParts(Abs(Dot(v, n)), Dot(v, Turned(n)), n);
    Decompose(v, n);
    Decompose(Reflected(v, n), n);
    AbsSquare(Dot(v, n));
  }

  lemma AbsSquare(x: real)
    ensures Abs(x) * Abs(x) == x * x
  {}

  /** The arithmetic of the source computes the reflected velocity. */
  lemma DeflectionReflects(v: Vector, n: Vector)
    requires Square(n) == 1.0
    ensures if Dot(v, n) < 0.0 then Plus(v, Scale(-2.0 * Dot(v, n), n)) == Reflected(v, n) else v == Reflected(v, n)
  {
    if Dot(v, n) < 0.0 {
      var k := -2.0 * Dot(v, n);
      AddAlong(v, k, n);
      ComposeParts(-Dot(v, n), Dot(v, Turned(n)), n);
      PartsDetermine(Plus(v, Scale(k, n)), Reflected(v, n), n);
    } else {
      Decompose(v, n);
    }
  }

  /** A player outside the border does not move further out afterwards. */
  lemma ReturnedHeadsInward(sqrt: real -> real, fieldRadius: real, p: Player)
    requires OffCenter(sqrt, fieldRadius, p) && IsSqrt(sqrt)
    ensures var q := Returned(sqrt, fieldRadius, p);
            Square(q.velocity) == Square(p.velocity)
            && (Outside(sqrt, fieldRadius, q) ==> Dot(q.velocity, q.center) <= 0.0)
            && Returned(sqrt, fieldRadius, q) == q
  {
    if Outside(sqrt, fieldRadius, p) {
      OffCenterLength(sqrt, p.center);
      var c, n := Scale(-1.0, p.center), Inward(sqrt, p.center);
      NormalizeIsUnit(sqrt, c);
      ReflectionKeepsSpeed(p.velocity, n);
      var v := Reflected(p.velocity, n);
      DotScale(Length(sqrt, c), v, n);
      NonNegativeProduct(Length(sqrt, c), Dot(v, n), Dot(v, c));
      OppositeDot(v, p.center);
      hide Reflected, Length, Inward, IsSqrt, Dot, Square;
    }
  }

  lemma OppositeDot(v: Vector, c: Vector)
    ensures Dot(v, Scale(-1.0, c)) == -Dot(v, c)
  {}

  lemma NonNegativeProduct(a: real, b: real, q: real)
    requires a >= 0.0 && b >= 0.0 && q == a * b
    ensures q >= 0.0
  {}

  function BorderPass(sqrt: real -> real, fieldRadius: real, ps: seq<Player>): (qs: seq<Player>)
    requires AllOffCenter(sqrt, fieldRadius, ps) && IsSqrt(sqrt)
    ensures |qs| == |ps| && forall k :: 0 <= k < |ps| ==> qs[k] == Returned(sqrt, fieldRadius, ps[k])
  {
    seq(|ps|, k requires 0 <= k < |ps| && IsSqrt(sqrt) && OffCenter(sqrt, fieldRadius, ps[k]) =>
      Returned(sqrt, fieldRadius, ps[k]))
  }

  lemma {:induction false} SameSpeedsSameEnergy(ps: seq<Player>, qs: seq<Player>)
    requires |ps| == |qs| && forall k :: 0 <= k < |ps| ==> Square(qs[k].velocity) == Square(ps[k].velocity)
    ensures Energy(qs) == Energy(ps)
  {
    hide Square;
    if ps != [] { SameSpeedsSameEnergy(ps[..|ps| - 1], qs[..|qs| - 1]); }
  }

  /** The border pass keeps every speed; afterwards no player outside the border moves outward. */
  lemma BorderPassConserves(sqrt: real -> real, fieldRadius: real, ps: seq<Player>)
    requires AllOffCenter(sqrt, fieldRadius, ps) && IsSqrt(sqrt)
    ensures var qs := BorderPass(sqrt, fieldRadius, ps);
            Energy(qs) == Energy(ps) && SameBodies(ps, qs)
            && forall k :: 0 <= k < |qs| && Outside(sqrt, fieldRadius, qs[k]) ==> Dot(qs[k].velocity, qs[k].center) <= 0.0
  {
    var qs := BorderPass(sqrt, fieldRadius, ps);
    forall k | 0 <= k < |ps|
      ensures Square(qs[k].velocity) == Square(ps[k].velocity)
      ensures qs[k] == ps[k].(velocity := qs[k].velocity)
      ensures Outside(sqrt, fieldRadius, qs[k]) ==> Dot(qs[k].velocity, qs[k].center) <= 0.0
    {
      ReturnedHeadsInward(sqrt, fieldRadius, ps[k]);
    }
    SameSpeedsSameEnergy(ps, qs);
  }

  // ---------------------------------------------------------------- moving and accelerating

  function Moved(p: Player, dt: real): Player { p.(center := Plus(p.center, Scale(dt, p.velocity))) }

  /** A center moved by a velocity for some time, in coordinates. */
  predicate Displaced(center: Vector, velocity: Vector, time: real, center': Vector) {
    center'.x == center.x + time * velocity.x && center'.y == center.y + time * velocity.y
  }

  lemma MovedIsDisplaced(p: Player, dt: real)
    ensures Displaced(p.center, p.velocity, dt, Moved(p, dt).center) && Moved(p, dt) == p.(center := Moved(p, dt).center)
  {}

  function MoveAll(ps: seq<Player>, dt: real): (qs: seq<Player>)
    ensures |qs| == |ps| && forall k :: 0 <= k < |ps| ==> qs[k] == Moved(ps[k], dt)
  {
    seq(|ps|, k requires 0 <= k < |ps| => Moved(ps[k], dt))
  }

  /** Every player has a turn. */
  ghost predicate TurnsCover(turns: seq<Turn>, ps: seq<Player>) {
    forall k :: 0 <= k < |ps| ==> HasTurn(turns, ps[k].id)
  }

  predicate HasTurn(turns: seq<Turn>, id: nat) {
    turns != [] && (turns[0].playerId == id || HasTurn(turns[1..], id))
  }

  /** The first turn of the player. */
  function TurnOf(turns: seq<Turn>, id: nat): (t: Turn)
    requires HasTurn(turns, id)
    ensures t in turns && t.playerId == id
  {
    if turns[0].playerId == id then turns[0] else TurnOf(turns[1..], id)
  }

  function Pushed(p: Player, acceleration: Vector, dt: real): Vector { Plus(p.velocity, Scale(dt, acceleration)) }

  function Accelerated(sqrt: real -> real, p: Player, acceleration: Vector, dt: real, velocityMax: real): Player
    requires velocityMax >= 0.0
  {
    var v := Pushed(p, acceleration, dt);
    if Length(sqrt, v) > velocityMax then p.(velocity := Scale(velocityMax, Normalize(sqrt, v))) else p.(velocity := v)
  }

  lemma SquareMonotone(a: real, b: real, aa: real, bb: real)
    requires 0.0 <= a <= b && aa == a * a && bb == b * b
    ensures aa <= bb
  {
    NonNegativeProduct(b - a, b + a, (b - a) * (b + a));
    assert (b - a) * (b + a) == b * b - a * a;
  }

  /** A player never gets faster than the limit; below it the push counts in full. */
  lemma AcceleratedIsLimited(sqrt: real -> real, p: Player, acceleration: Vector, dt: real, velocityMax: real)
    requires velocityMax >= 0.0 && IsSqrt(sqrt)
    ensures var q := Accelerated(sqrt, p, acceleration, dt, velocityMax);
            var v := Pushed(p, acceleration, dt);
            q == p.(velocity := q.velocity) && Square(q.velocity) <= velocityMax * velocityMax
            && (Length(sqrt, v) > velocityMax ==>
                  Square(q.velocity) == velocityMax * velocityMax
                  && Scale(Length(sqrt, v), q.velocity) == Scale(velocityMax, v))
  {
    var v := Pushed(p, acceleration, dt);
    LengthSquare(sqrt, v);
    if Length(sqrt, v) > velocityMax {
      NormalizeIsUnit(sqrt, v);
      var n := Normalize(sqrt, v);
      ScaledSquare(velocityMax, n, velocityMax * velocityMax);
      assert v == Scale(Length(sqrt, v), n);
      ScaleCommutes(Length(sqrt, v), velocityMax, n);
    } else {
      SquareMonotone(Length(sqrt, v), velocityMax, Square(v), velocityMax * velocityMax);
    }
  }

  lemma ScaleCommutes(a: real, b: real, n: Vector)
    ensures Scale(a, Scale(b, n)) == Scale(b, Scale(a, n))
  {
    Regroup(a, b, n.x);
    Regroup(a, b, n.y);
  }

  function AccelerateAll(sqrt: real -> real, ps: seq<Player>, turns: seq<Turn>, dt: real, velocityMax: real): (qs: seq<Player>)
    requires TurnsCover(turns, ps) && velocityMax >= 0.0
    ensures |qs| == |ps|
    ensures forall k :: 0 <= k < |ps| ==>
              qs[k] == Accelerated(sqrt, ps[k], TurnOf(turns, ps[k].id).acceleration, dt, velocityMax)
  {
    seq(|ps|, k requires 0 <= k < |ps| && velocityMax >= 0.0 && HasTurn(turns, ps[k].id) =>
      Accelerated(sqrt, ps[k], TurnOf(turns, ps[k].id).acceleration, dt, velocityMax))
  }

  lemma {:induction false} EnergyBelow(ps: seq<Player>, limit: real)
    requires forall k :: 0 <= k < |ps| ==> Square(ps[k].velocity) <= limit
    ensures Energy(ps) <= |ps| as real * limit
  {
    hide Square;
    if ps != [] {
      EnergyBelow(ps[..|ps| - 1], limit);
      assert |ps| as real * limit == (|ps| - 1) as real * limit + limit;
    }
  }

  lemma AccelerateAllIsLimited(sqrt: real -> real, ps: seq<Player>, turns: seq<Turn>, dt: real, velocityMax: real)
    requires TurnsCover(turns, ps) && velocityMax >= 0.0 && IsSqrt(sqrt)
    ensures var qs := AccelerateAll(sqrt, ps, turns, dt, velocityMax);
            SameBodies(ps, qs) && Energy(qs) <= |ps| as real * (velocityMax * velocityMax)
  {
    var qs := AccelerateAll(sqrt, ps, turns, dt, velocityMax);
    forall k | 0 <= k < |ps|
      ensures qs[k] == ps[k].(velocity := qs[k].velocity)
      ensures Square(qs[k].velocity) <= velocityMax * velocityMax
    {
      AcceleratedIsLimited(sqrt, ps[k], TurnOf(turns, ps[k].id).acceleration, dt, velocityMax);
    }
    EnergyBelow(qs, velocityMax * velocityMax);
  }
}
