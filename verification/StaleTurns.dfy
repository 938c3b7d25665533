/** What `FilterTurns` was meant for and does not do: turns made for an older state move players. */
module StaleTurns {
  import opened Wrappers
  import opened Geometry
  import opened Physics
  import opened Coins
  import opened Emulator
  import opened Players
  import opened Server

  function Zeroed(turns: seq<Turn>, stateId: nat): (r: seq<Turn>)
    ensures |r| == |turns|
    ensures forall k :: 0 <= k < |turns| ==>
              r[k] == if turns[k].stateId != stateId then turns[k].(acceleration := ZERO) else turns[k]
  {
    seq(|turns|, k requires 0 <= k < |turns| =>
      if turns[k].stateId != stateId then turns[k].(acceleration := ZERO) else turns[k])
  }

  // ---------------------------------------------------------------- accelerations without effect

  /** The acceleration loop leaves the player with the same velocity as no acceleration would: there is none, or
      the player moves at the limit already and is pushed on in its own direction. */
  predicate Ineffective(sqrt: real -> real, p: Player, acceleration: Vector, dt: real, velocityMax: real) {
    var v := Pushed(p, acceleration, dt);
    acceleration == ZERO
    || (Length(sqrt, p.velocity) >= velocityMax && Length(sqrt, v) >= velocityMax
        && Scale(Length(sqrt, p.velocity), v) == Scale(Length(sqrt, v), p.velocity))
  }

  /** At the limit or above it a push is cut down to the limit in its direction. */
  lemma CutDown(sqrt: real -> real, p: Player, acceleration: Vector, dt: real, velocityMax: real)
    requires IsSqrt(sqrt) && velocityMax > 0.0 && Length(sqrt, Pushed(p, acceleration, dt)) >= velocityMax
    ensures var q := Accelerated(sqrt, p, acceleration, dt, velocityMax);
            var v := Pushed(p, acceleration, dt);
            Scale(Length(sqrt, v), q.velocity) == Scale(velocityMax, v)
  {
    hide IsSqrt, Length, Pushed, Scale, Accelerated;
    AcceleratedIsLimited(sqrt, p, acceleration, dt, velocityMax);
    if Length(sqrt, Pushed(p, acceleration, dt)) <= velocityMax { NotLimited(sqrt, p, acceleration, dt, velocityMax); }
  }

  lemma Times(c: real, x: real, y: real)
    requires x == y
    ensures c * x == c * y
  {}

  lemma SameAfterCut(u: real, v: real, z: real, y: real, lu: real, lv: real, m: real)
    requires lu > 0.0 && lv > 0.0 && lu * z == m * u && lv * y == m * v && lv * u == lu * v
    ensures z == y
  {
    Times(lv, lu * z, m * u);
    Times(m, lv * u, lu * v);
    Times(lu, lv * y, m * v);
    Regroup(lv, m, u);
    Regroup(lu, m, v);
    var a, b := lv * (lu * z), lu * (lv * y);
    assert a == b;
    Regroup(lv, lu, z);
    Regroup(lu, lv, y);
    PositiveProduct(lu, lv, lu * lv);
    Cancel(lu * lv, z, y);
  }

  lemma SameVectorAfterCut(u: Vector, v: Vector, z: Vector, y: Vector, lu: real, lv: real, m: real)
    requires lu > 0.0 && lv > 0.0 && Scale(lu, z) == Scale(m, u) && Scale(lv, y) == Scale(m, v) && Scale(lv, u) == Scale(lu, v)
    ensures z == y
  {
    SameAfterCut(u.x, v.x, z.x, y.x, lu, lv, m);
    SameAfterCut(u.y, v.y, z.y, y.y, lu, lv, m);
  }

  lemma SameDirection(u: real, v: real, z: real, lu: real, lv: real, m: real)
    requires m > 0.0 && lu * z == m * u && lv * z == m * v
    ensures lv * u == lu * v
  {
    Regroup(lv, lu, z);
    Regroup(lv, m, u);
    Regroup(lu, lv, z);
    Regroup(lu, m, v);
    assert m * (lv * u) == m * (lu * v);
    Cancel(m, lv * u, lu * v);
  }

  lemma SameVectorDirection(u: Vector, v: Vector, z: Vector, lu: real, lv: real, m: real)
    requires m > 0.0 && Scale(lu, z) == Scale(m, u) && Scale(lv, z) == Scale(m, v)
    ensures Scale(lu, v) == Scale(lv, u)
  {
    SameDirection(u.x, v.x, z.x, lu, lv, m);
    SameDirection(u.y, v.y, z.y, lu, lv, m);
  }

  lemma Cancel(c: real, x: real, y: real)
    requires c > 0.0 && c * x == c * y
    ensures x == y
  {
    if x > y { PositiveProduct(c, x - y, c * (x - y)); }
    if x < y { PositiveProduct(c, y - x, c * (y - x)); }
  }

  lemma PushedByNothing(p: Player, dt: real)
    ensures Pushed(p, ZERO, dt) == p.velocity
  {}

  lemma PushedAsBefore(p: Player, acceleration: Vector, dt: real)
    requires dt > 0.0 && Pushed(p, acceleration, dt) == p.velocity
    ensures acceleration == ZERO
  {
    ScaledZero(acceleration, dt);
  }

  lemma IneffectiveMeansSame(sqrt: real -> real, p: Player, a: Vector, dt: real, velocityMax: real)
    requires IsSqrt(sqrt) && velocityMax > 0.0 && Ineffective(sqrt, p, a, dt, velocityMax)
    ensures Accelerated(sqrt, p, a, dt, velocityMax) == Accelerated(sqrt, p, ZERO, dt, velocityMax)
  {
    hide IsSqrt, Length, Pushed, Accelerated;
    if a != ZERO {
      PushedByNothing(p, dt);
      CutDown(sqrt, p, a, dt, velocityMax);
      CutDown(sqrt, p, ZERO, dt, velocityMax);
      AcceleratedIsLimited(sqrt, p, a, dt, velocityMax);
      AcceleratedIsLimited(sqrt, p, ZERO, dt, velocityMax);
      var u, v := Pushed(p, a, dt), p.velocity;
      var z, y := Accelerated(sqrt, p, a, dt, velocityMax).velocity, Accelerated(sqrt, p, ZERO, dt, velocityMax).velocity;
      hide Scale, Square;
      SameVectorAfterCut(u, v, z, y, Length(sqrt, u), Length(sqrt, v), velocityMax);
    }
  }

  /** A result at the limit comes from a push to the limit or beyond. */
  lemma PushedToTheLimit(sqrt: real -> real, p: Player, a: Vector, dt: real, velocityMax: real)
    requires IsSqrt(sqrt) && velocityMax > 0.0
    requires Square(Accelerated(sqrt, p, a, dt, velocityMax).velocity) == velocityMax * velocityMax
    ensures Length(sqrt, Pushed(p, a, dt)) >= velocityMax
  {
    hide IsSqrt, Square, Pushed, Accelerated;
    var v := Pushed(p, a, dt);
    if Length(sqrt, v) <= velocityMax {
      assert Accelerated(sqrt, p, a, dt, velocityMax).velocity == v by { hide Length; NotLimited(sqrt, p, a, dt, velocityMax); }
      RootOfSquare(sqrt, velocityMax, Square(v));
    }
  }

  lemma SameMeansIneffective(sqrt: real -> real, p: Player, a: Vector, dt: real, velocityMax: real)
    requires IsSqrt(sqrt) && dt > 0.0 && velocityMax > 0.0
    requires Accelerated(sqrt, p, a, dt, velocityMax) == Accelerated(sqrt, p, ZERO, dt, velocityMax)
    ensures Ineffective(sqrt, p, a, dt, velocityMax)
  {
    hide IsSqrt, Length, Square, Pushed, Accelerated;
    var u, v := Pushed(p, a, dt), p.velocity;
    PushedByNothing(p, dt);
    if Length(sqrt, u) <= velocityMax && Length(sqrt, v) <= velocityMax {
      NotLimited(sqrt, p, a, dt, velocityMax);
      NotLimited(sqrt, p, ZERO, dt, velocityMax);
      PushedAsBefore(p, a, dt);
    } else {
      AcceleratedIsLimited(sqrt, p, a, dt, velocityMax);
      AcceleratedIsLimited(sqrt, p, ZERO, dt, velocityMax);
      PushedToTheLimit(sqrt, p, a, dt, velocityMax);
      PushedToTheLimit(sqrt, p, ZERO, dt, velocityMax);
      CutDown(sqrt, p, a, dt, velocityMax);
      CutDown(sqrt, p, ZERO, dt, velocityMax);
      var z := Accelerated(sqrt, p, a, dt, velocityMax).velocity;
      hide Scale;
      SameVectorDirection(u, v, z, Length(sqrt, u), Length(sqrt, v), velocityMax);
    }
  }

  /** For a player in any motion: an acceleration makes no difference exactly when it is zero or the player moves
      at the limit and is pushed on in its own direction. */
  lemma NoEffectExactlyWhen(sqrt: real -> real, p: Player, a: Vector, dt: real, velocityMax: real)
    requires IsSqrt(sqrt) && dt > 0.0 && velocityMax > 0.0
    ensures Accelerated(sqrt, p, a, dt, velocityMax) == Accelerated(sqrt, p, ZERO, dt, velocityMax)
            <==> Ineffective(sqrt, p, a, dt, velocityMax)
  {
    hide IsSqrt, Accelerated, Ineffective;
    if Ineffective(sqrt, p, a, dt, velocityMax) { IneffectiveMeansSame(sqrt, p, a, dt, velocityMax); }
    if Accelerated(sqrt, p, a, dt, velocityMax) == Accelerated(sqrt, p, ZERO, dt, velocityMax) {
      SameMeansIneffective(sqrt, p, a, dt, velocityMax);
    }
  }

  // ---------------------------------------------------------------- turns without effect

  lemma {:induction false} TurnOfZeroed(turns: seq<Turn>, stateId: nat, id: nat)
    requires HasTurn(turns, id)
    ensures HasTurn(Zeroed(turns, stateId), id)
    ensures var t := TurnOf(turns, id);
            TurnOf(Zeroed(turns, stateId), id) == if t.stateId != stateId then t.(acceleration := ZERO) else t
  {
    assert Zeroed(turns, stateId)[1..] == Zeroed(turns[1..], stateId);
    if turns[0].playerId != id { TurnOfZeroed(turns[1..], stateId, id); }
  }

  lemma ZeroedCanEmulate(w: World, turns: seq<Turn>, f: Field)
    requires CanEmulate(w, turns, f)
    ensures CanEmulate(w, Zeroed(turns, f.id), f)
  {
    hide IsSqrt, Playable, HasTurn;
    forall i | 0 <= i < |f.players| ensures HasTurn(Zeroed(turns, f.id), f.players[i].id) {
      TurnOfZeroed(turns, f.id, f.players[i].id);
    }
  }

  /** Each player whose turn was made for another state is accelerated without effect. */
  ghost predicate StaleTurnsIneffective(w: World, turns: seq<Turn>, f: Field)
    requires CanEmulate(w, turns, f)
  {
    forall i :: 0 <= i < |f.players| ==>
      var t := TurnOf(turns, f.players[i].id);
      t.stateId != f.id ==> Ineffective(w.sqrt, f.players[i], t.acceleration, f.timeDelta, f.velocityMax)
  }

  /** Leaving the turns alone does at the start of the tick what zeroing the stale ones would do exactly when the
      stale turns in force have no effect. */
  lemma FilteringMakesNoDifferenceExactlyWhen(w: World, turns: seq<Turn>, f: Field)
    requires CanEmulate(w, turns, f) && f.timeDelta > 0.0 && f.velocityMax > 0.0
    ensures CanEmulate(w, Zeroed(turns, f.id), f)
    ensures Started(w.sqrt, w.maxDouble, turns, f) == Started(w.sqrt, w.maxDouble, Zeroed(turns, f.id), f)
            <==> StaleTurnsIneffective(w, turns, f)
  {
    ZeroedCanEmulate(w, turns, f);
    hide IsSqrt, Playable, Accelerated, TurnOf, Ineffective, Zeroed, HasTurn;
    var other := Zeroed(turns, f.id);
    var a, b := Started(w.sqrt, w.maxDouble, turns, f).players, Started(w.sqrt, w.maxDouble, other, f).players;
    forall i | 0 <= i < |f.players|
      ensures var t := TurnOf(turns, f.players[i].id);
              a[i] == b[i] <==>
              (t.stateId != f.id ==> Ineffective(w.sqrt, f.players[i], t.acceleration, f.timeDelta, f.velocityMax))
    {
      var t := TurnOf(turns, f.players[i].id);
      TurnOfZeroed(turns, f.id, f.players[i].id);
      NoEffectExactlyWhen(w.sqrt, f.players[i], t.acceleration, f.timeDelta, f.velocityMax);
    }
  }

  /** And then the whole tick comes out the same. */
  lemma SameStartSameTick(w: World, turns: seq<Turn>, f: Field)
    requires CanEmulate(w, turns, f) && f.timeDelta > 0.0 && f.velocityMax > 0.0 && StaleTurnsIneffective(w, turns, f)
    ensures CanEmulate(w, Zeroed(turns, f.id), f) && Emulated(w, turns, f) == Emulated(w, Zeroed(turns, f.id), f)
  {
    hide CanEmulate, Started, StaleTurnsIneffective, Zeroed;
    FilteringMakesNoDifferenceExactlyWhen(w, turns, f);
    assert CanEmulate(w, Zeroed(turns, f.id), f);
    EmulatedFromStart(w, turns, f);
    EmulatedFromStart(w, Zeroed(turns, f.id), f);
  }

  lemma EmulatedFromStart(w: World, turns: seq<Turn>, f: Field)
    requires CanEmulate(w, turns, f)
    ensures Emulated(w, turns, f)
            == SubSteps(w.sqrt, w.maxDouble, StepTime(f.timeDelta, STEPS_NUMBER), Started(w.sqrt, w.maxDouble, turns, f), STEPS_NUMBER)
  {
    hide IsSqrt, Playable, TurnsCover, Started, SubSteps;
  }

  // ---------------------------------------------------------------- players at rest

  ghost predicate AtRest(ps: seq<Player>) { forall k :: 0 <= k < |ps| ==> ps[k].velocity == ZERO }

  lemma {:induction false} RestHasNoEnergy(ps: seq<Player>)
    requires AtRest(ps)
    ensures Energy(ps) == 0.0
  {
    if ps != [] { RestHasNoEnergy(ps[..|ps| - 1]); }
  }

  /** No energy means rest. */
  lemma EnergyIsMotion(ps: seq<Player>)
    ensures Energy(ps) == 0.0 <==> AtRest(ps)
  {
    if AtRest(ps) {
      RestHasNoEnergy(ps);
    } else {
      var k :| 0 <= k < |ps| && ps[k].velocity != ZERO;
      hide Energy, Square;
      SquareOfMoving(ps[k].velocity);
      EnergyBoundsSpeed(ps, k);
    }
  }

  lemma ScaledZero(a: Vector, dt: real)
    requires dt > 0.0
    ensures Scale(dt, a) == ZERO <==> a == ZERO
  {
    ProductZero(dt, a.x);
    ProductZero(dt, a.y);
  }

  lemma ProductZero(dt: real, x: real)
    requires dt > 0.0
    ensures dt * x == 0.0 <==> x == 0.0
  {
    if x > 0.0 {
      Positive(dt, x);
    } else if x < 0.0 {
      Positive(dt, -x);
      assert dt * x == -(dt * -x);
    }
  }

  /** A player at rest starts to move exactly when its acceleration is not zero. */
  lemma StartsMoving(sqrt: real -> real, p: Player, acceleration: Vector, dt: real, velocityMax: real)
    requires IsSqrt(sqrt) && p.velocity == ZERO && dt > 0.0 && velocityMax > 0.0
    ensures Accelerated(sqrt, p, acceleration, dt, velocityMax).velocity == ZERO <==> acceleration == ZERO
  {
    hide IsSqrt, Square, Length, Accelerated, Scale, Pushed;
    ScaledZero(acceleration, dt);
    var v := Pushed(p, acceleration, dt);
    PushedFromRest(p, acceleration, dt);
    NoLength(sqrt);
    if Length(sqrt, v) > velocityMax {
      AcceleratedIsLimited(sqrt, p, acceleration, dt, velocityMax);
      PositiveProduct(velocityMax, velocityMax, velocityMax * velocityMax);
      NoSquare();
    } else {
      NotLimited(sqrt, p, acceleration, dt, velocityMax);
    }
  }

  lemma NotLimited(sqrt: real -> real, p: Player, acceleration: Vector, dt: real, velocityMax: real)
    requires velocityMax >= 0.0 && Length(sqrt, Pushed(p, acceleration, dt)) <= velocityMax
    ensures Accelerated(sqrt, p, acceleration, dt, velocityMax).velocity == Pushed(p, acceleration, dt)
  {
    hide Length, Pushed;
  }

  lemma PushedFromRest(p: Player, acceleration: Vector, dt: real)
    requires p.velocity == ZERO
    ensures Pushed(p, acceleration, dt) == Scale(dt, acceleration)
  {}

  lemma EmulatedEnergy(w: World, turns: seq<Turn>, f: Field)
    requires CanEmulate(w, turns, f)
    ensures Energy(Emulated(w, turns, f).players) == Energy(Started(w.sqrt, w.maxDouble, turns, f).players)
  {
    hide Energy, Square, Scores, Worth, IsSqrt, Playable, TurnsCover, Started, SameRoster, SubStep;
    EmulateKeeps(w.sqrt, w.maxDouble, turns, f, STEPS_NUMBER, STEPS_NUMBER);
    assert During(w.sqrt, w.maxDouble, turns, f, STEPS_NUMBER, 0) == Started(w.sqrt, w.maxDouble, turns, f);
  }

  lemma StartedPlayers(w: World, turns: seq<Turn>, f: Field)
    requires CanEmulate(w, turns, f) && AtRest(f.players) && f.timeDelta > 0.0 && f.velocityMax > 0.0
    ensures AtRest(Started(w.sqrt, w.maxDouble, turns, f).players) <==>
            forall i :: 0 <= i < |f.players| ==> TurnOf(turns, f.players[i].id).acceleration == ZERO
  {
    hide IsSqrt, Playable, Accelerated, TurnOf;
    var start := Started(w.sqrt, w.maxDouble, turns, f);
    forall i | 0 <= i < |f.players|
      ensures start.players[i].velocity == ZERO <==> TurnOf(turns, f.players[i].id).acceleration == ZERO
    {
      StartsMoving(w.sqrt, f.players[i], TurnOf(turns, f.players[i].id).acceleration, f.timeDelta, f.velocityMax);
    }
  }

  /** Players at rest are still at rest after a tick exactly when no turn in force, stale or not,
      accelerates one of them. */
  lemma TickMovesExactlyWhen(w: World, turns: seq<Turn>, f: Field)
    requires CanEmulate(w, turns, f) && AtRest(f.players) && f.timeDelta > 0.0 && f.velocityMax > 0.0
    ensures AtRest(Emulated(w, turns, f).players) <==>
            forall i :: 0 <= i < |f.players| ==> TurnOf(turns, f.players[i].id).acceleration == ZERO
  {
    hide Emulated, Started, Energy, AtRest, IsSqrt, Playable, TurnOf;
    EmulatedEnergy(w, turns, f);
    StartedPlayers(w, turns, f);
    EnergyIsMotion(Emulated(w, turns, f).players);
    EnergyIsMotion(Started(w.sqrt, w.maxDouble, turns, f).players);
  }

  /** One player at rest whose only turn was made for state 0, while the state is 1: the tick moves it, and
      with the stale turn zeroed it would stay. */
  lemma StaleTurnMoves(w: World, center: Vector)
    requires w.Valid()
    ensures var c := w.config;
            var f := Field(1, c.fieldRadius, c.timeDelta as real, c.maxVelocity, [NewPlayer(0, center, c.playerRadius)], []);
            var turns := [Turn(0, 0, Vector(1.0, 0.0))];
            CanEmulate(w, turns, f) && CanEmulate(w, Zeroed(turns, f.id), f)
            && !AtRest(Emulated(w, turns, f).players) && AtRest(Emulated(w, Zeroed(turns, f.id), f).players)
  {
    var c := w.config;
    var f := Field(1, c.fieldRadius, c.timeDelta as real, c.maxVelocity, [NewPlayer(0, center, c.playerRadius)], []);
    var turns := [Turn(0, 0, Vector(1.0, 0.0))];
    hide Emulated, IsSqrt;
    assert f.players[0].velocity == ZERO;
    TickMovesExactlyWhen(w, turns, f);
    TickMovesExactlyWhen(w, Zeroed(turns, f.id), f);
    assert TurnOf(turns, f.players[0].id) == turns[0];
  }
}
