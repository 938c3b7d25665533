/** Where the players go in a call of the emulator, in coordinates (lib/emulator/default_emulator.cpp): what is in
    the specification functions of `Physics`, `Coins` and `Emulator`, said without them. */
module Flight {
  import opened Geometry
  import opened Physics
  import opened Coins
  import opened Emulator

  /** No other player touches player `i`. */
  predicate Alone(sqrt: real -> real, ps: seq<Player>, i: nat)
    requires i < |ps|
  {
    forall j :: 0 <= j < |ps| && j != i ==> Distance(sqrt, ps[i].center, ps[j].center) > ps[i].radius + ps[j].radius
  }

  /** Player `i` touches neither another player nor the border. */
  predicate Unhindered(sqrt: real -> real, f: Field, i: nat)
    requires i < |f.players|
  {
    Alone(sqrt, f.players, i) && Length(sqrt, f.players[i].center) + f.players[i].radius <= f.radius
  }

  // ---------------------------------------------------------------- the pass over the pairs

  lemma AloneIsNotHit(sqrt: real -> real, ps: seq<Player>, k: nat, j: nat)
    requires k < |ps| && j < |ps| && j != k && Alone(sqrt, ps, k)
    ensures !Hit(sqrt, ps[k], ps[j]) && !Hit(sqrt, ps[j], ps[k])
  {
    DistanceBothWays(sqrt, ps[j].center, ps[k].center);
  }

  lemma AloneAsBefore(sqrt: real -> real, ps: seq<Player>, qs: seq<Player>, k: nat)
    requires SameBodies(ps, qs) && k < |ps|
    ensures Alone(sqrt, ps, k) <==> Alone(sqrt, qs, k)
  {
    hide Distance;
    assert forall j :: 0 <= j < |ps| ==> qs[j].center == ps[j].center && qs[j].radius == ps[j].radius;
  }

  lemma BounceOf(sqrt: real -> real, ps: seq<Player>, i: nat, j: nat, k: nat)
    requires IsSqrt(sqrt) && i < j < |ps| && k < |ps|
    ensures SameBodies(ps, Bounce(sqrt, ps, i, j))
    ensures (k != i && k != j) || !Hit(sqrt, ps[i], ps[j]) ==> Bounce(sqrt, ps, i, j)[k] == ps[k]
  {
    BounceConserves(sqrt, ps, i, j);
    hide Hit, Traded, Axis;
  }

  /** The pass over all pairs leaves a player that nobody touches as it is. */
  lemma {:induction false} AloneIsPassedBy(sqrt: real -> real, ps: seq<Player>, i: nat, j: nat, k: nat)
    requires IsSqrt(sqrt) && i < j && k < |ps| && Alone(sqrt, ps, k)
    ensures BallPass(sqrt, ps, i, j)[k] == ps[k]
    decreases |ps| - i, |ps| - j
  {
    hide Bounce, Alone, IsSqrt, Hit;
    if i < |ps| {
      if j >= |ps| {
        AloneIsPassedBy(sqrt, ps, i + 1, i + 2, k);
      } else {
        BounceOf(sqrt, ps, i, j, k);
        if k == i { AloneIsNotHit(sqrt, ps, k, j); }
        if k == j { AloneIsNotHit(sqrt, ps, k, i); }
        AloneAsBefore(sqrt, ps, Bounce(sqrt, ps, i, j), k);
        AloneIsPassedBy(sqrt, Bounce(sqrt, ps, i, j), i, j + 1, k);
      }
    }
  }

  /** Players `i` and `j` touch nobody but perhaps each other. */
  predicate Apart2(sqrt: real -> real, ps: seq<Player>, i: nat, j: nat)
    requires i < |ps| && j < |ps|
  {
    forall k :: 0 <= k < |ps| && k != i && k != j ==>
      Distance(sqrt, ps[i].center, ps[k].center) > ps[i].radius + ps[k].radius
      && Distance(sqrt, ps[j].center, ps[k].center) > ps[j].radius + ps[k].radius
  }

  lemma Apart2AsBefore(sqrt: real -> real, ps: seq<Player>, qs: seq<Player>, i: nat, j: nat)
    requires SameBodies(ps, qs) && i < |ps| && j < |ps|
    ensures Apart2(sqrt, ps, i, j) <==> Apart2(sqrt, qs, i, j)
  {
    hide Distance;
    assert forall k :: 0 <= k < |ps| ==> qs[k].center == ps[k].center && qs[k].radius == ps[k].radius;
  }

  lemma ThirdIsNotHit(sqrt: real -> real, ps: seq<Player>, i: nat, j: nat, k: nat)
    requires i < |ps| && j < |ps| && k < |ps| && k != i && k != j && Apart2(sqrt, ps, i, j)
    ensures !Hit(sqrt, ps[i], ps[k]) && !Hit(sqrt, ps[k], ps[i]) && !Hit(sqrt, ps[j], ps[k]) && !Hit(sqrt, ps[k], ps[j])
  {
    DistanceBothWays(sqrt, ps[k].center, ps[i].center);
    DistanceBothWays(sqrt, ps[k].center, ps[j].center);
  }

  /** An impact depends on nothing but its two players. */
  lemma BounceIsLocal(sqrt: real -> real, ps: seq<Player>, qs: seq<Player>, i: nat, j: nat)
    requires i < j < |ps| == |qs| && ps[i] == qs[i] && ps[j] == qs[j]
    ensures Bounce(sqrt, ps, i, j)[i] == Bounce(sqrt, qs, i, j)[i] && Bounce(sqrt, ps, i, j)[j] == Bounce(sqrt, qs, i, j)[j]
  {
    hide Hit, Traded, Axis;
  }

  /** The pair is still to come in the loops. */
  predicate Ahead(a: nat, b: nat, i: nat, j: nat) { a < i || (a == i && b <= j) }

  lemma OtherPair(sqrt: real -> real, ps: seq<Player>, a: nat, b: nat, i: nat, j: nat)
    requires IsSqrt(sqrt) && a < b < |ps| && i < j < |ps| && !(a == i && b == j) && Apart2(sqrt, ps, i, j)
    ensures var qs := Bounce(sqrt, ps, a, b);
            qs[i] == ps[i] && qs[j] == ps[j] && Apart2(sqrt, qs, i, j)
  {
    BounceOf(sqrt, ps, a, b, i);
    BounceOf(sqrt, ps, a, b, j);
    Apart2AsBefore(sqrt, ps, Bounce(sqrt, ps, a, b), i, j);
    if a != i && a != j { ThirdIsNotHit(sqrt, ps, i, j, a); }
    if b != i && b != j { ThirdIsNotHit(sqrt, ps, i, j, b); }
    hide Bounce, Apart2, Hit, IsSqrt;
  }

  /** The pass handles every pair, and once: two players that nobody else touches come out of it as out of an
      impact with each other. */
  lemma {:induction false} PairMeetsOnce(sqrt: real -> real, ps: seq<Player>, a: nat, b: nat, i: nat, j: nat)
    requires IsSqrt(sqrt) && a < b && i < j < |ps| && Apart2(sqrt, ps, i, j)
    ensures var qs, hit := BallPass(sqrt, ps, a, b), Bounce(sqrt, ps, i, j);
            if Ahead(a, b, i, j) then qs[i] == hit[i] && qs[j] == hit[j] else qs[i] == ps[i] && qs[j] == ps[j]
    decreases |ps| - a, |ps| - b
  {
    hide Bounce, Apart2, IsSqrt, Hit;
    if a < |ps| {
      if b >= |ps| {
        PairMeetsOnce(sqrt, ps, a + 1, a + 2, i, j);
      } else {
        var qs := Bounce(sqrt, ps, a, b);
        if a == i && b == j {
          BounceOf(sqrt, ps, i, j, i);
          Apart2AsBefore(sqrt, ps, qs, i, j);
        } else {
          OtherPair(sqrt, ps, a, b, i, j);
          BounceIsLocal(sqrt, ps, qs, i, j);
        }
        PairMeetsOnce(sqrt, qs, a, b + 1, i, j);
      }
    }
  }

  /** `n` points from the second to the first center and has length one. */
  predicate LineOfImpact(sqrt: real -> real, a: Vector, b: Vector, n: Vector) {
    Distance(sqrt, a, b) > NEARLY_ZERO && Scale(Distance(sqrt, a, b), n) == Minus(a, b)
  }

  /** Each of two velocities takes its part along `n` from the other and keeps its part across. */
  predicate PartsTraded(v: Vector, w: Vector, n: Vector, v': Vector, w': Vector) {
    Dot(v', n) == Dot(w, n) && Dot(w', n) == Dot(v, n)
    && Dot(v', Turned(n)) == Dot(v, Turned(n)) && Dot(w', Turned(n)) == Dot(w, Turned(n))
  }

  lemma Divided(d: real, x: real, y: real)
    requires d > 0.0 && d * x == y
    ensures y / d == x
  {
    var q := y / d;
    assert d * q == y;
    if q > x { Positive(d, q - x); }
    if q < x { Positive(d, x - q); }
  }

  lemma AxisIsLine(sqrt: real -> real, a: Player, b: Player, n: Vector)
    requires IsSqrt(sqrt) && LineOfImpact(sqrt, a.center, b.center, n)
    ensures Axis(sqrt, a, b) == n && Square(n) == 1.0
  {
    AxisIsUnit(sqrt, a, b);
    var d, c := Distance(sqrt, a.center, b.center), Minus(a.center, b.center);
    hide IsSqrt, Square, Length, Minus;
    Divided(d, n.x, c.x);
    Divided(d, n.y, c.y);
  }

  lemma TradedParts(v: Vector, w: Vector, n: Vector)
    requires Square(n) == 1.0
    ensures PartsTraded(v, w, n, Traded(v, w, n), Traded(w, v, n))
  {
    ComposeParts(Dot(w, n), Dot(v, Turned(n)), n);
    ComposeParts(Dot(v, n), Dot(w, Turned(n)), n);
    hide Compose, Dot, Turned, Square;
  }

  lemma PairTradesInPass(sqrt: real -> real, ps: seq<Player>, i: nat, j: nat, n: Vector)
    requires IsSqrt(sqrt) && i < j < |ps| && Apart2(sqrt, ps, i, j)
    requires Distance(sqrt, ps[i].center, ps[j].center) <= ps[i].radius + ps[j].radius
    requires LineOfImpact(sqrt, ps[i].center, ps[j].center, n)
    ensures var qs := BallPass(sqrt, ps, 0, 1);
            PartsTraded(ps[i].velocity, ps[j].velocity, n, qs[i].velocity, qs[j].velocity)
  {
    PairMeetsOnce(sqrt, ps, 0, 1, i, j);
    AxisIsLine(sqrt, ps[i], ps[j], n);
    TradedParts(ps[i].velocity, ps[j].velocity, n);
    hide BallPass, Axis, Traded, PartsTraded, IsSqrt, Square, Distance;
    assert Hit(sqrt, ps[i], ps[j]);
  }

  // ---------------------------------------------------------------- the border

  lemma AlongScaled(v: Vector, c: Vector, n: Vector, l: real)
    requires Scale(l, n) == Scale(-1.0, c)
    ensures Dot(v, c) == -(l * Dot(v, n)) && Dot(v, Turned(c)) == -(l * Dot(v, Turned(n)))
  {
    OppositeDot(v, c);
    DotScale(l, v, n);
    OppositeDot(v, Turned(c));
    DotScale(l, v, Turned(n));
    assert Scale(-1.0, Turned(c)) == Scale(l, Turned(n)) by { TurnedScale(l, n, c); }
  }

  lemma TurnedScale(l: real, n: Vector, c: Vector)
    requires Scale(l, n) == Scale(-1.0, c)
    ensures Scale(-1.0, Turned(c)) == Scale(l, Turned(n))
  {
    assert l * n.x == -1.0 * c.x && l * n.y == -1.0 * c.y;
    assert l * -n.y == -(l * n.y) && -1.0 * -c.y == c.y;
  }

  /** The velocity along the way out is turned around, and the part across it stays; a velocity that does not lead
      out stays. */
  predicate TurnedIn(v: Vector, center: Vector, v': Vector) {
    if Dot(v, center) > 0.0 then Dot(v', center) == -Dot(v, center) && Dot(v', Turned(center)) == Dot(v, Turned(center))
    else v' == v
  }

  lemma ReturnedTurnsIn(sqrt: real -> real, fieldRadius: real, p: Player)
    requires OffCenter(sqrt, fieldRadius, p) && IsSqrt(sqrt) && Outside(sqrt, fieldRadius, p)
    ensures TurnedIn(p.velocity, p.center, Returned(sqrt, fieldRadius, p).velocity)
  {
    OffCenterLength(sqrt, p.center);
    var c, n, v := Scale(-1.0, p.center), Inward(sqrt, p.center), p.velocity;
    var l := Length(sqrt, c);
    NormalizeIsUnit(sqrt, c);
    var r := Returned(sqrt, fieldRadius, p).velocity;
    assert r == Reflected(v, n);
    ReflectedParts(v, n);
    ReflectionKeepsSpeed(v, n);
    AlongScaled(v, p.center, n, l);
    AlongScaled(r, p.center, n, l);
    hide *;
    SignAlong(l, Dot(v, n), l * Dot(v, n));
    assert TurnedIn(v, p.center, r) by {
      assert Dot(v, p.center) > 0.0 ==> Dot(r, n) == -Dot(v, n);
      assert l * -Dot(v, n) == -(l * Dot(v, n));
    }
  }

  lemma SignAlong(l: real, x: real, q: real)
    requires l > 0.0 && q == l * x
    ensures q < 0.0 <==> x < 0.0
  {
    if x < 0.0 { PositiveProduct(l, -x, -q); }
    if x > 0.0 { PositiveProduct(l, x, q); }
  }

  lemma ReflectedParts(v: Vector, n: Vector)
    requires Square(n) == 1.0
    ensures Dot(v, n) < 0.0 ==> Dot(Reflected(v, n), n) == -Dot(v, n)
    ensures Dot(Reflected(v, n), Turned(n)) == Dot(v, Turned(n))
  {
    ComposeParts(Abs(Dot(v, n)), Dot(v, Turned(n)), n);
  }

  // ---------------------------------------------------------------- one sub-step

  /** What a sub-step does to all players in turn. */
  lemma SubStepParts(sqrt: real -> real, maxDouble: real, dt: real, f: Field, moved: seq<Player>, hit: seq<Player>)
    requires IsSqrt(sqrt) && Playable(f, maxDouble)
    requires moved == MoveAll(f.players, dt) && hit == BallPass(sqrt, moved, 0, 1)
    ensures AllOffCenter(sqrt, f.radius, hit) && SameBodies(moved, hit)
    ensures var g := SubStep(sqrt, maxDouble, dt, f);
            g.radius == f.radius && SameMotion(BorderPass(sqrt, f.radius, hit), g.players)
  {
    BallPassConserves(sqrt, moved, 0, 1);
    assert Fits(f.radius, hit);
    FitsIsOffCenter(sqrt, f.radius, hit);
    CollidedKeeps(sqrt, f, dt);
    RosterPlayable(f, Collided(sqrt, f, dt), maxDouble);
    DivisionKeeps(sqrt, Collided(sqrt, f, dt), f.coins, maxDouble);
    hide BallPass, BorderPass, AfterDivision, Energy, Momentum, Worth, Scores, IsSqrt, MoveAll;
  }

  lemma BodiesAfter(sqrt: real -> real, maxDouble: real, dt: real, f: Field, moved: seq<Player>, hit: seq<Player>)
    requires IsSqrt(sqrt) && Playable(f, maxDouble)
    requires moved == MoveAll(f.players, dt) && hit == BallPass(sqrt, moved, 0, 1)
    ensures var ps := SubStep(sqrt, maxDouble, dt, f).players;
            |ps| == |moved| == |hit| && SameBodies(moved, hit)
            && forall k :: 0 <= k < |ps| ==>
                 ps[k].center == moved[k].center && ps[k].radius == moved[k].radius
                 && OffCenter(sqrt, f.radius, hit[k]) && ps[k].velocity == Returned(sqrt, f.radius, hit[k]).velocity
  {
    SubStepParts(sqrt, maxDouble, dt, f, moved, hit);
    BorderPassConserves(sqrt, f.radius, hit);
    hide BallPass, Returned, MoveAll, IsSqrt, Energy, SubStep, OffCenter, Playable, Outside;
  }

  /** Every player moves by its velocity times the time, whatever it meets. */
  lemma SubStepMoves(sqrt: real -> real, maxDouble: real, dt: real, f: Field, i: nat)
    requires IsSqrt(sqrt) && Playable(f, maxDouble) && i < |f.players|
    ensures var ps := SubStep(sqrt, maxDouble, dt, f).players;
            |ps| == |f.players| && ps[i].radius == f.players[i].radius
            && Displaced(f.players[i].center, f.players[i].velocity, dt, ps[i].center)
  {
    hide Displaced, Moved, SubStep, BallPass, Playable, IsSqrt, Returned, OffCenter;
    var moved := MoveAll(f.players, dt);
    BodiesAfter(sqrt, maxDouble, dt, f, moved, BallPass(sqrt, moved, 0, 1));
    MovedIsDisplaced(f.players[i], dt);
    assert moved[i] == Moved(f.players[i], dt);
  }

  lemma AloneAfter(sqrt: real -> real, ps: seq<Player>, qs: seq<Player>)
    requires |ps| == |qs| && forall k :: 0 <= k < |ps| ==> ps[k].center == qs[k].center && ps[k].radius == qs[k].radius
    ensures forall k :: 0 <= k < |ps| ==> (Alone(sqrt, ps, k) <==> Alone(sqrt, qs, k))
    ensures forall j, k :: 0 <= j < |ps| && 0 <= k < |ps| ==> (Apart2(sqrt, ps, j, k) <==> Apart2(sqrt, qs, j, k))
  {
    hide Distance;
  }

  /** Which touch is decided where the players have come to. Who touches nobody keeps its velocity, or has it
      turned in at the border. */
  lemma AloneKeepsVelocity(sqrt: real -> real, maxDouble: real, dt: real, f: Field, i: nat)
    requires IsSqrt(sqrt) && Playable(f, maxDouble) && i < |f.players|
    ensures var ps := SubStep(sqrt, maxDouble, dt, f).players;
            |ps| == |f.players|
            && (Alone(sqrt, ps, i) ==>
                  if Length(sqrt, ps[i].center) + ps[i].radius > f.radius
                  then TurnedIn(f.players[i].velocity, ps[i].center, ps[i].velocity)
                  else ps[i].velocity == f.players[i].velocity)
  {
    var moved := MoveAll(f.players, dt);
    var hit := BallPass(sqrt, moved, 0, 1);
    BodiesAfter(sqrt, maxDouble, dt, f, moved, hit);
    var ps := SubStep(sqrt, maxDouble, dt, f).players;
    AloneAfter(sqrt, ps, moved);
    assert moved[i].velocity == f.players[i].velocity;
    hide SubStep, BallPass, Playable, IsSqrt, MoveAll, Alone, TurnedIn;
    if Alone(sqrt, ps, i) {
      AloneIsPassedBy(sqrt, moved, 0, 1, i);
      if Outside(sqrt, f.radius, moved[i]) { ReturnedTurnsIn(sqrt, f.radius, moved[i]); }
    }
  }

  /** Two players that have come to touch each other and nothing else trade the parts of their velocities along
      the line of impact. */
  lemma PairTrades(sqrt: real -> real, maxDouble: real, dt: real, f: Field, i: nat, j: nat, n: Vector)
    requires IsSqrt(sqrt) && Playable(f, maxDouble) && i < j < |f.players|
    ensures var ps := SubStep(sqrt, maxDouble, dt, f).players;
            |ps| == |f.players|
            && (Apart2(sqrt, ps, i, j) && LineOfImpact(sqrt, ps[i].center, ps[j].center, n)
                && Distance(sqrt, ps[i].center, ps[j].center) <= ps[i].radius + ps[j].radius
                && Length(sqrt, ps[i].center) + ps[i].radius <= f.radius
                && Length(sqrt, ps[j].center) + ps[j].radius <= f.radius ==>
                  PartsTraded(f.players[i].velocity, f.players[j].velocity, n, ps[i].velocity, ps[j].velocity))
  {
    var moved := MoveAll(f.players, dt);
    var hit := BallPass(sqrt, moved, 0, 1);
    BodiesAfter(sqrt, maxDouble, dt, f, moved, hit);
    var ps := SubStep(sqrt, maxDouble, dt, f).players;
    AloneAfter(sqrt, ps, moved);
    assert moved[i].velocity == f.players[i].velocity && moved[j].velocity == f.players[j].velocity;
    hide SubStep, BallPass, Playable, IsSqrt, MoveAll, Apart2, LineOfImpact, PartsTraded, Distance;
    if Apart2(sqrt, ps, i, j) && LineOfImpact(sqrt, ps[i].center, ps[j].center, n)
       && Distance(sqrt, ps[i].center, ps[j].center) <= ps[i].radius + ps[j].radius {
      PairTradesInPass(sqrt, moved, i, j, n);
      hide Length;
    }
  }

  /** After a sub-step no player beyond the border moves further out. */
  lemma NobodyLeaves(sqrt: real -> real, maxDouble: real, dt: real, f: Field, i: nat)
    requires IsSqrt(sqrt) && Playable(f, maxDouble) && i < |f.players|
    ensures var ps := SubStep(sqrt, maxDouble, dt, f).players;
            |ps| == |f.players|
            && (Length(sqrt, ps[i].center) + ps[i].radius > f.radius ==> Dot(ps[i].velocity, ps[i].center) <= 0.0)
  {
    var moved := MoveAll(f.players, dt);
    var hit := BallPass(sqrt, moved, 0, 1);
    BodiesAfter(sqrt, maxDouble, dt, f, moved, hit);
    ReturnedHeadsInward(sqrt, f.radius, hit[i]);
    hide SubStep, BallPass, Playable, IsSqrt, MoveAll, Dot, Square, Length;
    assert Returned(sqrt, f.radius, hit[i]) == hit[i].(velocity := Returned(sqrt, f.radius, hit[i]).velocity);
  }

  lemma {:induction false} LeftAreNotTaken(sqrt: real -> real, ps: seq<Player>, cs: seq<Coin>, reach: real, maxDouble: real, c: Coin)
    ensures c in OutOfReach(sqrt, ps, cs, reach, maxDouble) <==> c in cs && !Taken(sqrt, ps, c, reach, maxDouble)
  {
    hide Taken;
    if cs != [] {
      var n := |cs| - 1;
      LeftAreNotTaken(sqrt, ps, cs[..n], reach, maxDouble, c);
      assert cs == cs[..n] + [cs[n]];
    }
  }

  lemma TakenMeans(sqrt: real -> real, ps: seq<Player>, c: Coin, reach: real, maxDouble: real)
    requires reach <= maxDouble
    ensures Taken(sqrt, ps, c, reach, maxDouble) ==> exists k :: 0 <= k < |ps| && Distance(sqrt, c.center, ps[k].center) < reach
    ensures !Taken(sqrt, ps, c, reach, maxDouble) ==>
              forall k :: 0 <= k < |ps| ==> reach - EPSILON <= Distance(sqrt, c.center, ps[k].center)
  {
    var ds := Distances(sqrt, c.center, ps);
    NearestLeads(ds, maxDouble);
    hide Distance, Nearest;
    var s := Nearest(ds, maxDouble);
    if Taken(sqrt, ps, c, reach, maxDouble) {
      assert ds[s.list[0]] < reach;
    } else {
      forall k | 0 <= k < |ps| ensures reach - EPSILON <= Distance(sqrt, c.center, ps[k].center) {
        if !Untouched(ds, s, maxDouble) && k < s.list[0] { assert s.min < ds[k]; }
        assert s.min - EPSILON <= ds[k];
      }
    }
  }

  lemma SubStepCoins(sqrt: real -> real, maxDouble: real, dt: real, f: Field)
    requires IsSqrt(sqrt) && Playable(f, maxDouble) && f.players != [] && f.coins != []
    ensures var ps, g := Collided(sqrt, f, dt), SubStep(sqrt, maxDouble, dt, f);
            var reach := f.players[0].radius + f.coins[0].radius;
            |ps| == |g.players| && reach <= maxDouble && g.coins == OutOfReach(sqrt, ps, f.coins, reach, maxDouble)
            && forall k :: 0 <= k < |ps| ==> g.players[k].center == ps[k].center
  {
    var ps := Collided(sqrt, f, dt);
    CollidedKeeps(sqrt, f, dt);
    RosterPlayable(f, ps, maxDouble);
    hide Collided, IsSqrt, Distance, Energy, Scores, Worth, Divide, OutOfReach;
    DivisionConserves(sqrt, ps, f.coins, f.players[0].radius + f.coins[0].radius, maxDouble);
  }

  /** Where the players have come to, a coin out of reach of all of them stays, and one that stays is in nobody's
      reach by more than epsilon. */
  lemma CoinsLeft(sqrt: real -> real, maxDouble: real, dt: real, f: Field, c: Coin)
    requires IsSqrt(sqrt) && Playable(f, maxDouble) && f.players != [] && c in f.coins
    ensures var g := SubStep(sqrt, maxDouble, dt, f);
            var reach := f.players[0].radius + f.coins[0].radius;
            ((forall k :: 0 <= k < |g.players| ==> reach <= Distance(sqrt, c.center, g.players[k].center)) ==> c in g.coins)
            && (c in g.coins ==>
                  forall k :: 0 <= k < |g.players| ==> reach - EPSILON <= Distance(sqrt, c.center, g.players[k].center))
  {
    var ps, g := Collided(sqrt, f, dt), SubStep(sqrt, maxDouble, dt, f);
    var reach := f.players[0].radius + f.coins[0].radius;
    SubStepCoins(sqrt, maxDouble, dt, f);
    LeftAreNotTaken(sqrt, ps, f.coins, reach, maxDouble, c);
    TakenMeans(sqrt, ps, c, reach, maxDouble);
    assert c in g.coins <==> !Taken(sqrt, ps, c, reach, maxDouble);
    hide *;
    forall k | 0 <= k < |ps| ensures Distance(sqrt, c.center, ps[k].center) == Distance(sqrt, c.center, g.players[k].center) {}
  }

  // ---------------------------------------------------------------- a whole call

  /** The velocity after an acceleration, in coordinates: below the limit it counts in full, above it the velocity
      has the limit for its length and the direction it would have had. */
  predicate SpeedsUp(sqrt: real -> real, v: Vector, a: Vector, time: real, velocityMax: real, w: Vector) {
    var u := Vector(v.x + time * a.x, v.y + time * a.y);
    var l := Length(sqrt, u);
    if l <= velocityMax then w == u
    else Length(sqrt, w) == velocityMax && l * w.x == velocityMax * u.x && l * w.y == velocityMax * u.y
  }

  lemma AcceleratedSpeedsUp(sqrt: real -> real, p: Player, a: Vector, dt: real, velocityMax: real)
    requires IsSqrt(sqrt) && velocityMax >= 0.0
    ensures SpeedsUp(sqrt, p.velocity, a, dt, velocityMax, Accelerated(sqrt, p, a, dt, velocityMax).velocity)
  {
    var v := Accelerated(sqrt, p, a, dt, velocityMax).velocity;
    assert Pushed(p, a, dt) == Vector(p.velocity.x + dt * a.x, p.velocity.y + dt * a.y);
    AcceleratedIsLimited(sqrt, p, a, dt, velocityMax);
    hide IsSqrt, Square, Pushed;
    if Length(sqrt, Pushed(p, a, dt)) > velocityMax {
      hide Accelerated;
      RootOfSquare(sqrt, velocityMax, Square(v));
    }
  }

  function Times(n: nat, dt: real): real { n as real * dt }

  lemma TimesStep(n: nat, dt: real)
    ensures Times(0, dt) == 0.0
    ensures n > 0 ==> Times(n, dt) == Times(n - 1, dt) + dt
  {
    if n > 0 {
      var m := (n - 1) as real;
      assert (m + 1.0) * dt == m * dt + dt;
    }
  }

  lemma DisplacedOn(a: Vector, b: Vector, c: Vector, velocity: Vector, time: real, dt: real)
    requires Displaced(a, velocity, time, b) && Displaced(b, velocity, dt, c)
    ensures Displaced(a, velocity, time + dt, c)
  {
    OneMoreTerm(time, dt, velocity.x);
    OneMoreTerm(time, dt, velocity.y);
  }

  lemma OneMoreTerm(t: real, dt: real, v: real)
    ensures (t + dt) * v == t * v + dt * v
  {}

  lemma NotDisplaced(a: Vector, velocity: Vector)
    ensures Displaced(a, velocity, 0.0, a)
  {}

  /** Over any number of sub-steps a player that touches nothing flies straight on. */
  lemma {:induction false} FreeFlight(sqrt: real -> real, maxDouble: real, dt: real, f: Field, n: nat, i: nat)
    requires IsSqrt(sqrt) && Playable(f, maxDouble) && i < |f.players|
    requires forall k: nat :: 0 < k <= n ==>
               i < |SubSteps(sqrt, maxDouble, dt, f, k).players| && Unhindered(sqrt, SubSteps(sqrt, maxDouble, dt, f, k), i)
    ensures var p, ps := f.players[i], SubSteps(sqrt, maxDouble, dt, f, n).players;
            |ps| == |f.players| && ps[i].velocity == p.velocity && Displaced(p.center, p.velocity, Times(n, dt), ps[i].center)
  {
    hide IsSqrt, Playable, SubStep, Unhindered, Displaced, Times;
    var p := f.players[i];
    TimesStep(n, dt);
    if n == 0 {
      NotDisplaced(p.center, p.velocity);
    } else {
      FreeFlight(sqrt, maxDouble, dt, f, n - 1, i);
      var g := SubSteps(sqrt, maxDouble, dt, f, n - 1);
      var h := SubStep(sqrt, maxDouble, dt, g);
      SubStepMoves(sqrt, maxDouble, dt, g, i);
      StaysUnhindered(sqrt, maxDouble, dt, g, i);
      assert SubSteps(sqrt, maxDouble, dt, f, n) == h;
      assert Unhindered(sqrt, h, i) by { assert Unhindered(sqrt, SubSteps(sqrt, maxDouble, dt, f, n), i); }
      hide SubSteps;
      DisplacedOn(p.center, g.players[i].center, h.players[i].center, p.velocity, Times(n - 1, dt), dt);
    }
  }

  lemma StaysUnhindered(sqrt: real -> real, maxDouble: real, dt: real, f: Field, i: nat)
    requires IsSqrt(sqrt) && Playable(f, maxDouble) && i < |f.players|
    ensures var g := SubStep(sqrt, maxDouble, dt, f);
            |g.players| == |f.players| && (Unhindered(sqrt, g, i) ==> g.players[i].velocity == f.players[i].velocity)
  {
    AloneKeepsVelocity(sqrt, maxDouble, dt, f, i);
    SubStepKeeps(sqrt, maxDouble, dt, f);
    hide SubStep, Playable, IsSqrt, Alone, TurnedIn, Length, Energy, Scores, Worth;
  }

  lemma WholeTime(timeDelta: real, steps: nat)
    requires steps > 0
    ensures Times(steps, StepTime(timeDelta, steps)) == timeDelta / 100.0
  {
    var t, s := timeDelta / 100.0, steps as real;
    assert s * (t / s) == t;
  }

  lemma StartedPlayer(sqrt: real -> real, maxDouble: real, turns: seq<Turn>, f: Field, i: nat)
    requires IsSqrt(sqrt) && Playable(f, maxDouble) && TurnsCover(turns, f.players) && i < |f.players|
    ensures var ps := Started(sqrt, maxDouble, turns, f).players;
            |ps| == |f.players| && f.velocityMax >= 0.0 && HasTurn(turns, f.players[i].id)
            && ps[i] == Accelerated(sqrt, f.players[i], TurnOf(turns, f.players[i].id).acceleration, f.timeDelta, f.velocityMax)
  {
    hide IsSqrt, Accelerated, TurnOf, HasTurn;
  }

  lemma AcceleratedStays(sqrt: real -> real, p: Player, a: Vector, dt: real, velocityMax: real)
    requires velocityMax >= 0.0
    ensures Accelerated(sqrt, p, a, dt, velocityMax).center == p.center
  {
    hide Pushed, Length, Normalize, Scale;
  }

  /** A player that touches neither another player nor the border in a call of `Emulate` has afterwards the velocity
      that its acceleration gives it, and stands where that has taken it in a hundredth of the time, in however many
      sub-steps. */
  lemma FlightOfACall(sqrt: real -> real, maxDouble: real, turns: seq<Turn>, f: Field, steps: nat, i: nat)
    requires IsSqrt(sqrt) && Playable(f, maxDouble) && TurnsCover(turns, f.players) && steps > 0 && i < |f.players|
    requires forall k: nat :: 0 < k <= steps ==>
               i < |During(sqrt, maxDouble, turns, f, steps, k).players|
               && Unhindered(sqrt, During(sqrt, maxDouble, turns, f, steps, k), i)
    ensures var p, ps := f.players[i], During(sqrt, maxDouble, turns, f, steps, steps).players;
            |ps| == |f.players|
            && SpeedsUp(sqrt, p.velocity, TurnOf(turns, p.id).acceleration, f.timeDelta, f.velocityMax, ps[i].velocity)
            && Displaced(p.center, ps[i].velocity, f.timeDelta / 100.0, ps[i].center)
  {
    hide IsSqrt, Playable, TurnsCover, Unhindered, Started, Accelerated, StepTime, Length, SubSteps, TurnOf, HasTurn, SpeedsUp,
         Displaced, Times;
    var start, dt := Started(sqrt, maxDouble, turns, f), StepTime(f.timeDelta, steps);
    StartedPlayer(sqrt, maxDouble, turns, f, i);
    var p, a := f.players[i], TurnOf(turns, f.players[i].id).acceleration;
    AcceleratedSpeedsUp(sqrt, p, a, f.timeDelta, f.velocityMax);
    AcceleratedStays(sqrt, p, a, f.timeDelta, f.velocityMax);
    WholeTime(f.timeDelta, steps);
    assert forall k: nat :: During(sqrt, maxDouble, turns, f, steps, k) == SubSteps(sqrt, maxDouble, dt, start, k);
    hide During;
    FreeFlight(sqrt, maxDouble, dt, start, steps, i);
  }
}
