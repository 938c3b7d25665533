/** The emulator (lib/emulator/default_emulator.cpp, lib/emulator/helpers.cpp): the state of the
    field, updated in place, and what a whole call of `Emulate` keeps. */
module Emulator {
  import opened Geometry
  import opened Physics
  import opened Coins

  datatype Field = Field(id: nat, radius: real, timeDelta: real, velocityMax: real,
                         players: seq<Player>, coins: seq<Coin>)

  /** What the game configuration guarantees: no player is larger than the field, and no sum of a
      player's and a coin's radius exceeds the largest double. */
  ghost predicate Playable(f: Field, maxDouble: real) {
    && f.velocityMax >= 0.0
    && Fits(f.radius, f.players)
    && (forall i, j :: 0 <= i < |f.players| && 0 <= j < |f.coins| ==> f.players[i].radius + f.coins[j].radius <= maxDouble)
  }

  // ---------------------------------------------------------------- one sub-step

  /** Identifiers and radii stay. */
  ghost predicate SameRoster(ps: seq<Player>, qs: seq<Player>) {
    |ps| == |qs| && forall k :: 0 <= k < |ps| ==> qs[k].id == ps[k].id && qs[k].radius == ps[k].radius
  }

  function Collided(sqrt: real -> real, f: Field, dt: real): (ps: seq<Player>)
    requires IsSqrt(sqrt) && Fits(f.radius, f.players)
    ensures |ps| == |f.players|
  {
    var moved := MoveAll(f.players, dt);
    BallPassConserves(sqrt, moved, 0, 1);
    FitsIsOffCenter(sqrt, f.radius, BallPass(sqrt, moved, 0, 1));
    BorderPass(sqrt, f.radius, BallPass(sqrt, moved, 0, 1))
  }

  lemma {:induction false} MoveKeeps(ps: seq<Player>, dt: real)
    ensures SameRoster(ps, MoveAll(ps, dt)) && Energy(MoveAll(ps, dt)) == Energy(ps)
    ensures Scores(MoveAll(ps, dt)) == Scores(ps)
  {
    SameSpeedsSameEnergy(ps, MoveAll(ps, dt));
    SameScoresSum(ps, MoveAll(ps, dt));
  }

  lemma {:induction false} SameScoresSum(ps: seq<Player>, qs: seq<Player>)
    requires |ps| == |qs| && forall k :: 0 <= k < |ps| ==> qs[k].score == ps[k].score
    ensures Scores(ps) == Scores(qs)
  {
    if ps != [] { SameScoresSum(ps[..|ps| - 1], qs[..|qs| - 1]); }
  }

  lemma CollidedKeeps(sqrt: real -> real, f: Field, dt: real)
    requires IsSqrt(sqrt) && Fits(f.radius, f.players)
    ensures var ps := Collided(sqrt, f, dt);
            SameRoster(f.players, ps) && Energy(ps) == Energy(f.players) && Scores(ps) == Scores(f.players)
  {
    var moved := MoveAll(f.players, dt);
    MoveKeeps(f.players, dt);
    BallPassConserves(sqrt, moved, 0, 1);
    var hit := BallPass(sqrt, moved, 0, 1);
    FitsIsOffCenter(sqrt, f.radius, hit);
    BorderPassConserves(sqrt, f.radius, hit);
    hide BallPass, BorderPass, MoveAll, Energy, IsSqrt, Outside, Dot;
    SameScoresSum(moved, hit);
    SameScoresSum(hit, Collided(sqrt, f, dt));
  }

  lemma RosterPlayable(f: Field, ps: seq<Player>, maxDouble: real)
    requires Playable(f, maxDouble) && SameRoster(f.players, ps)
    ensures Playable(f.(players := ps), maxDouble)
  {}

  function SubStep(sqrt: real -> real, maxDouble: real, dt: real, f: Field): Field
    requires IsSqrt(sqrt) && Playable(f, maxDouble)
  {
    var ps := Collided(sqrt, f, dt);
    CollidedKeeps(sqrt, f, dt);
    RosterPlayable(f, ps, maxDouble);
    var d := AfterDivision(sqrt, ps, f.coins, maxDouble);
    f.(players := d.players, coins := d.left)
  }

  lemma {:induction false} OutOfReachAmong(sqrt: real -> real, ps: seq<Player>, cs: seq<Coin>, reach: real, maxDouble: real)
    ensures forall c :: c in OutOfReach(sqrt, ps, cs, reach, maxDouble) ==> c in cs
  {
    if cs != [] { OutOfReachAmong(sqrt, ps, cs[..|cs| - 1], reach, maxDouble); }
  }

  lemma DivisionKeeps(sqrt: real -> real, ps: seq<Player>, cs: seq<Coin>, maxDouble: real)
    requires ps != [] && cs != [] ==> ps[0].radius + cs[0].radius <= maxDouble
    ensures var d := AfterDivision(sqrt, ps, cs, maxDouble);
            SameMotion(ps, d.players) && Energy(d.players) == Energy(ps)
            && Scores(d.players) + Worth(d.left) == Scores(ps) + Worth(cs)
            && forall c :: c in d.left ==> c in cs
  {
    hide Energy, Square, Scores, Worth, Divide, OutOfReach;
    if ps != [] && cs != [] {
      DivisionConserves(sqrt, ps, cs, ps[0].radius + cs[0].radius, maxDouble);
      OutOfReachAmong(sqrt, ps, cs, ps[0].radius + cs[0].radius, maxDouble);
    }
    SameSpeedsSameEnergy(ps, AfterDivision(sqrt, ps, cs, maxDouble).players);
  }

  lemma FewerCoinsPlayable(f: Field, cs: seq<Coin>, maxDouble: real)
    requires Playable(f, maxDouble) && forall c :: c in cs ==> c in f.coins
    ensures Playable(f.(coins := cs), maxDouble)
  {
    forall i, j | 0 <= i < |f.players| && 0 <= j < |cs| ensures f.players[i].radius + cs[j].radius <= maxDouble {
      assert cs[j] in cs;
      var k :| 0 <= k < |f.coins| && f.coins[k] == cs[j];
    }
  }

  /** Players stay the same in number, identity and size, the energy of the field stays the same,
      and what they score is what disappears from the field. */
  ghost predicate Keeps(f: Field, g: Field) {
    && SameRoster(f.players, g.players)
    && Energy(g.players) == Energy(f.players)
    && Scores(g.players) + Worth(g.coins) == Scores(f.players) + Worth(f.coins)
    && (forall c :: c in g.coins ==> c in f.coins)
    && g == f.(players := g.players, coins := g.coins)
  }

  lemma SubStepKeeps(sqrt: real -> real, maxDouble: real, dt: real, f: Field)
    requires IsSqrt(sqrt) && Playable(f, maxDouble)
    ensures Playable(SubStep(sqrt, maxDouble, dt, f), maxDouble) && Keeps(f, SubStep(sqrt, maxDouble, dt, f))
  {
    hide IsSqrt, Collided, AfterDivision, Energy, Scores, Worth;
    var ps := Collided(sqrt, f, dt);
    CollidedKeeps(sqrt, f, dt);
    RosterPlayable(f, ps, maxDouble);
    DivisionKeeps(sqrt, ps, f.coins, maxDouble);
    var d := AfterDivision(sqrt, ps, f.coins, maxDouble);
    assert SameRoster(f.players, d.players);
    RosterPlayable(f, d.players, maxDouble);
    FewerCoinsPlayable(f.(players := d.players), d.left, maxDouble);
    hide Playable, SameRoster;
  }

  // ---------------------------------------------------------------- a whole call

  function SubSteps(sqrt: real -> real, maxDouble: real, dt: real, f: Field, n: nat): (g: Field)
    requires IsSqrt(sqrt) && Playable(f, maxDouble)
    ensures Playable(g, maxDouble)
  {
    if n == 0 then f else
      var g := SubSteps(sqrt, maxDouble, dt, f, n - 1);
      SubStepKeeps(sqrt, maxDouble, dt, g);
      SubStep(sqrt, maxDouble, dt, g)
  }

  lemma {:induction false} SubStepsKeep(sqrt: real -> real, maxDouble: real, dt: real, f: Field, n: nat)
    requires IsSqrt(sqrt) && Playable(f, maxDouble)
    ensures Keeps(f, SubSteps(sqrt, maxDouble, dt, f, n))
  {
    hide IsSqrt, Playable, Energy, Scores, Worth, SubStep;
    if n > 0 {
      SubStepsKeep(sqrt, maxDouble, dt, f, n - 1);
      SubStepKeeps(sqrt, maxDouble, dt, SubSteps(sqrt, maxDouble, dt, f, n - 1));
    }
  }

  function Started(sqrt: real -> real, maxDouble: real, turns: seq<Turn>, f: Field): (g: Field)
    requires IsSqrt(sqrt) && Playable(f, maxDouble) && TurnsCover(turns, f.players)
    ensures Playable(g, maxDouble)
  {
    AccelerateAllIsLimited(sqrt, f.players, turns, f.timeDelta, f.velocityMax);
    var ps := AccelerateAll(sqrt, f.players, turns, f.timeDelta, f.velocityMax);
    RosterPlayable(f, ps, maxDouble);
    f.(players := ps)
  }

  function StepTime(timeDelta: real, steps: nat): real
    requires steps > 0
  {
    timeDelta / 100.0 / steps as real
  }

  /** The field after `k` of the `steps` sub-steps of one call. */
  function During(sqrt: real -> real, maxDouble: real, turns: seq<Turn>, f: Field, steps: nat, k: nat): (g: Field)
    requires IsSqrt(sqrt) && Playable(f, maxDouble) && TurnsCover(turns, f.players) && steps > 0
    ensures Playable(g, maxDouble)
  {
    SubSteps(sqrt, maxDouble, StepTime(f.timeDelta, steps), Started(sqrt, maxDouble, turns, f), k)
  }

  lemma StartedKeeps(sqrt: real -> real, maxDouble: real, turns: seq<Turn>, f: Field)
    requires IsSqrt(sqrt) && Playable(f, maxDouble) && TurnsCover(turns, f.players)
    ensures var g := Started(sqrt, maxDouble, turns, f);
            SameRoster(f.players, g.players) && Scores(g.players) == Scores(f.players)
            && Energy(g.players) <= |f.players| as real * (f.velocityMax * f.velocityMax)
            && g == f.(players := g.players)
  {
    hide Energy, Square, Scores, IsSqrt, AccelerateAll, TurnsCover;
    AccelerateAllIsLimited(sqrt, f.players, turns, f.timeDelta, f.velocityMax);
    SameScoresSum(f.players, Started(sqrt, maxDouble, turns, f).players);
  }

  /** Throughout a call the energy is what the accelerations left, at most one squared speed limit
      per player, so that no player is ever faster than that; identifiers and sizes stay; and scores
      and coins together are worth what they were before the call. */
  lemma EmulateKeeps(sqrt: real -> real, maxDouble: real, turns: seq<Turn>, f: Field, steps: nat, k: nat)
    requires IsSqrt(sqrt) && Playable(f, maxDouble) && TurnsCover(turns, f.players) && steps > 0
    ensures var g := During(sqrt, maxDouble, turns, f, steps, k);
            var limit := |f.players| as real * (f.velocityMax * f.velocityMax);
            Energy(g.players) == Energy(During(sqrt, maxDouble, turns, f, steps, 0).players) <= limit
            && (forall i :: 0 <= i < |g.players| ==> Square(g.players[i].velocity) <= limit)
            && SameRoster(f.players, g.players)
            && Scores(g.players) + Worth(g.coins) == Scores(f.players) + Worth(f.coins)
            && (forall c :: c in g.coins ==> c in f.coins)
            && g == f.(players := g.players, coins := g.coins)
  {
    hide Energy, Square, Scores, Worth, IsSqrt, AccelerateAll, Playable, TurnsCover, SubSteps;
    StartedKeeps(sqrt, maxDouble, turns, f);
    var start, g := Started(sqrt, maxDouble, turns, f), During(sqrt, maxDouble, turns, f, steps, k);
    SubStepsKeep(sqrt, maxDouble, StepTime(f.timeDelta, steps), start, k);
    SubStepsKeep(sqrt, maxDouble, StepTime(f.timeDelta, steps), start, 0);
    forall i | 0 <= i < |g.players| ensures Square(g.players[i].velocity) <= Energy(g.players) {
      EnergyBoundsSpeed(g.players, i);
    }
  }

  // ---------------------------------------------------------------- the emulator as it is

  class FieldState {
    var id: nat
    var radius: real
    var timeDelta: real
    var velocityMax: real
    var players: seq<Player>
    var coins: seq<Coin>

    constructor (radius: real, timeDelta: real, velocityMax: real)
      ensures Value() == Field(0, radius, timeDelta, velocityMax, [], [])
    {
      this.id, this.radius, this.timeDelta, this.velocityMax := 0, radius, timeDelta, velocityMax;
      players, coins := [], [];
    }

    ghost function Value(): Field
      reads this
    {
      Field(id, radius, timeDelta, velocityMax, players, coins)
    }
  }

  method MovePlayers(timeDelta: real, state: FieldState)
    modifies state`players
    ensures state.players == MoveAll(old(state.players), timeDelta)
    ensures forall i :: 0 <= i < |state.players| ==>
              Displaced(old(state.players)[i].center, old(state.players)[i].velocity, timeDelta, state.players[i].center)
  {
    ghost var before := state.players;
    for k := 0 to |state.players|
      invariant |state.players| == |before|
      invariant forall i :: 0 <= i < k ==> state.players[i] == Moved(before[i], timeDelta)
      invariant forall i :: k <= i < |before| ==> state.players[i] == before[i]
    {
      var p := state.players[k];
      var x := p.center.x + p.velocity.x * timeDelta;
      var y := p.center.y + p.velocity.y * timeDelta;
      state.players := state.players[k := p.(center := Vector(x, y))];
    }
    hide Moved, Displaced;
    forall i | 0 <= i < |before|
      ensures Displaced(before[i].center, before[i].velocity, timeDelta, state.players[i].center)
    {
      MovedIsDisplaced(before[i], timeDelta);
    }
  }

  method Collide(sqrt: real -> real, a: Player, b: Player) returns (r: bool)
    ensures r <==> Apart(sqrt, a, b) <= a.radius + b.radius
  {
    r := Distance(sqrt, a.center, b.center) <= a.radius + b.radius;
  }

  lemma SameVector(a: Vector, b: Vector)
    requires a.x == b.x && a.y == b.y
    ensures a == b
  {}

  lemma PlusScale(v: Vector, k: real, n: Vector)
    ensures Plus(v, Scale(k, n)).x == v.x + k * n.x && Plus(v, Scale(k, n)).y == v.y + k * n.y
  {}

  lemma MinusScale(v: Vector, k: real, n: Vector)
    ensures Minus(v, Scale(k, n)).x == v.x - k * n.x && Minus(v, Scale(k, n)).y == v.y - k * n.y
  {}

  lemma Commutes(a: real, b: real)
    ensures a * b == b * a
  {}

  lemma ImpulseInParts(v: Vector, w: Vector, n: Vector, k: real, v': Vector, w': Vector)
    requires Square(n) == 1.0 && k == Dot(w, n) - Dot(v, n)
    requires v'.x == v.x + n.x * k && v'.y == v.y + n.y * k
    requires w'.x == w.x - n.x * k && w'.y == w.y - n.y * k
    ensures v' == Traded(v, w, n) && w' == Traded(w, v, n)
  {
    hide *;
    ImpulseTrades(v, w, n);
    PlusScale(v, k, n);
    MinusScale(w, k, n);
    Commutes(n.x, k);
    Commutes(n.y, k);
    SameVector(v', Plus(v, Scale(k, n)));
    SameVector(w', Minus(w, Scale(k, n)));
  }

  lemma DotInParts(v: Vector, n: Vector)
    ensures v.x * n.x + v.y * n.y == Dot(v, n)
  {}

  /** How the source finds the axis and decides on a hit. */
  lemma AxisInParts(sqrt: real -> real, a: Player, b: Player, collision: Vector, distance: real)
    requires collision == Vector(a.center.x - b.center.x, a.center.y - b.center.y)
    requires distance == Length(sqrt, collision)
    ensures if distance <= NEARLY_ZERO then Axis(sqrt, a, b) == Vector(1.0 / 1.0, 0.0 / 1.0)
            else distance != 0.0 && Axis(sqrt, a, b) == Vector(collision.x / distance, collision.y / distance)
    ensures Hit(sqrt, a, b) <==> (if distance <= NEARLY_ZERO then 1.0 else distance) <= a.radius + b.radius
  {
    hide Length, Square;
    assert collision == Minus(a.center, b.center);
  }

  lemma BounceInParts(sqrt: real -> real, ps: seq<Player>, i: nat, j: nat)
    requires i < j < |ps|
    ensures if Hit(sqrt, ps[i], ps[j]) then
              var n := Axis(sqrt, ps[i], ps[j]);
              var v, w := Traded(ps[i].velocity, ps[j].velocity, n), Traded(ps[j].velocity, ps[i].velocity, n);
              Bounce(sqrt, ps, i, j) == ps[i := ps[i].(velocity := v)][j := ps[j].(velocity := w)]
            else Bounce(sqrt, ps, i, j) == ps
  {
    hide Hit, Axis, Traded;
  }

  /** Two players bounce off each other. */
  method ResolveCollision(sqrt: real -> real, state: FieldState, i: nat, j: nat)
    requires IsSqrt(sqrt) && i < j < |state.players|
    modifies state`players
    ensures state.players == Bounce(sqrt, old(state.players), i, j)
  {
    hide *;
    var a, b := state.players[i], state.players[j];
    var collision := Vector(a.center.x - b.center.x, a.center.y - b.center.y);
    var distance := Length(sqrt, collision);
    AxisInParts(sqrt, a, b, collision, distance);
    AxisIsUnit(sqrt, a, b);
    BounceInParts(sqrt, state.players, i, j);
    if distance <= NEARLY_ZERO {
      collision := Vector(1.0, 0.0);
      distance := 1.0;
    }
    if distance > a.radius + b.radius { return; }
    collision := Vector(collision.x / distance, collision.y / distance);
    assert collision == Axis(sqrt, a, b);
    Exchange(sqrt, state, i, j, collision);
  }

  /** The second half of `ResolveCollision`. */
  method Exchange(sqrt: real -> real, state: FieldState, i: nat, j: nat, collision: Vector)
    requires i < j < |state.players| && Square(collision) == 1.0
    modifies state`players
    ensures var a, b := old(state.players[i]), old(state.players[j]);
            state.players == old(state.players)[i := a.(velocity := Traded(a.velocity, b.velocity, collision))]
                                               [j := b.(velocity := Traded(b.velocity, a.velocity, collision))]
  {
    hide *;
    var a, b := state.players[i], state.players[j];
    var own := a.velocity.x * collision.x + a.velocity.y * collision.y;
    var other := b.velocity.x * collision.x + b.velocity.y * collision.y;
    DotInParts(a.velocity, collision);
    DotInParts(b.velocity, collision);
    var change := other - own;
    var v := Vector(a.velocity.x + collision.x * change, a.velocity.y + collision.y * change);
    var w := Vector(b.velocity.x - collision.x * change, b.velocity.y - collision.y * change);
    ImpulseInParts(a.velocity, b.velocity, collision, change, v, w);
    state.players := state.players[i := a.(velocity := v)][j := b.(velocity := w)];
  }

  method HandleBallToBallCollisions(sqrt: real -> real, state: FieldState)
    requires IsSqrt(sqrt)
    modifies state`players
    ensures state.players == BallPass(sqrt, old(state.players), 0, 1)
  {
    hide IsSqrt, Bounce;
    ghost var before := state.players;
    var index := 0;
    while index < |state.players|
      invariant |state.players| == |before|
      invariant BallPass(sqrt, state.players, index, index + 1) == BallPass(sqrt, before, 0, 1)
    {
      var subindex := index + 1;
      while subindex < |state.players|
        invariant index < subindex && |state.players| == |before|
        invariant BallPass(sqrt, state.players, index, subindex) == BallPass(sqrt, before, 0, 1)
      {
        var collide := Collide(sqrt, state.players[index], state.players[subindex]);
        if collide {
          ResolveCollision(sqrt, state, index, subindex);
        } else {
          NoBounce(sqrt, state.players, index, subindex);
        }
        subindex := subindex + 1;
      }
      index := index + 1;
    }
  }

  lemma NoBounce(sqrt: real -> real, ps: seq<Player>, i: nat, j: nat)
    requires i < j < |ps| && Apart(sqrt, ps[i], ps[j]) > ps[i].radius + ps[j].radius
    ensures Bounce(sqrt, ps, i, j) == ps
  {}

  /** A player bounces off the border. */
  method ResolveBorderCollision(sqrt: real -> real, state: FieldState, k: nat)
    requires IsSqrt(sqrt) && k < |state.players| && Length(sqrt, Scale(-1.0, state.players[k].center)) > 0.0
    modifies state`players
    ensures var p := old(state.players[k]);
            state.players == old(state.players)[k := p.(velocity := Reflected(p.velocity, Inward(sqrt, p.center)))]
  {
    var p := state.players[k];
    var normal := Vector(-p.center.x, -p.center.y);
    assert normal == Scale(-1.0, p.center);
    NormalizeIsUnit(sqrt, normal);
    normal := Normalize(sqrt, normal);
    hide *;
    var dot := p.velocity.x * normal.x + p.velocity.y * normal.y;
    DotInParts(p.velocity, normal);
    if dot < 0.0 {
      var v := Vector(p.velocity.x - 2.0 * dot * normal.x, p.velocity.y - 2.0 * dot * normal.y);
      DeflectionInParts(p.velocity, normal, dot, v);
      state.players := state.players[k := p.(velocity := v)];
    } else {
      DeflectionInParts(p.velocity, normal, dot, p.velocity);
    }
  }

  lemma DeflectionInParts(v: Vector, n: Vector, d: real, v': Vector)
    requires Square(n) == 1.0 && d == Dot(v, n)
    requires if d < 0.0 then v'.x == v.x - 2.0 * d * n.x && v'.y == v.y - 2.0 * d * n.y else v' == v
    ensures v' == Reflected(v, n)
  {
    hide *;
    DeflectionReflects(v, n);
    if d < 0.0 {
      PlusScale(v, -2.0 * d, n);
      Doubled(v.x, d, n.x);
      Doubled(v.y, d, n.y);
      SameVector(v', Plus(v, Scale(-2.0 * d, n)));
    }
  }

  lemma Doubled(x: real, d: real, n: real)
    ensures x - 2.0 * d * n == x + (-2.0 * d) * n
  {}

  method HandleBallToBorderCollisions(sqrt: real -> real, fieldRadius: real, state: FieldState)
    requires IsSqrt(sqrt) && AllOffCenter(sqrt, fieldRadius, state.players)
    modifies state`players
    ensures state.players == BorderPass(sqrt, fieldRadius, old(state.players))
  {
    ghost var before := state.players;
    for k := 0 to |state.players|
      invariant |state.players| == |before|
      invariant forall i :: 0 <= i < k ==> state.players[i] == Returned(sqrt, fieldRadius, before[i])
      invariant forall i :: k <= i < |before| ==> state.players[i] == before[i]
    {
      if Length(sqrt, state.players[k].center) + state.players[k].radius > fieldRadius {
        OffCenterLength(sqrt, state.players[k].center);
        ResolveBorderCollision(sqrt, state, k);
      }
    }
  }

  /** The players nearest to a coin. */
  method FindNearest(sqrt: real -> real, maxDouble: real, coin: Coin, players: seq<Player>)
    returns (minDistance: real, onTheMinDistance: seq<nat>)
    ensures Scan(minDistance, onTheMinDistance) == Nearest(Distances(sqrt, coin.center, players), maxDouble)
  {
    minDistance, onTheMinDistance := maxDouble, [];
    ghost var ds := Distances(sqrt, coin.center, players);
    for index := 0 to |players|
      invariant Scan(minDistance, onTheMinDistance) == Nearest(ds[..index], maxDouble)
    {
      var distance := Distance(sqrt, coin.center, players[index].center);
      assert ds[..index + 1][..index] == ds[..index];
      if Less(distance, minDistance, EPSILON) {
        minDistance := distance;
        onTheMinDistance := [];
        onTheMinDistance := onTheMinDistance + [index];
      } else if Equal(distance, minDistance, EPSILON) {
        onTheMinDistance := onTheMinDistance + [index];
      }
    }
    assert ds[..|players|] == ds;
  }

  method AddToScores(state: FieldState, list: seq<nat>, scoreToAdd: real)
    requires forall a :: 0 <= a < |list| ==> list[a] < |state.players|
    modifies state`players
    ensures state.players == AddScores(old(state.players), list, scoreToAdd)
  {
    ghost var before := state.players;
    for a := 0 to |list|
      invariant state.players == AddScores(before, list[..a], scoreToAdd)
    {
      var p := state.players[list[a]];
      state.players := state.players[list[a] := p.(score := p.score + scoreToAdd)];
      assert list[..a + 1][..a] == list[..a];
    }
    assert list[..|list|] == list;
  }

  lemma TakersListed(sqrt: real -> real, ps: seq<Player>, coin: Coin, reach: real, maxDouble: real)
    requires reach <= maxDouble && Taken(sqrt, ps, coin, reach, maxDouble)
    ensures var list := Nearest(Distances(sqrt, coin.center, ps), maxDouble).list;
            list != [] && forall a :: 0 <= a < |list| ==> list[a] < |ps|
  {
    TakersLead(sqrt, ps, coin, reach, maxDouble);
  }

  method DivideCoins(sqrt: real -> real, maxDouble: real, state: FieldState)
    requires state.players != [] && state.coins != [] ==>
               state.players[0].radius + state.coins[0].radius <= maxDouble
    modifies state`players, state`coins
    ensures Division(state.players, state.coins) == AfterDivision(sqrt, old(state.players), old(state.coins), maxDouble)
  {
    hide Nearest, Leads, Distances, AddScores, Increasing;
    if state.players == [] || state.coins == [] { return; }
    var reach := state.players[0].radius + state.coins[0].radius;
    ghost var before := state.players;
    var coinsLeft: seq<Coin> := [];
    for k := 0 to |state.coins|
      invariant state.coins == old(state.coins)
      invariant Division(state.players, coinsLeft) == Divide(sqrt, before, state.coins[..k], reach, maxDouble)
    {
      var coin := state.coins[k];
      assert state.coins[..k + 1][..k] == state.coins[..k];
      var minDistance, list := FindNearest(sqrt, maxDouble, coin, state.players);
      if minDistance < reach {
        TakersListed(sqrt, state.players, coin, reach, maxDouble);
        AddToScores(state, list, coin.value / |list| as real);
      } else {
        coinsLeft := coinsLeft + [coin];
      }
    }
    assert state.coins[..|state.coins|] == state.coins;
    LeftNoMore(sqrt, before, state.coins, reach, maxDouble);
    if |coinsLeft| != |state.coins| { state.coins := coinsLeft; }
  }

  /** As many coins are left as there were only if none was taken. */
  lemma {:induction false} LeftNoMore(sqrt: real -> real, ps: seq<Player>, cs: seq<Coin>, reach: real, maxDouble: real)
    requires reach <= maxDouble
    ensures var left := Divide(sqrt, ps, cs, reach, maxDouble).left;
            |left| <= |cs| && (|left| == |cs| ==> left == cs)
  {
    hide Nearest, Pay;
    if cs != [] { LeftNoMore(sqrt, ps, cs[..|cs| - 1], reach, maxDouble); }
  }

  method FindTurn(turns: seq<Turn>, id: nat) returns (acceleration: Vector)
    requires HasTurn(turns, id)
    ensures acceleration == TurnOf(turns, id).acceleration
  {
    var k := 0;
    while turns[k].playerId != id
      invariant k < |turns|
      invariant HasTurn(turns[k..], id) && TurnOf(turns[k..], id) == TurnOf(turns, id)
      decreases |turns| - k
    {
      assert turns[k..][1..] == turns[k + 1..];
      k := k + 1;
    }
    acceleration := turns[k].acceleration;
  }

  method GetAccelerations(players: seq<Player>, turns: seq<Turn>) returns (accelerations: seq<Vector>)
    requires TurnsCover(turns, players)
    ensures |accelerations| == |players|
    ensures forall k :: 0 <= k < |players| ==> accelerations[k] == TurnOf(turns, players[k].id).acceleration
  {
    accelerations := [];
    for index := 0 to |players|
      invariant |accelerations| == index
      invariant forall k :: 0 <= k < index ==> accelerations[k] == TurnOf(turns, players[k].id).acceleration
    {
      var a := FindTurn(turns, players[index].id);
      accelerations := accelerations + [a];
    }
  }

  method ApplyAcceleration(sqrt: real -> real, turns: seq<Turn>, timeDelta: real, velocityMax: real, state: FieldState)
    requires TurnsCover(turns, state.players) && velocityMax >= 0.0
    modifies state`players
    ensures state.players == AccelerateAll(sqrt, old(state.players), turns, timeDelta, velocityMax)
  {
    ghost var before := state.players;
    var accelerations := GetAccelerations(state.players, turns);
    for k := 0 to |accelerations|
      invariant |state.players| == |before|
      invariant forall i :: 0 <= i < k ==>
                  state.players[i] == Accelerated(sqrt, before[i], accelerations[i], timeDelta, velocityMax)
      invariant forall i :: k <= i < |before| ==> state.players[i] == before[i]
    {
      var p := state.players[k];
      var v := Vector(p.velocity.x + accelerations[k].x * timeDelta, p.velocity.y + accelerations[k].y * timeDelta);
      assert v == Pushed(p, accelerations[k], timeDelta);
      if Length(sqrt, v) > velocityMax {
        v := Normalize(sqrt, v);
        v := Vector(v.x * velocityMax, v.y * velocityMax);
      }
      assert p.(velocity := v) == Accelerated(sqrt, p, accelerations[k], timeDelta, velocityMax);
      state.players := state.players[k := p.(velocity := v)];
    }
  }

  method Emulate(sqrt: real -> real, maxDouble: real, turns: seq<Turn>, state: FieldState, steps: nat)
    requires IsSqrt(sqrt) && Playable(state.Value(), maxDouble) && TurnsCover(turns, state.players) && steps > 0
    modifies state`players, state`coins
    ensures state.Value() == During(sqrt, maxDouble, turns, old(state.Value()), steps, steps)
  {
    hide IsSqrt, TurnsCover, BallPass, BorderPass, MoveAll, AccelerateAll, AfterDivision, Energy, Scores;
    ghost var before := state.Value();
    ApplyAcceleration(sqrt, turns, state.timeDelta, state.velocityMax, state);
    ghost var start := Started(sqrt, maxDouble, turns, before);
    var inGameTimeDelta := state.timeDelta / 100.0;
    var stepTimeDelta := inGameTimeDelta / steps as real;
    for index := 0 to steps
      invariant state.Value() == SubSteps(sqrt, maxDouble, stepTimeDelta, start, index)
    {
      ghost var now := state.Value();
      CollidedKeeps(sqrt, now, stepTimeDelta);
      RosterPlayable(now, Collided(sqrt, now, stepTimeDelta), maxDouble);
      BallPassConserves(sqrt, MoveAll(now.players, stepTimeDelta), 0, 1);
      FitsIsOffCenter(sqrt, now.radius, BallPass(sqrt, MoveAll(now.players, stepTimeDelta), 0, 1));
      MovePlayers(stepTimeDelta, state);
      HandleBallToBallCollisions(sqrt, state);
      HandleBallToBorderCollisions(sqrt, state.radius, state);
      assert state.players == Collided(sqrt, now, stepTimeDelta);
      DivideCoins(sqrt, maxDouble, state);
      assert state.Value() == SubStep(sqrt, maxDouble, stepTimeDelta, now);
    }
  }
}
