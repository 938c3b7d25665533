/** When the game can start: what the configuration check leaves open. */
module ServerStart {
  import opened Wrappers
  import opened Geometry
  import opened Physics
  import opened Emulator
  import opened Players
  import opened Server
  import Framing
  import Requests

  /** Positions in the field that players can take one after another without touching. */
  ghost predicate Placeable(w: World, centers: seq<Vector>) {
    var r := w.config.playerRadius;
    (forall i :: 0 <= i < |centers| ==> InField(w.sqrt, w.config.fieldRadius, r, centers[i]))
    && forall i, j :: 0 <= i < j < |centers| ==> Distance(w.sqrt, centers[j], centers[i]) > r + r
  }

  /** The players needed are allowed and find room. */
  ghost predicate Startable(w: World) {
    w.config.minPlayers <= w.config.maxPlayers
    && exists centers :: |centers| == w.config.minPlayers && Placeable(w, centers)
  }

  function Centers(ps: seq<Player>): (cs: seq<Vector>)
    ensures |cs| == |ps| && forall k :: 0 <= k < |ps| ==> cs[k] == ps[k].center
  {
    seq(|ps|, k requires 0 <= k < |ps| => ps[k].center)
  }

  // ---------------------------------------------------------------- a started game needs room

  /** Until the first tick the players stand where they were placed. */
  ghost predicate Opening(w: World, s: Server) {
    s.game == Waiting || s.game == Starting ==> Placeable(w, Centers(s.field.players))
  }

  lemma PlacedOneMore(w: World, s: Server, center: Vector, p: Player)
    requires Uniform(w, s.field) && Placeable(w, Centers(s.field.players)) && p.center == center
    requires InField(w.sqrt, w.config.fieldRadius, w.config.playerRadius, center)
    requires Free(w.sqrt, center, w.config.playerRadius, s.field.players)
    ensures Placeable(w, Centers(s.field.players + [p]))
  {
    var r, cs := w.config.playerRadius, Centers(s.field.players + [p]);
    forall i, j | 0 <= i < j < |cs| ensures Distance(w.sqrt, cs[j], cs[i]) > r + r {
      if j == |s.field.players| {
        assert !Overlaps(w.sqrt, center, r, s.field.players[i]);
      } else {
        assert cs[j] == Centers(s.field.players)[j] && cs[i] == Centers(s.field.players)[i];
      }
    }
    forall i | 0 <= i < |cs| ensures InField(w.sqrt, w.config.fieldRadius, r, cs[i]) {
      if i < |s.field.players| { assert cs[i] == Centers(s.field.players)[i]; }
    }
  }

  lemma OpeningStep(w: World, s: Server, step: Step)
    requires Uniform(w, s.field) && Opening(w, s) && Enabled(w, s, step)
    ensures Opening(w, Apply(w, s, step))
  {
    hide Placeable, InField, Free, CanEmulate, Emulated, Enrolled, WithTurn, Framing.Feed, Requests.RequestOf;
    if step.Draw? && Free(w.sqrt, step.center, w.config.playerRadius, s.field.players)
       && (s.game == Waiting || s.game == Starting) {
      PlacedOneMore(w, s, step.center, NewPlayer(s.lastPlayerId, step.center, w.config.playerRadius));
    }
  }

  lemma {:induction false} RunOpening(w: World, s: Server, steps: seq<Step>)
    requires w.Valid() && Inv(w, s) && Opening(w, s) && CanRun(w, s, steps)
    ensures Opening(w, Run(w, s, steps))
    decreases |steps|
  {
    hide Opening, Apply, Enabled, Aligned, Funded, Connected, Traced, Admitted, Uniform, Decoded, Fated;
    if steps != [] {
      StepInv(w, s, steps[0]);
      OpeningStep(w, s, steps[0]);
      RunOpening(w, Apply(w, s, steps[0]), steps[1..]);
    }
  }

  /** While the game waits, no two players collide and none collides with the border. */
  lemma OpeningIsCalm(w: World, id: nat, steps: seq<Step>)
    requires w.Valid() && CanRun(w, Initial(w, id), steps)
    ensures var s := Run(w, Initial(w, id), steps);
            s.game == Waiting || s.game == Starting ==>
              (forall i :: 0 <= i < |s.field.players| ==> !Outside(w.sqrt, s.field.radius, s.field.players[i]))
              && (forall i, j :: 0 <= i < j < |s.field.players| ==>
                    !Hit(w.sqrt, s.field.players[j], s.field.players[i]))
  {
    hide CanRun, Run, Aligned, Funded, Connected, Traced, Admitted, Decoded, Fated;
    InitialInv(w, id);
    RunInv(w, Initial(w, id), steps);
    RunOpening(w, Initial(w, id), steps);
    var s := Run(w, Initial(w, id), steps);
    if s.game == Waiting || s.game == Starting {
      var ps, cs := s.field.players, Centers(s.field.players);
      forall i | 0 <= i < |ps| ensures !Outside(w.sqrt, s.field.radius, ps[i]) {
        assert InField(w.sqrt, w.config.fieldRadius, w.config.playerRadius, cs[i]);
        InFieldIsNotOutside(w.sqrt, w.config.fieldRadius, 0, cs[i], w.config.playerRadius);
      }
      forall i, j | 0 <= i < j < |ps| ensures !Hit(w.sqrt, ps[j], ps[i]) {
        assert Distance(w.sqrt, cs[j], cs[i]) > w.config.playerRadius + w.config.playerRadius;
      }
    }
  }

  lemma PlaceablePrefix(w: World, centers: seq<Vector>, n: nat)
    requires Placeable(w, centers) && n <= |centers|
    ensures Placeable(w, centers[..n])
  {}

  lemma StartedNeedsRoom(w: World, id: nat, steps: seq<Step>)
    requires w.Valid() && CanRun(w, Initial(w, id), steps) && Run(w, Initial(w, id), steps).game == Starting
    ensures Startable(w)
  {
    hide CanRun, Run, Uniform, Funded, Connected, Admitted, Placeable, Decoded, Fated;
    InitialInv(w, id);
    RunInv(w, Initial(w, id), steps);
    OpeningInitially(w, id);
    RunOpening(w, Initial(w, id), steps);
    var s := Run(w, Initial(w, id), steps);
    PlaceablePrefix(w, Centers(s.field.players), w.config.minPlayers);
    assert |Centers(s.field.players)[..w.config.minPlayers]| == w.config.minPlayers;
  }

  lemma OpeningInitially(w: World, id: nat)
    ensures Opening(w, Initial(w, id))
  {}

  // ---------------------------------------------------------------- with room the game can start

  /** A client connects to socket `k`, subscribes and is placed at its first draw. */
  function Join(k: nat, center: Vector): seq<Step> {
    [Accept, Receive(k, Framing.Frame(Requests.SUBSCRIPTION)), HandleText, Dispatch, LockPlayers, Draw(center),
     Confirm, EndChunk]
  }

  function Joins(k: nat, centers: seq<Vector>): seq<Step>
    decreases |centers|
  {
    if centers == [] then [] else Join(k, centers[0]) + Joins(k + 1, centers[1..])
  }

  /** The server waits, and no message is being handled. */
  predicate Calm(s: Server) { s.game == Waiting && !s.crashed && s.io == Idle }

  /** A client connects and subscribes: the lock is taken for it. */
  function Ask(k: nat): seq<Step> {
    [Accept, Receive(k, Framing.Frame(Requests.SUBSCRIPTION)), HandleText, Dispatch, LockPlayers]
  }

  /** The client is being placed, on an unbroken socket. */
  predicate Asking(s: Server) {
    s.io.Placing? && s.io.work.texts == [] && !s.crashed && !Broken(s, s.io.work.socket)
  }

  lemma AskRuns(w: World, s: Server)
    requires !s.crashed && s.io == Idle
    ensures CanRun(w, s, Ask(|s.sockets|))
    ensures var t := Run(w, s, Ask(|s.sockets|));
            Asking(t) && t.game == s.game && t.field == s.field && t.lastPlayerId == s.lastPlayerId
            && |t.sockets| == |s.sockets| + 1
  {
    var k := |s.sockets|;
    Requests.SubscriptionSubscribes();
    Framing.OneFrame(Requests.SUBSCRIPTION);
    assert Framing.Frame(Requests.SUBSCRIPTION) != "";
    hide Requests.RequestOf, Framing.Feed, Framing.Frame, CanRun, Run;
    var receive := Receive(k, Framing.Frame(Requests.SUBSCRIPTION));
    var s1 := Apply(w, s, Accept);
    var s2 := Apply(w, s1, receive);
    assert s2.io == Handling(Work(k, [Requests.SUBSCRIPTION]));
    var s3 := Apply(w, s2, HandleText);
    var s4 := Apply(w, s3, Dispatch);
    OneStep(w, s, Accept);
    OneStep(w, s1, receive);
    OneStep(w, s2, HandleText);
    OneStep(w, s3, Dispatch);
    OneStep(w, s4, LockPlayers);
    RunAppend(w, s, [Accept], [receive]);
    RunAppend(w, s, [Accept] + [receive], [HandleText]);
    RunAppend(w, s, [Accept] + [receive] + [HandleText], [Dispatch]);
    RunAppend(w, s, [Accept] + [receive] + [HandleText] + [Dispatch], [LockPlayers]);
    assert Ask(k) == [Accept] + [receive] + [HandleText] + [Dispatch] + [LockPlayers];
  }

  lemma SeatRuns(w: World, s: Server, center: Vector)
    requires Asking(s) && s.game == Waiting && |s.field.players| < w.config.maxPlayers
    requires InField(w.sqrt, w.config.fieldRadius, w.config.playerRadius, center)
    requires Free(w.sqrt, center, w.config.playerRadius, s.field.players)
    ensures CanRun(w, s, [Draw(center), Confirm, EndChunk])
    ensures var t := Run(w, s, [Draw(center), Confirm, EndChunk]);
            Calm(t) && t.sockets == s.sockets
            && t.field.players == s.field.players + [NewPlayer(s.lastPlayerId, center, w.config.playerRadius)]
  {
    hide InField, Free, Enrolled, CanRun, Run;
    var s1 := Apply(w, s, Draw(center));
    var s2 := Apply(w, s1, Confirm);
    OneStep(w, s, Draw(center));
    OneStep(w, s1, Confirm);
    OneStep(w, s2, EndChunk);
    RunAppend(w, s, [Draw(center)], [Confirm]);
    RunAppend(w, s, [Draw(center)] + [Confirm], [EndChunk]);
    assert [Draw(center), Confirm, EndChunk] == [Draw(center)] + [Confirm] + [EndChunk];
  }

  lemma JoinRuns(w: World, s: Server, center: Vector)
    requires Calm(s) && |s.field.players| < w.config.maxPlayers
    requires InField(w.sqrt, w.config.fieldRadius, w.config.playerRadius, center)
    requires Free(w.sqrt, center, w.config.playerRadius, s.field.players)
    ensures CanRun(w, s, Join(|s.sockets|, center))
    ensures var t := Run(w, s, Join(|s.sockets|, center));
            Calm(t) && |t.sockets| == |s.sockets| + 1
            && t.field.players == s.field.players + [NewPlayer(s.lastPlayerId, center, w.config.playerRadius)]
  {
    hide InField, Free, CanRun, Run, Asking;
    AskRuns(w, s);
    SeatRuns(w, Run(w, s, Ask(|s.sockets|)), center);
    RunAppend(w, s, Ask(|s.sockets|), [Draw(center), Confirm, EndChunk]);
    assert Join(|s.sockets|, center) == Ask(|s.sockets|) + [Draw(center), Confirm, EndChunk];
  }

  ghost predicate StandAt(w: World, ps: seq<Player>, centers: seq<Vector>) {
    |ps| == |centers|
    && forall k :: 0 <= k < |ps| ==> ps[k].center == centers[k] && ps[k].radius == w.config.playerRadius
  }

  lemma NextIsFree(w: World, ps: seq<Player>, centers: seq<Vector>, k: nat)
    requires Placeable(w, centers) && k < |centers| && StandAt(w, ps, centers[..k])
    ensures InField(w.sqrt, w.config.fieldRadius, w.config.playerRadius, centers[k])
    ensures Free(w.sqrt, centers[k], w.config.playerRadius, ps)
  {}

  lemma {:induction false} JoinsRun(w: World, s: Server, centers: seq<Vector>, k: nat)
    requires Calm(s) && Placeable(w, centers) && |centers| <= w.config.maxPlayers && k <= |centers|
    requires StandAt(w, s.field.players, centers[..k])
    ensures CanRun(w, s, Joins(|s.sockets|, centers[k..]))
    ensures var t := Run(w, s, Joins(|s.sockets|, centers[k..])); Calm(t) && |t.field.players| == |centers|
    decreases |centers| - k
  {
    hide Placeable, InField, Free, Enabled, Apply, Join;
    if k < |centers| {
      var c := centers[k];
      NextIsFree(w, s.field.players, centers, k);
      JoinRuns(w, s, c);
      var n := |s.sockets|;
      var t := Run(w, s, Join(n, c));
      assert centers[..k + 1] == centers[..k] + [c];
      assert StandAt(w, t.field.players, centers[..k + 1]);
      JoinsRun(w, t, centers, k + 1);
      assert centers[k..][1..] == centers[k + 1..];
      RunAppend(w, s, Join(n, c), Joins(n + 1, centers[k + 1..]));
    }
  }

  lemma RoomLetsStart(w: World, id: nat, centers: seq<Vector>) returns (steps: seq<Step>)
    requires w.config.minPlayers <= w.config.maxPlayers
    requires |centers| == w.config.minPlayers && Placeable(w, centers)
    ensures CanRun(w, Initial(w, id), steps) && Run(w, Initial(w, id), steps).game == Starting
  {
    hide Placeable, Joins, CanRun, Run;
    var s := Initial(w, id);
    assert centers[..0] == [] && centers[0..] == centers;
    JoinsRun(w, s, centers, 0);
    var t := Run(w, s, Joins(0, centers));
    OneStep(w, t, CheckPlayers);
    RunAppend(w, s, Joins(0, centers), [CheckPlayers]);
    steps := Joins(0, centers) + [CheckPlayers];
  }

  /** Some run starts the game exactly when the minimum of players does not exceed the maximum and that many
      players find room in the field. */
  lemma StartsExactlyWhen(w: World, id: nat)
    requires w.Valid()
    ensures (exists steps :: CanRun(w, Initial(w, id), steps) && Run(w, Initial(w, id), steps).game == Starting)
            <==> Startable(w)
  {
    hide CanRun, Run, Placeable;
    if steps :| CanRun(w, Initial(w, id), steps) && Run(w, Initial(w, id), steps).game == Starting {
      StartedNeedsRoom(w, id, steps);
    }
    if Startable(w) {
      var centers :| |centers| == w.config.minPlayers && Placeable(w, centers);
      var steps := RoomLetsStart(w, id, centers);
    }
  }

  // ---------------------------------------------------------------- a game that cannot start

  /** On the way out of waiting a run passes through the start. */
  lemma {:induction false} PassesStart(w: World, s: Server, steps: seq<Step>) returns (n: nat)
    requires s.game == Waiting && CanRun(w, s, steps) && Run(w, s, steps).game != Waiting
    ensures n <= |steps| && CanRun(w, s, steps[..n]) && Run(w, s, steps[..n]).game == Starting
    decreases |steps|
  {
    var t := Apply(w, s, steps[0]);
    LeavesWaiting(w, s, steps[0]);
    if t.game == Waiting {
      hide Apply, Enabled;
      var m := PassesStart(w, t, steps[1..]);
      n := m + 1;
      assert steps[..n][1..] == steps[1..][..m];
    } else {
      n := 1;
      assert steps[..1] == [steps[0]];
      OneStep(w, s, steps[0]);
    }
  }

  lemma LeavesWaiting(w: World, s: Server, step: Step)
    requires s.game == Waiting && Enabled(w, s, step)
    ensures Apply(w, s, step).game == Waiting || Apply(w, s, step).game == Starting
  {
    hide InField, Free, Enrolled, WithTurn, Framing.Feed, Requests.RequestOf;
  }

  /** Without room, or with a minimum above the maximum, every run waits forever and nothing is sent. */
  lemma NeverStarts(w: World, id: nat, steps: seq<Step>)
    requires w.Valid() && !Startable(w) && CanRun(w, Initial(w, id), steps)
    ensures Run(w, Initial(w, id), steps).game == Waiting && Run(w, Initial(w, id), steps).log == []
  {
    hide CanRun, Run, Startable, Aligned, Uniform, Funded, Connected, Admitted, Decoded, Fated;
    if Run(w, Initial(w, id), steps).game != Waiting {
      var n := PassesStart(w, Initial(w, id), steps);
      StartedNeedsRoom(w, id, steps[..n]);
    }
    InitialInv(w, id);
    RunInv(w, Initial(w, id), steps);
  }

  // ---------------------------------------------------------------- accepted, and yet stuck

  const MIN_ABOVE_MAX := Config(2, 1, 3, 1, 1.0, 0.5, 1.0, 10.0, 1.0)

  const CROWDED := Config(2, 2, 3, 1, 1.0, 0.5, 9.0, 10.0, 1.0)

  lemma TooFewAllowed(sqrt: real -> real, maxDouble: real)
    ensures MIN_ABOVE_MAX.Check() && !Startable(World(MIN_ABOVE_MAX, sqrt, maxDouble))
  {}

  lemma DifferenceSquare(a: Vector, b: Vector)
    ensures Square(Minus(a, b)) <= 2.0 * Square(a) + 2.0 * Square(b)
  {
    SquareNonNegative(Plus(a, b));
    Halves(a.x, b.x);
    Halves(a.y, b.y);
  }

  lemma Halves(x: real, y: real)
    ensures (x - y) * (x - y) + (x + y) * (x + y) == 2.0 * (x * x) + 2.0 * (y * y)
  {}

  lemma AtMostOne(x: real, xx: real)
    requires 0.0 <= x <= 1.0 && xx == x * x
    ensures xx <= 1.0
  {
    NonNegativeProduct(1.0 - x, 1.0 + x, (1.0 - x) * (1.0 + x));
  }

  lemma AtMostTwo(x: real, xx: real)
    requires 0.0 <= x && xx == x * x && xx <= 4.0
    ensures x <= 2.0
  {
    if x > 2.0 { PositiveProduct(x - 2.0, x + 2.0, (x - 2.0) * (x + 2.0)); }
  }

  /** Two positions at most one from the middle are at most two apart. */
  lemma NearTheMiddle(sqrt: real -> real, a: Vector, b: Vector)
    requires IsSqrt(sqrt) && Length(sqrt, a) <= 1.0 && Length(sqrt, b) <= 1.0
    ensures Distance(sqrt, a, b) <= 2.0
  {
    LengthSquare(sqrt, a);
    LengthSquare(sqrt, b);
    LengthSquare(sqrt, Minus(a, b));
    DifferenceSquare(a, b);
    hide IsSqrt, Square, Length;
    AtMostOne(Length(sqrt, a), Square(a));
    AtMostOne(Length(sqrt, b), Square(b));
    AtMostTwo(Length(sqrt, Minus(a, b)), Square(Minus(a, b)));
  }

  /** Two large players in a small field: the second finds no room. */
  lemma CrowdedAllowed(sqrt: real -> real, maxDouble: real)
    requires IsSqrt(sqrt)
    ensures CROWDED.Check() && CROWDED.minPlayers <= CROWDED.maxPlayers
    ensures !Startable(World(CROWDED, sqrt, maxDouble))
  {
    hide IsSqrt, Distance, Length;
    var w := World(CROWDED, sqrt, maxDouble);
    forall centers | |centers| == 2 ensures !Placeable(w, centers) {
      if Placeable(w, centers) {
        InTheMiddle(w, centers[0]);
        InTheMiddle(w, centers[1]);
        NearTheMiddle(sqrt, centers[1], centers[0]);
      }
    }
  }

  lemma InTheMiddle(w: World, c: Vector)
    requires w.config.fieldRadius == 10.0 && w.config.playerRadius == 9.0
    requires InField(w.sqrt, w.config.fieldRadius, w.config.playerRadius, c)
    ensures Length(w.sqrt, c) <= 1.0
  {}

  // ---------------------------------------------------------------- a game held up by a second client

  const LONELY := Config(1, 2, 3, 1, 1.0, 0.5, 9.0, 10.0, 1.0)

  lemma TooClose(w: World, center: Vector)
    requires IsSqrt(w.sqrt) && w.config == LONELY && InField(w.sqrt, w.config.fieldRadius, w.config.playerRadius, center)
    ensures Distance(w.sqrt, center, ZERO) <= 18.0
  {
    InTheMiddle(w, center);
    NoLength(w.sqrt);
    hide IsSqrt, Length, Distance, InField;
    NearTheMiddle(w.sqrt, center, ZERO);
  }

  lemma NoRoomBesides(w: World, ps: seq<Player>)
    requires IsSqrt(w.sqrt) && w.config == LONELY && ps == [NewPlayer(0, ZERO, 9.0)]
    ensures forall center :: InField(w.sqrt, w.config.fieldRadius, w.config.playerRadius, center) ==>
              !Free(w.sqrt, center, w.config.playerRadius, ps)
  {
    hide IsSqrt, InField, Distance;
    forall center | InField(w.sqrt, w.config.fieldRadius, w.config.playerRadius, center)
      ensures !Free(w.sqrt, center, w.config.playerRadius, ps)
    {
      TooClose(w, center);
      assert Overlaps(w.sqrt, center, w.config.playerRadius, ps[0]);
    }
  }

  /** The game thread enters its main loop. */
  lemma IntoTheLoop(w: World, s: Server)
    requires w.config == LONELY && Calm(s) && |s.field.players| == 1
    ensures CanRun(w, s, [CheckPlayers, ResetId, NextId])
    ensures var t := Run(w, s, [CheckPlayers, ResetId, NextId]);
            t == s.(game := Counted, field := s.field.(id := 1))
  {
    hide CanRun, Run;
    var s1 := Apply(w, s, CheckPlayers);
    var s2 := Apply(w, s1, ResetId);
    OneStep(w, s, CheckPlayers);
    OneStep(w, s1, ResetId);
    OneStep(w, s2, NextId);
    RunAppend(w, s, [CheckPlayers], [ResetId]);
    RunAppend(w, s, [CheckPlayers] + [ResetId], [NextId]);
    assert [CheckPlayers, ResetId, NextId] == [CheckPlayers] + [ResetId] + [NextId];
  }

  lemma FirstSeat(w: World, id: nat)
    requires IsSqrt(w.sqrt) && w.config == LONELY
    ensures CanRun(w, Initial(w, id), Join(0, ZERO))
    ensures var t := Run(w, Initial(w, id), Join(0, ZERO));
            Calm(t) && |t.sockets| == 1 && t.field.players == [NewPlayer(0, ZERO, 9.0)]
  {
    NoLength(w.sqrt);
    assert InField(w.sqrt, 10.0, 9.0, ZERO) by { hide IsSqrt, Length; }
    hide InField, CanRun, Run, Join, Length;
    JoinRuns(w, Initial(w, id), ZERO);
  }

  /** An accepted configuration and a run in which the game has begun, the process is alive and the game never
      ends: a second client may join, but there is no room for it. */
  lemma SecondClientHoldsUp(w: World, id: nat) returns (steps: seq<Step>)
    requires IsSqrt(w.sqrt) && w.config == LONELY
    ensures LONELY.Check() && CanRun(w, Initial(w, id), steps)
    ensures var s := Run(w, Initial(w, id), steps);
            s.game == Counted && !s.crashed && Jammed(w, s)
            && forall more :: CanRun(w, s, more) ==> Run(w, s, more).game != Done
  {
    hide CanRun, Run, Join, Ask, IsSqrt, InField, Free;
    var s := Initial(w, id);
    FirstSeat(w, id);
    var s1 := Run(w, s, Join(0, ZERO));
    IntoTheLoop(w, s1);
    var s2 := Run(w, s1, [CheckPlayers, ResetId, NextId]);
    AskRuns(w, s2);
    var t := Run(w, s2, Ask(1));
    RunAppend(w, s, Join(0, ZERO), [CheckPlayers, ResetId, NextId]);
    RunAppend(w, s, Join(0, ZERO) + [CheckPlayers, ResetId, NextId], Ask(1));
    steps := Join(0, ZERO) + [CheckPlayers, ResetId, NextId] + Ask(1);
    NoRoomBesides(w, t.field.players);
    assert Jammed(w, t);
    forall more | CanRun(w, t, more) ensures Run(w, t, more).game != Done { JammedForEver(w, t, more); }
  }
}
