/** The game server (src/server/game_state_manager.cpp, message_manager.cpp, observers_manager.cpp,
    json_message.hpp, protocol.hpp) as a system of atomic steps of two threads: the game thread in
    `GameStateManager::Run` and the thread that receives bytes and handles messages. What runs under a lock
    is one step, except that each draw for a new player is a step of its own, between which the lock stays
    held. */
module Server {
  import opened Wrappers
  import opened Geometry
  import opened Physics
  import opened Coins
  import opened Emulator
  import opened Players
  import opened JsonValue
  import opened JsonText
  import Messages
  import Framing
  import Requests

  /** src/server/game_server.hpp. */
  datatype Config = Config(minPlayers: nat, maxPlayers: nat, maxStates: nat, timeDelta: nat, maxVelocity: real,
                           coinProbability: real, playerRadius: real, fieldRadius: real, coinRadius: real)
  {
    predicate Check() {
      0 < minPlayers < 1000
      && minPlayers < maxStates && maxPlayers < 1000
      && 0 < maxStates < 1000000000
      && 0 < timeDelta < 60 * 1000
      && 0.0 < coinProbability < 1.0
      && 0.0 < fieldRadius < 1000.0
      && 0.0 < maxVelocity < fieldRadius * 0.5
      && 0.0 < playerRadius < fieldRadius
      && 0.0 < coinRadius < fieldRadius
    }
  }

  const STEPS_NUMBER := 100

  /** A configuration, the square root and the largest double. */
  datatype World = World(config: Config, sqrt: real -> real, maxDouble: real) {
    ghost predicate Valid() { config.Check() && IsSqrt(sqrt) && 2000.0 <= maxDouble }
  }

  /** Where `Run` is: before the wait loop lets it pass, before the id is set, at the head of the
      main loop, with the id increased, with the state sent, or at an end. */
  datatype Game = Waiting | Starting | Looping | Counted | Sent | Done | Stopped | Aborted

  type Decoder = d: Framing.Decoder | Framing.Consistent(d) witness Framing.ReadingLength("")

  /** The socket whose bytes are being processed, and the bodies in them that are still to be handled. */
  datatype Work = Work(socket: nat, texts: seq<string>)

  /** Where the thread that receives bytes is. While it is placing a player it holds the lock of the game
      state. */
  datatype Io =
    | Idle
    | Handling(work: Work)
    | Dispatching(work: Work, connection: nat, request: Requests.Request)
    | Listed(work: Work, connection: nat)
    | Placing(work: Work, connection: nat)
    | Confirming(work: Work, connection: nat, added: Option<nat>)

  /** A body taken up: where it came from, and how many players there were. */
  datatype Handled = Handled(socket: nat, text: string, players: nat)

  datatype Event = StateSent(field: Field, recipients: seq<nat>) | FinishSent(recipients: seq<nat>)

  /** `received` and `handled` are histories: the bytes of each socket, and the bodies taken up. */
  datatype Server = Server(
    field: Field, turns: seq<Turn>, lastPlayerId: nat, game: Game,
    sockets: seq<Decoder>, received: seq<string>, handled: seq<Handled>,
    connections: nat, clients: seq<nat>, viewers: seq<nat>, io: Io, crashed: bool,
    generated: real, log: seq<Event>, accepted: seq<nat>)

  datatype Step =
    // the game thread
    | CheckPlayers
    | ResetId
    | NextId
    | SendState(coin: Option<Vector>, alive: bool)
    | Tick
    | SendFinish(alive: bool)
    // the thread that receives bytes
    | Accept
    | Receive(socket: nat, chunk: string)
    | HandleText
    | Dispatch
    | LockPlayers
    | Refuse
    | Draw(center: Vector)
    | Confirm
    | EndChunk

  predicate OfGame(s: Step) {
    s.CheckPlayers? || s.ResetId? || s.NextId? || s.SendState? || s.Tick? || s.SendFinish?
  }

  function Initial(w: World, id: nat): Server {
    var c := w.config;
    Server(Field(id, c.fieldRadius, c.timeDelta as real, c.maxVelocity, [], []), [], 0, Waiting,
           [], [], [], 0, [], [], Idle, false, 0.0, [], [])
  }

  // ---------------------------------------------------------------- what the locked blocks do

  /** A request that ends the process: parsing it fails an assertion, or it is a null pointer that is
      dereferenced, or a turn of an unknown player, for which `at` throws what nobody catches. */
  predicate Fatal(r: Requests.Request, players: nat) {
    r.Throws? || r.NoMessage? || (r.TakeTurn? && r.turn.playerId >= players)
  }

  predicate FatalText(h: Handled) { Fatal(Requests.RequestOf(h.text), h.players) }

  /** `AddTurn`; nothing changes before `at` throws. */
  function WithTurn(turns: seq<Turn>, turn: Turn): seq<Turn> {
    if turn.playerId < |turns| then turns[turn.playerId := turn] else turns
  }

  function NoTurn(id: nat): Turn { Turn(id, 0, Vector(0.0, 0.0)) }

  function NewCoin(c: Config, center: Vector): Coin { Coin(center, c.coinRadius, 1.0) }

  function WithCoin(w: World, f: Field, coin: Option<Vector>): Field {
    if coin.Some? then f.(coins := f.coins + [NewCoin(w.config, coin.value)]) else f
  }

  /** What the emulator demands; the first part is its assertion, the second that every search for a
      turn succeeds. */
  ghost predicate CanEmulate(w: World, turns: seq<Turn>, f: Field) {
    |f.players| == |turns| && TurnsCover(turns, f.players) && IsSqrt(w.sqrt) && Playable(f, w.maxDouble)
  }

  ghost function Emulated(w: World, turns: seq<Turn>, f: Field): Field
    requires CanEmulate(w, turns, f)
  {
    During(w.sqrt, w.maxDouble, turns, f, STEPS_NUMBER, STEPS_NUMBER)
  }

  ghost predicate Enabled(w: World, s: Server, step: Step) {
    !s.crashed
    && match step
       case CheckPlayers => s.game == Waiting && !s.io.Placing?
       case ResetId => s.game == Starting
       case NextId => s.game == Looping && s.field.id < w.config.maxStates
       case SendState(coin, _) =>
         s.game == Counted && !s.io.Placing?
         && (coin.Some? ==> InField(w.sqrt, w.config.fieldRadius, w.config.coinRadius, coin.value))
       case Tick => s.game == Sent && !s.io.Placing?
       case SendFinish(alive) => s.game == Looping && s.field.id >= w.config.maxStates && (alive ==> !s.io.Placing?)
       case Accept => s.io == Idle
       case Receive(socket, chunk) => s.io == Idle && socket < |s.sockets| && chunk != ""
       case HandleText => s.io.Handling? && s.io.work.texts != []
       case Dispatch => s.io.Dispatching?
       case LockPlayers => s.io.Listed?
       case Refuse => s.io.Placing? && |s.field.players| >= w.config.maxPlayers
       case Draw(center) =>
         s.io.Placing? && |s.field.players| < w.config.maxPlayers
         && InField(w.sqrt, w.config.fieldRadius, w.config.playerRadius, center)
       case Confirm => s.io.Confirming?
       case EndChunk => s.io.Handling? && s.io.work.texts == []
  }

  ghost function Apply(w: World, s: Server, step: Step): Server
    requires Enabled(w, s, step)
  {
    match step
    case CheckPlayers => if |s.field.players| >= w.config.minPlayers then s.(game := Starting) else s
    case ResetId => s.(game := Looping, field := s.field.(id := 0))
    case NextId => s.(game := Counted, field := s.field.(id := s.field.id + 1))
    case SendState(coin, alive) =>
      var f := WithCoin(w, s.field, coin);
      var t := s.(field := f, generated := s.generated + if coin.Some? then 1.0 else 0.0);
      if alive then t.(game := Sent, log := s.log + [StateSent(f, s.clients + s.viewers)]) else t.(game := Stopped)
    case Tick =>
      if CanEmulate(w, s.turns, s.field) then s.(game := Looping, field := Emulated(w, s.turns, s.field))
      else s.(game := Aborted)
    case SendFinish(alive) =>
      if alive then s.(game := Done, log := s.log + [FinishSent(s.clients + s.viewers)]) else s.(game := Stopped)
    case Accept => s.(sockets := s.sockets + [Framing.ReadingLength("")], received := s.received + [""])
    case Receive(socket, chunk) => Received(s, socket, chunk)
    case HandleText => TakenUp(s, s.io.work)
    case Dispatch =>
      if Fatal(s.io.request, |s.turns|) then s.(crashed := true)
      else Dispatched(s, s.io.work, s.io.connection, s.io.request)
    case LockPlayers => s.(io := Placing(s.io.work, s.io.connection))
    case Refuse => s.(io := Confirming(s.io.work, s.io.connection, None))
    case Draw(center) =>
      if Free(w.sqrt, center, w.config.playerRadius, s.field.players) then
        WithPlayer(s, s.io.work, s.io.connection, NewPlayer(s.lastPlayerId, center, w.config.playerRadius))
      else s
    case Confirm =>
      s.(io := Handling(s.io.work), accepted := s.accepted + if s.io.added.Some? then [s.io.added.value] else [])
    case EndChunk => if Broken(s, s.io.work.socket) then s.(crashed := true) else s.(io := Idle)
  }

  /** The decoder of the socket has met a length at which the allocation throws. */
  predicate Broken(s: Server, socket: nat) { socket < |s.sockets| && s.sockets[socket] == Framing.Failed }

  function Received(s: Server, socket: nat, chunk: string): Server
    requires socket < |s.sockets|
  {
    var r := Framing.Feed(s.sockets[socket], chunk);
    s.(sockets := s.sockets[socket := r.0], io := Handling(Work(socket, r.1)),
       received := if socket < |s.received| then s.received[socket := s.received[socket] + chunk] else s.received)
  }

  /** `handleRequest`: the text is parsed, then the message gets a connection. */
  function TakenUp(s: Server, work: Work): Server
    requires work.texts != []
  {
    var request := Requests.RequestOf(work.texts[0]);
    var rest := Work(work.socket, work.texts[1..]);
    var t := s.(handled := s.handled + [Handled(work.socket, work.texts[0], |s.turns|)]);
    if request.Throws? then t.(crashed := true, io := Handling(rest))
    else t.(connections := s.connections + 1, io := Dispatching(rest, s.connections, request))
  }

  function Dispatched(s: Server, work: Work, connection: nat, request: Requests.Request): Server {
    match request
    case SubscribeClient => s.(clients := s.clients + [connection], io := Listed(work, connection))
    case SubscribeViewer => s.(viewers := s.viewers + [connection], io := Handling(work))
    case TakeTurn(turn) => s.(turns := WithTurn(s.turns, turn), io := Handling(work))
    case _ => s.(io := Handling(work))
  }

  /** `resize`, then `at` for the new player. */
  function Enrolled(turns: seq<Turn>, count: nat, id: nat): seq<Turn> {
    var resized := if count <= |turns| then turns[..count] else turns + seq(count - |turns|, _ => NoTurn(0));
    if id < count then resized[id := NoTurn(id)] else resized
  }

  function WithPlayer(s: Server, work: Work, connection: nat, p: Player): Server {
    var players := s.field.players + [p];
    s.(field := s.field.(players := players), turns := Enrolled(s.turns, |players|, p.id),
       lastPlayerId := s.lastPlayerId + 1, io := Confirming(work, connection, Some(p.id)))
  }

  ghost predicate CanRun(w: World, s: Server, steps: seq<Step>)
    decreases |steps|
  {
    steps == [] || (Enabled(w, s, steps[0]) && CanRun(w, Apply(w, s, steps[0]), steps[1..]))
  }

  ghost function Run(w: World, s: Server, steps: seq<Step>): Server
    requires CanRun(w, s, steps)
    decreases |steps|
  {
    if steps == [] then s else Run(w, Apply(w, s, steps[0]), steps[1..])
  }

  // ---------------------------------------------------------------- what every state keeps

  /** Player `i` has identifier `i`, and so has turn `i`. */
  ghost predicate Aligned(w: World, s: Server) {
    && |s.turns| == |s.field.players| == s.lastPlayerId <= w.config.maxPlayers
    && (forall i :: 0 <= i < |s.field.players| ==> s.field.players[i].id == i)
    && (forall i :: 0 <= i < |s.turns| ==> s.turns[i].playerId == i)
  }

  /** All players and all coins have the configured size. */
  ghost predicate Uniform(w: World, f: Field) {
    && f.radius == w.config.fieldRadius && f.velocityMax == w.config.maxVelocity
    && (forall i :: 0 <= i < |f.players| ==> f.players[i].radius == w.config.playerRadius)
    && (forall c :: c in f.coins ==> c.radius == w.config.coinRadius)
  }

  /** Scores and coins on the field are worth what the generated coins were worth. */
  ghost predicate Funded(s: Server) { Scores(s.field.players) + Worth(s.field.coins) == s.generated }

  ghost predicate Below(ids: seq<nat>, bound: nat) { forall k :: 0 <= k < |ids| ==> ids[k] < bound }

  function Recipients(e: Event): seq<nat> { e.recipients }

  ghost predicate Distinct(ids: seq<nat>) { forall j, k :: 0 <= j < k < |ids| ==> ids[j] != ids[k] }

  /** Every connection in use is an index of the list of connections, and no connection is observed
      through twice. */
  ghost predicate Connected(s: Server) {
    && Below(s.clients + s.viewers, s.connections) && Distinct(s.clients + s.viewers)
    && (!s.io.Idle? && !s.io.Handling? ==> s.io.connection < s.connections)
    && (s.io.Dispatching? ==> s.io.connection !in s.clients + s.viewers)
    && (forall k :: 0 <= k < |s.log| ==> Below(Recipients(s.log[k]), s.connections) && Distinct(Recipients(s.log[k])))
  }

  /** `n` states with the identifiers from 1 on, enough players and never fewer than before. */
  ghost predicate StatesSent(w: World, log: seq<Event>, n: nat, players: nat) {
    && |log| == n
    && (forall k :: 0 <= k < n ==>
          log[k].StateSent? && log[k].field.id == k + 1
          && w.config.minPlayers <= |log[k].field.players| <= players)
    && (forall j, k :: 0 <= j < k < n ==> |log[j].field.players| <= |log[k].field.players|)
  }

  /** How the log and the id go with the position of the game thread. */
  ghost predicate Traced(w: World, s: Server) {
    var id, players := s.field.id, |s.field.players|;
    match s.game
    case Waiting => s.log == []
    case Starting => s.log == [] && w.config.minPlayers <= players
    case Looping => id <= w.config.maxStates && StatesSent(w, s.log, id, players) && w.config.minPlayers <= players
    case Counted =>
      0 < id <= w.config.maxStates && StatesSent(w, s.log, id - 1, players) && w.config.minPlayers <= players
    case Sent => 0 < id <= w.config.maxStates && StatesSent(w, s.log, id, players) && w.config.minPlayers <= players
    case Done =>
      |s.log| == w.config.maxStates + 1 && s.log[w.config.maxStates].FinishSent?
      && StatesSent(w, s.log[..w.config.maxStates], w.config.maxStates, players)
    case Stopped => |s.log| <= w.config.maxStates && StatesSent(w, s.log, |s.log|, players)
    case Aborted => false
  }

  /** The identifiers handed out are 0, 1, 2, ... in that order, none twice. */
  ghost predicate Admitted(s: Server) {
    && (forall k :: 0 <= k < |s.accepted| ==> s.accepted[k] == k)
    && (if s.io.Confirming? && s.io.added.Some?
        then s.io.added.value == |s.accepted| && s.lastPlayerId == |s.accepted| + 1
        else s.lastPlayerId == |s.accepted|)
  }

  function TextsFrom(handled: seq<Handled>, socket: nat): seq<string> {
    if handled == [] then []
    else
      var last := handled[|handled| - 1];
      TextsFrom(handled[..|handled| - 1], socket) + if last.socket == socket then [last.text] else []
  }

  function Pending(io: Io, socket: nat): seq<string> {
    if io != Idle && io.work.socket == socket then io.work.texts else []
  }

  /** The bodies taken up and still pending from each socket are what its bytes decode to. */
  ghost predicate Decoded(s: Server) {
    && |s.sockets| == |s.received|
    && (s.io != Idle ==> s.io.work.socket < |s.sockets|)
    && (forall i :: 0 <= i < |s.handled| ==> s.handled[i].socket < |s.sockets|)
    && forall k: nat :: k < |s.received| ==>
         Framing.Feed(Framing.ReadingLength(""), s.received[k]) == (s.sockets[k], TextsFrom(s.handled, k) + Pending(s.io, k))
  }

  /** Only the last body taken up can be fatal, and once it has been dispatched the process has ended; a broken
      decoder ends it when its chunk does. */
  ghost predicate Fated(s: Server) {
    var n := |s.handled|;
    && (forall i :: 0 <= i < n - 1 ==> !FatalText(s.handled[i]))
    && (n > 0 && FatalText(s.handled[n - 1]) ==> s.crashed || s.io.Dispatching?)
    && (s.io.Dispatching? ==>
          n > 0 && s.io.request == Requests.RequestOf(s.handled[n - 1].text) && s.handled[n - 1].players == |s.turns|)
    && (forall k :: 0 <= k < |s.sockets| && s.sockets[k] == Framing.Failed ==>
          s.crashed || (s.io != Idle && s.io.work.socket == k))
    && (s.crashed ==>
          (n > 0 && FatalText(s.handled[n - 1])) || exists k :: 0 <= k < |s.sockets| && s.sockets[k] == Framing.Failed)
  }

  ghost predicate Inv(w: World, s: Server) {
    Aligned(w, s) && Uniform(w, s.field) && Funded(s) && Connected(s) && Traced(w, s) && Admitted(s)
    && Decoded(s) && Fated(s)
  }

  lemma InitialInv(w: World, id: nat)
    ensures Inv(w, Initial(w, id))
  {}

  // ---------------------------------------------------------------- the emulator is always ready

  lemma {:induction false} TurnsOnlyThere(turns: seq<Turn>, k: nat, id: nat)
    requires k < |turns| && turns[k].playerId == id
    requires forall i :: 0 <= i < k ==> turns[i].playerId != id
    ensures HasTurn(turns, id) && TurnOf(turns, id) == turns[k]
  {
    if k > 0 { TurnsOnlyThere(turns[1..], k - 1, id); }
  }

  /** The search for the turn of player `i` finds turn `i`. */
  lemma TurnFound(w: World, s: Server, i: nat)
    requires Aligned(w, s) && i < |s.field.players|
    ensures HasTurn(s.turns, s.field.players[i].id) && TurnOf(s.turns, s.field.players[i].id) == s.turns[i]
  {
    TurnsOnlyThere(s.turns, i, i);
  }

  lemma UniformPlayable(w: World, f: Field)
    requires w.Valid() && Uniform(w, f)
    ensures Playable(f, w.maxDouble)
  {
    forall j | 0 <= j < |f.coins| ensures f.coins[j].radius == w.config.coinRadius { assert f.coins[j] in f.coins; }
  }

  lemma EmulatorReady(w: World, s: Server)
    requires w.Valid() && Aligned(w, s) && Uniform(w, s.field)
    ensures CanEmulate(w, s.turns, s.field)
  {
    UniformPlayable(w, s.field);
    forall i | 0 <= i < |s.field.players| ensures HasTurn(s.turns, s.field.players[i].id) { TurnFound(w, s, i); }
    hide Aligned, Uniform, Playable, IsSqrt;
  }

  lemma EmulatedKeeps(w: World, turns: seq<Turn>, f: Field)
    requires CanEmulate(w, turns, f)
    ensures var g := Emulated(w, turns, f);
            SameRoster(f.players, g.players)
            && Scores(g.players) + Worth(g.coins) == Scores(f.players) + Worth(f.coins)
            && (forall c :: c in g.coins ==> c in f.coins)
            && g == f.(players := g.players, coins := g.coins)
  {
    hide During, Scores, Worth, Square, Energy, IsSqrt, Playable, TurnsCover, SameRoster;
    EmulateKeeps(w.sqrt, w.maxDouble, turns, f, STEPS_NUMBER, STEPS_NUMBER);
  }

  // ---------------------------------------------------------------- every step keeps the invariant

  lemma AlignedStep(w: World, s: Server, step: Step)
    requires Aligned(w, s) && Enabled(w, s, step)
    ensures Aligned(w, Apply(w, s, step))
  {
    hide Emulated, CanEmulate, InField, Free, Requests.RequestOf, Framing.Feed;
    if step.Tick? && CanEmulate(w, s.turns, s.field) { EmulatedKeeps(w, s.turns, s.field); }
  }

  lemma UniformStep(w: World, s: Server, step: Step)
    requires Uniform(w, s.field) && Enabled(w, s, step)
    ensures Uniform(w, Apply(w, s, step).field)
  {
    hide Emulated, CanEmulate, InField, Free, Enrolled, WithTurn, Requests.RequestOf, Framing.Feed;
    if step.Tick? && CanEmulate(w, s.turns, s.field) { EmulatedKeeps(w, s.turns, s.field); }
  }

  lemma WorthOneMore(cs: seq<Coin>, c: Coin)
    ensures Worth(cs + [c]) == Worth(cs) + c.value
  {
    assert (cs + [c])[..|cs|] == cs;
  }

  lemma ScoresOneMore(ps: seq<Player>, p: Player)
    ensures Scores(ps + [p]) == Scores(ps) + p.score
  {
    assert (ps + [p])[..|ps|] == ps;
  }

  lemma FundedStep(w: World, s: Server, step: Step)
    requires Funded(s) && Enabled(w, s, step)
    ensures Funded(Apply(w, s, step))
  {
    hide Emulated, CanEmulate, InField, Free, Enrolled, WithTurn, Scores, Worth, Requests.RequestOf, Framing.Feed;
    match step
    case Tick => if CanEmulate(w, s.turns, s.field) { EmulatedKeeps(w, s.turns, s.field); }
    case SendState(coin, _) => if coin.Some? { WorthOneMore(s.field.coins, NewCoin(w.config, coin.value)); }
    case Draw(center) =>
      ScoresOneMore(s.field.players, NewPlayer(s.lastPlayerId, center, w.config.playerRadius));
    case _ =>
  }

  lemma OneMoreObserver(clients: seq<nat>, viewers: seq<nat>, connection: nat, bound: nat)
    requires Below(clients + viewers, bound) && Distinct(clients + viewers)
    requires connection !in clients + viewers && connection < bound
    ensures Below(clients + [connection] + viewers, bound) && Distinct(clients + [connection] + viewers)
    ensures Below(clients + (viewers + [connection]), bound) && Distinct(clients + (viewers + [connection]))
  {
    var all, n := clients + viewers, |clients|;
    var more := clients + [connection] + viewers;
    assert forall k :: 0 <= k < n ==> more[k] == all[k];
    assert forall k :: n < k < |more| ==> more[k] == all[k - 1];
    assert clients + (viewers + [connection]) == all + [connection];
  }

  lemma ConnectedStep(w: World, s: Server, step: Step)
    requires Connected(s) && Enabled(w, s, step)
    ensures Connected(Apply(w, s, step))
  {
    hide Emulated, CanEmulate, InField, Free, Enrolled, WithTurn, WithCoin, Distinct, Requests.RequestOf, Framing.Feed;
    if step.Dispatch? { OneMoreObserver(s.clients, s.viewers, s.io.connection, s.connections); }
    if step.HandleText? { assert s.connections !in s.clients + s.viewers; }
  }

  lemma StatesSentMore(w: World, log: seq<Event>, n: nat, players: nat, more: nat)
    requires StatesSent(w, log, n, players) && players <= more
    ensures StatesSent(w, log, n, more)
  {}

  lemma OneMoreState(w: World, log: seq<Event>, n: nat, f: Field, recipients: seq<nat>)
    requires StatesSent(w, log, n, |f.players|) && f.id == n + 1 && w.config.minPlayers <= |f.players|
    ensures StatesSent(w, log + [StateSent(f, recipients)], n + 1, |f.players|)
  {}

  /** The thread that handles messages leaves the game thread's variables alone. */
  lemma OtherThread(w: World, s: Server, step: Step)
    requires Enabled(w, s, step) && !OfGame(step)
    ensures var t := Apply(w, s, step);
            t.game == s.game && t.log == s.log && t.field == s.field.(players := t.field.players) && t.generated == s.generated
            && s.field.players <= t.field.players
  {
    hide InField, Free, Enrolled, WithTurn, Requests.RequestOf, Framing.Feed;
  }

  lemma TracedMorePlayers(w: World, s: Server, t: Server)
    requires Traced(w, s) && t.game == s.game && t.log == s.log && t.field.id == s.field.id
    requires |s.field.players| <= |t.field.players|
    ensures Traced(w, t)
  {
    hide StatesSent;
    var before, after := |s.field.players|, |t.field.players|;
    match s.game
    case Waiting =>
    case Starting =>
    case Looping => StatesSentMore(w, s.log, s.field.id, before, after);
    case Counted => StatesSentMore(w, s.log, s.field.id - 1, before, after);
    case Sent => StatesSentMore(w, s.log, s.field.id, before, after);
    case Done => StatesSentMore(w, s.log[..w.config.maxStates], w.config.maxStates, before, after);
    case Stopped => StatesSentMore(w, s.log, |s.log|, before, after);
  }

  lemma LoopHeadTraced(w: World, s: Server, step: Step)
    requires Traced(w, s) && Enabled(w, s, step) && (s.game == Waiting || s.game == Starting || s.game == Looping) && OfGame(step)
    ensures Traced(w, Apply(w, s, step))
  {
    hide InField, Free, StatesSent;
    var players := |s.field.players|;
    if s.game == Starting { NoneSent(w, players); }
    if s.game == Looping {
      assert (s.log + [FinishSent(s.clients + s.viewers)])[..|s.log|] == s.log;
      SentIsLength(w, s.log, s.field.id, players);
    }
  }

  lemma SendingTraced(w: World, s: Server, step: Step)
    requires Traced(w, s) && Enabled(w, s, step) && s.game == Counted && OfGame(step)
    ensures Traced(w, Apply(w, s, step))
  {
    hide InField, StatesSent;
    SentIsLength(w, s.log, s.field.id - 1, |s.field.players|);
    OneMoreState(w, s.log, s.field.id - 1, Apply(w, s, step).field, s.clients + s.viewers);
  }

  lemma TickTraced(w: World, s: Server)
    requires Traced(w, s) && Enabled(w, s, Tick) && CanEmulate(w, s.turns, s.field)
    ensures Traced(w, Apply(w, s, Tick))
  {
    EmulatedKeeps(w, s.turns, s.field);
    hide Emulated, CanEmulate, StatesSent;
  }

  lemma TracedGameStep(w: World, s: Server, step: Step)
    requires Traced(w, s) && Enabled(w, s, step) && OfGame(step) && (step.Tick? ==> CanEmulate(w, s.turns, s.field))
    ensures Traced(w, Apply(w, s, step))
  {
    hide Apply, Traced, CanEmulate;
    if step.Tick? {
      TickTraced(w, s);
    } else if step.SendState? {
      SendingTraced(w, s, step);
    } else {
      LoopHeadTraced(w, s, step);
    }
  }

  lemma TracedStep(w: World, s: Server, step: Step)
    requires Traced(w, s) && Enabled(w, s, step) && (step.Tick? ==> CanEmulate(w, s.turns, s.field))
    ensures Traced(w, Apply(w, s, step))
  {
    hide Apply, Traced, CanEmulate, Enabled;
    if OfGame(step) {
      TracedGameStep(w, s, step);
    } else {
      OtherThread(w, s, step);
      TracedMorePlayers(w, s, Apply(w, s, step));
    }
  }

  lemma NoneSent(w: World, players: nat)
    ensures StatesSent(w, [], 0, players)
  {}

  lemma SentIsLength(w: World, log: seq<Event>, n: nat, players: nat)
    requires StatesSent(w, log, n, players)
    ensures |log| == n && StatesSent(w, log, |log|, players)
  {}

  lemma AdmittedStep(w: World, s: Server, step: Step)
    requires Admitted(s) && Enabled(w, s, step)
    ensures Admitted(Apply(w, s, step))
  {
    hide Emulated, CanEmulate, InField, Free, Enrolled, WithTurn, WithCoin, Requests.RequestOf, Framing.Feed;
  }

  lemma TakenFrom(handled: seq<Handled>, h: Handled, socket: nat)
    ensures TextsFrom(handled + [h], socket) == TextsFrom(handled, socket) + if h.socket == socket then [h.text] else []
  {
    assert (handled + [h])[..|handled|] == handled;
  }

  lemma ReceiveDecoded(w: World, s: Server, socket: nat, chunk: string)
    requires Decoded(s) && Enabled(w, s, Receive(socket, chunk))
    ensures Decoded(Received(s, socket, chunk))
  {
    hide TextsFrom, Framing.Feed;
    var start, t := Framing.ReadingLength(""), Received(s, socket, chunk);
    Framing.FeedSplit(start, s.received[socket], chunk);
    forall k: nat | k < |t.received|
      ensures Framing.Feed(start, t.received[k]) == (t.sockets[k], TextsFrom(t.handled, k) + Pending(t.io, k))
    {
      assert TextsFrom(s.handled, k) + [] == TextsFrom(s.handled, k);
    }
  }

  lemma TakenUpDecoded(s: Server)
    requires Decoded(s) && s.io.Handling? && s.io.work.texts != []
    ensures Decoded(TakenUp(s, s.io.work))
  {
    hide TextsFrom, Framing.Feed, Requests.RequestOf;
    var work, t := s.io.work, TakenUp(s, s.io.work);
    var h := Handled(work.socket, work.texts[0], |s.turns|);
    forall k: nat | k < |t.received| ensures TextsFrom(t.handled, k) + Pending(t.io, k) == TextsFrom(s.handled, k) + Pending(s.io, k) {
      TakenFrom(s.handled, h, k);
      if k == work.socket {
        assert TextsFrom(s.handled, k) + [h.text] + work.texts[1..] == TextsFrom(s.handled, k) + work.texts;
      } else {
        assert TextsFrom(s.handled, k) + [] + [] == TextsFrom(s.handled, k) + [];
      }
    }
  }

  lemma AcceptDecoded(w: World, s: Server)
    requires Decoded(s) && Enabled(w, s, Accept)
    ensures Decoded(Apply(w, s, Accept))
  {
    var start, t, n := Framing.ReadingLength(""), Apply(w, s, Accept), |s.sockets|;
    NoTextsFrom(s.handled, n);
    assert Framing.Feed(start, "") == (start, []);
    hide TextsFrom, Framing.Feed, Enabled;
    forall k: nat | k < |t.received|
      ensures Framing.Feed(start, t.received[k]) == (t.sockets[k], TextsFrom(t.handled, k) + Pending(t.io, k))
    {
      assert Pending(t.io, k) == Pending(s.io, k) == [];
      if k == n {
        assert t.received[k] == "" && t.sockets[k] == start && TextsFrom(t.handled, k) + [] == [];
      } else {
        assert t.received[k] == s.received[k] && t.sockets[k] == s.sockets[k];
      }
    }
  }

  lemma DecodedStep(w: World, s: Server, step: Step)
    requires Decoded(s) && Enabled(w, s, step)
    ensures Decoded(Apply(w, s, step))
  {
    hide Emulated, CanEmulate, InField, Free, Enrolled, WithTurn, WithCoin, Requests.RequestOf, TextsFrom, Framing.Feed;
    match step
    case Receive(socket, chunk) => ReceiveDecoded(w, s, socket, chunk);
    case HandleText => TakenUpDecoded(s);
    case Accept => AcceptDecoded(w, s);
    case _ =>
  }

  lemma {:induction false} NoTextsFrom(handled: seq<Handled>, socket: nat)
    requires forall i :: 0 <= i < |handled| ==> handled[i].socket < socket
    ensures TextsFrom(handled, socket) == []
  {
    if handled != [] { NoTextsFrom(handled[..|handled| - 1], socket); }
  }

  // ---------------------------------------------------------------- what ends the process

  lemma TakenUpFated(s: Server)
    requires Fated(s) && s.io.Handling? && s.io.work.texts != [] && !s.crashed
    ensures Fated(TakenUp(s, s.io.work))
  {
    hide Requests.RequestOf;
    var t, n := TakenUp(s, s.io.work), |s.handled|;
    forall i | 0 <= i < n ensures !FatalText(t.handled[i]) { assert t.handled[i] == s.handled[i]; }
  }

  lemma FatedWhenIdle(s: Server)
    requires Fated(s) && s.io == Idle && !s.crashed
    ensures forall i :: 0 <= i < |s.handled| ==> !FatalText(s.handled[i])
    ensures forall k :: 0 <= k < |s.sockets| ==> s.sockets[k] != Framing.Failed
  {
    hide FatalText;
  }

  lemma ReceivedFated(w: World, s: Server, socket: nat, chunk: string)
    requires Fated(s) && Enabled(w, s, Receive(socket, chunk))
    ensures Fated(Received(s, socket, chunk))
  {
    hide FatalText, Framing.Feed;
    var t := Received(s, socket, chunk);
    assert t.io.Handling? && t.io.work.socket == socket && t.handled == s.handled && !t.crashed;
    assert |t.sockets| == |s.sockets| && forall k :: 0 <= k < |s.sockets| && k != socket ==> t.sockets[k] == s.sockets[k];
    assert s.io == Idle && !s.crashed;
    hide Received, Enabled;
    assert Fated(t) by {
      FatedWhenIdle(s);
      hide Fated;
      HandlingFated(t, socket);
    }
  }

  lemma HandlingFated(s: Server, socket: nat)
    requires s.io.Handling? && s.io.work.socket == socket && !s.crashed
    requires forall i :: 0 <= i < |s.handled| ==> !FatalText(s.handled[i])
    requires forall k :: 0 <= k < |s.sockets| && k != socket ==> s.sockets[k] != Framing.Failed
    ensures Fated(s)
  {
    hide FatalText;
  }

  lemma FatedGameStep(w: World, s: Server, step: Step)
    requires Fated(s) && Enabled(w, s, step) && OfGame(step)
    ensures Fated(Apply(w, s, step))
  {
    hide Emulated, CanEmulate, InField, WithCoin, FatalText, Requests.RequestOf;
  }

  lemma FatedStep(w: World, s: Server, step: Step)
    requires Aligned(w, s) && Fated(s) && Enabled(w, s, step)
    ensures Fated(Apply(w, s, step))
  {
    hide Emulated, CanEmulate, InField, Free, WithCoin, Requests.RequestOf, Framing.Feed;
    if OfGame(step) {
      FatedGameStep(w, s, step);
    } else {
      match step
      case Receive(socket, chunk) => ReceivedFated(w, s, socket, chunk);
      case HandleText => TakenUpFated(s);
      case _ =>
    }
  }

  lemma StepInv(w: World, s: Server, step: Step)
    requires w.Valid() && Inv(w, s) && Enabled(w, s, step)
    ensures Inv(w, Apply(w, s, step))
  {
    EmulatorReady(w, s);
    AlignedStep(w, s, step);
    UniformStep(w, s, step);
    FundedStep(w, s, step);
    ConnectedStep(w, s, step);
    TracedStep(w, s, step);
    AdmittedStep(w, s, step);
    DecodedStep(w, s, step);
    FatedStep(w, s, step);
    hide *;
    assert Inv(w, Apply(w, s, step));
  }

  lemma {:induction false} RunInv(w: World, s: Server, steps: seq<Step>)
    requires w.Valid() && Inv(w, s) && CanRun(w, s, steps)
    ensures Inv(w, Run(w, s, steps))
    decreases |steps|
  {
    hide Inv, Apply, Enabled;
    if steps != [] {
      StepInv(w, s, steps[0]);
      RunInv(w, Apply(w, s, steps[0]), steps[1..]);
    }
  }

  // ---------------------------------------------------------------- results over every interleaving

  /** In every interleaving of connections, subscriptions, turns and ticks player `i` has identifier
      `i` and turn `i`, the limit on players holds, so the assertion of `Emulate` holds and its search
      finds turn `i`. */
  lemma EmulateNeverFails(w: World, id: nat, steps: seq<Step>)
    requires w.Valid() && CanRun(w, Initial(w, id), steps)
    ensures var s := Run(w, Initial(w, id), steps);
            CanEmulate(w, s.turns, s.field) && s.game != Aborted
            && |s.field.players| <= w.config.maxPlayers
            && forall i :: 0 <= i < |s.field.players| ==>
                 s.field.players[i].id == i && TurnOf(s.turns, s.field.players[i].id) == s.turns[i]
  {
    hide CanRun, Run, Traced, Funded, Connected, Admitted;
    InitialInv(w, id);
    RunInv(w, Initial(w, id), steps);
    var s := Run(w, Initial(w, id), steps);
    assert s.game != Aborted by { assert Traced(w, s); NotAborted(w, s); }
    EmulatorReady(w, s);
    forall i | 0 <= i < |s.field.players|
      ensures s.field.players[i].id == i && HasTurn(s.turns, s.field.players[i].id)
              && TurnOf(s.turns, s.field.players[i].id) == s.turns[i]
    {
      TurnFound(w, s, i);
    }
  }

  lemma NotAborted(w: World, s: Server)
    requires Traced(w, s)
    ensures s.game != Aborted
  {}

  /** At every moment scores and coins on the field are worth as much as all coins generated. */
  lemma ScoresAreCoins(w: World, id: nat, steps: seq<Step>)
    requires w.Valid() && CanRun(w, Initial(w, id), steps)
    ensures var s := Run(w, Initial(w, id), steps);
            Scores(s.field.players) + Worth(s.field.coins) == s.generated
  {
    hide CanRun, Run, Traced, Connected, Admitted, Aligned, Uniform, Scores, Worth;
    InitialInv(w, id);
    RunInv(w, Initial(w, id), steps);
  }

  /** What is broadcast: states 1, 2, 3, ... in order, then, if the game thread gets there, one finish
      after exactly the configured number of states; no state has too few or too many players, nor
      fewer than one before it; every recipient is a known connection and gets it once. */
  lemma BroadcastShape(w: World, id: nat, steps: seq<Step>)
    requires w.Valid() && CanRun(w, Initial(w, id), steps)
    ensures var s := Run(w, Initial(w, id), steps);
            var n := if s.game == Done then w.config.maxStates else |s.log|;
            n <= w.config.maxStates
            && (s.game == Done ==> |s.log| == n + 1 && s.log[n].FinishSent?)
            && n <= |s.log| && StatesSent(w, s.log[..n], n, w.config.maxPlayers)
            && forall k :: 0 <= k < |s.log| ==>
                 Below(Recipients(s.log[k]), s.connections) && Distinct(Recipients(s.log[k]))
  {
    hide CanRun, Run, Funded, Admitted, Uniform, StatesSent, Distinct, Below;
    InitialInv(w, id);
    RunInv(w, Initial(w, id), steps);
    var s := Run(w, Initial(w, id), steps);
    var n := if s.game == Done then w.config.maxStates else |s.log|;
    LogIsStates(w, s);
    StatesSentMore(w, s.log[..n], n, |s.field.players|, w.config.maxPlayers);
  }

  lemma LogIsStates(w: World, s: Server)
    requires Traced(w, s)
    ensures var n := if s.game == Done then w.config.maxStates else |s.log|;
            n <= |s.log| && n <= w.config.maxStates && StatesSent(w, s.log[..n], n, |s.field.players|)
  {
    hide StatesSent;
    var players := |s.field.players|;
    assert s.log[..|s.log|] == s.log;
    match s.game
    case Waiting => NoneSent(w, players);
    case Starting => NoneSent(w, players);
    case Looping => SentIsLength(w, s.log, s.field.id, players);
    case Counted => SentIsLength(w, s.log, s.field.id - 1, players);
    case Sent => SentIsLength(w, s.log, s.field.id, players);
    case Done =>
    case Stopped =>
  }

  /** Each accepted client is told a different identifier, that of the player that stands for it. */
  lemma AcceptedIdsDiffer(w: World, id: nat, steps: seq<Step>)
    requires w.Valid() && CanRun(w, Initial(w, id), steps)
    ensures var s := Run(w, Initial(w, id), steps);
            |s.accepted| <= |s.field.players|
            && forall k :: 0 <= k < |s.accepted| ==> s.accepted[k] == k == s.field.players[k].id
  {
    hide CanRun, Run, Traced, Connected, Funded, Uniform;
    InitialInv(w, id);
    RunInv(w, Initial(w, id), steps);
  }

  // ---------------------------------------------------------------- the end of the process

  lemma CrashedIsOver(w: World, s: Server, steps: seq<Step>)
    requires s.crashed && CanRun(w, s, steps)
    ensures steps == []
  {}

  /** The bytes of some socket hold a length at which the allocation throws. */
  ghost predicate OversizedLength(s: Server) {
    exists k :: 0 <= k < |s.received| && Framing.Feed(Framing.ReadingLength(""), s.received[k]).0 == Framing.Failed
  }

  ghost predicate FatalBody(s: Server) { exists i :: 0 <= i < |s.handled| && FatalText(s.handled[i]) }

  /** Whenever the thread that receives bytes has worked off a chunk, or the process has ended: it has ended
      exactly when the bytes of some socket hold an oversized length or a body in them was fatal. Until then
      the bodies taken up from each socket are those that its bytes decode to. */
  lemma CrashedExactlyWhen(w: World, id: nat, steps: seq<Step>)
    requires w.Valid() && CanRun(w, Initial(w, id), steps)
    ensures var s := Run(w, Initial(w, id), steps);
            s.crashed || s.io == Idle ==>
              (s.crashed <==> OversizedLength(s) || FatalBody(s))
              && (s.io == Idle ==> forall k :: 0 <= k < |s.received| ==>
                    TextsFrom(s.handled, k) == Framing.Feed(Framing.ReadingLength(""), s.received[k]).1)
  {
    hide CanRun, Run, Traced, Connected, Funded, Uniform, Aligned, Admitted, FatalText, Framing.Feed, TextsFrom;
    InitialInv(w, id);
    RunInv(w, Initial(w, id), steps);
    var s := Run(w, Initial(w, id), steps);
    assert forall k: nat :: TextsFrom(s.handled, k) + [] == TextsFrom(s.handled, k);
  }

  /** Any client can end the process: on a socket with no frame begun, the frame of a fatal text leaves no
      thread a step. */
  lemma FatalTextCrashes(w: World, s: Server, k: nat, text: string) returns (steps: seq<Step>)
    requires !s.crashed && s.io == Idle && k < |s.sockets| && s.sockets[k] == Framing.ReadingLength("")
    requires 0 < |text| <= Framing.INT_MAX && Fatal(Requests.RequestOf(text), |s.turns|)
    ensures [Receive(k, Framing.Frame(text)), HandleText] <= steps && CanRun(w, s, steps)
    ensures Run(w, s, steps).crashed && forall step :: !Enabled(w, Run(w, s, steps), step)
  {
    var receive := Receive(k, Framing.Frame(text));
    FrameArrives(w, s, k, text);
    var t := Apply(w, s, receive);
    FatalTakenUp(w, t, text);
    var u := Apply(w, t, HandleText);
    hide Enabled, Apply, Fatal, CanRun, Run, Framing.Frame, Requests.RequestOf;
    OneStep(w, s, receive);
    OneStep(w, t, HandleText);
    RunAppend(w, s, [receive], [HandleText]);
    assert [receive] + [HandleText] == [receive, HandleText];
    steps := [receive, HandleText];
    if !u.crashed {
      FatalIsDispatched(w, u);
      OneStep(w, u, Dispatch);
      RunAppend(w, s, [receive, HandleText], [Dispatch]);
      steps := steps + [Dispatch];
    }
    CrashedStands(w, Run(w, s, steps));
  }

  lemma FrameArrives(w: World, s: Server, k: nat, text: string)
    requires !s.crashed && s.io == Idle && k < |s.sockets| && s.sockets[k] == Framing.ReadingLength("")
    requires 0 < |text| <= Framing.INT_MAX
    ensures Enabled(w, s, Receive(k, Framing.Frame(text)))
    ensures var t := Apply(w, s, Receive(k, Framing.Frame(text)));
            t.io == Handling(Work(k, [text])) && !t.crashed && t.turns == s.turns
  {
    Framing.OneFrame(text);
    assert Framing.Frame(text) != "";
    hide Framing.Feed, Framing.Frame;
  }

  lemma FatalTakenUp(w: World, s: Server, text: string)
    requires !s.crashed && s.io.Handling? && s.io.work.texts == [text] && Fatal(Requests.RequestOf(text), |s.turns|)
    ensures Enabled(w, s, HandleText)
    ensures var t := Apply(w, s, HandleText); t.crashed || (t.io.Dispatching? && Fatal(t.io.request, |t.turns|))
  {
    hide Requests.RequestOf;
  }

  lemma FatalIsDispatched(w: World, s: Server)
    requires !s.crashed && s.io.Dispatching? && Fatal(s.io.request, |s.turns|)
    ensures Enabled(w, s, Dispatch) && Apply(w, s, Dispatch).crashed
  {
    hide Fatal;
  }

  lemma CrashedStands(w: World, s: Server)
    requires s.crashed
    ensures forall step :: !Enabled(w, s, step)
  {}

  /** Any turn for a player that does not exist, as any client can send it. */
  lemma StrangerCrashes(w: World, s: Server, k: nat, json: Value, t: Messages.Turn) returns (steps: seq<Step>)
    requires !s.crashed && s.io == Idle && k < |s.sockets| && s.sockets[k] == Framing.ReadingLength("")
    requires Messages.ValidMessage(Messages.TurnMessage(t)) && Messages.RepresentsMessage(json, Messages.TurnMessage(t))
    requires t.playerId >= |s.turns| && |FastDocument(json)| <= Framing.INT_MAX
    ensures [Receive(k, Framing.Frame(FastDocument(json)))] <= steps && CanRun(w, s, steps)
    ensures Run(w, s, steps).crashed && forall step :: !Enabled(w, Run(w, s, steps), step)
  {
    Requests.PrintedTurn(json, t);
    assert FastDocument(json) != "";
    hide FastDocument, Requests.RequestOf, Messages.RepresentsMessage, Messages.ValidMessage, CanRun, Run, Enabled;
    steps := FatalTextCrashes(w, s, k, FastDocument(json));
  }

  /** The first thing a connected client sends. */
  lemma FirstTextCrashes(w: World, id: nat) returns (steps: seq<Step>)
    ensures [Accept, Receive(0, Framing.Frame("[]\n"))] <= steps && CanRun(w, Initial(w, id), steps)
    ensures Run(w, Initial(w, id), steps).crashed && forall step :: !Enabled(w, Run(w, Initial(w, id), steps), step)
  {
    hide Requests.RequestOf, CanRun, Run, Framing.Frame;
    var s := Initial(w, id);
    var t := s.(sockets := [Framing.ReadingLength("")], received := [""]);
    assert Enabled(w, s, Accept) && Apply(w, s, Accept) == t;
    hide Enabled;
    OneStep(w, s, Accept);
    Requests.EmptyArrayThrows();
    var more := FatalTextCrashes(w, t, 0, "[]\n");
    RunAppend(w, s, [Accept], more);
    steps := [Accept] + more;
  }

  /** So does a length of 2^31 or more, whatever follows it. */
  lemma OversizedLengthCrashes(w: World, s: Server, k: nat, header: string, rest: string) returns (steps: seq<Step>)
    requires !s.crashed && s.io == Idle && k < |s.sockets| && s.sockets[k] == Framing.ReadingLength("")
    requires |header| == Framing.LENGTH_SIZE && Framing.LittleEndian(header) > Framing.INT_MAX
    ensures steps == [Receive(k, header + rest), EndChunk] && CanRun(w, s, steps)
    ensures Run(w, s, steps).crashed && forall step :: !Enabled(w, Run(w, s, steps), step)
  {
    Framing.OversizedFails(header, rest);
    hide Framing.Feed, Framing.LittleEndian;
    var receive := Receive(k, header + rest);
    OneStep(w, s, receive);
    OneStep(w, Apply(w, s, receive), EndChunk);
    RunAppend(w, s, [receive], [EndChunk]);
    steps := [receive] + [EndChunk];
  }

  // ---------------------------------------------------------------- runs put together

  lemma {:induction false} RunAppend(w: World, s: Server, a: seq<Step>, b: seq<Step>)
    requires CanRun(w, s, a) && CanRun(w, Run(w, s, a), b)
    ensures CanRun(w, s, a + b) && Run(w, s, a + b) == Run(w, Run(w, s, a), b)
    decreases |a|
  {
    hide Enabled, Apply;
    if a == [] {
      assert a + b == b;
    } else {
      assert (a + b)[1..] == a[1..] + b;
      RunAppend(w, Apply(w, s, a[0]), a[1..], b);
    }
  }

  lemma OneStep(w: World, s: Server, step: Step)
    requires Enabled(w, s, step)
    ensures CanRun(w, s, [step]) && Run(w, s, [step]) == Apply(w, s, step)
  {
    hide Enabled, Apply;
    assert [step][1..] == [];
  }

  // ---------------------------------------------------------------- the end of the game

  /** How many steps of its own, looking for players not counted, the game thread is from its end. */
  function StepsLeft(w: World, s: Server): nat {
    var states := if s.field.id <= w.config.maxStates then w.config.maxStates - s.field.id else 0;
    match s.game
    case Waiting => 3 * w.config.maxStates + 2
    case Starting => 3 * w.config.maxStates + 2
    case Looping => 3 * states + 1
    case Counted => 3 * states + 3
    case Sent => 3 * states + 2
    case Done => 0
    case Stopped => 0
    case Aborted => 0
  }

  predicate Counts(step: Step) { OfGame(step) && step != CheckPlayers }

  function GameSteps(steps: seq<Step>): nat {
    if steps == [] then 0 else (if Counts(steps[0]) then 1 else 0) + GameSteps(steps[1..])
  }

  lemma GameStepCounts(w: World, s: Server, step: Step)
    requires w.Valid() && Inv(w, s) && Enabled(w, s, step)
    ensures StepsLeft(w, Apply(w, s, step)) + (if Counts(step) then 1 else 0) <= StepsLeft(w, s)
  {
    hide Aligned, Uniform, Funded, Connected, Admitted, Decoded, Fated, StatesSent, CanEmulate, Emulated, InField, Free;
    if OfGame(step) {
      EmulatorReady(w, s);
      if step.Tick? { EmulatedKeeps(w, s.turns, s.field); }
    } else {
      OtherThread(w, s, step);
    }
  }

  lemma {:induction false} GameStepsBounded(w: World, s: Server, steps: seq<Step>)
    requires w.Valid() && Inv(w, s) && CanRun(w, s, steps)
    ensures GameSteps(steps) <= StepsLeft(w, s)
    decreases |steps|
  {
    hide Inv, Apply, StepsLeft, Enabled, Counts;
    if steps != [] {
      StepInv(w, s, steps[0]);
      GameStepCounts(w, s, steps[0]);
      GameStepsBounded(w, Apply(w, s, steps[0]), steps[1..]);
    }
  }

  /** A client that may join is being placed, and finds no room: the draw goes on for ever, and with it the
      lock is held. */
  ghost predicate Jammed(w: World, s: Server) {
    var c := w.config;
    s.io.Placing? && |s.field.players| < c.maxPlayers
    && forall center :: InField(w.sqrt, c.fieldRadius, c.playerRadius, center) ==>
         !Free(w.sqrt, center, c.playerRadius, s.field.players)
  }

  lemma JammedStep(w: World, s: Server, step: Step)
    requires Jammed(w, s) && Enabled(w, s, step)
    ensures Jammed(w, Apply(w, s, step)) && (Apply(w, s, step).game == Done ==> s.game == Done)
  {
    hide InField, Free;
    assert Apply(w, s, step).field.players == s.field.players;
  }

  lemma {:induction false} JammedForEver(w: World, s: Server, steps: seq<Step>)
    requires Jammed(w, s) && CanRun(w, s, steps)
    ensures Jammed(w, Run(w, s, steps)) && (Run(w, s, steps).game == Done ==> s.game == Done)
    decreases |steps|
  {
    hide Jammed, Apply, Enabled;
    if steps != [] {
      JammedStep(w, s, steps[0]);
      JammedForEver(w, Apply(w, s, steps[0]), steps[1..]);
    }
  }

  predicate InGame(s: Server) { s.game == Starting || s.game == Looping || s.game == Counted || s.game == Sent }

  /** The thread that receives bytes gives the lock back. */
  lemma FreeLock(w: World, s: Server) returns (steps: seq<Step>)
    requires !s.crashed && !Jammed(w, s)
    ensures CanRun(w, s, steps)
    ensures var t := Run(w, s, steps); !t.crashed && !t.io.Placing? && t.game == s.game
  {
    hide InField, Free, Enrolled;
    var c := w.config;
    steps := [];
    if s.io.Placing? && |s.field.players| >= c.maxPlayers {
      OneStep(w, s, Refuse);
      steps := [Refuse];
    } else if s.io.Placing? {
      var center :| InField(w.sqrt, c.fieldRadius, c.playerRadius, center) && Free(w.sqrt, center, c.playerRadius, s.field.players);
      OneStep(w, s, Draw(center));
      steps := [Draw(center)];
    }
  }

  /** The next step of the game thread. */
  function NextStep(w: World, s: Server): Step {
    match s.game
    case Starting => ResetId
    case Counted => SendState(None, true)
    case Sent => Tick
    case Looping => if s.field.id < w.config.maxStates then NextId else SendFinish(true)
    case _ => CheckPlayers
  }

  lemma NextStepRuns(w: World, s: Server)
    requires w.Valid() && Inv(w, s) && InGame(s) && !s.crashed && !s.io.Placing?
    ensures Enabled(w, s, NextStep(w, s)) && Counts(NextStep(w, s))
    ensures var t := Apply(w, s, NextStep(w, s)); !t.crashed && t.io == s.io && (InGame(t) || t.game == Done)
  {
    hide Uniform, Funded, Connected, Admitted, Decoded, Fated, StatesSent, CanEmulate, Emulated, InField, Free;
    EmulatorReady(w, s);
  }

  lemma {:induction false} Finish(w: World, s: Server) returns (steps: seq<Step>)
    requires w.Valid() && Inv(w, s) && InGame(s) && !s.crashed && !s.io.Placing?
    ensures CanRun(w, s, steps) && Run(w, s, steps).game == Done
    decreases StepsLeft(w, s)
  {
    hide Inv, Apply, StepsLeft, Enabled, Counts, NextStep;
    var step := NextStep(w, s);
    NextStepRuns(w, s);
    GameStepCounts(w, s, step);
    StepInv(w, s, step);
    OneStep(w, s, step);
    var t := Apply(w, s, step);
    steps := [step];
    if t.game != Done {
      var more := Finish(w, t);
      hide CanRun, Run;
      RunAppend(w, s, [step], more);
      steps := [step] + more;
    }
  }

  ghost predicate CanFinish(w: World, s: Server) {
    exists more :: CanRun(w, s, more) && Run(w, s, more).game == Done
  }

  lemma FinishesExactlyWhen(w: World, s: Server)
    requires w.Valid() && Inv(w, s) && InGame(s)
    ensures CanFinish(w, s) <==> !s.crashed && !Jammed(w, s)
  {
    hide Inv, Jammed, CanRun, Run;
    if more :| CanRun(w, s, more) && Run(w, s, more).game == Done {
      if Jammed(w, s) { JammedForEver(w, s, more); }
      if s.crashed { CrashedIsOver(w, s, more); assert Run(w, s, []) == s by { NoSteps(w, s); } }
    }
    if !s.crashed && !Jammed(w, s) {
      var first := FreeLock(w, s);
      RunInv(w, s, first);
      var second := Finish(w, Run(w, s, first));
      RunAppend(w, s, first, second);
    }
  }

  lemma NoSteps(w: World, s: Server)
    ensures CanRun(w, s, []) && Run(w, s, []) == s
  {}

  /** In every interleaving the game thread, once the game starts, takes at most three steps for each state and
      two more; and a started game can still be finished exactly when nothing has ended the process and the lock
      is not held for a client that finds no room: between two chunks, exactly when no oversized length and no
      fatal body has been received. */
  lemma GameEnds(w: World, id: nat, steps: seq<Step>)
    requires w.Valid() && CanRun(w, Initial(w, id), steps)
    ensures GameSteps(steps) <= 3 * w.config.maxStates + 2
    ensures var s := Run(w, Initial(w, id), steps);
            InGame(s) ==>
              (CanFinish(w, s) <==> !s.crashed && !Jammed(w, s))
              && (s.crashed || s.io == Idle ==> (CanFinish(w, s) <==> !OversizedLength(s) && !FatalBody(s)))
  {
    hide Inv, CanRun, Run, CanFinish, OversizedLength, FatalBody;
    InitialInv(w, id);
    CrashedExactlyWhen(w, id, steps);
    GameStepsBounded(w, Initial(w, id), steps);
    RunInv(w, Initial(w, id), steps);
    if InGame(Run(w, Initial(w, id), steps)) { FinishesExactlyWhen(w, Run(w, Initial(w, id), steps)); }
  }

  /** The game thread, before its end, never waits for more than the lock. */
  lemma OnlyTheLock(w: World, s: Server)
    requires !s.crashed && !s.io.Placing? && !(s.game.Done? || s.game.Stopped? || s.game.Aborted?)
    ensures Enabled(w, s, NextStep(w, s)) && OfGame(NextStep(w, s))
  {}
}
