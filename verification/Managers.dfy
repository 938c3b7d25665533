/** The three managers of the server as they are: what each locked block does to their fields. */
module Managers {
  import opened Wrappers
  import opened Geometry
  import opened Physics
  import opened Coins
  import opened Emulator
  import opened Players
  import opened Server

  /** src/server/message_manager.cpp. Connection `k` is represented by the events sent to it. */
  class MessageManager {
    var connections: seq<seq<Event>>

    constructor ()
      ensures connections == []
    {
      connections := [];
    }

    method AddConnection() returns (id: nat)
      modifies this
      ensures id == |old(connections)| && connections == old(connections) + [[]]
    {
      connections := connections + [[]];
      id := |connections| - 1;
    }

    method SendMessage(message: Event, connectionId: nat)
      requires connectionId < |connections|
      modifies this
      ensures connections == old(connections)[connectionId := old(connections)[connectionId] + [message]]
    {
      connections := connections[connectionId := connections[connectionId] + [message]];
    }
  }

  /** src/server/observers_manager.cpp. */
  class ObserversManager {
    const messageManager: MessageManager
    var clientIds: seq<nat>
    var viewerIds: seq<nat>

    constructor (messageManager: MessageManager)
      ensures this.messageManager == messageManager && clientIds == [] && viewerIds == []
    {
      this.messageManager := messageManager;
      clientIds, viewerIds := [], [];
    }

    /** Each of the connections gets the message once, the others nothing. */
    method SendMessageToConnections(message: Event, ids: seq<nat>)
      requires Below(ids, |messageManager.connections|) && Distinct(ids)
      modifies messageManager
      ensures |messageManager.connections| == |old(messageManager.connections)|
      ensures forall k :: 0 <= k < |messageManager.connections| ==>
                messageManager.connections[k] ==
                old(messageManager.connections)[k] + if k in ids then [message] else []
    {
      for i := 0 to |ids|
        invariant |messageManager.connections| == |old(messageManager.connections)|
        invariant forall k :: 0 <= k < |messageManager.connections| ==>
                    messageManager.connections[k] ==
                    old(messageManager.connections)[k] + if k in ids[..i] then [message] else []
      {
        assert ids[i] !in ids[..i];
        assert ids[..i + 1] == ids[..i] + [ids[i]];
        messageManager.SendMessage(message, ids[i]);
      }
      assert ids[..|ids|] == ids;
    }

    /** Clients first, then viewers: every observer gets the event exactly once. */
    method SendToAllObservers(event: Event)
      requires Below(clientIds + viewerIds, |messageManager.connections|) && Distinct(clientIds + viewerIds)
      modifies messageManager
      ensures |messageManager.connections| == |old(messageManager.connections)|
      ensures forall k :: 0 <= k < |messageManager.connections| ==>
                messageManager.connections[k] ==
                old(messageManager.connections)[k] + if k in clientIds + viewerIds then [event] else []
    {
      DistinctParts(clientIds, viewerIds, |messageManager.connections|);
      SendMessageToConnections(event, clientIds);
      SendMessageToConnections(event, viewerIds);
    }
  }

  lemma DistinctParts(a: seq<nat>, b: seq<nat>, bound: nat)
    requires Below(a + b, bound) && Distinct(a + b)
    ensures Below(a, bound) && Distinct(a) && Below(b, bound) && Distinct(b)
    ensures forall k :: k in a ==> k !in b
  {
    var all := a + b;
    assert forall k :: 0 <= k < |a| ==> all[k] == a[k];
    assert forall k :: 0 <= k < |b| ==> all[|a| + k] == b[k];
  }

  /** How far `AddPlayer` comes with the positions drawn: no more players are allowed, the player is in the game,
      or none of the positions was free and it draws on with the lock held. */
  datatype Addition = Refused | Added(id: nat) | Drawing

  /** src/server/game_state_manager.cpp. */
  class GameStateManager {
    const world: World
    const state: FieldState
    const playerGenerator: DefaultPlayerGenerator
    var turns: seq<Turn>

    constructor (world: World)
      ensures this.world == world && turns == [] && fresh(state) && fresh(playerGenerator)
      ensures state.Value() == Initial(world, 0).field && playerGenerator.lastPlayerId == 0
    {
      this.world := world;
      state := new FieldState(world.config.fieldRadius, world.config.timeDelta as real, world.config.maxVelocity);
      playerGenerator := new DefaultPlayerGenerator();
      turns := [];
    }

    /** The result says whether `at` throws. */
    method AddTurn(turn: Turn) returns (thrown: bool)
      modifies this
      ensures turns == WithTurn(old(turns), turn)
      ensures |turns| == |old(turns)| && forall k :: 0 <= k < |turns| && k != turn.playerId ==> turns[k] == old(turns)[k]
      ensures if turn.playerId < |turns| then !thrown && turns[turn.playerId] == turn else thrown
    {
      thrown := turn.playerId >= |turns|;
      if !thrown { turns := turns[turn.playerId := turn]; }
    }

    /** What the steps `Refuse` and `Draw` of `Server` do to the game. */
    method AddPlayer(draws: seq<Vector>) returns (r: Addition)
      requires |turns| == |state.players| == playerGenerator.lastPlayerId
      modifies this`turns, state`players, playerGenerator
      ensures r.Refused? <==> |old(state.players)| >= world.config.maxPlayers
      ensures r.Drawing? <==>
                |old(state.players)| < world.config.maxPlayers
                && forall k :: 0 <= k < |draws| ==>
                     !Free(world.sqrt, draws[k], world.config.playerRadius, old(state.players))
      ensures !r.Added? ==>
                turns == old(turns) && state.players == old(state.players)
                && playerGenerator.lastPlayerId == old(playerGenerator.lastPlayerId)
      ensures r.Added? ==>
                r.id == old(playerGenerator.lastPlayerId) && playerGenerator.lastPlayerId == r.id + 1
                && turns == Enrolled(old(turns), |old(state.players)| + 1, r.id)
                && exists k :: 0 <= k < |draws|
                     && Free(world.sqrt, draws[k], world.config.playerRadius, old(state.players))
                     && (forall j :: 0 <= j < k ==>
                           !Free(world.sqrt, draws[j], world.config.playerRadius, old(state.players)))
                     && state.players == old(state.players) + [NewPlayer(r.id, draws[k], world.config.playerRadius)]
    {
      if |state.players| >= world.config.maxPlayers { return Refused; }
      var drawn := playerGenerator.GetPlayer(world.sqrt, world.config.playerRadius, state.players, draws);
      if drawn.None? { return Drawing; }
      var newPlayer := drawn.value;
      state.players := state.players + [newPlayer];
      turns := turns + [NoTurn(0)];
      turns := turns[newPlayer.id := turns[newPlayer.id].(playerId := newPlayer.id)];
      turns := turns[newPlayer.id := turns[newPlayer.id].(acceleration := Vector(0.0, 0.0))];
      turns := turns[newPlayer.id := turns[newPlayer.id].(stateId := 0)];
      r := Added(newPlayer.id);
    }

    /** The loop works on copies: a turn made for an older state stays in force. */
    method FilterTurns()
      modifies this
      ensures turns == old(turns)
    {
      for k := 0 to |turns|
        invariant turns == old(turns)
      {
        var turn := turns[k];
        if turn.stateId != state.id { turn := turn.(acceleration := Vector(0.0, 0.0)); }
      }
    }

    method GenerateCoin(obligatory: bool, draw: real, center: Vector)
      modifies state`coins
      ensures state.Value() ==
              WithCoin(world, old(state.Value()),
                       if obligatory || draw < world.config.coinProbability then Some(center) else None)
      ensures state.coins == old(state.coins) + if obligatory || draw < world.config.coinProbability
                                                then [Coin(center, world.config.coinRadius, 1.0)] else []
    {
      if obligatory || draw < world.config.coinProbability {
        state.coins := state.coins + [Coin(center, world.config.coinRadius, 1.0)];
      }
    }

    /** What the step `SendState` of `Server` does to the field, with each observer told once. */
    method SendStateBlock(om: ObserversManager, draw: real, center: Vector)
      requires Below(om.clientIds + om.viewerIds, |om.messageManager.connections|) && Distinct(om.clientIds + om.viewerIds)
      modifies state`coins, om.messageManager
      ensures var coin := if draw < world.config.coinProbability then Some(center) else None;
              state.Value() == WithCoin(world, old(state.Value()), coin)
      ensures |om.messageManager.connections| == |old(om.messageManager.connections)|
      ensures forall k :: 0 <= k < |om.messageManager.connections| ==>
                om.messageManager.connections[k] ==
                old(om.messageManager.connections)[k]
                + if k in om.clientIds + om.viewerIds then [StateSent(state.Value(), om.clientIds + om.viewerIds)] else []
    {
      GenerateCoin(false, draw, center);
      var copy := Field(state.id, state.radius, state.timeDelta, state.velocityMax, state.players, state.coins);
      om.SendToAllObservers(StateSent(copy, om.clientIds + om.viewerIds));
    }

    /** What the step `Tick` of `Server` does, in any state in which it is taken. */
    method TickBlock()
      requires CanEmulate(world, turns, state.Value())
      modifies this, state`players, state`coins
      ensures turns == old(turns)
      ensures old(CanEmulate(world, turns, state.Value())) && state.Value() == Emulated(world, turns, old(state.Value()))
    {
      hide IsSqrt, During, TurnsCover, Playable;
      FilterTurns();
      Emulate(world.sqrt, world.maxDouble, turns, state, STEPS_NUMBER);
    }

    /** One pass of the main loop of `Run` with nothing happening between its locked blocks. */
    method RunOnce(om: ObserversManager, draw: real, center: Vector)
      requires world.Valid() && Uniform(world, state.Value())
      requires |turns| == |state.players| && TurnsCover(turns, state.players)
      requires Below(om.clientIds + om.viewerIds, |om.messageManager.connections|) && Distinct(om.clientIds + om.viewerIds)
      modifies this, state, om.messageManager
      ensures turns == old(turns)
      ensures var coin := if draw < world.config.coinProbability then Some(center) else None;
              var sent := WithCoin(world, old(state.Value()).(id := old(state.id) + 1), coin);
              CanEmulate(world, turns, sent) && state.Value() == Emulated(world, turns, sent)
              && |om.messageManager.connections| == |old(om.messageManager.connections)|
              && forall k :: 0 <= k < |om.messageManager.connections| ==>
                   om.messageManager.connections[k] ==
                   old(om.messageManager.connections)[k]
                   + if k in om.clientIds + om.viewerIds then [StateSent(sent, om.clientIds + om.viewerIds)] else []
    {
      hide IsSqrt, Emulated, TurnsCover, Playable;
      state.id := state.id + 1;
      SendStateBlock(om, draw, center);
      UniformPlayable(world, state.Value());
      TickBlock();
    }
  }
}
