/** What the lists of the server hold, told from the texts it has taken up: the turns, the clients and the viewers. */
module ServerHistory {
  import opened Wrappers
  import opened Geometry
  import opened Physics
  import opened Emulator
  import opened Players
  import opened Server
  import Framing
  import Requests

  /** The texts that have been dispatched. */
  function Settled(s: Server): seq<Handled> {
    if s.io.Dispatching? && s.handled != [] then s.handled[..|s.handled| - 1] else s.handled
  }

  function RequestAt(hs: seq<Handled>, k: nat): Requests.Request
    requires k < |hs|
  {
    Requests.RequestOf(hs[k].text)
  }

  predicate TurnFor(hs: seq<Handled>, k: nat, i: nat)
    requires k < |hs|
  {
    RequestAt(hs, k).TakeTurn? && RequestAt(hs, k).turn.playerId == i
  }

  /** The last of the texts that is a turn for player `i`. */
  predicate LastTurnAt(hs: seq<Handled>, k: nat, i: nat)
    requires k < |hs|
  {
    TurnFor(hs, k, i) && forall j :: k < j < |hs| ==> !TurnFor(hs, j, i)
  }

  predicate NoTurnFor(hs: seq<Handled>, i: nat) { forall k :: 0 <= k < |hs| ==> !TurnFor(hs, k, i) }

  /** The last turn sent for player `i`, and before the first one is sent a turn that does not accelerate. */
  ghost predicate IsLastTurn(t: Turn, hs: seq<Handled>, i: nat) {
    if NoTurnFor(hs, i) then t == Turn(i, 0, Vector(0.0, 0.0))
    else exists k: nat :: k < |hs| && LastTurnAt(hs, k, i) && t == RequestAt(hs, k).turn
  }

  ghost predicate LastTurns(turns: seq<Turn>, hs: seq<Handled>) {
    forall i :: 0 <= i < |turns| ==> IsLastTurn(turns[i], hs, i)
  }

  /** Nobody has sent a turn for a player to come. */
  ghost predicate NoTurnAhead(players: nat, hs: seq<Handled>) {
    forall k: nat, i: nat :: k < |hs| && TurnFor(hs, k, i) ==> i < players
  }

  /** Connection `c` belongs to text `c`; the clients and the viewers are those whose text subscribes them. */
  ghost predicate Asked(clients: seq<nat>, viewers: seq<nat>, hs: seq<Handled>) {
    && (forall c: nat :: c in clients <==> c < |hs| && RequestAt(hs, c).SubscribeClient?)
    && (forall c: nat :: c in viewers <==> c < |hs| && RequestAt(hs, c).SubscribeViewer?)
  }

  ghost predicate Told(s: Server) {
    && LastTurns(s.turns, Settled(s)) && NoTurnAhead(|s.turns|, Settled(s)) && Asked(s.clients, s.viewers, Settled(s))
    && (!s.crashed ==> s.connections == |s.handled|)
    && (s.io.Dispatching? ==> s.handled != [] && s.io.connection == |s.handled| - 1)
  }

  lemma ToldInitially(w: World, id: nat)
    ensures Told(Initial(w, id))
  {}

  // ---------------------------------------------------------------- one text more

  lemma TextsOneMore(hs: seq<Handled>, h: Handled)
    ensures forall k: nat :: k < |hs| ==> RequestAt(hs + [h], k) == RequestAt(hs, k)
    ensures RequestAt(hs + [h], |hs|) == Requests.RequestOf(h.text)
  {
    hide Requests.RequestOf;
  }

  /** A text that is no turn for a player leaves its last turn as it is. */
  lemma LastTurnStays(t: Turn, hs: seq<Handled>, h: Handled, i: nat)
    requires IsLastTurn(t, hs, i)
    requires !Requests.RequestOf(h.text).TakeTurn? || Requests.RequestOf(h.text).turn.playerId != i
    ensures IsLastTurn(t, hs + [h], i)
  {
    hide Requests.RequestOf, RequestAt;
    var more := hs + [h];
    TextsOneMore(hs, h);
    assert forall k: nat :: k < |hs| ==> (TurnFor(more, k, i) <==> TurnFor(hs, k, i));
    if !NoTurnFor(hs, i) {
      var l: nat :| l < |hs| && LastTurnAt(hs, l, i) && t == RequestAt(hs, l).turn;
      assert LastTurnAt(more, l, i);
      assert !NoTurnFor(more, i) by { assert TurnFor(more, l, i); }
    }
  }

  lemma LastTurnIsNew(t: Turn, hs: seq<Handled>, h: Handled)
    requires Requests.RequestOf(h.text) == Requests.TakeTurn(t)
    ensures IsLastTurn(t, hs + [h], t.playerId)
  {
    hide Requests.RequestOf, RequestAt;
    var more := hs + [h];
    TextsOneMore(hs, h);
    assert TurnFor(more, |hs|, t.playerId) && LastTurnAt(more, |hs|, t.playerId);
    assert !NoTurnFor(more, t.playerId);
  }

  lemma NoneAheadOneMore(n: nat, hs: seq<Handled>, h: Handled)
    requires NoTurnAhead(n, hs)
    requires Requests.RequestOf(h.text).TakeTurn? ==> Requests.RequestOf(h.text).turn.playerId < n
    ensures NoTurnAhead(n, hs + [h])
  {
    hide Requests.RequestOf, RequestAt;
    TextsOneMore(hs, h);
    forall k: nat, i: nat | k < |hs + [h]| && TurnFor(hs + [h], k, i) ensures i < n {
      if k < |hs| { assert TurnFor(hs, k, i); }
    }
  }

  lemma OtherText(turns: seq<Turn>, hs: seq<Handled>, h: Handled)
    requires LastTurns(turns, hs) && NoTurnAhead(|turns|, hs) && !Requests.RequestOf(h.text).TakeTurn?
    ensures LastTurns(turns, hs + [h]) && NoTurnAhead(|turns|, hs + [h])
  {
    hide Requests.RequestOf, IsLastTurn, NoTurnAhead;
    NoneAheadOneMore(|turns|, hs, h);
    forall i | 0 <= i < |turns| ensures IsLastTurn(turns[i], hs + [h], i) { LastTurnStays(turns[i], hs, h, i); }
  }

  lemma TurnText(turns: seq<Turn>, hs: seq<Handled>, h: Handled, turn: Turn)
    requires LastTurns(turns, hs) && NoTurnAhead(|turns|, hs)
    requires Requests.RequestOf(h.text) == Requests.TakeTurn(turn) && turn.playerId < |turns|
    ensures LastTurns(turns[turn.playerId := turn], hs + [h]) && NoTurnAhead(|turns|, hs + [h])
  {
    hide Requests.RequestOf, IsLastTurn, NoTurnAhead;
    var now := turns[turn.playerId := turn];
    NoneAheadOneMore(|turns|, hs, h);
    LastTurnIsNew(turn, hs, h);
    forall i | 0 <= i < |now| ensures IsLastTurn(now[i], hs + [h], i) {
      if i != turn.playerId { LastTurnStays(turns[i], hs, h, i); }
    }
  }

  lemma PlayerMore(turns: seq<Turn>, hs: seq<Handled>)
    requires LastTurns(turns, hs) && NoTurnAhead(|turns|, hs)
    ensures LastTurns(turns + [NoTurn(|turns|)], hs) && NoTurnAhead(|turns| + 1, hs)
  {
    hide RequestAt, TurnFor, LastTurnAt;
    assert NoTurnFor(hs, |turns|);
    assert IsLastTurn(NoTurn(|turns|), hs, |turns|);
    hide IsLastTurn;
  }

  lemma AskedOneMore(clients: seq<nat>, viewers: seq<nat>, hs: seq<Handled>, h: Handled)
    requires Asked(clients, viewers, hs)
    ensures var r, n := Requests.RequestOf(h.text), |hs|;
            Asked(if r.SubscribeClient? then clients + [n] else clients, if r.SubscribeViewer? then viewers + [n] else viewers,
                  hs + [h])
  {
    hide Requests.RequestOf, RequestAt;
    TextsOneMore(hs, h);
  }

  // ---------------------------------------------------------------- every step

  lemma HandleTextTold(w: World, s: Server)
    requires Told(s) && Enabled(w, s, HandleText)
    ensures Told(Apply(w, s, HandleText))
  {
    hide LastTurns, NoTurnAhead, Asked, Requests.RequestOf;
    var h, t := Handled(s.io.work.socket, s.io.work.texts[0], |s.turns|), Apply(w, s, HandleText);
    assert t.handled == s.handled + [h] && Settled(s) == s.handled;
    if Requests.RequestOf(h.text).Throws? {
      OtherText(s.turns, s.handled, h);
      AskedOneMore(s.clients, s.viewers, s.handled, h);
    } else {
      assert t.handled[..|t.handled| - 1] == s.handled;
    }
  }

  lemma DispatchTold(w: World, s: Server)
    requires Told(s) && Fated(s) && Enabled(w, s, Dispatch)
    ensures Told(Apply(w, s, Dispatch))
  {
    hide LastTurns, NoTurnAhead, Asked, Requests.RequestOf, FatalText;
    var t := Apply(w, s, Dispatch);
    if !t.crashed {
      var n := |s.handled| - 1;
      var hs, h := s.handled[..n], s.handled[n];
      assert s.handled == hs + [h] && Settled(s) == hs && Settled(t) == s.handled;
      AskedOneMore(s.clients, s.viewers, hs, h);
      if s.io.request.TakeTurn? { TurnText(s.turns, hs, h, s.io.request.turn); } else { OtherText(s.turns, hs, h); }
    }
  }

  lemma DrawTold(w: World, s: Server, center: Vector)
    requires Told(s) && Aligned(w, s) && Enabled(w, s, Draw(center))
    ensures Told(Apply(w, s, Draw(center)))
  {
    hide LastTurns, NoTurnAhead, Asked, Requests.RequestOf, Free, InField;
    var t := Apply(w, s, Draw(center));
    assert Settled(t) == Settled(s);
    if t != s {
      EnrolledOneMore(s.turns);
      PlayerMore(s.turns, Settled(s));
    }
  }

  lemma EnrolledOneMore(turns: seq<Turn>)
    ensures Enrolled(turns, |turns| + 1, |turns|) == turns + [NoTurn(|turns|)]
  {}

  lemma OtherStepTold(w: World, s: Server, step: Step)
    requires Told(s) && Enabled(w, s, step) && !step.HandleText? && !step.Dispatch? && !step.Draw?
    ensures Told(Apply(w, s, step))
  {
    hide LastTurns, NoTurnAhead, Asked, Requests.RequestOf, Emulated, CanEmulate, InField, WithCoin, Framing.Feed;
    assert Settled(Apply(w, s, step)) == Settled(s);
  }

  lemma {:induction false} RunTold(w: World, s: Server, steps: seq<Step>)
    requires w.Valid() && Inv(w, s) && Told(s) && CanRun(w, s, steps)
    ensures Told(Run(w, s, steps))
    decreases |steps|
  {
    hide Told, Apply, Enabled, Aligned, Uniform, Funded, Connected, Traced, Admitted, Decoded, Fated;
    if steps != [] {
      var step := steps[0];
      StepInv(w, s, step);
      match step {
        case HandleText => HandleTextTold(w, s);
        case Dispatch => DispatchTold(w, s);
        case Draw(center) => DrawTold(w, s, center);
        case _ => OtherStepTold(w, s, step);
      }
      RunTold(w, Apply(w, s, step), steps[1..]);
    }
  }

  /** In every interleaving: the turn kept for a player is the last one taken up for it, and one that does not
      accelerate if there is none; the search of the emulator finds just this turn. */
  lemma KeptTurnsAreLast(w: World, id: nat, steps: seq<Step>)
    requires w.Valid() && CanRun(w, Initial(w, id), steps)
    ensures var s := Run(w, Initial(w, id), steps);
            |s.turns| == |s.field.players| && LastTurns(s.turns, Settled(s))
            && forall i :: 0 <= i < |s.turns| ==>
                 HasTurn(s.turns, s.field.players[i].id) && TurnOf(s.turns, s.field.players[i].id) == s.turns[i]
  {
    hide CanRun, Run, LastTurns, NoTurnAhead, Asked, Traced, Funded, Uniform, Connected, Admitted, Decoded, Fated, TurnOf, HasTurn;
    InitialInv(w, id);
    ToldInitially(w, id);
    RunTold(w, Initial(w, id), steps);
    RunInv(w, Initial(w, id), steps);
    var s := Run(w, Initial(w, id), steps);
    forall i | 0 <= i < |s.turns|
      ensures HasTurn(s.turns, s.field.players[i].id) && TurnOf(s.turns, s.field.players[i].id) == s.turns[i]
    {
      TurnFound(w, s, i);
    }
  }

  /** In every interleaving a state, and the finish, goes to the connection of every text taken up so far that
      subscribes a client or a viewer, and to no other. */
  lemma BroadcastReachesAll(w: World, id: nat, steps: seq<Step>, step: Step)
    requires w.Valid() && CanRun(w, Initial(w, id), steps) && Enabled(w, Run(w, Initial(w, id), steps), step)
    requires (step.SendState? && step.alive) || (step.SendFinish? && step.alive)
    ensures var s := Run(w, Initial(w, id), steps);
            var t := Apply(w, s, step);
            |t.log| == |s.log| + 1 && s.log <= t.log
            && (step.SendState? ==> t.log[|s.log|] == StateSent(t.field, t.log[|s.log|].recipients))
            && forall c: nat :: c in Recipients(t.log[|s.log|]) <==>
                 c < |Settled(s)| && (RequestAt(Settled(s), c).SubscribeClient? || RequestAt(Settled(s), c).SubscribeViewer?)
  {
    hide CanRun, Run, LastTurns, NoTurnAhead, Inv, RequestAt, InField, Settled;
    InitialInv(w, id);
    ToldInitially(w, id);
    RunTold(w, Initial(w, id), steps);
  }
}
