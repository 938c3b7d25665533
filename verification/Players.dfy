/** Placing a new player (lib/player_generators/default_player_generator.cpp). The random draws are given
    positions; when none of them is free the source draws on. */
module Players {
  import opened Wrappers
  import opened Geometry
  import opened Physics

  predicate Overlaps(sqrt: real -> real, center: Vector, radius: real, p: Player) {
    Distance(sqrt, center, p.center) <= radius + p.radius
  }

  predicate Free(sqrt: real -> real, center: Vector, radius: real, ps: seq<Player>) {
    forall k :: 0 <= k < |ps| ==> !Overlaps(sqrt, center, radius, ps[k])
  }

  /** The range of the random draws. */
  predicate InField(sqrt: real -> real, fieldRadius: real, radius: real, center: Vector) {
    Length(sqrt, center) <= fieldRadius - radius
  }

  function NewPlayer(id: nat, center: Vector, radius: real): Player {
    Player(id, 0.0, center, radius, Vector(0.0, 0.0))
  }

  /** A new player inside the field does not collide with the border. */
  lemma InFieldIsNotOutside(sqrt: real -> real, fieldRadius: real, id: nat, center: Vector, radius: real)
    ensures InField(sqrt, fieldRadius, radius, center) <==> !Outside(sqrt, fieldRadius, NewPlayer(id, center, radius))
  {}

  /** A new player that is free collides with nobody. */
  lemma FreeMeansNoHit(sqrt: real -> real, id: nat, center: Vector, radius: real, ps: seq<Player>)
    requires Free(sqrt, center, radius, ps)
    ensures forall k :: 0 <= k < |ps| ==> !Hit(sqrt, NewPlayer(id, center, radius), ps[k])
  {}

  class DefaultPlayerGenerator {
    var lastPlayerId: nat

    constructor ()
      ensures lastPlayerId == 0
    {
      lastPlayerId := 0;
    }

    /** The player at the first position drawn that is free; without one the loop is not left by these draws. */
    method GetPlayer(sqrt: real -> real, playerRadius: real, players: seq<Player>, draws: seq<Vector>)
      returns (p: Option<Player>)
      modifies this
      ensures p.None? <==> forall k :: 0 <= k < |draws| ==> !Free(sqrt, draws[k], playerRadius, players)
      ensures p.None? ==> lastPlayerId == old(lastPlayerId)
      ensures p.Some? ==>
                lastPlayerId == old(lastPlayerId) + 1
                && exists k :: 0 <= k < |draws| && Free(sqrt, draws[k], playerRadius, players)
                     && p.value == Player(old(lastPlayerId), 0.0, draws[k], playerRadius, Vector(0.0, 0.0))
                     && forall j :: 0 <= j < k ==> !Free(sqrt, draws[j], playerRadius, players)
    {
      for k := 0 to |draws|
        invariant lastPlayerId == old(lastPlayerId)
        invariant forall j :: 0 <= j < k ==> !Free(sqrt, draws[j], playerRadius, players)
      {
        var newPlayerFound := IsFree(sqrt, playerRadius, players, draws[k]);
        if newPlayerFound {
          p := Some(NewPlayer(lastPlayerId, draws[k], playerRadius));
          lastPlayerId := lastPlayerId + 1;
          return;
        }
      }
      p := None;
    }

    /** The inner loop: no player overlaps a new one at this position. */
    static method IsFree(sqrt: real -> real, playerRadius: real, players: seq<Player>, center: Vector)
      returns (newPlayerFound: bool)
      ensures newPlayerFound <==> Free(sqrt, center, playerRadius, players)
    {
      newPlayerFound := true;
      for i := 0 to |players|
        invariant newPlayerFound && forall j :: 0 <= j < i ==> !Overlaps(sqrt, center, playerRadius, players[j])
      {
        if Distance(sqrt, center, players[i].center) <= playerRadius + players[i].radius {
          assert Overlaps(sqrt, center, playerRadius, players[i]);
          return false;
        }
      }
    }
  }
}
