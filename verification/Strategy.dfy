/** The search of the predictive strategy (src/strategies/predictive_strategy.cpp). The simulated motion
    of one player is a parameter. */
module Strategy {
  import opened Wrappers
  import opened Geometry
  import opened Physics
  import opened Coins
  import opened Players
  import opened ClosestCoin

  type Motion = (Player, Vector) -> Player

  /** The first coin that a player can reach: after how many steps, in which direction, which coin. */
  datatype Move = Move(quant: nat, angle: nat, coin: nat)

  /** The player after `q` steps in one direction. */
  function After(next: Motion, p: Player, direction: Vector, q: nat): Player {
    if q == 0 then p else next(After(next, p, direction, q - 1), direction)
  }

  predicate Reaches(sqrt: real -> real, player: Player, radius: real, coin: Coin) {
    Distance(sqrt, player.center, coin.center) <= radius + coin.radius
  }

  /** Player `p` meets a coin at this point of the search. */
  predicate Meets(sqrt: real -> real, next: Motion, p: Player, coins: seq<Coin>, directions: seq<Vector>, m: Move)
    requires m.angle < |directions| && m.coin < |coins|
  {
    Reaches(sqrt, After(next, p, directions[m.angle], m.quant), p.radius, coins[m.coin])
  }

  predicate Within(m: Move, quants: nat, coins: seq<Coin>, directions: seq<Vector>) {
    1 <= m.quant <= quants && m.angle < |directions| && m.coin < |coins|
  }

  /** Fewer steps first, then the smaller direction, then the smaller coin. */
  predicate Earlier(m: Move, n: Move) {
    m.quant < n.quant || (m.quant == n.quant && (m.angle < n.angle || (m.angle == n.angle && m.coin < n.coin)))
  }

  /** Nothing is met before `n`. */
  ghost predicate NoneBefore(sqrt: real -> real, next: Motion, p: Player, coins: seq<Coin>, directions: seq<Vector>, n: Move) {
    forall m: Move :: 1 <= m.quant && m.angle < |directions| && m.coin < |coins| && Earlier(m, n) ==>
      !Meets(sqrt, next, p, coins, directions, m)
  }

  /** The least point of the search, in lexicographic order, at which the player meets a coin. */
  ghost predicate IsBest(sqrt: real -> real, next: Motion, p: Player, coins: seq<Coin>, directions: seq<Vector>,
                         quants: nat, r: Option<Move>) {
    match r
    case None => forall m: Move :: Within(m, quants, coins, directions) ==> !Meets(sqrt, next, p, coins, directions, m)
    case Some(m) =>
      Within(m, quants, coins, directions) && Meets(sqrt, next, p, coins, directions, m)
      && NoneBefore(sqrt, next, p, coins, directions, m)
  }

  lemma EarlierIsTotal(m: Move, n: Move)
    ensures m == n || Earlier(m, n) || Earlier(n, m)
  {}

  /** The result of the search is unique. */
  lemma BestIsUnique(sqrt: real -> real, next: Motion, p: Player, coins: seq<Coin>, directions: seq<Vector>,
                     quants: nat, r: Option<Move>, s: Option<Move>)
    requires IsBest(sqrt, next, p, coins, directions, quants, r) && IsBest(sqrt, next, p, coins, directions, quants, s)
    ensures r == s
  {
    hide Meets;
    match (r, s)
    case (Some(m), Some(n)) => EarlierIsTotal(m, n);
    case _ =>
  }

  lemma OnlyBest(sqrt: real -> real, next: Motion, p: Player, coins: seq<Coin>, directions: seq<Vector>,
                 quants: nat, r: Option<Move>)
    requires IsBest(sqrt, next, p, coins, directions, quants, r)
    ensures forall s :: IsBest(sqrt, next, p, coins, directions, quants, s) ==> s == r
  {
    forall s | IsBest(sqrt, next, p, coins, directions, quants, s) ensures s == r {
      BestIsUnique(sqrt, next, p, coins, directions, quants, r, s);
    }
  }

  method GetBestMove(sqrt: real -> real, next: Motion, p: Player, coins: seq<Coin>, directions: seq<Vector>, quants: nat)
    returns (r: Option<Move>)
    ensures IsBest(sqrt, next, p, coins, directions, quants, r)
    ensures forall s :: IsBest(sqrt, next, p, coins, directions, quants, s) ==> s == r
  {
    var n := |directions|;
    var now := seq(n, _ => p);
    for quant := 1 to quants + 1
      invariant |now| == n && forall a :: 0 <= a < n ==> now[a] == After(next, p, directions[a], quant - 1)
      invariant NoneBefore(sqrt, next, p, coins, directions, Move(quant, 0, 0))
    {
      var later := now;
      for angle := 0 to n
        invariant |later| == n && forall a :: 0 <= a < angle ==> later[a] == After(next, p, directions[a], quant)
        invariant NoneBefore(sqrt, next, p, coins, directions, Move(quant, angle, 0))
      {
        later := later[angle := next(now[angle], directions[angle])];
        for coin := 0 to |coins|
          invariant NoneBefore(sqrt, next, p, coins, directions, Move(quant, angle, coin))
        {
          var here := Move(quant, angle, coin);
          if Distance(sqrt, later[angle].center, coins[coin].center) <= p.radius + coins[coin].radius {
            assert Meets(sqrt, next, p, coins, directions, here);
            OnlyBest(sqrt, next, p, coins, directions, quants, Some(here));
            return Some(here);
          }
          assert !Meets(sqrt, next, p, coins, directions, here);
        }
      }
      now := later;
    }
    OnlyBest(sqrt, next, p, coins, directions, quants, None);
    r := None;
  }

  /** What the strategy decides: go for the coin, or move to the closest one. */
  datatype Decision = Go(direction: Vector) | Fallback(way: Option<Vector>)

  /** `best_time`. */
  function Time(timeDelta: real, m: Move): real { timeDelta * m.quant as real }

  /** Somebody whose own first coin is the same one gets there in less time. */
  ghost predicate Beaten(timeDelta: real, moves: seq<Option<Move>>, me: nat)
    requires me < |moves| && moves[me].Some?
  {
    exists k :: 0 <= k < |moves| && moves[k].Some? && moves[k].value.coin == moves[me].value.coin
                && Time(timeDelta, moves[k].value) < Time(timeDelta, moves[me].value)
  }

  /** Less time means fewer steps as long as time runs forward. */
  lemma TimeOrder(timeDelta: real, m: Move, n: Move)
    ensures timeDelta > 0.0 ==> (Time(timeDelta, m) < Time(timeDelta, n) <==> m.quant < n.quant)
  {
    if timeDelta > 0.0 && m.quant < n.quant { Positive(timeDelta, n.quant as real - m.quant as real); }
    if timeDelta > 0.0 && n.quant < m.quant { Positive(timeDelta, m.quant as real - n.quant as real); }
  }

  /** A player goes for the first coin in its reach unless another player gets to it sooner; else it moves to the
      closest coin. */
  method GetTurn(sqrt: real -> real, next: Motion, timeDelta: real, players: seq<Player>, coins: seq<Coin>,
                 directions: seq<Vector>, quants: nat, me: nat)
    returns (d: Decision, moves: seq<Option<Move>>)
    requires me < |players| && IsSqrt(sqrt)
    ensures |moves| == |players|
    ensures forall k :: 0 <= k < |players| ==> IsBest(sqrt, next, players[k], coins, directions, quants, moves[k])
    ensures match moves[me]
            case None => d.Fallback?
            case Some(m) => m.angle < |directions|
                            && if Beaten(timeDelta, moves, me) then d.Fallback? else d == Go(directions[m.angle])
    ensures d.Fallback? ==> IsFallback(sqrt, timeDelta, players[me], coins, d.way)
  {
    hide IsBest, Time, IsFallback, IsSqrt;
    var best: seq<Option<Move>> := [];
    for k := 0 to |players|
      invariant |best| == k
      invariant forall j :: 0 <= j < k ==> IsBest(sqrt, next, players[j], coins, directions, quants, best[j])
    {
      var move := GetBestMove(sqrt, next, players[k], coins, directions, quants);
      best := best + [move];
    }
    moves := best;
    if best[me].None? {
      var way := MoveToClosestCoin(sqrt, timeDelta, players[me], coins);
      return Fallback(way), moves;
    }
    BestIsWithin(sqrt, next, players[me], coins, directions, quants, best[me].value);
    var bestTime := Time(timeDelta, best[me].value);
    for k := 0 to |players|
      invariant forall j :: 0 <= j < k && best[j].Some? && best[j].value.coin == best[me].value.coin ==>
                  bestTime <= Time(timeDelta, best[j].value)
    {
      if best[k].Some? && best[k].value.coin == best[me].value.coin && Time(timeDelta, best[k].value) < bestTime {
        var way := MoveToClosestCoin(sqrt, timeDelta, players[me], coins);
        return Fallback(way), moves;
      }
    }
    d := Go(directions[best[me].value.angle]);
  }

  lemma BestIsWithin(sqrt: real -> real, next: Motion, p: Player, coins: seq<Coin>, directions: seq<Vector>, quants: nat, m: Move)
    requires IsBest(sqrt, next, p, coins, directions, quants, Some(m))
    ensures Within(m, quants, coins, directions)
  {}

  /** With time running forward a player stands back exactly for one that needs fewer steps. */
  lemma BeatenInSteps(timeDelta: real, moves: seq<Option<Move>>, me: nat)
    requires timeDelta > 0.0 && me < |moves| && moves[me].Some?
    ensures Beaten(timeDelta, moves, me) <==>
            exists k :: 0 <= k < |moves| && moves[k].Some? && moves[k].value.coin == moves[me].value.coin
                        && moves[k].value.quant < moves[me].value.quant
  {
    hide Time;
    forall k | 0 <= k < |moves| && moves[k].Some?
      ensures Time(timeDelta, moves[k].value) < Time(timeDelta, moves[me].value) <==>
              moves[k].value.quant < moves[me].value.quant
    {
      TimeOrder(timeDelta, moves[k].value, moves[me].value);
    }
  }
}
