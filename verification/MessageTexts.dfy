/** The texts of the messages (lib/protocol/protocol.cpp), member by member: an object is printed with its keys in
    ascending order of their bytes. */
module MessageTexts {
  import opened Wrappers
  import opened JsonValue
  import opened JsonNumber
  import opened JsonString
  import opened JsonText
  import opened Messages

  predicate Ascending(keys: seq<string>) { forall j, k :: 0 <= j < k < |keys| ==> StrLess(keys[j], keys[k]) }

  lemma {:induction false} NextIsEnough(keys: seq<string>)
    requires forall j :: 0 <= j < |keys| - 1 ==> StrLess(keys[j], keys[j + 1])
    ensures Ascending(keys)
  {
    if keys != [] {
      NextIsEnough(keys[1..]);
      forall k | 0 < k < |keys| ensures StrLess(keys[0], keys[k]) {
        if k > 1 { StrLessTransitive(keys[0], keys[1], keys[k]); }
      }
    }
  }

  lemma {:induction false} GetOwn(ms: seq<Member>, i: nat)
    requires SortedMembers(ms) && i < |ms|
    ensures Get(ms, ms[i].key) == Some(ms[i].value)
  {
    StrLessTrichotomy(ms[0].key, ms[i].key);
    if i > 0 { GetOwn(ms[1..], i - 1); }
  }

  lemma {:induction false} GetFinds(ms: seq<Member>, key: string)
    ensures Get(ms, key).Some? ==> exists i :: 0 <= i < |ms| && ms[i].key == key
  {
    if ms != [] && ms[0].key != key {
      GetFinds(ms[1..], key);
      if Get(ms, key).Some? {
        var i :| 0 <= i < |ms[1..]| && ms[1..][i].key == key;
        assert ms[i + 1].key == key;
      }
    }
  }

  ghost predicate HoldsFields(ms: seq<Member>, fields: map<string, Value>) {
    SortedMembers(ms) && forall k: string :: Get(ms, k) == if k in fields then Some(fields[k]) else None
  }

  lemma FirstKey(ms: seq<Member>, keys: seq<string>, fields: map<string, Value>)
    requires HoldsFields(ms, fields) && Ascending(keys) && keys != [] && forall k :: k in fields <==> k in keys
    ensures ms != [] && ms[0] == Member(keys[0], fields[keys[0]])
  {
    hide Get, StrLess;
    assert Get(ms, keys[0]).Some?;
    GetFinds(ms, keys[0]);
    var i :| 0 <= i < |ms| && ms[i].key == keys[0];
    GetOwn(ms, 0);
    assert ms[0].key in fields;
    var j :| 0 <= j < |keys| && keys[j] == ms[0].key;
    StrLessTrichotomy(keys[0], ms[0].key);
  }

  lemma RestHolds(ms: seq<Member>, keys: seq<string>, fields: map<string, Value>)
    requires HoldsFields(ms, fields) && Ascending(keys) && keys != [] && (forall k :: k in fields <==> k in keys)
    requires ms != [] && ms[0].key == keys[0]
    ensures HoldsFields(ms[1..], fields - {keys[0]}) && Ascending(keys[1..])
    ensures forall k :: k in fields - {keys[0]} <==> k in keys[1..]
  {
    hide StrLess;
    var rest := fields - {keys[0]};
    forall k: string ensures Get(ms[1..], k) == if k in rest then Some(rest[k]) else None {
      if k == keys[0] {
        GetFinds(ms[1..], k);
        StrLessTrichotomy(k, k);
      } else {
        assert Get(ms, k) == Get(ms[1..], k);
      }
    }
    StrLessTrichotomy(keys[0], keys[0]);
    assert keys == [keys[0]] + keys[1..];
  }

  /** The members of an object with known fields are these fields, in ascending order of the keys. */
  lemma {:induction false} MembersAre(ms: seq<Member>, keys: seq<string>, fields: map<string, Value>)
    requires HoldsFields(ms, fields) && Ascending(keys) && forall k :: k in fields <==> k in keys
    ensures |ms| == |keys| && forall i :: 0 <= i < |ms| ==> ms[i] == Member(keys[i], fields[keys[i]])
    decreases |keys|
  {
    hide HoldsFields, Ascending;
    if keys == [] {
      assert ms == [] by { NoMembers(ms, fields); }
    } else {
      FirstKey(ms, keys, fields);
      RestHolds(ms, keys, fields);
      MembersAre(ms[1..], keys[1..], fields - {keys[0]});
    }
  }

  lemma NoMembers(ms: seq<Member>, fields: map<string, Value>)
    requires HoldsFields(ms, fields) && forall k :: k !in fields
    ensures ms == []
  {
    if ms != [] { GetOwn(ms, 0); }
  }

  // ---------------------------------------------------------------- the text of an object

  /** With commas between them. */
  function Listed(parts: seq<string>): string {
    if parts == [] then "" else if |parts| == 1 then parts[0] else parts[0] + ("," + Listed(parts[1..]))
  }

  function Field(m: Member): string { Quote(m.key) + (":" + FastText(m.value)) }

  function Fields(ms: seq<Member>): seq<string> { seq(|ms|, k requires 0 <= k < |ms| => Field(ms[k])) }

  lemma FieldMore(key: string, text: string, rest: string)
    ensures key + (":" + (text + rest)) == key + (":" + text) + rest
  {}

  lemma {:induction false} FieldsText(ms: seq<Member>)
    requires ms != []
    ensures Quote(ms[0].key) + (":" + (FastText(ms[0].value) + FastMembers(ms[1..]))) == Listed(Fields(ms)) + "}"
    decreases |ms|
  {
    hide Quote, FastText;
    FieldMore(Quote(ms[0].key), FastText(ms[0].value), FastMembers(ms[1..]));
    if |ms| > 1 {
      FieldsText(ms[1..]);
      assert Fields(ms)[1..] == Fields(ms[1..]);
      assert FastMembers(ms[1..]) == "," + (Listed(Fields(ms[1..])) + "}");
      assert Field(ms[0]) + ("," + (Listed(Fields(ms[1..])) + "}")) == Field(ms[0]) + ("," + Listed(Fields(ms[1..]))) + "}";
    }
  }

  lemma ObjectText(ms: seq<Member>)
    requires ms != []
    ensures FastText(Obj(ms)) == "{" + (Listed(Fields(ms)) + "}")
  {
    FieldsText(ms);
    hide Quote, Listed, Fields;
  }

  function Texts(es: seq<Value>): seq<string> { seq(|es|, k requires 0 <= k < |es| => FastText(es[k])) }

  lemma {:induction false} ElementsText(es: seq<Value>)
    requires es != []
    ensures FastText(es[0]) + FastElems(es[1..]) == Listed(Texts(es)) + "]"
    decreases |es|
  {
    hide FastText;
    if |es| > 1 {
      ElementsText(es[1..]);
      assert Texts(es)[1..] == Texts(es[1..]);
      assert FastElems(es[1..]) == "," + (Listed(Texts(es[1..])) + "]");
      assert FastText(es[0]) + ("," + (Listed(Texts(es[1..])) + "]")) == FastText(es[0]) + ("," + Listed(Texts(es[1..]))) + "]";
    }
  }

  lemma ArrayText(es: seq<Value>)
    requires es != []
    ensures FastText(Arr(es)) == "[" + (Listed(Texts(es)) + "]")
  {
    ElementsText(es);
    hide Listed, Texts;
  }

  lemma Before(a: string, b: string, k: nat)
    requires DifferAt(a, b, k)
    ensures StrLess(a, b)
  {
    StrLessExactlyWhen(a, b);
  }

  /** The same fields, in ascending order of their keys. */
  ghost predicate InOrder(ms: seq<Member>, fields: map<string, Value>) {
    && (forall i :: 0 <= i < |ms| - 1 ==> StrLess(ms[i].key, ms[i + 1].key))
    && (forall i :: 0 <= i < |ms| ==> ms[i].key in fields && fields[ms[i].key] == ms[i].value)
    && (forall k :: k in fields ==> exists i :: 0 <= i < |ms| && ms[i].key == k)
  }

  lemma OnlyMembers(v: Value, fields: map<string, Value>, ms: seq<Member>)
    requires Represents(v, fields) && InOrder(ms, fields)
    ensures v == Obj(ms)
  {
    hide StrLess, Get;
    var keys := seq(|ms|, i requires 0 <= i < |ms| => ms[i].key);
    NextIsEnough(keys);
    forall k ensures k in fields <==> k in keys {
      if k in fields {
        var i :| 0 <= i < |ms| && ms[i].key == k;
        assert keys[i] == k;
      }
    }
    MembersAre(v.members, keys, fields);
    assert v.members == ms;
  }

  // ---------------------------------------------------------------- a turn

  function TurnMembers(t: Turn): seq<Member> {
    [Member("a_x", Real(t.acceleration.x)), Member("a_y", Real(t.acceleration.y)), Member("id", UInt(t.playerId)),
     Member("state_id", UInt(t.stateId % 0x1_0000_0000)), Member("type", Str("TURN"))]
  }

  lemma TurnKeysAscend(t: Turn)
    ensures forall i :: 0 <= i < 4 ==> StrLess(TurnMembers(t)[i].key, TurnMembers(t)[i + 1].key)
  {
    Before("a_x", "a_y", 2);
    Before("a_y", "id", 0);
    Before("id", "state_id", 0);
    Before("state_id", "type", 0);
    hide StrLess;
  }

  lemma TurnInOrder(t: Turn)
    ensures InOrder(TurnMembers(t), TurnFields(t))
  {
    var ms := TurnMembers(t);
    TurnKeysAscend(t);
    hide StrLess;
    assert ms[0].key == "a_x" && ms[1].key == "a_y" && ms[2].key == "id" && ms[3].key == "state_id" && ms[4].key == "type";
  }

  /** A turn is printed with these members, in this order. */
  lemma TurnPrinted(v: Value, t: Turn)
    requires RepresentsMessage(v, TurnMessage(t))
    ensures v == Obj(TurnMembers(t))
    ensures FastText(v) == "{" + (Listed(Fields(TurnMembers(t))) + "}")
  {
    TurnInOrder(t);
    assert Represents(v, TurnFields(t)) && TurnMembers(t) != [];
    hide InOrder, Represents, TurnMembers, TurnFields, FastText, Listed, Fields;
    OnlyMembers(v, TurnFields(t), TurnMembers(t));
    ObjectText(TurnMembers(t));
  }

  // ---------------------------------------------------------------- subscriptions and the finish

  /** The type names as they go over the wire. */
  function PlainMembers(m: Message): seq<Member> {
    match m
    case ClientSubscribeRequest => [Member("type", Str("CLI_SUB_REQUEST"))]
    case ViewerSubscribeRequest => [Member("type", Str("VIEW_SUB_REQUEST"))]
    case Finish => [Member("type", Str("FINISH"))]
    case _ => []
  }

  lemma PlainPrinted(v: Value, m: Message)
    requires RepresentsMessage(v, m) && (m.ClientSubscribeRequest? || m.ViewerSubscribeRequest? || m.Finish?)
    ensures v == Obj(PlainMembers(m))
  {
    var ms := PlainMembers(m);
    assert ms[0].key == "type" && Represents(v, TypeField(m));
    assert InOrder(ms, TypeField(m));
    hide Represents, InOrder;
    OnlyMembers(v, TypeField(m), ms);
  }

  function ResultMembers(name: string, result: bool, id: nat): seq<Member> {
    if result then [Member("id", UInt(id)), Member("result", Str("ok")), Member("type", Str(name))]
    else [Member("result", Str("fail")), Member("type", Str(name))]
  }

  lemma ResultInOrder(m: Message, name: string, id: nat)
    requires (m.ClientSubscribeResult? && name == "CLI_SUB_RESULT" && id == m.playerId)
             || (m.ViewerSubscribeResult? && name == "VIEW_SUB_RESULT" && id == m.viewerId)
    ensures InOrder(ResultMembers(name, m.result, id), ResultFields(m))
  {
    var ms := ResultMembers(name, m.result, id);
    Before("id", "result", 0);
    Before("result", "type", 0);
    hide StrLess;
    if m.result {
      assert ms[0].key == "id" && ms[1].key == "result" && ms[2].key == "type";
    } else {
      assert ms[0].key == "result" && ms[1].key == "type";
    }
  }

  /** What a subscription is answered. */
  lemma ResultPrinted(v: Value, result: bool, id: nat)
    ensures RepresentsMessage(v, ClientSubscribeResult(result, id)) ==> v == Obj(ResultMembers("CLI_SUB_RESULT", result, id))
    ensures RepresentsMessage(v, ViewerSubscribeResult(result, id)) ==> v == Obj(ResultMembers("VIEW_SUB_RESULT", result, id))
  {
    var c, w := ClientSubscribeResult(result, id), ViewerSubscribeResult(result, id);
    ResultInOrder(c, "CLI_SUB_RESULT", id);
    ResultInOrder(w, "VIEW_SUB_RESULT", id);
    hide Represents, InOrder, ResultMembers, ResultFields;
    if RepresentsMessage(v, c) { OnlyMembers(v, ResultFields(c), ResultMembers("CLI_SUB_RESULT", result, id)); }
    if RepresentsMessage(v, w) { OnlyMembers(v, ResultFields(w), ResultMembers("VIEW_SUB_RESULT", result, id)); }
  }

  // ---------------------------------------------------------------- a state

  function PlayerMembers(p: Player): seq<Member> {
    [Member("id", UInt(p.id)), Member("score", Real(p.score)), Member("v_x", Real(p.velocity.x)),
     Member("v_y", Real(p.velocity.y)), Member("x", Real(p.center.x)), Member("y", Real(p.center.y))]
  }

  function CoinMembers(c: Coin): seq<Member> {
    [Member("value", Real(c.value)), Member("x", Real(c.center.x)), Member("y", Real(c.center.y))]
  }

  function PlayersValue(ps: seq<Player>): Value {
    if ps == [] then Null else Arr(seq(|ps|, k requires 0 <= k < |ps| => Obj(PlayerMembers(ps[k]))))
  }

  function CoinsValue(cs: seq<Coin>): Value {
    if cs == [] then Null else Arr(seq(|cs|, k requires 0 <= k < |cs| => Obj(CoinMembers(cs[k]))))
  }

  /** All players are printed with the radius of the first, and so are the coins. */
  function StateMembers(s: FieldState): seq<Member> {
    [Member("coin_radius", if s.coins == [] then Int(1) else Real(s.coins[0].radius)), Member("coins", CoinsValue(s.coins)),
     Member("field_radius", Real(s.radius)),
     Member("player_radius", if s.players == [] then Int(1) else Real(s.players[0].radius)),
     Member("players", PlayersValue(s.players)), Member("state_id", UInt(s.id % 0x1_0000_0000)),
     Member("time_delta", Real(s.timeDelta)), Member("type", Str("STATE")), Member("velocity_max", Real(s.velocityMax))]
  }

  lemma PlayerKeysAscend(p: Player)
    ensures forall i :: 0 <= i < 5 ==> StrLess(PlayerMembers(p)[i].key, PlayerMembers(p)[i + 1].key)
  {
    Before("id", "score", 0);
    Before("score", "v_x", 0);
    Before("v_x", "v_y", 2);
    Before("v_y", "x", 0);
    Before("x", "y", 0);
    hide StrLess;
  }

  lemma PlayerInOrder(p: Player)
    ensures InOrder(PlayerMembers(p), PlayerFields(p))
  {
    var ms := PlayerMembers(p);
    PlayerKeysAscend(p);
    hide StrLess;
    assert ms[0].key == "id" && ms[1].key == "score" && ms[2].key == "v_x" && ms[3].key == "v_y" && ms[4].key == "x" && ms[5].key == "y";
  }

  lemma CoinInOrder(c: Coin)
    ensures InOrder(CoinMembers(c), CoinFields(c))
  {
    var ms := CoinMembers(c);
    Before("value", "x", 0);
    Before("x", "y", 0);
    hide StrLess;
    assert ms[0].key == "value" && ms[1].key == "x" && ms[2].key == "y";
  }

  lemma PlayersPrinted(v: Value, ps: seq<Player>)
    requires RepresentsPlayers(v, ps)
    ensures v == PlayersValue(ps)
  {
    hide Represents, PlayerFields, PlayerMembers, InOrder, WellFormed;
    if ps != [] {
      forall k | 0 <= k < |ps| ensures v.elems[k] == Obj(PlayerMembers(ps[k])) {
        PlayerInOrder(ps[k]);
        OnlyMembers(v.elems[k], PlayerFields(ps[k]), PlayerMembers(ps[k]));
      }
      assert v.elems == PlayersValue(ps).elems;
    }
  }

  lemma CoinsPrinted(v: Value, cs: seq<Coin>)
    requires RepresentsCoins(v, cs)
    ensures v == CoinsValue(cs)
  {
    hide Represents, CoinFields, CoinMembers, InOrder, WellFormed;
    if cs != [] {
      forall k | 0 <= k < |cs| ensures v.elems[k] == Obj(CoinMembers(cs[k])) {
        CoinInOrder(cs[k]);
        OnlyMembers(v.elems[k], CoinFields(cs[k]), CoinMembers(cs[k]));
      }
      assert v.elems == CoinsValue(cs).elems;
    }
  }

  lemma FirstStateKeys()
    ensures StrLess("coin_radius", "coins") && StrLess("coins", "field_radius")
    ensures StrLess("field_radius", "player_radius") && StrLess("player_radius", "players")
  {
    Before("coin_radius", "coins", 4);
    Before("coins", "field_radius", 0);
    Before("field_radius", "player_radius", 0);
    Before("player_radius", "players", 6);
    hide StrLess;
  }

  lemma LastStateKeys()
    ensures StrLess("players", "state_id") && StrLess("state_id", "time_delta")
    ensures StrLess("time_delta", "type") && StrLess("type", "velocity_max")
  {
    Before("players", "state_id", 0);
    Before("state_id", "time_delta", 0);
    Before("time_delta", "type", 1);
    Before("type", "velocity_max", 0);
    hide StrLess;
  }

  lemma StateKeys(s: FieldState)
    ensures var ms := StateMembers(s);
            |ms| == 9 && ms[0].key == "coin_radius" && ms[1].key == "coins" && ms[2].key == "field_radius"
            && ms[3].key == "player_radius" && ms[4].key == "players" && ms[5].key == "state_id" && ms[6].key == "time_delta"
            && ms[7].key == "type" && ms[8].key == "velocity_max"
  {
    hide PlayersValue, CoinsValue;
  }

  lemma StateKeysAscend(s: FieldState)
    ensures var ms := StateMembers(s); forall i :: 0 <= i < |ms| - 1 ==> StrLess(ms[i].key, ms[i + 1].key)
  {
    StateKeys(s);
    FirstStateKeys();
    LastStateKeys();
    hide StrLess, StateMembers;
  }

  lemma StateValues(s: FieldState, players: Value, coins: Value)
    requires players == PlayersValue(s.players) && coins == CoinsValue(s.coins)
    ensures var ms, fields := StateMembers(s), StateFields(s, players, coins);
            forall i :: 0 <= i < |ms| ==> ms[i].key in fields && fields[ms[i].key] == ms[i].value
  {
    hide PlayersValue, CoinsValue;
  }

  lemma StateDomain(s: FieldState, players: Value, coins: Value)
    ensures forall k :: k in StateFields(s, players, coins) ==> exists i :: 0 <= i < |StateMembers(s)| && StateMembers(s)[i].key == k
  {
    var ms := StateMembers(s);
    StateKeys(s);
    hide StateMembers;
  }

  lemma StateInOrder(s: FieldState)
    ensures InOrder(StateMembers(s), StateFields(s, PlayersValue(s.players), CoinsValue(s.coins)))
  {
    StateKeysAscend(s);
    StateValues(s, PlayersValue(s.players), CoinsValue(s.coins));
    StateDomain(s, PlayersValue(s.players), CoinsValue(s.coins));
    hide StrLess, PlayersValue, CoinsValue, StateMembers, StateFields;
  }

  /** A state is printed with these members, in this order, and one object for each player and coin. */
  lemma StatePrinted(v: Value, s: FieldState)
    requires RepresentsMessage(v, FieldStateMessage(s))
    ensures v == Obj(StateMembers(s))
  {
    hide Represents, RepresentsPlayers, RepresentsCoins, InOrder, StateMembers, StateFields;
    var players: Value, coins: Value :|
      RepresentsPlayers(players, s.players) && RepresentsCoins(coins, s.coins) && Represents(v, StateFields(s, players, coins));
    PlayersPrinted(players, s.players);
    CoinsPrinted(coins, s.coins);
    StateInOrder(s);
    OnlyMembers(v, StateFields(s, players, coins), StateMembers(s));
  }
}
