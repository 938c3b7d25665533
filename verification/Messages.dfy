/** Game messages as JSON values and as text (lib/protocol/protocol.cpp,
    lib/protocol/string_conversion.cpp). A double is its decimal literal, as in a JSON value. */
module Messages {
  import opened Wrappers
  import opened JsonValue
  import opened JsonNumber
  import JsonConversion
  import opened JsonString
  import opened JsonLexer
  import opened JsonParser
  import opened JsonText
  import opened JsonRoundTrip
  import opened JsonFastWriter
  import opened JsonReader

  type Double = string

  datatype Point = Point(x: Double, y: Double)

  datatype Player = Player(id: nat, score: Double, center: Point, radius: Double, velocity: Point)

  datatype Coin = Coin(center: Point, radius: Double, value: Double)

  datatype FieldState = FieldState(id: nat, radius: Double, timeDelta: Double, velocityMax: Double,
                                   players: seq<Player>, coins: seq<Coin>)

  datatype Turn = Turn(playerId: nat, stateId: nat, acceleration: Point)

  datatype Message =
    | ClientSubscribeRequest
    | ClientSubscribeResult(result: bool, playerId: nat)
    | ViewerSubscribeRequest
    | ViewerSubscribeResult(result: bool, viewerId: nat)
    | FieldStateMessage(state: FieldState)
    | TurnMessage(turn: Turn)
    | Finish

  predicate ValidPoint(p: Point) { IsRealText(p.x) && IsRealText(p.y) }

  predicate ValidPlayer(p: Player) {
    p.id <= UINT_MAX && IsRealText(p.score) && ValidPoint(p.center) && IsRealText(p.radius) && ValidPoint(p.velocity)
  }

  predicate ValidCoin(c: Coin) { ValidPoint(c.center) && IsRealText(c.radius) && IsRealText(c.value) }

  predicate ValidPlayers(ps: seq<Player>) { ps == [] || (ValidPlayer(ps[0]) && ValidPlayers(ps[1..])) }

  predicate ValidCoins(cs: seq<Coin>) { cs == [] || (ValidCoin(cs[0]) && ValidCoins(cs[1..])) }

  /** What the C++ types allow: unsigned identifiers, finite doubles. */
  predicate ValidMessage(m: Message) {
    match m
    case ClientSubscribeResult(_, id) => id <= UINT_MAX
    case ViewerSubscribeResult(_, id) => id <= UINT_MAX
    case FieldStateMessage(s) =>
      IsRealText(s.radius) && IsRealText(s.timeDelta) && IsRealText(s.velocityMax)
      && ValidPlayers(s.players) && ValidCoins(s.coins)
    case TurnMessage(t) => t.playerId <= UINT_MAX && ValidPoint(t.acceleration)
    case _ => true
  }

  /** `ToString( type )`. */
  function TypeName(m: Message): string {
    match m
    case ClientSubscribeRequest => "CLI_SUB_REQUEST"
    case ClientSubscribeResult(_, _) => "CLI_SUB_RESULT"
    case ViewerSubscribeRequest => "VIEW_SUB_REQUEST"
    case ViewerSubscribeResult(_, _) => "VIEW_SUB_RESULT"
    case FieldStateMessage(_) => "STATE"
    case TurnMessage(_) => "TURN"
    case Finish => "FINISH"
  }

  // ---------------------------------------------------------------- building

  /** `v` is an object with exactly these members. */
  ghost predicate Represents(v: Value, fields: map<string, Value>) {
    v.Obj? && WellFormed(v)
    && forall k: string :: Get(v.members, k) == if k in fields then Some(fields[k]) else None
  }

  lemma {:induction false} PutWellFormed(ms: seq<Member>, key: string, value: Value)
    requires WellFormedMembers(ms) && NulFree(key) && WellFormed(value)
    ensures WellFormedMembers(Put(ms, key, value))
  {
    hide WellFormed, NulFree;
    if ms != [] && StrLess(ms[0].key, key) {
      PutWellFormed(ms[1..], key, value);
    }
  }

  /** `json[key] = value` on a null or an object. */
  method SetMember(json: Value, key: string, value: Value, ghost fields: map<string, Value>) returns (r: Value)
    requires if json.Null? then fields == map[] else Represents(json, fields)
    requires NulFree(key) && WellFormed(value)
    ensures r.Obj? && Represents(r, fields[key := value])
  {
    hide WellFormed, Put, Get, NulFree;
    var members := if json.Null? then [] else json.members;
    r := Obj(Put(members, key, value));
    PutRepresents(json, members, key, value, fields);
  }

  lemma PutRepresents(json: Value, members: seq<Member>, key: string, value: Value, fields: map<string, Value>)
    requires if json.Null? then members == [] && fields == map[] else json == Obj(members) && Represents(json, fields)
    requires NulFree(key) && WellFormed(value)
    ensures Represents(Obj(Put(members, key, value)), fields[key := value])
  {
    assert SortedMembers(members) && WellFormedMembers(members);
    PutWellFormed(members, key, value);
    PutSorted(members, key, value);
    assert WellFormed(Obj(Put(members, key, value)));
    assert forall k: string :: Get(members, k) == if k in fields then Some(fields[k]) else None;
    hide WellFormed, WellFormedMembers, SortedMembers, NulFree, Put, Get;
    forall k: string
      ensures Get(Put(members, key, value), k) == if k in fields[key := value] then Some(fields[key := value][k]) else None
    {
      GetPut(members, key, value, k);
    }
  }

  function TypeField(m: Message): map<string, Value> { map["type" := Str(TypeName(m))] }

  function ResultFields(m: Message): map<string, Value>
    requires m.ClientSubscribeResult? || m.ViewerSubscribeResult?
  {
    if !m.result then map["type" := Str(TypeName(m)), "result" := Str("fail")]
    else map["type" := Str(TypeName(m)), "result" := Str("ok"),
             "id" := UInt(if m.ClientSubscribeResult? then m.playerId else m.viewerId)]
  }

  function TurnFields(t: Turn): map<string, Value> {
    map["type" := Str("TURN"), "state_id" := UInt(t.stateId % 0x1_0000_0000), "id" := UInt(t.playerId),
        "a_x" := Real(t.acceleration.x), "a_y" := Real(t.acceleration.y)]
  }

  function PlayerFields(p: Player): map<string, Value> {
    map["id" := UInt(p.id), "x" := Real(p.center.x), "y" := Real(p.center.y),
        "v_x" := Real(p.velocity.x), "v_y" := Real(p.velocity.y), "score" := Real(p.score)]
  }

  function CoinFields(c: Coin): map<string, Value> {
    map["x" := Real(c.center.x), "y" := Real(c.center.y), "value" := Real(c.value)]
  }

  function StateFields(s: FieldState, players: Value, coins: Value): map<string, Value> {
    map["type" := Str("STATE"), "state_id" := UInt(s.id % 0x1_0000_0000), "field_radius" := Real(s.radius),
        "player_radius" := if s.players == [] then Int(1) else Real(s.players[0].radius),
        "coin_radius" := if s.coins == [] then Int(1) else Real(s.coins[0].radius),
        "time_delta" := Real(s.timeDelta), "velocity_max" := Real(s.velocityMax),
        "players" := players, "coins" := coins]
  }

  /** One JSON object per player; an empty list stays null. */
  ghost predicate RepresentsPlayers(v: Value, ps: seq<Player>) {
    if ps == [] then v == Null
    else v.Arr? && WellFormed(v) && |v.elems| == |ps|
         && forall k :: 0 <= k < |ps| ==> Represents(v.elems[k], PlayerFields(ps[k]))
  }

  ghost predicate RepresentsCoins(v: Value, cs: seq<Coin>) {
    if cs == [] then v == Null
    else v.Arr? && WellFormed(v) && |v.elems| == |cs|
         && forall k :: 0 <= k < |cs| ==> Represents(v.elems[k], CoinFields(cs[k]))
  }

  /** What the build functions promise of the JSON value of a message. */
  ghost predicate RepresentsMessage(v: Value, m: Message) {
    match m
    case ClientSubscribeResult(_, _) => Represents(v, ResultFields(m))
    case ViewerSubscribeResult(_, _) => Represents(v, ResultFields(m))
    case FieldStateMessage(s) =>
      exists players: Value, coins: Value ::
        RepresentsPlayers(players, s.players) && RepresentsCoins(coins, s.coins)
        && Represents(v, StateFields(s, players, coins))
    case TurnMessage(t) => Represents(v, TurnFields(t))
    case _ => Represents(v, TypeField(m))
  }

  lemma TypeNameNulFree(m: Message)
    ensures NulFree(TypeName(m))
  {}

  /** `Build*SubscribeRequestMessage`, `BuildFinishMessage`. */
  method BuildPlainMessage(m: Message) returns (result: Value)
    ensures result.Obj? && Represents(result, TypeField(m))
  {
    hide Represents;
    TypeNameNulFree(m);
    result := SetMember(Null, "type", Str(TypeName(m)), map[]);
    assert map[]["type" := Str(TypeName(m))] == TypeField(m);
  }

  /** `BuildClientSubscribeResultMessage`, `BuildViewerSubscribeResultMessage`. */
  method BuildResultMessage(m: Message) returns (result: Value)
    requires (m.ClientSubscribeResult? || m.ViewerSubscribeResult?) && ValidMessage(m)
    ensures Represents(result, ResultFields(m))
  {
    hide Represents;
    result := BuildPlainMessage(m);
    ghost var fields := TypeField(m);
    if m.result {
      result := SetMember(result, "result", Str("ok"), fields);
      fields := fields["result" := Str("ok")];
      result := SetMember(result, "id", UInt(if m.ClientSubscribeResult? then m.playerId else m.viewerId), fields);
      fields := fields["id" := UInt(if m.ClientSubscribeResult? then m.playerId else m.viewerId)];
    } else {
      result := SetMember(result, "result", Str("fail"), fields);
      fields := fields["result" := Str("fail")];
    }
    assert fields == ResultFields(m);
  }

  /** `BuildTurnMessage`. */
  method BuildTurnMessage(t: Turn) returns (result: Value)
    requires ValidMessage(TurnMessage(t))
    ensures Represents(result, TurnFields(t))
  {
    hide Represents, IsRealText;
    ghost var fields := TypeField(TurnMessage(t));
    result := BuildPlainMessage(TurnMessage(t));
    result := SetMember(result, "state_id", UInt(t.stateId % 0x1_0000_0000), fields);
    fields := fields["state_id" := UInt(t.stateId % 0x1_0000_0000)];
    result := SetMember(result, "id", UInt(t.playerId), fields);
    fields := fields["id" := UInt(t.playerId)];
    result := SetMember(result, "a_x", Real(t.acceleration.x), fields);
    fields := fields["a_x" := Real(t.acceleration.x)];
    result := SetMember(result, "a_y", Real(t.acceleration.y), fields);
    fields := fields["a_y" := Real(t.acceleration.y)];
    assert fields == TurnFields(t);
  }

  /** `append(value)` on a null or an array. */
  function Append(list: Value, value: Value): Value
    requires list.Null? || list.Arr?
  {
    Arr((if list.Arr? then list.elems else []) + [value])
  }

  lemma {:induction false} AppendWellFormed(es: seq<Value>, v: Value)
    requires WellFormedElems(es) && WellFormed(v)
    ensures WellFormedElems(es + [v])
  {
    hide WellFormed;
    if es == [] {
      assert (es + [v])[1..] == [];
    } else {
      AppendWellFormed(es[1..], v);
      assert (es + [v])[1..] == es[1..] + [v];
    }
  }

  lemma AppendPlayer(v: Value, ps: seq<Player>, json: Value, p: Player)
    requires RepresentsPlayers(v, ps) && Represents(json, PlayerFields(p))
    ensures RepresentsPlayers(Append(v, json), ps + [p])
  {
    hide PlayerFields;
    AppendWellFormed(if v.Arr? then v.elems else [], json);
  }

  lemma AppendCoin(v: Value, cs: seq<Coin>, json: Value, c: Coin)
    requires RepresentsCoins(v, cs) && Represents(json, CoinFields(c))
    ensures RepresentsCoins(Append(v, json), cs + [c])
  {
    hide CoinFields;
    AppendWellFormed(if v.Arr? then v.elems else [], json);
  }

  /** One turn of the loop over the players. */
  method BuildPlayer(p: Player) returns (json: Value)
    requires ValidPlayer(p)
    ensures Represents(json, PlayerFields(p))
  {
    hide Represents, IsRealText;
    json := SetMember(Null, "id", UInt(p.id), map[]);
    ghost var f := map["id" := UInt(p.id)];
    json := SetMember(json, "x", Real(p.center.x), f);
    f := f["x" := Real(p.center.x)];
    json := SetMember(json, "y", Real(p.center.y), f);
    f := f["y" := Real(p.center.y)];
    json := SetMember(json, "v_x", Real(p.velocity.x), f);
    f := f["v_x" := Real(p.velocity.x)];
    json := SetMember(json, "v_y", Real(p.velocity.y), f);
    f := f["v_y" := Real(p.velocity.y)];
    json := SetMember(json, "score", Real(p.score), f);
    f := f["score" := Real(p.score)];
    assert f == PlayerFields(p);
  }

  /** One turn of the loop over the coins. */
  method BuildCoin(c: Coin) returns (json: Value)
    requires ValidCoin(c)
    ensures Represents(json, CoinFields(c))
  {
    hide Represents, IsRealText;
    json := SetMember(Null, "x", Real(c.center.x), map[]);
    ghost var f := map["x" := Real(c.center.x)];
    json := SetMember(json, "y", Real(c.center.y), f);
    f := f["y" := Real(c.center.y)];
    json := SetMember(json, "value", Real(c.value), f);
    f := f["value" := Real(c.value)];
    assert f == CoinFields(c);
  }

  method BuildPlayers(ps: seq<Player>) returns (players: Value)
    requires ValidPlayers(ps)
    ensures RepresentsPlayers(players, ps)
  {
    hide RepresentsPlayers, PlayerFields, ValidPlayer;
    players := Null;
    NoPlayers();
    assert ps[..0] == [];
    for k := 0 to |ps|
      invariant ValidPlayers(ps[k..]) && (players.Null? || players.Arr?)
      invariant RepresentsPlayers(players, ps[..k])
    {
      assert ps[k..][1..] == ps[k + 1..] && ps[..k] + [ps[k]] == ps[..k + 1];
      var json := BuildPlayer(ps[k]);
      AppendPlayer(players, ps[..k], json, ps[k]);
      players := Append(players, json);
    }
    assert ps[..|ps|] == ps;
  }

  lemma NoPlayers()
    ensures RepresentsPlayers(Null, []) && RepresentsCoins(Null, [])
  {}

  method BuildCoins(cs: seq<Coin>) returns (coins: Value)
    requires ValidCoins(cs)
    ensures RepresentsCoins(coins, cs)
  {
    hide RepresentsCoins, CoinFields, ValidCoin;
    coins := Null;
    NoPlayers();
    assert cs[..0] == [];
    for k := 0 to |cs|
      invariant ValidCoins(cs[k..]) && (coins.Null? || coins.Arr?)
      invariant RepresentsCoins(coins, cs[..k])
    {
      assert cs[k..][1..] == cs[k + 1..] && cs[..k] + [cs[k]] == cs[..k + 1];
      var json := BuildCoin(cs[k]);
      AppendCoin(coins, cs[..k], json, cs[k]);
      coins := Append(coins, json);
    }
    assert cs[..|cs|] == cs;
  }

  lemma ListsWellFormed(players: Value, ps: seq<Player>, coins: Value, cs: seq<Coin>)
    requires RepresentsPlayers(players, ps) && RepresentsCoins(coins, cs)
    ensures WellFormed(players) && WellFormed(coins)
  {}

  /** `BuildFieldStateMessage`. */
  method BuildFieldStateMessage(s: FieldState) returns (result: Value)
    requires ValidMessage(FieldStateMessage(s))
    ensures RepresentsMessage(result, FieldStateMessage(s))
  {
    hide Represents, IsRealText, RepresentsPlayers, RepresentsCoins;
    ghost var f := TypeField(FieldStateMessage(s));
    result := BuildPlainMessage(FieldStateMessage(s));
    result := SetMember(result, "state_id", UInt(s.id % 0x1_0000_0000), f);
    f := f["state_id" := UInt(s.id % 0x1_0000_0000)];
    result := SetMember(result, "field_radius", Real(s.radius), f);
    f := f["field_radius" := Real(s.radius)];
    result := SetMember(result, "player_radius", Int(1), f);
    f := f["player_radius" := Int(1)];
    if s.players != [] {
      result := SetMember(result, "player_radius", Real(s.players[0].radius), f);
      f := f["player_radius" := Real(s.players[0].radius)];
    }
    result := SetMember(result, "coin_radius", Int(1), f);
    f := f["coin_radius" := Int(1)];
    if s.coins != [] {
      result := SetMember(result, "coin_radius", Real(s.coins[0].radius), f);
      f := f["coin_radius" := Real(s.coins[0].radius)];
    }
    result := SetMember(result, "time_delta", Real(s.timeDelta), f);
    f := f["time_delta" := Real(s.timeDelta)];
    result := SetMember(result, "velocity_max", Real(s.velocityMax), f);
    f := f["velocity_max" := Real(s.velocityMax)];
    var players := BuildPlayers(s.players);
    var coins := BuildCoins(s.coins);
    ListsWellFormed(players, s.players, coins, s.coins);
    result := SetMember(result, "players", players, f);
    f := f["players" := players];
    result := SetMember(result, "coins", coins, f);
    f := f["coins" := coins];
    assert f == StateFields(s, players, coins);
  }

  /** `BuildJsonMessage`: the compact text of the JSON value of the message. */
  method BuildJsonMessage(m: Message) returns (text: string, json: Value)
    requires ValidMessage(m)
    ensures RepresentsMessage(json, m) && WellFormed(json) && text == FastDocument(json)
  {
    hide Represents, FastDocument, WellFormed, ResultFields;
    var result;
    match m {
      case FieldStateMessage(s) => result := BuildFieldStateMessage(s);
      case TurnMessage(t) => result := BuildTurnMessage(t);
      case ClientSubscribeResult(_, _) => result := BuildResultMessage(m);
      case ViewerSubscribeResult(_, _) => result := BuildResultMessage(m);
      case _ => result := BuildPlainMessage(m);
    }
    MessageWellFormed(result, m);
    var writer := new FastWriter();
    text := writer.Write(result);
    json := result;
  }

  lemma MessageWellFormed(v: Value, m: Message)
    requires RepresentsMessage(v, m)
    ensures WellFormed(v)
  {}

  // ---------------------------------------------------------------- parsing

  /** A message, no message (a null pointer), or a failed assertion or exception of the library. */
  datatype Outcome<+T> = Got(value: T) | Absent | Aborted {
    predicate IsFailure() { !Got? }

    function PropagateFailure<U>(): Outcome<U>
      requires IsFailure()
    {
      if Absent? then Absent else Aborted
    }

    function Extract(): T
      requires Got?
    {
      value
    }
  }

  /** `isMember(key)` and `operator[](key)`: only an object or null may be asked. */
  function Lookup(json: Value, key: string): Outcome<Value> {
    match json
    case Null => Absent
    case Obj(ms) => (match Get(ms, key) case Some(v) => Got(v) case None => Absent)
    case _ => Aborted
  }

  /** `isConvertibleTo(uintValue)` and then `asUInt()`. */
  function AsUInt(v: Value): Outcome<nat> {
    if !JsonConversion.IsConvertibleTo(v, JsonConversion.UIntType) then Absent
    else match JsonConversion.AsUInt(v) case Some(u) => Got(u) case None => Aborted
  }

  /** `isConvertibleTo(realValue)` and then `asDouble()`. */
  function AsDouble(v: Value): Outcome<Double> {
    match v
    case Null => Got("0.0")
    case Int(i) => Got(IntText(i))
    case UInt(u) => Got(Digits(u))
    case Real(l) => Got(l)
    case Bool(b) => Got(if b then "1.0" else "0.0")
    case _ => Absent
  }

  function UIntField(json: Value, key: string): Outcome<nat> {
    var v :- Lookup(json, key);
    AsUInt(v)
  }

  function DoubleField(json: Value, key: string): Outcome<Double> {
    var v :- Lookup(json, key);
    AsDouble(v)
  }

  function PointFields(json: Value, x: string, y: string): Outcome<Point> {
    var px :- DoubleField(json, x);
    var py :- DoubleField(json, y);
    Got(Point(px, py))
  }

  function ParsePlayer(json: Value, radius: Double): Outcome<Player> {
    var id :- UIntField(json, "id");
    var center :- PointFields(json, "x", "y");
    var velocity :- PointFields(json, "v_x", "v_y");
    var score :- DoubleField(json, "score");
    Got(Player(id, score, center, radius, velocity))
  }

  function ParseCoin(json: Value, radius: Double): Outcome<Coin> {
    var center :- PointFields(json, "x", "y");
    var value :- DoubleField(json, "value");
    Got(Coin(center, radius, value))
  }

  function ParsePlayers(vs: seq<Value>, radius: Double): Outcome<seq<Player>> {
    if vs == [] then Got([])
    else
      var p :- ParsePlayer(vs[0], radius);
      var ps :- ParsePlayers(vs[1..], radius);
      Got([p] + ps)
  }

  function ParseCoins(vs: seq<Value>, radius: Double): Outcome<seq<Coin>> {
    if vs == [] then Got([])
    else
      var c :- ParseCoin(vs[0], radius);
      var cs :- ParseCoins(vs[1..], radius);
      Got([c] + cs)
  }

  /** `isMember` and `isArray`: null passes for an empty array. */
  function ArrayField(json: Value, key: string): Outcome<seq<Value>> {
    var v :- Lookup(json, key);
    match v case Null => Got([]) case Arr(es) => Got(es) case _ => Absent
  }

  /** `ParseFieldStateMessage`. */
  function ParseFieldState(json: Value): Outcome<Message> {
    var id :- UIntField(json, "state_id");
    var radius :- DoubleField(json, "field_radius");
    var playerRadius :- DoubleField(json, "player_radius");
    var coinRadius :- DoubleField(json, "coin_radius");
    var timeDelta :- DoubleField(json, "time_delta");
    var velocityMax :- DoubleField(json, "velocity_max");
    var players :- ArrayField(json, "players");
    var ps :- ParsePlayers(players, playerRadius);
    var coins :- ArrayField(json, "coins");
    var cs :- ParseCoins(coins, coinRadius);
    Got(FieldStateMessage(FieldState(id, radius, timeDelta, velocityMax, ps, cs)))
  }

  /** `ParseTurnMessage`. */
  function ParseTurn(json: Value): Outcome<Message> {
    var stateId :- UIntField(json, "state_id");
    var playerId :- UIntField(json, "id");
    var a :- PointFields(json, "a_x", "a_y");
    Got(TurnMessage(Turn(playerId, stateId, a)))
  }

  /** `ParseClientSubscribeResultMessage`, `ParseViewerSubscribeResultMessage`: a "fail" is
      overwritten and an id demanded of it all the same. */
  function ParseResult(json: Value, client: bool): Outcome<Message> {
    var result :- Lookup(json, "result");
    if result != Str("fail") && result != Str("ok") then Absent
    else
      var id :- UIntField(json, "id");
      Got(if client then ClientSubscribeResult(true, id) else ViewerSubscribeResult(true, id))
  }

  /** `ParseJsonMessage` after the text has been read. */
  function ParseValueMessage(root: Value): Outcome<Message> {
    var tag :- Lookup(root, "type");
    match tag
    case Null => Absent
    case Bool(_) => Absent
    case Str(s) =>
      if s == "CLI_SUB_REQUEST" then Got(ClientSubscribeRequest)
      else if s == "CLI_SUB_RESULT" then ParseResult(root, true)
      else if s == "VIEW_SUB_REQUEST" then Got(ViewerSubscribeRequest)
      else if s == "VIEW_SUB_RESULT" then ParseResult(root, false)
      else if s == "STATE" then ParseFieldState(root)
      else if s == "TURN" then ParseTurn(root)
      else if s == "FINISH" then Got(Finish)
      else Absent
    case _ => Aborted
  }

  /** `ParseJsonMessage` as a function of the text. */
  function ParseText(data: string): Outcome<Message> {
    var r := ParseDocument(data, Null, Features(true, false));
    if r.ok then ParseValueMessage(r.value) else Absent
  }

  // ---------------------------------------------------------------- which texts abort

  /** `isMember` may be asked of it. */
  predicate Askable(v: Value) { v.Null? || v.Obj? }

  /** `asString` fails on it. */
  predicate NoText(v: Value) { v.Int? || v.UInt? || v.Real? || v.Arr? || v.Obj? }

  /** The first element that is not read as a player may not be asked for its members. */
  ghost predicate PlayersAbort(vs: seq<Value>, radius: Double) {
    exists k :: 0 <= k < |vs| && !Askable(vs[k]) && forall j :: 0 <= j < k ==> ParsePlayer(vs[j], radius).Got?
  }

  ghost predicate CoinsAbort(vs: seq<Value>, radius: Double) {
    exists k :: 0 <= k < |vs| && !Askable(vs[k]) && forall j :: 0 <= j < k ==> ParseCoin(vs[j], radius).Got?
  }

  /** A state with all its numbers, in whose list of players, or behind good players in whose list of coins,
      the first bad element may not be asked for its members. */
  ghost predicate StateAborts(json: Value) {
    var playerRadius, coinRadius := DoubleField(json, "player_radius"), DoubleField(json, "coin_radius");
    var players, coins := ArrayField(json, "players"), ArrayField(json, "coins");
    UIntField(json, "state_id").Got? && DoubleField(json, "field_radius").Got? && playerRadius.Got? && coinRadius.Got?
    && DoubleField(json, "time_delta").Got? && DoubleField(json, "velocity_max").Got? && players.Got?
    && (PlayersAbort(players.value, playerRadius.value)
        || (ParsePlayers(players.value, playerRadius.value).Got? && coins.Got? && CoinsAbort(coins.value, coinRadius.value)))
  }

  /** Parsing the message fails an assertion: the root is neither null nor an object, its type is a number or
      a container, or it is such a state. */
  ghost predicate Aborts(root: Value) {
    !Askable(root)
    || match Lookup(root, "type")
       case Got(tag) => NoText(tag) || (tag == Str("STATE") && StateAborts(root))
       case _ => false
  }

  lemma FieldsNeverAbort(json: Value, key: string)
    requires Askable(json)
    ensures UIntField(json, key) != Aborted && DoubleField(json, key) != Aborted && ArrayField(json, key) != Aborted
  {
    hide Get;
  }

  lemma PlayerAbortsExactlyWhen(v: Value, radius: Double)
    ensures ParsePlayer(v, radius) == Aborted <==> !Askable(v)
    ensures ParseCoin(v, radius) == Aborted <==> !Askable(v)
  {
    hide UIntField, DoubleField;
    if Askable(v) {
      FieldsNeverAbort(v, "id");
      FieldsNeverAbort(v, "x");
      FieldsNeverAbort(v, "y");
      FieldsNeverAbort(v, "v_x");
      FieldsNeverAbort(v, "v_y");
      FieldsNeverAbort(v, "score");
      FieldsNeverAbort(v, "value");
    } else {
      assert UIntField(v, "id") == Aborted && DoubleField(v, "x") == Aborted by { NotAskable(v); }
    }
  }

  lemma NotAskable(v: Value)
    requires !Askable(v)
    ensures forall key: string :: UIntField(v, key) == Aborted && DoubleField(v, key) == Aborted
  {}

  lemma {:induction false} PlayersAbortExactlyWhen(vs: seq<Value>, radius: Double)
    ensures ParsePlayers(vs, radius) == Aborted <==> PlayersAbort(vs, radius)
  {
    hide ParsePlayer;
    if vs != [] {
      PlayerAbortsExactlyWhen(vs[0], radius);
      PlayersAbortExactlyWhen(vs[1..], radius);
      if ParsePlayer(vs[0], radius).Got? {
        if k :| 0 <= k < |vs[1..]| && !Askable(vs[1..][k]) && forall j :: 0 <= j < k ==> ParsePlayer(vs[1..][j], radius).Got? {
          assert forall j :: 0 <= j < k + 1 ==> ParsePlayer(vs[j], radius).Got? by {
            assert forall j :: 1 <= j < k + 1 ==> vs[j] == vs[1..][j - 1];
          }
          assert !Askable(vs[k + 1]);
        }
        if k :| 0 <= k < |vs| && !Askable(vs[k]) && forall j :: 0 <= j < k ==> ParsePlayer(vs[j], radius).Got? {
          assert vs[1..][k - 1] == vs[k];
          assert forall j :: 0 <= j < k - 1 ==> vs[1..][j] == vs[j + 1];
        }
      }
    }
  }

  lemma {:induction false} CoinsAbortExactlyWhen(vs: seq<Value>, radius: Double)
    ensures ParseCoins(vs, radius) == Aborted <==> CoinsAbort(vs, radius)
  {
    hide ParseCoin;
    if vs != [] {
      PlayerAbortsExactlyWhen(vs[0], radius);
      CoinsAbortExactlyWhen(vs[1..], radius);
      if ParseCoin(vs[0], radius).Got? {
        if k :| 0 <= k < |vs[1..]| && !Askable(vs[1..][k]) && forall j :: 0 <= j < k ==> ParseCoin(vs[1..][j], radius).Got? {
          assert forall j :: 0 <= j < k + 1 ==> ParseCoin(vs[j], radius).Got? by {
            assert forall j :: 1 <= j < k + 1 ==> vs[j] == vs[1..][j - 1];
          }
          assert !Askable(vs[k + 1]);
        }
        if k :| 0 <= k < |vs| && !Askable(vs[k]) && forall j :: 0 <= j < k ==> ParseCoin(vs[j], radius).Got? {
          assert vs[1..][k - 1] == vs[k];
          assert forall j :: 0 <= j < k - 1 ==> vs[1..][j] == vs[j + 1];
        }
      }
    }
  }

  lemma StateAbortsExactlyWhen(json: Value)
    requires Askable(json)
    ensures ParseFieldState(json) == Aborted <==> StateAborts(json)
  {
    hide UIntField, DoubleField, ArrayField, ParsePlayers, ParseCoins, PlayersAbort, CoinsAbort;
    FieldsNeverAbort(json, "state_id");
    FieldsNeverAbort(json, "field_radius");
    FieldsNeverAbort(json, "player_radius");
    FieldsNeverAbort(json, "coin_radius");
    FieldsNeverAbort(json, "time_delta");
    FieldsNeverAbort(json, "velocity_max");
    FieldsNeverAbort(json, "players");
    FieldsNeverAbort(json, "coins");
    var playerRadius, coinRadius := DoubleField(json, "player_radius"), DoubleField(json, "coin_radius");
    var players, coins := ArrayField(json, "players"), ArrayField(json, "coins");
    if players.Got? && playerRadius.Got? { PlayersAbortExactlyWhen(players.value, playerRadius.value); }
    if coins.Got? && coinRadius.Got? { CoinsAbortExactlyWhen(coins.value, coinRadius.value); }
  }

  lemma OthersNeverAbort(json: Value)
    requires Askable(json)
    ensures ParseTurn(json) != Aborted && ParseResult(json, true) != Aborted && ParseResult(json, false) != Aborted
  {
    hide UIntField, DoubleField, Get;
    FieldsNeverAbort(json, "state_id");
    FieldsNeverAbort(json, "id");
    FieldsNeverAbort(json, "a_x");
    FieldsNeverAbort(json, "a_y");
  }

  lemma ParseAbortsExactlyWhen(root: Value)
    ensures ParseValueMessage(root) == Aborted <==> Aborts(root)
  {
    hide ParseFieldState, ParseTurn, ParseResult, StateAborts;
    if Askable(root) {
      StateAbortsExactlyWhen(root);
      OthersNeverAbort(root);
    }
  }

  /** A text ends the process that parses it exactly when the reader accepts it and its value is one of
      those. */
  lemma TextAbortsExactlyWhen(data: string)
    ensures var r := ParseDocument(data, Null, Features(true, false));
            ParseText(data) == Aborted <==> r.ok && Aborts(r.value)
  {
    hide ParseDocument, ParseValueMessage, Aborts;
    var r := ParseDocument(data, Null, Features(true, false));
    ParseAbortsExactlyWhen(r.value);
  }

  /** An empty array, and a message whose type is a number. */
  lemma SomeTextsAbort(t: string)
    ensures ParseText(FastDocument(Arr([])) + t) == Aborted
    ensures ParseText(FastDocument(Obj([Member("type", Int(1))])) + t) == Aborted
  {
    hide ParseDocument, FastText, IsLiteral;
    ReaderUndoesPrinters(Arr([]), t, Null, Features(true, false));
    ReaderUndoesPrinters(Obj([Member("type", Int(1))]), t, Null, Features(true, false));
    NumberedType();
  }

  lemma NumberedType()
    ensures Norm(Arr([])) == Arr([]) && Aborts(Arr([])) && ParseValueMessage(Arr([])) == Aborted
    ensures var v := Obj([Member("type", Int(1))]); Norm(v) == v && ParseValueMessage(v) == Aborted
  {
    var ms := [Member("type", Int(1))];
    assert ms[1..] == [];
    assert NormMembers(ms) == [Member("type", NormInt(1))] + [];
  }

  /** The loop that fills the players of a field state. */
  method FillPlayers(vs: seq<Value>, radius: Double) returns (r: Outcome<seq<Player>>)
    ensures r == ParsePlayers(vs, radius)
  {
    hide ParsePlayer;
    var players: seq<Player> := [];
    var index := 0;
    assert vs[0..] == vs && forall ps: seq<Player> :: players + ps == ps;
    while index < |vs|
      invariant 0 <= index <= |vs|
      invariant ParsePlayers(vs, radius) == match ParsePlayers(vs[index..], radius)
                                            case Got(ps) => Got(players + ps)
                                            case other => other
    {
      assert vs[index..][1..] == vs[index + 1..];
      var p := ParsePlayer(vs[index], radius);
      if p.IsFailure() { return p.PropagateFailure(); }
      ghost var before := players;
      players := players + [p.value];
      index := index + 1;
      assert forall ps: seq<Player> :: before + ([p.value] + ps) == players + ps;
    }
    assert players + [] == players;
    return Got(players);
  }

  /** The loop that fills the coins of a field state. */
  method FillCoins(vs: seq<Value>, radius: Double) returns (r: Outcome<seq<Coin>>)
    ensures r == ParseCoins(vs, radius)
  {
    hide ParseCoin;
    var coins: seq<Coin> := [];
    var index := 0;
    assert vs[0..] == vs && forall cs: seq<Coin> :: coins + cs == cs;
    while index < |vs|
      invariant 0 <= index <= |vs|
      invariant ParseCoins(vs, radius) == match ParseCoins(vs[index..], radius)
                                          case Got(cs) => Got(coins + cs)
                                          case other => other
    {
      assert vs[index..][1..] == vs[index + 1..];
      var c := ParseCoin(vs[index], radius);
      if c.IsFailure() { return c.PropagateFailure(); }
      ghost var before := coins;
      coins := coins + [c.value];
      index := index + 1;
      assert forall cs: seq<Coin> :: before + ([c.value] + cs) == coins + cs;
    }
    assert coins + [] == coins;
    return Got(coins);
  }

  /** `ParseFieldStateMessage`, field by field. */
  method ParseFieldStateMessage(json: Value) returns (r: Outcome<Message>)
    ensures r == ParseFieldState(json)
  {
    hide UIntField, DoubleField, ArrayField, ParsePlayers, ParseCoins;
    var id := UIntField(json, "state_id");
    if id.IsFailure() { return id.PropagateFailure(); }
    var radius := DoubleField(json, "field_radius");
    if radius.IsFailure() { return radius.PropagateFailure(); }
    var playerRadius := DoubleField(json, "player_radius");
    if playerRadius.IsFailure() { return playerRadius.PropagateFailure(); }
    var coinRadius := DoubleField(json, "coin_radius");
    if coinRadius.IsFailure() { return coinRadius.PropagateFailure(); }
    var timeDelta := DoubleField(json, "time_delta");
    if timeDelta.IsFailure() { return timeDelta.PropagateFailure(); }
    var velocityMax := DoubleField(json, "velocity_max");
    if velocityMax.IsFailure() { return velocityMax.PropagateFailure(); }
    var players := ArrayField(json, "players");
    if players.IsFailure() { return players.PropagateFailure(); }
    var ps := FillPlayers(players.value, playerRadius.value);
    if ps.IsFailure() { return ps.PropagateFailure(); }
    var coins := ArrayField(json, "coins");
    if coins.IsFailure() { return coins.PropagateFailure(); }
    var cs := FillCoins(coins.value, coinRadius.value);
    if cs.IsFailure() { return cs.PropagateFailure(); }
    return Got(FieldStateMessage(FieldState(id.value, radius.value, timeDelta.value, velocityMax.value, ps.value, cs.value)));
  }

  /** `ParseJsonMessage`. */
  method ParseJsonMessage(data: string) returns (r: Outcome<Message>)
    ensures r == ParseText(data)
  {
    hide ParseDocument, ParseResult, ParseFieldState, ParseTurn;
    var reader := new Reader(Features(true, false));
    var ok, root := reader.Parse(data, Null);
    if !ok { return Absent; }
    match Lookup(root, "type") {
      case Got(Str("STATE")) => r := ParseFieldStateMessage(root);
      case _ => r := ParseValueMessage(root);
    }
  }

  // ---------------------------------------------------------------- parsing what was built

  function SameRadius(ps: seq<Player>, radius: Double): seq<Player> {
    if ps == [] then [] else [ps[0].(radius := radius)] + SameRadius(ps[1..], radius)
  }

  function SameCoinRadius(cs: seq<Coin>, radius: Double): seq<Coin> {
    if cs == [] then [] else [cs[0].(radius := radius)] + SameCoinRadius(cs[1..], radius)
  }

  /** What arrives of a message: a refusal is lost, state ids are cut to 32 bits, and everyone has
      the radius of the first in the list. */
  function Transmit(m: Message): Outcome<Message> {
    match m
    case ClientSubscribeResult(false, _) => Absent
    case ViewerSubscribeResult(false, _) => Absent
    case FieldStateMessage(s) =>
      Got(FieldStateMessage(s.(id := s.id % 0x1_0000_0000,
                               players := if s.players == [] then [] else SameRadius(s.players, s.players[0].radius),
                               coins := if s.coins == [] then [] else SameCoinRadius(s.coins, s.coins[0].radius))))
    case TurnMessage(t) => Got(TurnMessage(t.(stateId := t.stateId % 0x1_0000_0000)))
    case _ => Got(m)
  }

  /** The messages that arrive as they were sent. */
  predicate Faithful(m: Message) {
    match m
    case ClientSubscribeResult(result, _) => result
    case ViewerSubscribeResult(result, _) => result
    case FieldStateMessage(s) =>
      && s.id < 0x1_0000_0000
      && (forall k :: 0 <= k < |s.players| ==> s.players[k].radius == s.players[0].radius)
      && (forall k :: 0 <= k < |s.coins| ==> s.coins[k].radius == s.coins[0].radius)
    case TurnMessage(t) => t.stateId < 0x1_0000_0000
    case _ => true
  }

  lemma {:induction false} SameRadiusAt(ps: seq<Player>, radius: Double)
    ensures |SameRadius(ps, radius)| == |ps|
    ensures forall k :: 0 <= k < |ps| ==> SameRadius(ps, radius)[k] == ps[k].(radius := radius)
  {
    if ps != [] { SameRadiusAt(ps[1..], radius); }
  }

  lemma {:induction false} SameCoinRadiusAt(cs: seq<Coin>, radius: Double)
    ensures |SameCoinRadius(cs, radius)| == |cs|
    ensures forall k :: 0 <= k < |cs| ==> SameCoinRadius(cs, radius)[k] == cs[k].(radius := radius)
  {
    if cs != [] { SameCoinRadiusAt(cs[1..], radius); }
  }

  lemma SamePlayers(ps: seq<Player>)
    requires ps != []
    ensures SameRadius(ps, ps[0].radius) == ps <==> forall k :: 0 <= k < |ps| ==> ps[k].radius == ps[0].radius
  {
    var qs := SameRadius(ps, ps[0].radius);
    SameRadiusAt(ps, ps[0].radius);
    if qs == ps {
      forall k | 0 <= k < |ps| ensures ps[k].radius == ps[0].radius { assert qs[k] == ps[k]; }
    }
  }

  lemma SameCoins(cs: seq<Coin>)
    requires cs != []
    ensures SameCoinRadius(cs, cs[0].radius) == cs <==> forall k :: 0 <= k < |cs| ==> cs[k].radius == cs[0].radius
  {
    var ds := SameCoinRadius(cs, cs[0].radius);
    SameCoinRadiusAt(cs, cs[0].radius);
    if ds == cs {
      forall k | 0 <= k < |cs| ensures cs[k].radius == cs[0].radius { assert ds[k] == cs[k]; }
    }
  }

  /** A message arrives unchanged exactly when it is faithful. */
  lemma TransmitIsIdentity(m: Message)
    ensures Transmit(m) == Got(m) <==> Faithful(m)
  {
    if m.FieldStateMessage? {
      if m.state.players != [] { SamePlayers(m.state.players); }
      if m.state.coins != [] { SameCoins(m.state.coins); }
    }
  }

  lemma {:induction false} GetNorm(ms: seq<Member>, key: string)
    ensures Get(NormMembers(ms), key) ==
            match Get(ms, key) case Some(v) => Some(Norm(v)) case None => None
  {
    if ms != [] { GetNorm(ms[1..], key); }
  }

  /** A member written is found again after the round trip through text. */
  lemma NormLookup(v: Value, fields: map<string, Value>, key: string)
    requires Represents(v, fields)
    ensures Lookup(Norm(v), key) == if key in fields then Got(Norm(fields[key])) else Absent
  {
    GetNorm(v.members, key);
  }

  /** An identifier survives even where the integer has come back as a literal. */
  lemma UIntSurvives(u: nat)
    requires u <= UINT_MAX
    ensures AsUInt(Norm(UInt(u))) == Got(u)
  {
    hide LiteralValue, IntText;
    NormIntKeepsValue(u);
  }

  lemma FieldSurvives(v: Value, fields: map<string, Value>, key: string)
    requires Represents(v, fields) && key in fields
    ensures fields[key].UInt? && fields[key].u <= UINT_MAX ==> UIntField(Norm(v), key) == Got(fields[key].u)
    ensures fields[key].Real? ==> DoubleField(Norm(v), key) == Got(fields[key].literal)
    ensures fields[key].Int? ==> DoubleField(Norm(v), key).Got?
  {
    hide Represents, Lookup, NormInt, AsUInt;
    NormLookup(v, fields, key);
    if fields[key].UInt? && fields[key].u <= UINT_MAX {
      UIntSurvives(fields[key].u);
    }
    if fields[key].Int? { NormIntIsNumber(fields[key].i); }
  }

  lemma NormIntIsNumber(i: int)
    ensures AsDouble(NormInt(i)).Got?
  {}

  lemma PlayerSurvives(v: Value, p: Player, radius: Double)
    requires Represents(v, PlayerFields(p)) && p.id <= UINT_MAX
    ensures ParsePlayer(Norm(v), radius) == Got(p.(radius := radius))
  {
    hide Represents, UIntField, DoubleField;
    var f := PlayerFields(p);
    FieldSurvives(v, f, "id");
    FieldSurvives(v, f, "x");
    FieldSurvives(v, f, "y");
    FieldSurvives(v, f, "v_x");
    FieldSurvives(v, f, "v_y");
    FieldSurvives(v, f, "score");
  }

  lemma CoinSurvives(v: Value, c: Coin, radius: Double)
    requires Represents(v, CoinFields(c))
    ensures ParseCoin(Norm(v), radius) == Got(c.(radius := radius))
  {
    hide Represents, UIntField, DoubleField;
    var f := CoinFields(c);
    FieldSurvives(v, f, "x");
    FieldSurvives(v, f, "y");
    FieldSurvives(v, f, "value");
  }

  lemma {:induction false} PlayersSurvive(vs: seq<Value>, ps: seq<Player>, radius: Double)
    requires |vs| == |ps| && ValidPlayers(ps)
    requires forall k :: 0 <= k < |ps| ==> Represents(vs[k], PlayerFields(ps[k]))
    ensures ParsePlayers(NormElems(vs), radius) == Got(SameRadius(ps, radius))
  {
    hide Represents, PlayerFields, ParsePlayer, Norm, IsRealText;
    if ps != [] {
      PlayerSurvives(vs[0], ps[0], radius);
      assert NormElems(vs)[1..] == NormElems(vs[1..]);
      forall k | 0 <= k < |ps[1..]| ensures Represents(vs[1..][k], PlayerFields(ps[1..][k])) {
        assert vs[1..][k] == vs[k + 1] && ps[1..][k] == ps[k + 1];
      }
      PlayersSurvive(vs[1..], ps[1..], radius);
    }
  }

  lemma {:induction false} CoinsSurvive(vs: seq<Value>, cs: seq<Coin>, radius: Double)
    requires |vs| == |cs|
    requires forall k :: 0 <= k < |cs| ==> Represents(vs[k], CoinFields(cs[k]))
    ensures ParseCoins(NormElems(vs), radius) == Got(SameCoinRadius(cs, radius))
  {
    hide Represents, CoinFields, ParseCoin, Norm;
    if cs != [] {
      CoinSurvives(vs[0], cs[0], radius);
      assert NormElems(vs)[1..] == NormElems(vs[1..]);
      forall k | 0 <= k < |cs[1..]| ensures Represents(vs[1..][k], CoinFields(cs[1..][k])) {
        assert vs[1..][k] == vs[k + 1] && cs[1..][k] == cs[k + 1];
      }
      CoinsSurvive(vs[1..], cs[1..], radius);
    }
  }

  lemma ListsSurvive(v: Value, s: FieldState, players: Value, coins: Value, playerRadius: Double, coinRadius: Double)
    requires RepresentsPlayers(players, s.players) && RepresentsCoins(coins, s.coins) && ValidPlayers(s.players)
    requires Represents(v, StateFields(s, players, coins))
    ensures ArrayField(Norm(v), "players").Got?
    ensures ParsePlayers(ArrayField(Norm(v), "players").value, playerRadius) == Got(SameRadius(s.players, playerRadius))
    ensures ArrayField(Norm(v), "coins").Got?
    ensures ParseCoins(ArrayField(Norm(v), "coins").value, coinRadius) == Got(SameCoinRadius(s.coins, coinRadius))
  {
    hide Represents, Lookup, PlayerFields, CoinFields, ValidPlayer, WellFormed, ParsePlayer, ParseCoin;
    NormLookup(v, StateFields(s, players, coins), "players");
    NormLookup(v, StateFields(s, players, coins), "coins");
    if s.players != [] { PlayersSurvive(players.elems, s.players, playerRadius); }
    if s.coins != [] { CoinsSurvive(coins.elems, s.coins, coinRadius); }
  }

  lemma StateSurvives(v: Value, s: FieldState, players: Value, coins: Value)
    requires RepresentsPlayers(players, s.players) && RepresentsCoins(coins, s.coins) && ValidPlayers(s.players)
    requires Represents(v, StateFields(s, players, coins))
    ensures ParseFieldState(Norm(v)) == Transmit(FieldStateMessage(s))
  {
    hide Represents, UIntField, DoubleField, ArrayField, ParsePlayers, ParseCoins, RepresentsPlayers, RepresentsCoins,
      ValidPlayers, Norm;
    var f := StateFields(s, players, coins);
    FieldSurvives(v, f, "state_id");
    FieldSurvives(v, f, "field_radius");
    FieldSurvives(v, f, "player_radius");
    FieldSurvives(v, f, "coin_radius");
    FieldSurvives(v, f, "time_delta");
    FieldSurvives(v, f, "velocity_max");
    var pr, cr := DoubleField(Norm(v), "player_radius").value, DoubleField(Norm(v), "coin_radius").value;
    ListsSurvive(v, s, players, coins, pr, cr);
  }

  /** Parsing the JSON value of any message, after its trip through text, gives what `Transmit`
      says. */
  lemma ParseInvertsBuild(v: Value, m: Message)
    requires ValidMessage(m) && RepresentsMessage(v, m)
    ensures ParseValueMessage(Norm(v)) == Transmit(m)
  {
    hide Represents, UIntField, DoubleField, Norm, ParseFieldState, Lookup, ValidPlayers, ValidCoins, IsRealText,
      RepresentsPlayers, RepresentsCoins;
    match m
    case FieldStateMessage(s) =>
      var players: Value, coins: Value :| RepresentsPlayers(players, s.players) && RepresentsCoins(coins, s.coins)
                                          && Represents(v, StateFields(s, players, coins));
      TypeSurvives(v, StateFields(s, players, coins), "STATE");
      StateSurvives(v, s, players, coins);
    case TurnMessage(t) =>
      var f := TurnFields(t);
      TypeSurvives(v, f, "TURN");
      FieldSurvives(v, f, "state_id");
      FieldSurvives(v, f, "id");
      FieldSurvives(v, f, "a_x");
      FieldSurvives(v, f, "a_y");
    case ClientSubscribeResult(_, _) => ResultSurvives(v, m);
    case ViewerSubscribeResult(_, _) => ResultSurvives(v, m);
    case _ => TypeSurvives(v, TypeField(m), TypeName(m));
  }

  lemma TypeSurvives(v: Value, fields: map<string, Value>, name: string)
    requires Represents(v, fields) && "type" in fields && fields["type"] == Str(name)
    ensures Lookup(Norm(v), "type") == Got(Str(name))
  {
    hide Represents, Lookup;
    NormLookup(v, fields, "type");
  }

  lemma ResultSurvives(v: Value, m: Message)
    requires (m.ClientSubscribeResult? || m.ViewerSubscribeResult?) && ValidMessage(m)
    requires Represents(v, ResultFields(m))
    ensures ParseValueMessage(Norm(v)) == Transmit(m)
  {
    hide Represents, UIntField, Lookup;
    var f := ResultFields(m);
    TypeSurvives(v, f, TypeName(m));
    NormLookup(v, f, "result");
    assert Norm(f["result"]) == f["result"];
    if m.result {
      FieldSurvives(v, f, "id");
    } else {
      NoField(v, f, "id");
    }
  }

  lemma NoField(v: Value, fields: map<string, Value>, key: string)
    requires Represents(v, fields) && key !in fields
    ensures UIntField(Norm(v), key) == Absent
  {
    NormLookup(v, fields, key);
  }

  /** The text of a message, whatever follows it, parses to what `Transmit` says. */
  lemma ParseTextOfMessage(json: Value, m: Message, t: string)
    requires ValidMessage(m) && RepresentsMessage(json, m)
    ensures ParseText(FastDocument(json) + t) == Transmit(m)
  {
    hide RepresentsMessage, ParseDocument, ParseValueMessage, Transmit, FastDocument, StyledDocument, WellFormed, Norm;
    MessageWellFormed(json, m);
    ReaderUndoesPrinters(json, t, Null, Features(true, false));
    ParseInvertsBuild(json, m);
  }
}
