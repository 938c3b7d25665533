/** What the message handler makes of the body of a frame (src/server/json_message.hpp,
    src/server/message_manager.cpp). */
module Requests {
  import opened Wrappers
  import opened Streams
  import opened JsonValue
  import opened JsonNumber
  import opened JsonString
  import opened JsonText
  import Geometry
  import Physics
  import Messages
  import Framing

  /** The messages that are told apart, the null pointer that an unparsable text leaves, and a failed assertion
      while the text is parsed. */
  datatype Request = SubscribeClient | SubscribeViewer | TakeTurn(turn: Physics.Turn) | OtherRequest | NoMessage | Throws

  function RequestOf(text: string): Request {
    match Messages.ParseText(text + "\0")
    case Aborted => Throws
    case Absent => NoMessage
    case Got(m) =>
      match m
      case ClientSubscribeRequest => SubscribeClient
      case ViewerSubscribeRequest => SubscribeViewer
      case TurnMessage(t) =>
        TakeTurn(Physics.Turn(t.playerId, t.stateId,
                              Geometry.Vector(LiteralValue(t.acceleration.x), LiteralValue(t.acceleration.y))))
      case _ => OtherRequest
  }

  /** The printed text of a turn is that turn, with the state number modulo 2^32. */
  lemma PrintedTurn(json: Value, t: Messages.Turn)
    requires Messages.ValidMessage(Messages.TurnMessage(t))
    requires Messages.RepresentsMessage(json, Messages.TurnMessage(t))
    ensures RequestOf(FastDocument(json))
            == TakeTurn(Physics.Turn(t.playerId, t.stateId % 0x1_0000_0000,
                                     Geometry.Vector(LiteralValue(t.acceleration.x), LiteralValue(t.acceleration.y))))
  {
    hide Messages.ParseText, Messages.RepresentsMessage, Messages.ValidMessage, FastDocument, LiteralValue;
    Messages.ParseTextOfMessage(json, Messages.TurnMessage(t), "\0");
  }

  /** The printed text of a subscription is that subscription, and that of the messages a server sends is none of
      the requests. */
  lemma PrintedMessage(json: Value, m: Messages.Message)
    requires Messages.ValidMessage(m) && Messages.RepresentsMessage(json, m)
    ensures m == Messages.ClientSubscribeRequest ==> RequestOf(FastDocument(json)) == SubscribeClient
    ensures m == Messages.ViewerSubscribeRequest ==> RequestOf(FastDocument(json)) == SubscribeViewer
    ensures m.FieldStateMessage? || m.Finish? ==> RequestOf(FastDocument(json)) == OtherRequest
  {
    hide Messages.ParseText, Messages.RepresentsMessage, Messages.ValidMessage, FastDocument, LiteralValue;
    Messages.ParseTextOfMessage(json, m, "\0");
  }

  // ---------------------------------------------------------------- some texts

  const SUBSCRIPTION := "{\"type\":\"CLI_SUB_REQUEST\"}\n"

  function SubscriptionValue(): Value { Obj([Member("type", Str("CLI_SUB_REQUEST"))]) }

  lemma PlainQuote(s: string)
    requires s == "type" || s == "CLI_SUB_REQUEST"
    ensures Quote(s) == "\"" + s + "\""
  {
    PlainItemsText(s);
  }

  lemma SubscriptionText()
    ensures FastDocument(SubscriptionValue()) == SUBSCRIPTION
  {
    hide Quote;
    PlainQuote("type");
    PlainQuote("CLI_SUB_REQUEST");
    var ms := [Member("type", Str("CLI_SUB_REQUEST"))];
    assert ms[1..] == [];
  }

  lemma SubscriptionRepresents()
    ensures Messages.RepresentsMessage(SubscriptionValue(), Messages.ClientSubscribeRequest)
  {
    var ms := [Member("type", Str("CLI_SUB_REQUEST"))];
    assert ms[1..] == [];
    assert forall k: string :: Get(ms, k) == if k == "type" then Some(Str("CLI_SUB_REQUEST")) else None;
  }

  /** One text that subscribes a client. */
  lemma SubscriptionSubscribes()
    ensures RequestOf(SUBSCRIPTION) == SubscribeClient && 0 < |SUBSCRIPTION| <= Framing.INT_MAX
  {
    hide Messages.ParseText, Messages.RepresentsMessage, FastDocument;
    SubscriptionText();
    SubscriptionRepresents();
    Messages.ParseTextOfMessage(SubscriptionValue(), Messages.ClientSubscribeRequest, "\0");
  }

  /** The text of an empty array ends its parser. */
  lemma EmptyArrayThrows()
    ensures RequestOf(FastDocument(Arr([]))) == Throws && FastDocument(Arr([])) == "[]\n"
  {
    hide Messages.ParseText;
    Messages.SomeTextsAbort("\0");
  }
}
