/** Messages over a connection: text, frames and chunks together. */
module Wire {
  import opened JsonValue
  import opened JsonText
  import Messages
  import Framing
  import Streams

  /** The texts of `messages`, as `BuildJsonMessage` writes them. */
  ghost predicate Texts(messages: seq<Messages.Message>, jsons: seq<Value>, bodies: seq<string>) {
    |messages| == |jsons| == |bodies|
    && forall k :: 0 <= k < |messages| ==>
         Messages.ValidMessage(messages[k]) && Messages.RepresentsMessage(jsons[k], messages[k])
         && bodies[k] == FastDocument(jsons[k])
  }

  /** Messages that are written, framed, sent in any pieces, unframed, terminated with a NUL (as
      the request handler does) and parsed arrive all, in order, and unchanged exactly when they
      are faithful; the decoder is ready for the next frame. */
  lemma MessagesArrive(messages: seq<Messages.Message>, jsons: seq<Value>, bodies: seq<string>, chunks: seq<string>)
    requires Texts(messages, jsons, bodies) && Framing.Sendable(bodies)
    requires Streams.Concat(chunks) == Framing.Frames(bodies)
    ensures Framing.FeedChunks(Framing.ReadingLength(""), chunks) == (Framing.ReadingLength(""), bodies)
    ensures forall k :: 0 <= k < |messages| ==>
              Messages.ParseText(bodies[k] + "\0") == Messages.Transmit(messages[k])
    ensures forall k :: 0 <= k < |messages| ==>
              (Messages.ParseText(bodies[k] + "\0") == Messages.Got(messages[k]) <==> Messages.Faithful(messages[k]))
  {
    hide FastText, Messages.RepresentsMessage, Messages.ParseText, Messages.Transmit, Messages.Faithful;
    Framing.ChunkingIsInvisible(Framing.ReadingLength(""), chunks);
    Framing.DecoderUndoesEncoder(bodies);
    assert forall k :: 0 <= k < |bodies| ==> bodies[k] != "";
    forall k | 0 <= k < |messages|
      ensures Messages.ParseText(bodies[k] + "\0") == Messages.Transmit(messages[k])
      ensures Messages.ParseText(bodies[k] + "\0") == Messages.Got(messages[k]) <==> Messages.Faithful(messages[k])
    {
      Messages.ParseTextOfMessage(jsons[k], messages[k], "\0");
      Messages.TransmitIsIdentity(messages[k]);
    }
  }
}
