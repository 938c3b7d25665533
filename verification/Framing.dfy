/** Length-prefixed framing (src/server/protocol.hpp) on a little-endian machine with 32-bit int. */
module Framing {
  import opened Streams

  const INT_MAX := 2147483647
  const LENGTH_SIZE := 4

  /** What a decoder remembers between two bytes. A length that does not fit an int becomes a size at
      which the allocation of the buffer throws: the decoder fails, and nothing is decoded any more. */
  datatype Decoder = ReadingLength(header: string) | ReadingData(length: nat, body: string) | Failed

  predicate Consistent(d: Decoder) {
    match d
    case ReadingLength(h) => |h| < LENGTH_SIZE
    case ReadingData(n, b) => |b| < n || n == |b| == 0
    case Failed => true
  }

  function LittleEndian(s: string): nat {
    if s == [] then 0 else s[0] as int + 256 * LittleEndian(s[1..])
  }

  function AfterHeader(header: string): Decoder {
    if LittleEndian(header) > INT_MAX then Failed else ReadingData(LittleEndian(header), "")
  }

  /** Feeding bytes one at a time: the state reached and the messages delivered. A message without
      a body is delivered only when another byte arrives, which it does not consume. */
  function Feed(d: Decoder, s: string): (r: (Decoder, seq<string>))
    requires Consistent(d)
    ensures Consistent(r.0)
    decreases |s|, if d.ReadingData? && d.length == 0 then 1 else 0
  {
    if s == [] then (d, [])
    else match d
      case Failed => (Failed, [])
      case ReadingLength(h) =>
        var h' := h + [s[0]];
        Feed(if |h'| < LENGTH_SIZE then ReadingLength(h') else AfterHeader(h'), s[1..])
      case ReadingData(n, b) =>
        if n == 0 then Deliver("", Feed(ReadingLength(""), s))
        else
          var b' := b + [s[0]];
          if |b'| < n then Feed(ReadingData(n, b'), s[1..])
          else Deliver(b', Feed(ReadingLength(""), s[1..]))
  }

  function Deliver(m: string, r: (Decoder, seq<string>)): (Decoder, seq<string>) { (r.0, [m] + r.1) }

  function Then(ms: seq<string>, r: (Decoder, seq<string>)): (Decoder, seq<string>) { (r.0, ms + r.1) }

  lemma DeliverThen(m: string, ms: seq<string>, r: (Decoder, seq<string>))
    ensures Deliver(m, Then(ms, r)) == Then([m] + ms, r)
  {
    assert [m] + (ms + r.1) == [m] + ms + r.1;
  }

  lemma ThenThen(a: seq<string>, b: seq<string>, r: (Decoder, seq<string>))
    ensures Then(a, Then(b, r)) == Then(a + b, r)
  {
    assert a + (b + r.1) == a + b + r.1;
  }

  lemma ThenNothing(r: (Decoder, seq<string>))
    ensures Then([], r) == r
  {
    assert [] + r.1 == r.1;
  }

  /** However a stream is cut in two, the messages and the final state are the same. */
  lemma {:induction false} FeedSplit(d: Decoder, a: string, b: string)
    requires Consistent(d)
    ensures Feed(d, a + b) == Then(Feed(d, a).1, Feed(Feed(d, a).0, b))
    decreases |a|, if d.ReadingData? && d.length == 0 then 1 else 0
  {
    if a == [] {
      assert a + b == b;
      ThenNothing(Feed(d, b));
    } else {
      assert (a + b)[1..] == a[1..] + b;
      match d
      case Failed =>
        FeedNothing(Failed, b);
        ThenNothing(Feed(Failed, b));
      case ReadingLength(h) =>
        var h' := h + [a[0]];
        FeedSplit(if |h'| < LENGTH_SIZE then ReadingLength(h') else AfterHeader(h'), a[1..], b);
      case ReadingData(n, body) =>
        if n == 0 {
          FeedSplit(ReadingLength(""), a, b);
          var r := Feed(ReadingLength(""), a);
          DeliverThen("", r.1, Feed(r.0, b));
        } else if |body| + 1 < n {
          FeedSplit(ReadingData(n, body + [a[0]]), a[1..], b);
        } else {
          FeedSplit(ReadingLength(""), a[1..], b);
          var r := Feed(ReadingLength(""), a[1..]);
          DeliverThen(body + [a[0]], r.1, Feed(r.0, b));
        }
    }
  }

  /** Feeding a stream chunk by chunk. */
  function FeedChunks(d: Decoder, chunks: seq<string>): (Decoder, seq<string>)
    requires Consistent(d)
    decreases |chunks|
  {
    if chunks == [] then (d, [])
    else
      var r := Feed(d, chunks[0]);
      Then(r.1, FeedChunks(r.0, chunks[1..]))
  }

  /** Any division of a stream into chunks decodes like the whole stream at once. */
  lemma {:induction false} ChunkingIsInvisible(d: Decoder, chunks: seq<string>)
    requires Consistent(d)
    ensures FeedChunks(d, chunks) == Feed(d, Concat(chunks))
    decreases |chunks|
  {
    if chunks != [] {
      FeedSplit(d, chunks[0], Concat(chunks[1..]));
      ChunkingIsInvisible(Feed(d, chunks[0]).0, chunks[1..]);
    }
  }

  // ---------------------------------------------------------------- several bytes at once

  lemma {:induction false} FeedHeader(h: string, p: string, t: string)
    requires |h| < LENGTH_SIZE && p != [] && |h| + |p| <= LENGTH_SIZE
    ensures Feed(ReadingLength(h), p + t) ==
            Feed(if |h + p| < LENGTH_SIZE then ReadingLength(h + p) else AfterHeader(h + p), t)
    decreases |p|
  {
    var s := p + t;
    assert s[0] == p[0] && s[1..] == p[1..] + t;
    assert h + [p[0]] + p[1..] == h + p;
    if |p| == 1 {
      assert p == [p[0]] && p[1..] + t == t;
    } else {
      FeedHeader(h + [p[0]], p[1..], t);
    }
  }

  lemma {:induction false} FeedBody(n: nat, b: string, p: string, t: string)
    requires |b| + |p| <= n && p != []
    ensures Feed(ReadingData(n, b), p + t) ==
            if |b + p| < n then Feed(ReadingData(n, b + p), t) else Deliver(b + p, Feed(ReadingLength(""), t))
    decreases |p|
  {
    var s := p + t;
    assert s[0] == p[0] && s[1..] == p[1..] + t;
    assert b + [p[0]] + p[1..] == b + p;
    if |p| == 1 {
      assert p == [p[0]] && p[1..] + t == t;
    } else {
      FeedBody(n, b + [p[0]], p[1..], t);
    }
  }

  // ---------------------------------------------------------------- the encoder

  function Bytes4(n: nat): string
    requires n < 0x1_0000_0000
  {
    [(n % 256) as char, (n / 256 % 256) as char, (n / 256 / 256 % 256) as char, (n / 256 / 256 / 256) as char]
  }

  lemma Bytes4Value(n: nat)
    requires n < 0x1_0000_0000
    ensures LittleEndian(Bytes4(n)) == n
  {
    var s := Bytes4(n);
    assert LittleEndian(s[4..]) == 0;
    assert s[3..][1..] == s[4..] && s[2..][1..] == s[3..] && s[1..][1..] == s[2..];
    assert LittleEndian(s[3..]) == n / 256 / 256 / 256;
    assert LittleEndian(s[2..]) == n / 256 / 256;
    assert LittleEndian(s[1..]) == n / 256;
  }

  /** `getResponse`: the size as an int, and the body. */
  function Frame(body: string): string { Bytes4(|body| % 0x1_0000_0000) + body }

  function Frames(ms: seq<string>): string {
    if ms == [] then "" else Frame(ms[0]) + Frames(ms[1..])
  }

  /** A frame announces its body. */
  lemma FeedFrameHeader(body: string, t: string)
    ensures Feed(ReadingLength(""), Frame(body) + t) ==
            Feed(if |body| % 0x1_0000_0000 > INT_MAX then Failed else ReadingData(|body| % 0x1_0000_0000, ""), body + t)
  {
    var header := Bytes4(|body| % 0x1_0000_0000);
    Bytes4Value(|body| % 0x1_0000_0000);
    FeedHeader("", header, body + t);
    assert "" + header == header;
    assert Frame(body) + t == header + (body + t);
  }

  predicate Sendable(ms: seq<string>) { forall k :: 0 <= k < |ms| ==> |ms[k]| <= INT_MAX }

  /** What decoding the frames of `ms` comes to: all of them in order, except that an empty body
      at the very end waits for the next byte. */
  function Received(ms: seq<string>): (Decoder, seq<string>) {
    if ms != [] && ms[|ms| - 1] == "" then (ReadingData(0, ""), ms[..|ms| - 1]) else (ReadingLength(""), ms)
  }

  /** The decoder undoes the encoder. */
  lemma {:induction false} DecoderUndoesEncoder(ms: seq<string>)
    requires Sendable(ms)
    ensures Feed(ReadingLength(""), Frames(ms)) == Received(ms)
  {
    if ms != [] {
      var m, rest := ms[0], ms[1..];
      FeedFrameHeader(m, Frames(rest));
      DecoderUndoesEncoder(rest);
      assert ms == [m] + rest;
      if m != [] {
        FeedBody(|m|, "", m, Frames(rest));
        assert "" + m == m;
        ReceivedCons(m, rest);
      } else if rest == [] {
        assert "" + Frames(rest) == "";
        assert ms[..0] == [];
      } else {
        assert "" + Frames(rest) == Frames(rest);
        assert Frames(rest)[0] == Frame(rest[0])[0];
        ReceivedCons(m, rest);
      }
    }
  }

  lemma ReceivedCons(m: string, rest: seq<string>)
    requires m != "" || rest != []
    ensures Received([m] + rest) == Deliver(m, Received(rest))
  {
    var ms := [m] + rest;
    if rest != [] {
      assert ms[|ms| - 1] == rest[|rest| - 1];
      assert ms[..|ms| - 1] == [m] + rest[..|rest| - 1];
    }
  }

  /** One frame delivers exactly its body if and only if that is not empty and shorter than 2^31. */
  lemma OneFrame(body: string)
    ensures Feed(ReadingLength(""), Frame(body)) == (ReadingLength(""), [body]) <==> 0 < |body| <= INT_MAX
  {
    var n := |body| % 0x1_0000_0000;
    FeedFrameHeader(body, "");
    assert Frame(body) + "" == Frame(body) && body + "" == body;
    if n <= INT_MAX && body != [] {
      if n > 0 {
        FeedBody(n, "", body[..n], body[n..]);
        assert body[..n] + body[n..] == body && "" + body[..n] == body[..n];
        if |body| == n {
          assert body[..n] == body && body[n..] == "";
          assert [body] + [] == [body];
        }
        assert Feed(ReadingLength(""), Frame(body)).1[0] == body[..n];
      } else {
        assert Feed(ReadingLength(""), Frame(body)).1[0] == "";
      }
    }
  }

  // ---------------------------------------------------------------- the decoder as it is

  datatype Mode = Length | Data

  class InputLengthPrefixedProtocol {
    var mode: Mode
    var messageLength: nat
    var readLength: nat
    var buffer: array<char>
    var broken: bool
    /** What has been handed to the request handler. */
    var handled: seq<string>

    constructor ()
      ensures Valid() && fresh(buffer)
      ensures State() == ReadingLength("") && handled == []
    {
      mode, messageLength, readLength, broken, handled := Length, LENGTH_SIZE, 0, false, [];
      buffer := new char[LENGTH_SIZE](_ => '\0');
    }

    ghost predicate Valid()
      reads this
    {
      !broken ==> buffer.Length == messageLength && (mode == Length ==> messageLength == LENGTH_SIZE)
                  && (readLength < messageLength || (mode == Data && readLength == messageLength == 0))
    }

    /** The state of the decoder. */
    ghost function State(): (d: Decoder)
      requires Valid()
      reads this, buffer
      ensures Consistent(d)
    {
      if broken then Failed
      else if mode == Length then ReadingLength(buffer[..readLength])
      else ReadingData(messageLength, buffer[..readLength])
    }

    /** `std::copy` of the next `count` bytes of the chunk behind what has been read. */
    method CopyPortion(chunk: string, seek: nat, count: nat)
      requires Valid() && !broken && seek + count <= |chunk| && readLength + count <= messageLength
      modifies buffer
      ensures buffer[..readLength + count] == old(buffer[..readLength]) + chunk[seek..seek + count]
    {
      var k := 0;
      while k < count
        invariant 0 <= k <= count
        invariant buffer[..readLength + k] == old(buffer[..readLength]) + chunk[seek..seek + k]
      {
        buffer[readLength + k] := chunk[seek + k];
        assert chunk[seek..seek + k + 1] == chunk[seek..seek + k] + [chunk[seek + k]];
        assert buffer[..readLength + k + 1] == buffer[..readLength + k] + [buffer[readLength + k]];
        k := k + 1;
      }
    }

    /** The chunk does not complete what is being read: all of it is kept. */
    method TakeAll(chunk: string, seek: nat)
      requires Valid() && !broken && seek < |chunk| && |chunk| - seek + readLength < messageLength
      modifies `readLength, buffer
      ensures Valid()
      ensures Feed(old(State()), chunk[seek..]) == (State(), [])
    {
      ghost var before, rest := State(), chunk[seek..];
      CopyPortion(chunk, seek, |chunk| - seek);
      readLength := readLength + (|chunk| - seek);
      assert rest == chunk[seek..|chunk|] && rest + "" == rest;
      if mode == Length {
        FeedHeader(before.header, rest, "");
      } else {
        FeedBody(messageLength, before.body, rest, "");
      }
    }

    /** The chunk completes what is being read: a length or a message. */
    method CompletePart(chunk: string, seek: nat) returns (next: nat)
      requires Valid() && !broken && seek < |chunk| && |chunk| - seek + readLength >= messageLength
      modifies this, buffer
      ensures Valid() && (buffer == old(buffer) || fresh(buffer))
      ensures seek <= next <= |chunk| && old(handled) <= handled
      ensures Feed(old(State()), chunk[seek..]) == Then(handled[|old(handled)|..], Feed(State(), chunk[next..]))
      ensures !broken ==> next > seek || (old(mode == Data && messageLength == 0) && mode == Length)
    {
      ghost var before, rest := State(), chunk[seek..];
      var remainingLength := messageLength - readLength;
      CopyPortion(chunk, seek, remainingLength);
      next := seek + remainingLength;
      ghost var portion := chunk[seek..next];
      assert rest == portion + chunk[next..];
      assert buffer[..messageLength] == buffer[..];
      if mode == Length {
        FeedHeader(before.header, portion, chunk[next..]);
        var length := DecodeLength();
        if length > INT_MAX {
          broken := true;
        } else {
          mode, messageLength, readLength := Data, length, 0;
          buffer := new char[length](_ => '\0');
          assert buffer[..0] == "";
        }
        assert handled[|old(handled)|..] == [];
        ThenNothing(Feed(State(), chunk[next..]));
      } else {
        if remainingLength > 0 {
          FeedBody(messageLength, before.body, portion, chunk[next..]);
        } else {
          assert buffer[..] == "" && chunk[next..] == rest;
        }
        handled := handled + [buffer[..]];
        assert handled[|old(handled)|..] == [buffer[..]];
        mode, messageLength, readLength := Length, LENGTH_SIZE, 0;
        buffer := new char[LENGTH_SIZE](_ => '\0');
        assert buffer[..0] == "";
      }
    }

    /** `processDataChunk`: takes whole portions, and does what feeding the bytes one by one does; the result
        says whether it ends with the exception of the allocation. */
    method ProcessDataChunk(chunk: string) returns (thrown: bool)
      requires Valid()
      modifies this, buffer
      ensures Valid() && (buffer == old(buffer) || fresh(buffer))
      ensures var r := Feed(old(State()), chunk); State() == r.0 && handled == old(handled) + r.1
      ensures thrown <==> State() == Failed
    {
      hide Feed, LittleEndian, Consistent;
      ghost var all := Feed(State(), chunk);
      var seek := 0;
      assert chunk[0..] == chunk;
      ThenNothing(all);
      assert handled[|old(handled)|..] == [];
      assert handled == old(handled) + [];
      while seek < |chunk| && !broken
        invariant 0 <= seek <= |chunk| && Valid()
        invariant buffer == old(buffer) || fresh(buffer)
        invariant old(handled) <= handled
        invariant all == Then(handled[|old(handled)|..], Feed(State(), chunk[seek..]))
        decreases !broken, |chunk| - seek, if mode == Data && messageLength == 0 then 1 else 0
      {
        ghost var sent := handled[|old(handled)|..];
        ghost var before, rest := State(), chunk[seek..];
        ghost var handledBefore := handled;
        var portionSize := |chunk| - seek;
        if portionSize + readLength < messageLength {
          TakeAll(chunk, seek);
          seek := seek + portionSize;
          assert chunk[seek..] == "";
          FeedNothing(State(), "");
        } else {
          seek := CompletePart(chunk, seek);
        }
        assert handled[|old(handled)|..] == sent + handled[|handledBefore|..];
        ThenThen(sent, handled[|handledBefore|..], Feed(State(), chunk[seek..]));
      }
      FeedNothing(State(), chunk[seek..]);
      assert handled == old(handled) + handled[|old(handled)|..];
      thrown := broken;
    }

    /** The four bytes of the buffer as a number. */
    method DecodeLength() returns (length: nat)
      requires buffer.Length == LENGTH_SIZE
      ensures length == LittleEndian(buffer[..])
    {
      length := 0;
      var k := LENGTH_SIZE;
      while k > 0
        invariant 0 <= k <= LENGTH_SIZE
        invariant length == LittleEndian(buffer[k..])
      {
        k := k - 1;
        assert buffer[k..] == [buffer[k]] + buffer[k + 1..];
        length := buffer[k] as int + 256 * length;
      }
    }
  }

  lemma FeedNothing(d: Decoder, s: string)
    requires Consistent(d) && (s == [] || d == Failed)
    ensures Feed(d, s) == (d, [])
  {}

  /** Four bytes that announce more than an int can hold. */
  lemma {:induction false} OversizedFails(header: string, rest: string)
    requires |header| == LENGTH_SIZE && LittleEndian(header) > INT_MAX
    ensures Feed(ReadingLength(""), header + rest) == (Failed, [])
  {
    FeedHeader("", header, rest);
    assert "" + header == header;
    FeedNothing(Failed, rest);
  }

  /** The four bytes in front of a body are its length, the lowest byte first. */
  lemma LengthBytes(body: string)
    requires |body| < 0x1_0000_0000
    ensures |Frame(body)| == 4 + |body| && Frame(body)[4..] == body
    ensures Frame(body)[0] as int == |body| % 0x100 && Frame(body)[1] as int == |body| / 0x100 % 0x100
    ensures Frame(body)[2] as int == |body| / 0x1_0000 % 0x100 && Frame(body)[3] as int == |body| / 0x100_0000
  {}

  /** And so the decoder reads them. */
  lemma LengthRead(header: string)
    requires |header| == LENGTH_SIZE
    ensures LittleEndian(header)
            == header[0] as int + 0x100 * header[1] as int + 0x1_0000 * header[2] as int + 0x100_0000 * header[3] as int
  {
    LowestByte(header);
    LowestByte(header[1..]);
    LowestByte(header[2..]);
    LowestByte(header[3..]);
    assert header[1..][1..] == header[2..] && header[2..][1..] == header[3..] && header[3..][1..] == "";
    assert LittleEndian("") == 0;
    hide LittleEndian;
  }

  lemma LowestByte(s: string)
    requires s != ""
    ensures LittleEndian(s) == s[0] as int + 256 * LittleEndian(s[1..])
  {
  }

  /** The frame of a body of three bytes. */
  lemma ThreeBytes()
    ensures Frame("abc") == [3 as char, 0 as char, 0 as char, 0 as char, 'a', 'b', 'c']
  {}

  /** `getResponse`: the length prefix, with the body inserted behind it. */
  method GetResponse(body: string) returns (message: string)
    ensures message == Frame(body)
  {
    var length := |body| % 0x1_0000_0000;
    message := [(length % 256) as char];
    message := message + [(length / 256 % 256) as char];
    message := message + [(length / 256 / 256 % 256) as char];
    message := message + [(length / 256 / 256 / 256) as char];
    message := message + body;
  }
}
