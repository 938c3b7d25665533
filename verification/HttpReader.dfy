/** Reading an HTTP request from a connection (src/web-ui-client/client_handler.cpp): the automaton
    that finds the end of the header and the loop that feeds it. The header of a request ends with an
    empty line, section 4.1 of RFC 2616. */
module HttpReader {
  import opened Wrappers
  import opened Streams

  const END := "\r\n\r\n"

  datatype State = Start | SeenCr | SeenCrlf | SeenCrlfCr | SeenCrlfCrlf

  function NextState(state: State, c: char): State {
    match state
    case Start => if c == '\r' then SeenCr else Start
    case SeenCr => if c == '\r' then SeenCr else if c == '\n' then SeenCrlf else Start
    case SeenCrlf => if c == '\r' then SeenCrlfCr else if c == '\n' then Start else Start
    case SeenCrlfCr => if c == '\r' then SeenCr else if c == '\n' then SeenCrlfCrlf else Start
    case SeenCrlfCrlf => SeenCrlfCrlf
  }

  function Scan(s: string): State {
    if s == [] then Start else NextState(Scan(s[..|s| - 1]), s[|s| - 1])
  }

  function Depth(state: State): (d: nat)
    ensures d <= 4
  {
    match state case Start => 0 case SeenCr => 1 case SeenCrlf => 2 case SeenCrlfCr => 3 case SeenCrlfCrlf => 4
  }

  /** `s` ends with the first `k` characters of the end mark. */
  predicate Ends(s: string, k: nat)
    requires k <= 4
  {
    k <= |s| && s[|s| - k..] == END[..k]
  }

  predicate NoEndBefore(s: string, bound: nat)
    requires bound <= |s|
  {
    forall n :: 0 <= n < bound ==> !Ends(s[..n], 4)
  }

  lemma EndsMore(s: string, c: char, k: nat, mark: char)
    requires k < 4 && mark == END[k]
    ensures Ends(s + [c], k + 1) <==> Ends(s, k) && c == mark
  {
    if k <= |s| {
      assert (s + [c])[|s| - k..] == s[|s| - k..] + [c];
      assert END[..k + 1] == END[..k] + [END[k]];
      assert (s[|s| - k..] + [c])[..k] == s[|s| - k..] && (END[..k] + [END[k]])[..k] == END[..k];
      assert (s[|s| - k..] + [c])[k] == c && (END[..k] + [END[k]])[k] == END[k];
    }
  }

  lemma EndsNothing(s: string)
    ensures Ends(s, 0)
  {}

  lemma EmptyEndsNowhere()
    ensures !Ends("", 1) && !Ends("", 2) && !Ends("", 3)
  {}

  lemma EndsNext(s: string, c: char)
    ensures Ends(s + [c], 1) <==> c == '\r'
    ensures Ends(s + [c], 2) <==> Ends(s, 1) && c == '\n'
    ensures Ends(s + [c], 3) <==> Ends(s, 2) && c == '\r'
    ensures Ends(s + [c], 4) <==> Ends(s, 3) && c == '\n'
  {
    hide Ends;
    EndsNothing(s);
    EndsMore(s, c, 0, '\r');
    EndsMore(s, c, 1, '\n');
    EndsMore(s, c, 2, '\r');
    EndsMore(s, c, 3, '\n');
  }

  /** Which shorter beginnings of the end mark match together with a longer one. */
  lemma EndsFewer(s: string)
    ensures Ends(s, 2) ==> !Ends(s, 1)
    ensures Ends(s, 3) ==> Ends(s, 1) && !Ends(s, 2)
  {
    hide Ends;
    EmptyEndsNowhere();
    if s != [] {
      var before, c := s[..|s| - 1], s[|s| - 1];
      assert s == before + [c];
      EndsNext(before, c);
      if before != [] {
        assert before == before[..|before| - 1] + [before[|before| - 1]];
        EndsNext(before[..|before| - 1], before[|before| - 1]);
      }
    }
  }

  /** `k` characters of the end mark match, and no more. */
  predicate LongestMatch(s: string, k: nat)
    requires k <= 4
  {
    Ends(s, k) && (k < 1 ==> !Ends(s, 1)) && (k < 2 ==> !Ends(s, 2)) && (k < 3 ==> !Ends(s, 3)) && (k < 4 ==> !Ends(s, 4))
  }

  lemma LongestStep(s: string, state: State, c: char)
    requires state != SeenCrlfCrlf && LongestMatch(s, Depth(state))
    ensures LongestMatch(s + [c], Depth(NextState(state, c)))
  {
    hide Ends;
    EndsFewer(s);
    EndsNext(s, c);
    EndsNothing(s + [c]);
  }

  lemma ScanMore(s: string, c: char)
    ensures Scan(s + [c]) == NextState(Scan(s), c)
  {
    assert (s + [c])[..|s|] == s;
  }

  /** The state is the longest beginning of the end mark that the input ends with, as long as the
      whole mark has not occurred before. */
  lemma {:induction false} StateIsLongestMatch(s: string)
    requires NoEndBefore(s, |s|)
    ensures LongestMatch(s, Depth(Scan(s)))
  {
    if s == [] {
      EndsNothing(s);
    } else {
      var before, c := s[..|s| - 1], s[|s| - 1];
      assert s == before + [c];
      assert forall n :: 0 <= n < |before| ==> before[..n] == s[..n];
      StateIsLongestMatch(before);
      assert !Ends(s[..|s| - 1], 4);
      hide Scan, Ends, NextState;
      ScanMore(before, c);
      LongestStep(before, Scan(before), c);
    }
  }

  /** The automaton accepts exactly when the end mark has occurred. */
  lemma {:induction false} AcceptsOnceEnded(s: string)
    ensures Scan(s) == SeenCrlfCrlf <==> !NoEndBefore(s, |s|) || Ends(s, 4)
  {
    if NoEndBefore(s, |s|) {
      StateIsLongestMatch(s);
    } else {
      var before := s[..|s| - 1];
      var n :| 0 <= n < |s| && Ends(s[..n], 4);
      assert s[..n] == before[..n] && (n == |before| ==> before[..n] == before);
      AcceptsOnceEnded(before);
    }
  }

  // ---------------------------------------------------------------- the read loop

  /** The inner loop over one buffer: the number of bytes used when the end is found. */
  function ReadBuffer(dfa: State, buf: string): (r: (State, Option<nat>))
    ensures r.1.Some? ==> 0 < r.1.value <= |buf|
    decreases |buf|
  {
    if buf == "" then (dfa, None) else
      var next := NextState(dfa, buf[0]);
      if next == SeenCrlfCrlf then (next, Some(1)) else
        var r := ReadBuffer(next, buf[1..]);
        (r.0, if r.1.Some? then Some(r.1.value + 1) else None)
  }

  /** The outer loop: one buffer after the other, until the end is found or the peer has closed. */
  function ReadLoop(dfa: State, result: string, chunks: seq<string>): Option<string>
    decreases |chunks|
  {
    if chunks == [] then None else
      var (next, used) := ReadBuffer(dfa, chunks[0]);
      match used
      case Some(n) => Some(result + chunks[0][..n])
      case None => ReadLoop(next, result + chunks[0], chunks[1..])
  }

  /** The shortest beginning of the stream that ends with an empty line, or nothing if there is none. */
  ghost predicate IsRequestOf(stream: string, r: Option<string>) {
    match r
    case None => NoEndBefore(stream, |stream|) && !Ends(stream, 4)
    case Some(request) => request <= stream && Ends(request, 4) && NoEndBefore(request, |request|)
  }

  lemma RequestUnique(stream: string, r: Option<string>, s: Option<string>)
    requires IsRequestOf(stream, r) && IsRequestOf(stream, s)
    ensures r == s
  {
    match (r, s)
    case (Some(v), Some(w)) => ShortestUnique(stream, v, w);
    case (Some(v), None) => HasEnd(stream, v);
    case (None, Some(w)) => HasEnd(stream, w);
    case (None, None) =>
  }

  lemma HasEnd(stream: string, request: string)
    requires request <= stream && Ends(request, 4)
    ensures !NoEndBefore(stream, |stream|) || Ends(stream, 4)
  {
    assert stream[..|request|] == request;
    if |request| == |stream| { assert request == stream; }
  }

  lemma ShortestUnique(stream: string, request: string, other: string)
    requires request <= stream && Ends(request, 4) && NoEndBefore(request, |request|)
    requires other <= stream && Ends(other, 4) && NoEndBefore(other, |other|)
    ensures request == other
  {
    if |request| <= |other| { assert other[..|request|] == request; }
    if |other| <= |request| { assert request[..|other|] == other; }
  }

  lemma FirstEnd(before: string, c: char)
    requires Scan(before + [c]) == SeenCrlfCrlf && Scan(before) != SeenCrlfCrlf
    ensures Ends(before + [c], 4) && NoEndBefore(before + [c], |before + [c]|)
  {
    hide Scan, Ends;
    var s := before + [c];
    AcceptsOnceEnded(s);
    AcceptsOnceEnded(before);
    forall n | 0 <= n < |s| ensures !Ends(s[..n], 4) {
      assert s[..n] == before[..n] && (n == |before| ==> before[..n] == before);
    }
  }

  /** One buffer, after what has been read before. */
  lemma {:induction false} BufferFinds(read: string, buf: string)
    requires Scan(read) != SeenCrlfCrlf
    ensures var r := ReadBuffer(Scan(read), buf);
            if r.1.Some? then
              Ends(read + buf[..r.1.value], 4) && NoEndBefore(read + buf[..r.1.value], |read| + r.1.value)
            else Scan(read + buf) == r.0 != SeenCrlfCrlf
    decreases |buf|
  {
    hide Ends, NoEndBefore, Scan;
    if buf == "" {
      assert read + buf == read;
    } else {
      var c := buf[0];
      ScanMore(read, c);
      if NextState(Scan(read), c) == SeenCrlfCrlf {
        FirstEnd(read, c);
        assert read + buf[..1] == read + [c];
      } else {
        BufferFinds(read + [c], buf[1..]);
        var r := ReadBuffer(Scan(read + [c]), buf[1..]);
        assert read + [c] + buf[1..] == read + buf;
        if r.1.Some? {
          assert buf[..r.1.value + 1] == [c] + buf[1..][..r.1.value];
          assert read + buf[..r.1.value + 1] == read + [c] + buf[1..][..r.1.value];
        }
      }
    }
  }

  /** The loops find the shortest request of the whole stream. */
  lemma {:induction false} LoopFinds(read: string, chunks: seq<string>)
    requires Scan(read) != SeenCrlfCrlf
    ensures IsRequestOf(read + Concat(chunks), ReadLoop(Scan(read), read, chunks))
    decreases |chunks|
  {
    hide Ends, NoEndBefore, Scan, ReadBuffer;
    if chunks == [] {
      assert read + "" == read;
      AcceptsOnceEnded(read);
    } else {
      var buf, rest := chunks[0], Concat(chunks[1..]);
      BufferFinds(read, buf);
      var r := ReadBuffer(Scan(read), buf);
      assert read + (buf + rest) == (read + buf) + rest;
      if r.1.Some? {
        assert read + buf[..r.1.value] <= read + (buf + rest);
      } else {
        LoopFinds(read + buf, chunks[1..]);
      }
    }
  }

  /** However the stream is cut, the loops read the same request from it. */
  lemma ChunkingIsInvisible(chunks: seq<string>, other: seq<string>)
    requires Concat(chunks) == Concat(other)
    ensures ReadLoop(Start, "", chunks) == ReadLoop(Start, "", other)
  {
    assert Scan("") == Start && "" + Concat(chunks) == Concat(chunks) && "" + Concat(other) == Concat(other);
    hide Scan, ReadLoop, Concat, IsRequestOf;
    LoopFinds("", chunks);
    LoopFinds("", other);
    RequestUnique(Concat(chunks), ReadLoop(Start, "", chunks), ReadLoop(Start, "", other));
  }

  /** The shortest beginning of the stream that ends with an empty line, however the stream is cut;
      nothing if the peer closes the connection before that. */
  method ReadHttpRequest(chunks: seq<string>) returns (r: Option<string>)
    ensures IsRequestOf(Concat(chunks), r)
    ensures r == ReadLoop(Start, "", chunks)
  {
    assert Scan("") == Start && "" + Concat(chunks) == Concat(chunks);
    LoopFinds("", chunks);
    hide Scan, NextState, IsRequestOf, Concat;
    var dfa := Start;
    var result := "";
    for k := 0 to |chunks|
      invariant ReadLoop(dfa, result, chunks[k..]) == ReadLoop(Start, "", chunks)
    {
      var buf := chunks[k];
      assert chunks[k..][0] == buf && chunks[k..][1..] == chunks[k + 1..];
      ghost var start := dfa;
      assert buf[0..] == buf;
      for idx := 0 to |buf|
        invariant ReadBuffer(start, buf) == Later(idx, ReadBuffer(dfa, buf[idx..]))
      {
        assert buf[idx..][1..] == buf[idx + 1..];
        dfa := NextState(dfa, buf[idx]);
        if dfa == SeenCrlfCrlf {
          return Some(result + buf[..idx + 1]);
        }
      }
      result := result + buf;
    }
    r := None;
  }

  /** The same count, `k` bytes later. */
  function Later(k: nat, r: (State, Option<nat>)): (State, Option<nat>) {
    (r.0, if r.1.Some? then Some(r.1.value + k) else None)
  }
}
