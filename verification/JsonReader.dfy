/** The recursive-descent reader (json_reader.cpp:120-815) with its cursor, node stack and error
    list, without the collection of comment texts. */
module JsonReader {
  import opened Wrappers
  import opened JsonValue
  import opened JsonNumber
  import opened JsonString
  import opened JsonLexer
  import opened JsonParser

  /** The tokens ahead, one step unfolded. */
  lemma TokensAhead(s: string)
    ensures var u := SkipSpaces(s);
            if u == [] then Tokens(s) == []
            else Tokens(s) != [] && Head(Tokens(s)) == FirstToken(u)
                 && Tail(Tokens(s)) == Tokens(u[|FirstToken(u).text|..])
  {}

  lemma PrependTwice(a: string, b: string, r: Result<string>)
    ensures Prepend(a, Prepend(b, r)) == Prepend(a + b, r)
  {
    if r.Ok? { assert a + (b + r.value) == a + b + r.value; }
  }

  lemma PrependNothing(r: Result<string>)
    ensures Prepend("", r) == r
  {
    if r.Ok? { assert "" + r.value == r.value; }
  }

  /** The value of the first `n` hexadecimal digits of `s`. */
  function HexPrefix(s: string, n: nat): nat
    requires n <= |s| && forall k :: 0 <= k < n ==> HexDigitValue(s[k]).Some?
  {
    if n == 0 then 0 else HexPrefix(s, n - 1) * 16 + HexDigitValue(s[n - 1]).value
  }

  lemma HexPrefixValue(s: string)
    requires |s| >= 4 && forall k :: 0 <= k < 4 ==> HexDigitValue(s[k]).Some?
    ensures DecodeHex4(s) == Ok(HexPrefix(s, 4))
  {
    var h := s[..4];
    assert h[0] == s[0] && h[1] == s[1] && h[2] == s[2] && h[3] == s[3];
    assert HexPrefix(s, 1) == HexDigitValue(s[0]).value;
    assert HexPrefix(s, 2) == HexPrefix(s, 1) * 16 + HexDigitValue(s[1]).value;
    assert HexPrefix(s, 3) == HexPrefix(s, 2) * 16 + HexDigitValue(s[2]).value;
    assert HexPrefix(s, 4) == HexPrefix(s, 3) * 16 + HexDigitValue(s[3]).value;
  }

  /** At the end the terminator announces the end of the stream. */
  lemma AtEnd()
    ensures KindOf('\0') == EndOfStream && ScanRest(EndOfStream, "") == (0, true) && SkipSpaces("") == ""
  {}

  /** A string token has both its quotes. */
  predicate Quoted(t: Token) { t.kind == StringToken ==> |t.text| >= 2 }

  lemma FirstTokenQuoted(u: string)
    requires u != []
    ensures Quoted(FirstToken(u))
  {}

  /** `DecodeBody`, one step unfolded. */
  lemma DecodeBodyStep(s: string)
    ensures if s == [] || s[0] == '"' then DecodeBody(s) == Ok("")
            else if s[0] != '\\' then DecodeBody(s) == Prepend([s[0]], DecodeBody(s[1..]))
            else if |s| == 1 then DecodeBody(s) == Err(EmptyEscape)
            else if s[1] != 'u' then
              match Unescape(s[1])
              case None => DecodeBody(s) == Err(BadEscape)
              case Some(c) => DecodeBody(s) == Prepend([c], DecodeBody(s[2..]))
            else
              match DecodeCodePoint(s[2..])
              case Err(e) => DecodeBody(s) == Err(e)
              case Ok(cp) => DecodeBody(s) == Prepend(CodePointToUTF8(cp.0), DecodeBody(s[2 + cp.1..]))
  {
    hide DecodeCodePoint, CodePointToUTF8, Unescape;
  }

  /** The object loop, unfolded up to the ':' after a member name. */
  lemma UnfoldName(ts: seq<Token>, ms: seq<Member>, name: string, f: Features)
    ensures var us := SkipComments(ts);
            var r := ParseMembers(ts, ms, name, f);
            if Head(us).kind == ObjectEnd && name == "" then r == Parsed(true, Obj(ms), Tail(us), [])
            else if Head(us).kind != StringToken then r == Fail(Obj(ms), Tail(us), MemberNameExpected, ObjectEnd)
            else match DecodeString(Head(us))
              case Err(e) => r == Fail(Obj(ms), Tail(us), e, ObjectEnd)
              case Ok(_) =>
                Head(Tail(us)).kind != MemberSeparator ==>
                  r == Fail(Obj(ms), Tail(Tail(us)), ColonExpected, ObjectEnd)
  {
    hide ParseValue, DecodeString;
  }

  /** How a loop goes on after one of its parts. */
  datatype Next = Closed | Failed | Named

  /** The object loop after the value `v` of a member, which makes the members `ms`: up to the comma or the
      end. */
  function AfterMember(v: Parsed, ms: seq<Member>): (Next, Parsed) {
    var ws := SkipComments(v.rest);
    if !v.ok then (Failed, Parsed(false, Obj(ms), Recover(v.rest, ObjectEnd), v.errors))
    else if Head(v.rest).kind !in {ObjectEnd, ArraySeparator, Comment} then
      (Failed, Fail(Obj(ms), Tail(v.rest), CommaOrBraceExpected, ObjectEnd))
    else (if Head(ws).kind == ObjectEnd then Closed else Named, Parsed(true, Obj(ms), Tail(ws), []))
  }

  /** The array loop after the value `v` of an element, which makes the elements `es`. */
  function AfterElement(v: Parsed, es: seq<Value>): (Next, Parsed) {
    var ws := SkipComments(v.rest);
    if !v.ok then (Failed, Parsed(false, Arr(es), Recover(v.rest, ArrayEnd), v.errors))
    else (if Head(ws).kind == ArrayEnd then Closed else Named, Parsed(true, Arr(es), Tail(ws), []))
  }

  /** The object loop, unfolded from there to the next member. */
  lemma UnfoldMember(ts: seq<Token>, ms: seq<Member>, name: string, f: Features)
    requires Head(SkipComments(ts)).kind == StringToken && DecodeString(Head(SkipComments(ts))).Ok?
    requires Head(Tail(SkipComments(ts))).kind == MemberSeparator
    ensures var newName := DecodeString(Head(SkipComments(ts))).value;
            var key := CStr(newName);
            var v := ParseValue(Tail(Tail(SkipComments(ts))), GetOrNull(ms, key), f);
            var after := AfterMember(v, Put(ms, key, v.value));
            ParseMembers(ts, ms, name, f) ==
            if after.0 == Named then ParseMembers(after.1.rest, Put(ms, key, v.value), newName, f) else after.1
  {
    hide ParseValue, DecodeString, CStr, Put, Get;
  }

  /** The array loop, unfolded to the next element. */
  lemma UnfoldElements(ts: seq<Token>, es: seq<Value>, f: Features)
    ensures var v := ParseValue(ts, Null, f);
            var after := AfterElement(v, es + [v.value]);
            ParseElements(ts, es, f) ==
            if after.0 == Named then ParseElements(after.1.rest, es + [v.value], f) else after.1
  {
    hide ParseValue;
  }

  lemma AfterMemberHas(v: Parsed, ms: seq<Member>)
    ensures AfterMember(v, ms).1.value == Obj(ms) && (AfterMember(v, ms).0 == Named ==> AfterMember(v, ms).1.errors == [])
  {}

  lemma AfterElementHas(v: Parsed, es: seq<Value>)
    ensures AfterElement(v, es).1.value == Arr(es) && (AfterElement(v, es).0 == Named ==> AfterElement(v, es).1.errors == [])
  {}

  lemma NothingAhead()
    ensures SkipComments([]) == []
  {}

  class Reader {
    var document: string
    var current: nat
    var nodes: seq<Value>
    var errors: seq<ErrorKind>
    const features: Features

    constructor (features: Features)
      ensures this.features == features && Valid()
    {
      this.features := features;
      document, current, nodes, errors := "", 0, [], [];
    }

    /** The cursor stays within the document. */
    ghost predicate Valid()
      reads `document, `current
    {
      current <= |document|
    }

    /** The characters not read yet. */
    ghost function Rest(): string
      requires Valid()
      reads `document, `current
    {
      document[current..]
    }

    /** The tokens not read yet. */
    ghost function Ahead(): seq<Token>
      requires Valid()
      reads `document, `current
    {
      Tokens(Rest())
    }

    /** `getNextChar`: NUL at the end of the document. */
    method GetNextChar() returns (c: char)
      requires Valid()
      modifies `current
      ensures Valid()
      ensures if old(current) == |document| then c == '\0' && current == old(current)
              else c == document[old(current)] && current == old(current) + 1
    {
      if current == |document| { return '\0'; }
      c := document[current];
      current := current + 1;
    }

    /** `*current_`: the terminator is there to be looked at. */
    function CurrentChar(): char
      requires Valid()
      reads `document, `current
    {
      if current < |document| then document[current] else '\0'
    }

    /** `skipSpaces`. */
    method SkipBlanks()
      requires Valid()
      modifies `current
      ensures Valid() && old(current) <= current
      ensures Rest() == SkipSpaces(old(Rest()))
    {
      while current != |document|
        invariant old(current) <= current <= |document|
        invariant SkipSpaces(Rest()) == SkipSpaces(old(Rest()))
      {
        if !IsSpace(document[current]) { break; }
        assert Rest()[1..] == document[current + 1..];
        current := current + 1;
      }
    }

    /** `match`. */
    method Match(word: string) returns (ok: bool)
      requires Valid()
      modifies `current
      ensures Valid()
      ensures (current - old(current), ok) == MatchWord(old(Rest()), word)
    {
      if |document| - current < |word| { return false; }
      var index: nat := |word|;
      while index > 0
        invariant index <= |word| && current == old(current)
        invariant forall k :: index <= k < |word| ==> document[current + k] == word[k]
      {
        index := index - 1;
        if document[current + index] != word[index] {
          assert Rest()[..|word|][index] != word[index];
          return false;
        }
      }
      assert Rest()[..|word|] == word;
      current := current + |word|;
      return true;
    }

    /** `readComment`, after the first '/'. */
    method ReadComment() returns (ok: bool)
      requires Valid()
      modifies `current
      ensures Valid() && old(current) <= current
      ensures (current - old(current), ok) == ScanComment(old(Rest()))
    {
      var c := GetNextChar();
      assert c != '\0' || old(Rest()) != [] ==> old(Rest())[1..] == Rest();
      if c == '*' {
        ok := ReadCStyleComment();
      } else if c == '/' {
        ok := ReadCppStyleComment();
      } else {
        ok := false;
      }
    }

    /** `readCStyleComment`. */
    method ReadCStyleComment() returns (ok: bool)
      requires Valid()
      modifies `current
      ensures Valid() && old(current) <= current
      ensures (current - old(current), ok) == ScanCStyle(old(Rest()))
    {
      while current != |document|
        invariant old(current) <= current <= |document|
        invariant ScanCStyle(old(Rest())).0 == current - old(current) + ScanCStyle(Rest()).0
        invariant ScanCStyle(old(Rest())).1 == ScanCStyle(Rest()).1
      {
        ghost var rest := Rest();
        var c := GetNextChar();
        assert rest[1..] == Rest();
        if c == '*' && CurrentChar() == '/' { break; }
      }
      var c := GetNextChar();
      return c == '/';
    }

    /** `readCppStyleComment`. */
    method ReadCppStyleComment() returns (ok: bool)
      requires Valid()
      modifies `current
      ensures Valid() && old(current) <= current
      ensures ok && current - old(current) == ScanCppStyle(old(Rest()))
    {
      while current != |document|
        invariant old(current) <= current <= |document|
        invariant ScanCppStyle(old(Rest())) == current - old(current) + ScanCppStyle(Rest())
      {
        ghost var rest := Rest();
        var c := GetNextChar();
        assert rest[1..] == Rest();
        if c == '\r' || c == '\n' { return true; }
      }
      return true;
    }

    /** `readNumber`. */
    method ReadNumber()
      requires Valid()
      modifies `current
      ensures Valid() && current == old(current) + NumberRun(old(Rest()))
    {
      while current != |document|
        invariant old(current) <= current <= |document|
        invariant NumberRun(old(Rest())) == current - old(current) + NumberRun(Rest())
      {
        if !IsNumberChar(document[current]) { break; }
        assert Rest()[1..] == document[current + 1..];
        current := current + 1;
      }
    }

    /** `readString`, after the opening quote. */
    method ReadString() returns (ok: bool)
      requires Valid()
      modifies `current
      ensures Valid() && old(current) <= current
      ensures (current - old(current), ok) == ScanString(old(Rest()))
    {
      var c := '\0';
      while current != |document|
        invariant old(current) <= current <= |document| && c != '"'
        invariant ScanString(old(Rest())).0 == current - old(current) + ScanString(Rest()).0
        invariant ScanString(old(Rest())).1 == ScanString(Rest()).1
      {
        ghost var rest := Rest();
        c := GetNextChar();
        assert rest[1..] == Rest();
        if c == '\\' {
          var _ := GetNextChar();
          assert |rest| > 1 ==> rest[2..] == Rest();
        } else if c == '"' {
          break;
        }
      }
      return c == '"';
    }

    /** The cases of `readToken`: how a token goes on after its first character. */
    method ReadTokenRest(kind: Kind) returns (ok: bool)
      requires Valid()
      modifies `current
      ensures Valid() && old(current) <= current
      ensures (current - old(current), ok) == ScanRest(kind, old(Rest()))
    {
      hide ScanString, ScanComment, NumberRun, MatchWord;
      ok := true;
      match kind {
        case StringToken => ok := ReadString();
        case Comment => ok := ReadComment();
        case NumberToken => ReadNumber();
        case TrueToken => ok := Match("rue");
        case FalseToken => ok := Match("alse");
        case NullToken => ok := Match("ull");
        case ErrorToken => ok := false;
        case _ =>
      }
    }

    /** `readToken`: takes the first of the tokens ahead. */
    method ReadToken() returns (token: Token)
      requires Valid()
      modifies `current
      ensures Valid() && old(current) <= current
      ensures token == Head(old(Ahead())) && Ahead() == Tail(old(Ahead()))
      ensures old(Ahead()) != [] ==> old(current) < current
      ensures Quoted(token)
    {
      hide Tokens, ScanRest, KindOf, SkipSpaces;
      TokensAhead(Rest());
      SkipBlanks();
      ghost var u := Rest();
      var start := current;
      var c := GetNextChar();
      if u == [] {
        AtEnd();
      } else {
        assert u[0] == c && u[1..] == Rest();
      }
      var kind := KindOf(c);
      var ok := ReadTokenRest(kind);
      token := Token(if ok then kind else ErrorToken, document[start..current]);
      if u == [] {
        TokensAhead(Rest());
      } else {
        assert u[..current - start] == document[start..current];
        assert token == FirstToken(u) && u[|token.text|..] == Rest();
        FirstTokenQuoted(u);
      }
    }

    /** `addError`. */
    method AddError(error: ErrorKind) returns (ok: bool)
      modifies `errors
      ensures !ok && errors == old(errors) + [error]
    {
      errors := errors + [error];
      return false;
    }

    /** `recoverFromError`. */
    method RecoverFromError(until: Kind) returns (ok: bool)
      requires Valid()
      modifies `current, `errors
      ensures !ok && Valid() && old(current) <= current && errors == old(errors)
      ensures Ahead() == Recover(old(Ahead()), until)
    {
      var errorCount := |errors|;
      while true
        invariant Valid() && old(current) <= current && errors == old(errors)
        invariant Recover(Ahead(), until) == Recover(old(Ahead()), until)
        decreases |document| - current
      {
        var skip := ReadToken();
        if skip.kind == until || skip.kind == EndOfStream { break; }
      }
      errors := errors[..errorCount];
      return false;
    }

    /** `addErrorAndRecover`. */
    method AddErrorAndRecover(error: ErrorKind, until: Kind) returns (ok: bool)
      requires Valid()
      modifies `current, `errors
      ensures !ok && Valid() && old(current) <= current && errors == old(errors) + [error]
      ensures Ahead() == Recover(old(Ahead()), until)
    {
      var _ := AddError(error);
      ok := RecoverFromError(until);
    }

    /** The loops that read on while the token just read is a comment; `us` are the tokens from
        that one on. */
    method ReadPastComments(first: Token, ghost us: seq<Token>) returns (token: Token)
      requires Valid() && first == Head(us) && Ahead() == Tail(us) && Quoted(first)
      modifies `current
      ensures Valid() && old(current) <= current
      ensures token == Head(SkipComments(us)) && Ahead() == Tail(SkipComments(us)) && Quoted(token)
    {
      token := first;
      ghost var ts := us;
      while token.kind == Comment
        invariant Valid() && old(current) <= current
        invariant SkipComments(ts) == SkipComments(us) && token == Head(ts) && Ahead() == Tail(ts) && Quoted(token)
        decreases |ts|
      {
        ts := Tail(ts);
        token := ReadToken();
      }
    }

    /** `skipCommentTokens`: the first token that is not a comment, unless comments are tokens. */
    method SkipCommentTokens() returns (token: Token)
      requires Valid()
      modifies `current
      ensures Valid() && old(current) <= current
      ensures var us := if features.allowComments then SkipComments(old(Ahead())) else old(Ahead());
              token == Head(us) && Ahead() == Tail(us) && Quoted(token)
      ensures old(Ahead()) != [] ==> old(current) < current
    {
      ghost var ts := Ahead();
      token := ReadToken();
      if features.allowComments { token := ReadPastComments(token, ts); }
    }

    /** The digit loops of `decodeNumber`, and its result in the current node. */
    method DecodeNumberToken(token: Token) returns (ok: bool)
      requires nodes != []
      modifies `nodes, `errors
      ensures match DecodeNumber(token.text)
              case Some(v) => ok && nodes == old(nodes)[|old(nodes)| - 1 := v] && errors == old(errors)
              case None => !ok && nodes == old(nodes) && errors == old(errors) + [NotANumber]
    {
      hide ScanDouble;
      var text := token.text;
      var isDouble := false;
      var inspect := 0;
      while inspect < |text|
        invariant 0 <= inspect <= |text|
        invariant isDouble <==> exists k :: 0 <= k < inspect && IsDoubleMark(text[k], k > 0)
      {
        isDouble := isDouble || IsDoubleMark(text[inspect], inspect > 0);
        inspect := inspect + 1;
      }
      if isDouble {
        ok := DecodeDoubleToken(token);
        return;
      }
      assert !LooksDouble(text);
      var isNegative := text != [] && text[0] == '-';
      var position := if isNegative then 1 else 0;
      var threshold := Threshold(isNegative);
      ghost var digits := text[position..];
      var value: nat := 0;
      while position < |text|
        invariant 0 <= position <= |text|
        invariant ScanDigits(text[position..], value, threshold) == ScanDigits(digits, 0, threshold)
      {
        var c := text[position];
        position := position + 1;
        assert text[position - 1..][1..] == text[position..];
        if !IsDigit(c) {
          ok := AddError(NotANumber);
          return;
        }
        if value >= threshold {
          ok := DecodeDoubleToken(token);
          return;
        }
        value := value * 10 + DigitValue(c);
      }
      SetCurrentValue(if isNegative then Int(0 - value as int) else if value <= INT_MAX then Int(value) else UInt(value));
      return true;
    }

    /** `decodeDouble`. */
    method DecodeDoubleToken(token: Token) returns (ok: bool)
      requires nodes != []
      modifies `nodes, `errors
      ensures match DecodeDouble(token.text)
              case Some(v) => ok && nodes == old(nodes)[|old(nodes)| - 1 := v] && errors == old(errors)
              case None => !ok && nodes == old(nodes) && errors == old(errors) + [NotANumber]
    {
      hide ScanParts;
      var literal := ScanDouble(token.text);
      if literal.None? {
        ok := AddError(NotANumber);
      } else {
        SetCurrentValue(Real(literal.value));
        ok := true;
      }
    }

    /** `currentValue()`. */
    function CurrentValue(): Value
      requires nodes != []
      reads this
    {
      nodes[|nodes| - 1]
    }

    /** Assigning through `currentValue()`. */
    method SetCurrentValue(v: Value)
      requires nodes != []
      modifies `nodes
      ensures nodes == old(nodes)[|old(nodes)| - 1 := v]
    {
      nodes := nodes[|nodes| - 1 := v];
    }

    /** `decodeUnicodeEscapeSequence`: four hexadecimal digits of `text` before `end`. */
    method DecodeUnicodeEscapeSequence(text: string, start: nat, end: nat) returns (ok: bool, position: nat, unicode: nat)
      requires start <= end <= |text|
      modifies `errors
      ensures match DecodeHex4(text[start..end])
              case Ok(n) => ok && unicode == n && position == start + 4 && errors == old(errors)
              case Err(e) => !ok && errors == old(errors) + [e]
      ensures start <= position <= end
    {
      position, unicode := start, 0;
      ghost var s := text[start..end];
      if end - position < 4 {
        ok := AddError(FourDigitsExpected);
        return;
      }
      var index := 0;
      while index < 4
        invariant 0 <= index <= 4 && position == start + index && errors == old(errors)
        invariant forall k :: 0 <= k < index ==> HexDigitValue(s[k]).Some?
        invariant unicode == HexPrefix(s, index)
      {
        var c := text[position];
        assert c == s[index];
        position := position + 1;
        unicode := unicode * 16;
        if '0' <= c <= '9' {
          unicode := unicode + (c as int - '0' as int);
        } else if 'a' <= c <= 'f' {
          unicode := unicode + (c as int - 'a' as int + 10);
        } else if 'A' <= c <= 'F' {
          unicode := unicode + (c as int - 'A' as int + 10);
        } else {
          assert !IsHex4(s[..4]) by { assert s[..4][index] == c; }
          ok := AddError(HexDigitExpected);
          return;
        }
        index := index + 1;
      }
      HexPrefixValue(s);
      ok := true;
    }

    /** `decodeUnicodeCodePoint`. */
    method DecodeUnicodeCodePoint(text: string, start: nat, end: nat) returns (ok: bool, position: nat, unicode: nat)
      requires start <= end <= |text|
      modifies `errors
      ensures match DecodeCodePoint(text[start..end])
              case Ok(cp) => ok && unicode == cp.0 && position == start + cp.1 && errors == old(errors)
              case Err(e) => !ok && errors == old(errors) + [e]
      ensures start <= position <= end
    {
      hide DecodeHex4;
      ghost var s := text[start..end];
      ok, position, unicode := DecodeUnicodeEscapeSequence(text, start, end);
      if !ok { return; }
      if IsHighSurrogate(unicode) {
        if end - position < 6 {
          ok := AddError(SixCharactersExpected);
          return;
        }
        assert text[position] == s[4] && text[position + 1] == s[5] && text[position + 2..end] == s[6..];
        if text[position] != '\\' || text[position + 1] != 'u' {
          ok := AddError(SecondHalfExpected);
          return;
        }
        var surrogatePair;
        ok, position, surrogatePair := DecodeUnicodeEscapeSequence(text, position + 2, end);
        if ok { unicode := Combine(unicode, surrogatePair); }
      }
    }

    /** `decodeString( token, decoded )`: the characters between the quotes. */
    method DecodeStringToken(token: Token) returns (ok: bool, decoded: string)
      requires token.kind == StringToken && Quoted(token)
      modifies `errors
      ensures match DecodeString(token)
              case Ok(s) => ok && decoded == s && errors == old(errors)
              case Err(e) => !ok && errors == old(errors) + [e]
    {
      hide DecodeCodePoint, CodePointToUTF8, DecodeBody;
      var text := token.text;
      var position: nat, end := 1, |text| - 1;
      decoded := "";
      ghost var body := text[1..end];
      PrependNothing(DecodeBody(body));
      while position != end
        invariant 1 <= position <= end == |text| - 1 && errors == old(errors)
        invariant DecodeBody(body) == Prepend(decoded, DecodeBody(text[position..end]))
      {
        ghost var s := text[position..end];
        ghost var before := decoded;
        DecodeBodyStep(s);
        var c := text[position];
        position := position + 1;
        assert s[0] == c && s[1..] == text[position..end];
        if c == '"' {
          assert decoded + "" == decoded;
          return true, decoded;
        } else if c == '\\' {
          if position == end {
            ok := AddError(EmptyEscape);
            return;
          }
          var escape := text[position];
          position := position + 1;
          assert s[1] == escape && s[2..] == text[position..end];
          if escape == 'u' {
            var unicode, start := 0, position;
            ok, position, unicode := DecodeUnicodeCodePoint(text, position, end);
            if !ok { return; }
            assert s[2 + (position - start)..] == text[position..end];
            decoded := decoded + CodePointToUTF8(unicode);
            PrependTwice(before, CodePointToUTF8(unicode), DecodeBody(text[position..end]));
          } else {
            var plain := Unescape(escape);
            if plain.None? {
              ok := AddError(BadEscape);
              return;
            }
            decoded := decoded + [plain.value];
            PrependTwice(before, [plain.value], DecodeBody(text[position..end]));
          }
        } else {
          decoded := decoded + [c];
          PrependTwice(before, [c], DecodeBody(text[position..end]));
        }
      }
      DecodeBodyStep(text[position..end]);
      assert decoded + "" == decoded;
      ok := true;
    }

    /** What a read function has done: its answer, the node it leaves on top of the stack, the
        errors it has added and the tokens it has left, all as `r` says. */
    twostate predicate Did(r: Parsed, ok: bool)
      requires old(Valid()) && Valid() && old(nodes) != []
      reads this
    {
      && ok == r.ok
      && nodes == old(nodes)[|old(nodes)| - 1 := r.value]
      && errors == old(errors) + r.errors
      && Ahead() == r.rest
      && old(current) <= current
      && (ok ==> old(current) < current)
    }

    /** `readValue`. */
    method ReadValue() returns (ok: bool)
      requires Valid() && nodes != []
      modifies `current, `nodes, `errors
      ensures Valid() && Did(ParseValue(old(Ahead()), old(CurrentValue()), features), ok)
      decreases |document| - current, 0
    {
      hide DecodeString, DecodeNumber, Tokens, ParseMembers, ParseElements;
      ghost var before := CurrentValue();
      var token := SkipCommentTokens();
      match token.kind
      case ObjectBegin => ok := ReadObject();
      case ArrayBegin => ok := ReadArray();
      case NumberToken => ok := DecodeNumberToken(token);
      case StringToken =>
        var decoded;
        ok, decoded := DecodeStringToken(token);
        if ok { SetCurrentValue(Str(CStr(decoded))); }
      case TrueToken =>
        SetCurrentValue(Bool(true));
        ok := true;
      case FalseToken =>
        SetCurrentValue(Bool(false));
        ok := true;
      case NullToken =>
        SetCurrentValue(Null);
        ok := true;
      case _ => ok := AddError(ValueExpected);
    }

    /** The part of `readObject` that reads the value of member `key` into its node. */
    method ReadMember(key: string) returns (ok: bool)
      requires Valid() && nodes != [] && CurrentValue().Obj?
      modifies `current, `nodes, `errors
      ensures Valid()
      ensures var members := old(CurrentValue()).members;
              var v := ParseValue(old(Ahead()), GetOrNull(members, key), features);
              Did(v.(value := Obj(Put(members, key, v.value))), ok)
      decreases |document| - current, 1
    {
      hide Tokens, ParseValue, Get, Put;
      var members := CurrentValue().members;
      nodes := nodes + [GetOrNull(members, key)];
      ok := ReadValue();
      var value := CurrentValue();
      nodes := nodes[..|nodes| - 1];
      SetCurrentValue(Obj(Put(members, key, value)));
    }

    /** The part of `readObject` from a member name to its ':'; `ms` are the members so far. */
    method ReadName(lastName: string, ghost ms: seq<Member>) returns (next: Next, name: string)
      requires Valid()
      modifies `current, `errors
      ensures Valid() && old(current) <= current
      ensures var r := ParseMembers(old(Ahead()), ms, lastName, features);
              var us := SkipComments(old(Ahead()));
              match next
              case Closed => r == Parsed(true, Obj(ms), Ahead(), []) && errors == old(errors) && old(current) < current
              case Failed => r == Parsed(false, Obj(ms), Ahead(), r.errors) && errors == old(errors) + r.errors
              case Named =>
                && Head(us).kind == StringToken && DecodeString(Head(us)) == Ok(name)
                && Head(Tail(us)).kind == MemberSeparator && Ahead() == Tail(Tail(us))
                && errors == old(errors) && old(current) < current
    {
      hide Tokens, ParseMembers, DecodeString, Recover, SkipComments, DecodeBody;
      ghost var ts := Ahead();
      UnfoldName(ts, ms, lastName, features);
      NothingAhead();
      name := lastName;
      var tokenName := ReadToken();
      tokenName := ReadPastComments(tokenName, ts);
      if tokenName.kind == ObjectEnd && name == "" { return Closed, name; }
      if tokenName.kind != StringToken {
        var _ := AddErrorAndRecover(MemberNameExpected, ObjectEnd);
        return Failed, name;
      }
      var ok;
      ok, name := DecodeStringToken(tokenName);
      if !ok {
        var _ := RecoverFromError(ObjectEnd);
        return Failed, name;
      }
      var colon := ReadToken();
      if colon.kind != MemberSeparator {
        var _ := AddErrorAndRecover(ColonExpected, ObjectEnd);
        return Failed, name;
      }
      next := Named;
    }

    /** The part of `readObject` from the value of member `key` to the comma or the '}'. */
    method ReadMemberAndComma(key: string) returns (next: Next)
      requires Valid() && nodes != [] && CurrentValue().Obj?
      modifies `current, `nodes, `errors
      ensures Valid()
      ensures var members := old(CurrentValue()).members;
              var v := ParseValue(old(Ahead()), GetOrNull(members, key), features);
              var after := AfterMember(v, Put(members, key, v.value));
              next == after.0 && Did(after.1, next != Failed)
      decreases |document| - current, 2
    {
      hide Tokens, ParseValue, Get, Put, Recover, SkipComments, GetOrNull;
      var ok := ReadMember(key);
      if !ok {
        var _ := RecoverFromError(ObjectEnd);
        return Failed;
      }
      ghost var us := Ahead();
      var comma := ReadToken();
      if comma.kind !in {ObjectEnd, ArraySeparator, Comment} {
        var _ := AddErrorAndRecover(CommaOrBraceExpected, ObjectEnd);
        return Failed;
      }
      comma := ReadPastComments(comma, us);
      next := if comma.kind == ObjectEnd then Closed else Named;
    }

    /** `readObject`, after the '{'. */
    method ReadObject() returns (ok: bool)
      requires Valid() && nodes != []
      modifies `current, `nodes, `errors
      ensures Valid() && Did(ParseMembers(old(Ahead()), [], "", features), ok)
      decreases |document| - current, 1
    {
      hide Tokens, ParseValue, ParseMembers, DecodeString, CStr, Get, Put, SkipComments, GetOrNull, DecodeBody, AfterMember;
      SetCurrentValue(Obj([]));
      ghost var all := ParseMembers(Ahead(), [], "", features);
      var name := "";
      ghost var ms: seq<Member> := [];
      while true
        invariant Valid() && old(current) <= current && errors == old(errors)
        invariant nodes == old(nodes)[|old(nodes)| - 1 := Obj(ms)]
        invariant ParseMembers(Ahead(), ms, name, features) == all
        decreases |document| - current
      {
        ghost var ts, lastName := Ahead(), name;
        var next;
        next, name := ReadName(name, ms);
        if next == Closed { return true; }
        if next == Failed { return false; }
        UnfoldMember(ts, ms, lastName, features);
        var key := CStr(name);
        ghost var v := ParseValue(Ahead(), GetOrNull(ms, key), features);
        next := ReadMemberAndComma(key);
        ms := Put(ms, key, v.value);
        AfterMemberHas(v, ms);
        if next == Closed { return true; }
        if next == Failed { return false; }
      }
    }

    /** The part of `readArray` that reads one more element into its node. */
    method ReadElement() returns (ok: bool)
      requires Valid() && nodes != [] && CurrentValue().Arr?
      modifies `current, `nodes, `errors
      ensures Valid()
      ensures var v := ParseValue(old(Ahead()), Null, features);
              Did(v.(value := Arr(old(CurrentValue()).elems + [v.value])), ok)
      decreases |document| - current, 1
    {
      hide Tokens, ParseValue;
      var elems := CurrentValue().elems;
      nodes := nodes + [Null];
      ok := ReadValue();
      var value := CurrentValue();
      nodes := nodes[..|nodes| - 1];
      SetCurrentValue(Arr(elems + [value]));
    }

    /** The part of `readArray` from one more element to the token after it. */
    method ReadElementAndComma() returns (next: Next)
      requires Valid() && nodes != [] && CurrentValue().Arr?
      modifies `current, `nodes, `errors
      ensures Valid()
      ensures var v := ParseValue(old(Ahead()), Null, features);
              var after := AfterElement(v, old(CurrentValue()).elems + [v.value]);
              next == after.0 && Did(after.1, next != Failed)
      decreases |document| - current, 2
    {
      hide Tokens, ParseValue, SkipComments, Recover;
      var ok := ReadElement();
      if !ok {
        var _ := RecoverFromError(ArrayEnd);
        return Failed;
      }
      ghost var ts := Ahead();
      var token := ReadToken();
      token := ReadPastComments(token, ts);
      next := if token.kind == ArrayEnd then Closed else Named;
    }

    /** `readArray`, after the '['. */
    method ReadArray() returns (ok: bool)
      requires Valid() && nodes != []
      modifies `current, `nodes, `errors
      ensures Valid()
      ensures Did(if Head(old(Ahead())).kind == ArrayEnd then Parsed(true, Arr([]), Tail(old(Ahead())), [])
                  else ParseElements(old(Ahead()), [], features), ok)
      decreases |document| - current, 3
    {
      hide Tokens, ParseValue, ParseElements, SkipComments, AfterElement;
      SetCurrentValue(Arr([]));
      PeekArrayEnd(Rest());
      SkipBlanks();
      SkipTwice(old(Rest()));
      if CurrentChar() == ']' {
        var _ := ReadToken();
        return true;
      }
      ghost var all := ParseElements(Ahead(), [], features);
      ghost var elems: seq<Value> := [];
      var next := Named;
      while next == Named
        invariant Valid() && old(current) <= current
        invariant next == Named ==>
                    errors == old(errors) && nodes == old(nodes)[|old(nodes)| - 1 := Arr(elems)]
                    && ParseElements(Ahead(), elems, features) == all
        invariant next != Named ==> Did(all, next == Closed)
        decreases next == Named, |document| - current
      {
        UnfoldElements(Ahead(), elems, features);
        ghost var v := ParseValue(Ahead(), Null, features);
        next := ReadElementAndComma();
        elems := elems + [v.value];
        AfterElementHas(v, elems);
      }
      return next == Closed;
    }

    /** `parse`: reads the first value of the document into the root. */
    method Parse(text: string, before: Value) returns (ok: bool, root: Value)
      modifies this
      ensures Valid() && var r := ParseDocument(text, before, features);
                         ok == r.ok && root == r.value && errors == r.errors && nodes == [root]
    {
      hide Tokens, ParseValue;
      document, current, errors := text, 0, [];
      while nodes != []
        invariant document == text && current == 0 && errors == []
        decreases |nodes|
      {
        nodes := nodes[..|nodes| - 1];
      }
      nodes := nodes + [before];
      assert Rest() == text;
      ok := ReadValue();
      var _ := SkipCommentTokens();
      root := CurrentValue();
      if features.strictRoot && !root.Null? && !root.Arr? && !root.Obj? {
        ok := AddError(RootNotContainer);
      }
    }
  }
}
