/** Tokens (json_reader.cpp:273-476): a document is a sequence of tokens. */
module JsonLexer {
  import opened JsonValue
  import opened JsonNumber
  import opened JsonString

  datatype Kind =
    | EndOfStream
    | ObjectBegin
    | ObjectEnd
    | ArrayBegin
    | ArrayEnd
    | StringToken
    | NumberToken
    | TrueToken
    | FalseToken
    | NullToken
    | ArraySeparator
    | MemberSeparator
    | Comment
    | ErrorToken

  datatype Token = Token(kind: Kind, text: string)

  predicate IsSpace(c: char) { c == ' ' || c == '\t' || c == '\r' || c == '\n' }

  function SkipSpaces(s: string): (r: string)
    ensures |r| <= |s|
    ensures r != [] ==> !IsSpace(r[0])
  {
    if s != [] && IsSpace(s[0]) then SkipSpaces(s[1..]) else s
  }

  /** `readNumber`: how many further characters belong to the number. */
  function NumberRun(s: string): (n: nat)
    ensures n <= |s|
  {
    if s != [] && IsNumberChar(s[0]) then 1 + NumberRun(s[1..]) else 0
  }

  /** `readCStyleComment` after its opening: characters consumed, and whether it was closed. */
  function ScanCStyle(s: string): (r: (nat, bool))
    ensures r.0 <= |s|
  {
    if s == [] then (0, false)
    else if s[0] == '*' && |s| > 1 && s[1] == '/' then (2, true)
    else
      var r := ScanCStyle(s[1..]);
      (1 + r.0, r.1)
  }

  /** `readCppStyleComment` after its opening: up to the end of the line. */
  function ScanCppStyle(s: string): (n: nat)
    ensures n <= |s|
  {
    if s == [] then 0
    else if s[0] == '\r' || s[0] == '\n' then 1
    else 1 + ScanCppStyle(s[1..])
  }

  /** The part of a token after its first character: length, and whether it is complete. */
  function ScanComment(s: string): (r: (nat, bool))
    ensures r.0 <= |s|
  {
    if s == [] then (0, false)
    else if s[0] == '*' then
      var r := ScanCStyle(s[1..]);
      (1 + r.0, r.1)
    else if s[0] == '/' then (1 + ScanCppStyle(s[1..]), true)
    else (1, false)
  }

  function MatchWord(s: string, word: string): (r: (nat, bool))
    ensures r.0 <= |s|
  {
    if |word| <= |s| && s[..|word|] == word then (|word|, true) else (0, false)
  }

  /** The kind announced by the first character of a token. */
  function KindOf(c: char): Kind {
    match c
    case '{' => ObjectBegin
    case '}' => ObjectEnd
    case '[' => ArrayBegin
    case ']' => ArrayEnd
    case '"' => StringToken
    case '/' => Comment
    case '-' => NumberToken
    case 't' => TrueToken
    case 'f' => FalseToken
    case 'n' => NullToken
    case ',' => ArraySeparator
    case ':' => MemberSeparator
    case '\0' => EndOfStream
    case _ => if IsDigit(c) then NumberToken else ErrorToken
  }

  /** How the token goes on after its first character. */
  function ScanRest(kind: Kind, s: string): (r: (nat, bool))
    ensures r.0 <= |s|
  {
    match kind
    case StringToken => ScanString(s)
    case Comment => ScanComment(s)
    case NumberToken => (NumberRun(s), true)
    case TrueToken => MatchWord(s, "rue")
    case FalseToken => MatchWord(s, "alse")
    case NullToken => MatchWord(s, "ull")
    case ErrorToken => (0, false)
    case _ => (0, true)
  }

  /** The token at the start of a non-blank, non-empty text. */
  function FirstToken(s: string): (t: Token)
    requires s != []
    ensures 0 < |t.text| && t.text <= s
  {
    var kind := KindOf(s[0]);
    var r := ScanRest(kind, s[1..]);
    Token(if r.1 then kind else ErrorToken, s[..1 + r.0])
  }

  /** The tokens of a text; past its end there are only end-of-stream tokens. */
  function Tokens(s: string): seq<Token>
    decreases |s|
  {
    var u := SkipSpaces(s);
    if u == [] then []
    else [FirstToken(u)] + Tokens(u[|FirstToken(u).text|..])
  }

  function Head(ts: seq<Token>): Token { if ts == [] then Token(EndOfStream, "") else ts[0] }

  function Tail(ts: seq<Token>): seq<Token> { if ts == [] then [] else ts[1..] }

  // ---------------------------------------------------------------- lexing what the grammar writes

  /** Text that a number token cannot run into. */
  predicate EndsNumber(t: string) { t == [] || !IsNumberChar(t[0]) }

  lemma {:induction false} LexSpaces(w: string, t: string)
    requires forall k :: 0 <= k < |w| ==> IsSpace(w[k])
    ensures Tokens(w + t) == Tokens(t)
  {
    assert SkipSpaces(w + t) == SkipSpaces(t) by { SkipSpacesOf(w, t); }
  }

  lemma {:induction false} SkipSpacesOf(w: string, t: string)
    requires forall k :: 0 <= k < |w| ==> IsSpace(w[k])
    ensures SkipSpaces(w + t) == SkipSpaces(t)
  {
    if w == [] {
      assert w + t == t;
    } else {
      assert (w + t)[1..] == w[1..] + t;
      SkipSpacesOf(w[1..], t);
    }
  }

  /** A text that starts with a complete token. */
  lemma LexToken(x: string, t: string)
    requires x != [] && !IsSpace(x[0]) && KindOf(x[0]) != ErrorToken
    requires ScanRest(KindOf(x[0]), x[1..] + t) == (|x| - 1, true)
    ensures Tokens(x + t) == [Token(KindOf(x[0]), x)] + Tokens(t)
  {
    hide ScanRest, KindOf;
    var s := x + t;
    assert s[0] == x[0] && s[1..] == x[1..] + t;
    assert SkipSpaces(s) == s;
    assert s[..|x|] == x && s[|x|..] == t;
  }

  predicate IsPunctuation(c: char) {
    c == '{' || c == '}' || c == '[' || c == ']' || c == ',' || c == ':'
  }

  lemma LexPunctuation(c: char, t: string)
    requires IsPunctuation(c)
    ensures Tokens([c] + t) == [Token(KindOf(c), [c])] + Tokens(t)
  {
    LexToken([c], t);
  }

  lemma LexWord(word: string, t: string)
    requires word in {"null", "true", "false"}
    ensures Tokens(word + t) == [Token(KindOf(word[0]), word)] + Tokens(t)
  {
    assert (word[1..] + t)[..|word| - 1] == word[1..];
    LexToken(word, t);
  }

  lemma {:induction false} NumberRunOf(s: string, t: string)
    requires AllNumberChars(s) && EndsNumber(t)
    ensures NumberRun(s + t) == |s|
  {
    if s == [] {
      assert s + t == t;
    } else {
      assert (s + t)[1..] == s[1..] + t;
      NumberRunOf(s[1..], t);
    }
  }

  lemma LexNumber(number: string, t: string)
    requires IsLiteral(number) && EndsNumber(t)
    ensures Tokens(number + t) == [Token(NumberToken, number)] + Tokens(t)
  {
    hide ScanDouble;
    NumberRunOf(number[1..], t);
    assert KindOf(number[0]) == NumberToken;
    LexToken(number, t);
  }

  lemma LexString(items: seq<Item>, t: string)
    requires ValidItems(items)
    ensures Tokens(Literal(items) + t) == [Token(StringToken, Literal(items))] + Tokens(t)
  {
    hide ScanString, ItemsText, ValidItems;
    var x := Literal(items);
    assert x[1..] + t == ItemsText(items) + ("\"" + t);
    ScanLiteral(items, t);
    LexToken(x, t);
  }

  /** Only a ']' starts an array-end token: looking at the next character is looking at the token. */
  lemma PeekArrayEnd(s: string)
    ensures Head(Tokens(s)).kind == ArrayEnd <==> SkipSpaces(s) != [] && SkipSpaces(s)[0] == ']'
  {}

  lemma {:induction false} SkipTwice(s: string)
    ensures SkipSpaces(SkipSpaces(s)) == SkipSpaces(s) && Tokens(SkipSpaces(s)) == Tokens(s)
  {
    hide FirstToken;
  }

  // ---------------------------------------------------------------- what stands between tokens

  /** The white space of section 2 of RFC 4627 separates tokens, and nothing else is skipped. */
  lemma BlanksSkipped(c: char, t: string)
    ensures c as int in {0x20, 0x9, 0xA, 0xD} ==> Tokens([c] + t) == Tokens(t)
    ensures c as int !in {0x20, 0x9, 0xA, 0xD} ==> Tokens([c] + t) != [] && Head(Tokens([c] + t)).text[..1] == [c]
  {
    assert c == c as int as char;
    assert ([c] + t)[1..] == t;
    if IsSpace(c) { LexSpaces([c], t); }
  }

  lemma {:induction false} CStyleEnds(body: string, t: string)
    requires forall k :: 0 <= k < |body| - 1 ==> !(body[k] == '*' && body[k + 1] == '/')
    ensures ScanCStyle(body + ("*/" + t)) == (|body| + 2, true)
  {
    var s := body + ("*/" + t);
    if body == "" {
      assert s == "*/" + t;
    } else {
      CStyleEnds(body[1..], t);
      assert s[1..] == body[1..] + ("*/" + t);
      assert s[0] == body[0] && s[1] == if |body| > 1 then body[1] else '*';
    }
  }

  lemma {:induction false} CppStyleEnds(body: string, t: string)
    requires forall k :: 0 <= k < |body| ==> body[k] != '\r' && body[k] != '\n'
    ensures ScanCppStyle(body + ("\n" + t)) == |body| + 1
  {
    var s := body + ("\n" + t);
    if body == "" {
      assert s == "\n" + t;
    } else {
      CppStyleEnds(body[1..], t);
      assert s[1..] == body[1..] + ("\n" + t);
    }
  }

  lemma OneToken(s: string, text: string, t: string)
    requires s == text + t && s != [] && !IsSpace(s[0]) && FirstToken(s).text == text
    ensures Tokens(s) == [FirstToken(s)] + Tokens(t)
  {
    assert SkipSpaces(s) == s && s[|text|..] == t;
  }

  /** A comment up to the first asterisk with a slash is one token. */
  lemma CStyleComment(body: string, t: string)
    requires forall k :: 0 <= k < |body| - 1 ==> !(body[k] == '*' && body[k + 1] == '/')
    ensures Tokens("/*" + body + "*/" + t) == [Token(Comment, "/*" + body + "*/")] + Tokens(t)
  {
    var s := "/*" + body + "*/" + t;
    CStyleEnds(body, t);
    assert s[1..][1..] == body + ("*/" + t);
    assert s[1..][0] == '*';
    assert s[..|body| + 4] == "/*" + body + "*/";
    OneToken(s, "/*" + body + "*/", t);
  }

  /** A comment up to the end of the line is one token. */
  lemma CppStyleComment(body: string, t: string)
    requires forall k :: 0 <= k < |body| ==> body[k] != '\r' && body[k] != '\n'
    ensures Tokens("//" + body + "\n" + t) == [Token(Comment, "//" + body + "\n")] + Tokens(t)
  {
    var s := "//" + body + "\n" + t;
    CppStyleEnds(body, t);
    assert s[1..][1..] == body + ("\n" + t);
    assert s[1..][0] == '/';
    assert s[..|body| + 3] == "//" + body + "\n";
    OneToken(s, "//" + body + "\n", t);
  }
}
