/** What the reader makes of a token sequence (json_reader.cpp:150-260, 479-578, 773-797), as
    functions of the tokens alone. */
module JsonParser {
  import opened Wrappers
  import opened JsonValue
  import opened JsonNumber
  import opened JsonString
  import opened JsonLexer

  datatype Features = Features(allowComments: bool, strictRoot: bool)

  /** The outcome of one read function: its result, the node it leaves behind, the tokens it has
      not consumed, and the errors it has added. */
  datatype Parsed = Parsed(ok: bool, value: Value, rest: seq<Token>, errors: seq<ErrorKind>)

  function SkipComments(ts: seq<Token>): (r: seq<Token>)
    ensures |r| <= |ts|
    ensures Head(r).kind != Comment
    ensures Head(ts).kind != Comment ==> r == ts
    ensures ts != [] && ts[0].kind == Comment ==> |r| < |ts|
  {
    if ts != [] && ts[0].kind == Comment then SkipComments(ts[1..]) else ts
  }

  /** `recoverFromError`: drop everything up to and including the next token of kind `until`. */
  function Recover(ts: seq<Token>, until: Kind): (r: seq<Token>)
    ensures |r| <= |ts|
  {
    if ts == [] then [] else if ts[0].kind == until || ts[0].kind == EndOfStream then ts[1..] else Recover(ts[1..], until)
  }

  /** `decodeString` on a string token: the text between its quotes. */
  function DecodeString(t: Token): Result<string> {
    DecodeBody(if |t.text| >= 2 then t.text[1..|t.text| - 1] else "")
  }

  function Fail(value: Value, rest: seq<Token>, error: ErrorKind, until: Kind): Parsed {
    Parsed(false, value, Recover(rest, until), [error])
  }

  /** `readValue` into a node that holds `before`. */
  function ParseValue(ts: seq<Token>, before: Value, f: Features): (r: Parsed)
    ensures |r.rest| <= |ts|
    ensures r.ok ==> |r.rest| < |ts|
    ensures r.ok <==> r.errors == []
    decreases |ts|, 0
  {
    var us := if f.allowComments then SkipComments(ts) else ts;
    var t, rest := Head(us), Tail(us);
    match t.kind
    case ObjectBegin => ParseMembers(rest, [], "", f)
    case ArrayBegin =>
      if Head(rest).kind == ArrayEnd then Parsed(true, Arr([]), Tail(rest), [])
      else ParseElements(rest, [], f)
    case NumberToken =>
      (match DecodeNumber(t.text)
       case Some(v) => Parsed(true, v, rest, [])
       case None => Parsed(false, before, rest, [NotANumber]))
    case StringToken =>
      (match DecodeString(t)
       case Ok(s) => Parsed(true, Str(CStr(s)), rest, [])
       case Err(e) => Parsed(false, before, rest, [e]))
    case TrueToken => Parsed(true, Bool(true), rest, [])
    case FalseToken => Parsed(true, Bool(false), rest, [])
    case NullToken => Parsed(true, Null, rest, [])
    case _ => Parsed(false, before, rest, [ValueExpected])
  }

  /** The loop of `readObject`, with the members read so far and the name of the last one. */
  function ParseMembers(ts: seq<Token>, ms: seq<Member>, name: string, f: Features): (r: Parsed)
    ensures |r.rest| <= |ts|
    ensures r.ok ==> |r.rest| < |ts|
    ensures r.ok <==> r.errors == []
    decreases |ts|, 1
  {
    var us := SkipComments(ts);
    var t, afterName := Head(us), Tail(us);
    if t.kind == ObjectEnd && name == "" then Parsed(true, Obj(ms), afterName, [])
    else if t.kind != StringToken then Fail(Obj(ms), afterName, MemberNameExpected, ObjectEnd)
    else match DecodeString(t)
      case Err(e) => Fail(Obj(ms), afterName, e, ObjectEnd)
      case Ok(newName) =>
        var colon, afterColon := Head(afterName), Tail(afterName);
        if colon.kind != MemberSeparator then Fail(Obj(ms), afterColon, ColonExpected, ObjectEnd)
        else
          var key := CStr(newName);
          var v := ParseValue(afterColon, GetOrNull(ms, key), f);
          var ms' := Put(ms, key, v.value);
          if !v.ok then Parsed(false, Obj(ms'), Recover(v.rest, ObjectEnd), v.errors)
          else if Head(v.rest).kind !in {ObjectEnd, ArraySeparator, Comment} then
            Fail(Obj(ms'), Tail(v.rest), CommaOrBraceExpected, ObjectEnd)
          else
            var ws := SkipComments(v.rest);
            if Head(ws).kind == ObjectEnd then Parsed(true, Obj(ms'), Tail(ws), [])
            else ParseMembers(Tail(ws), ms', newName, f)
  }

  /** The loop of `readArray` on a non-empty array: any token but a comment separates elements. */
  function ParseElements(ts: seq<Token>, es: seq<Value>, f: Features): (r: Parsed)
    ensures |r.rest| <= |ts|
    ensures r.ok ==> |r.rest| < |ts|
    ensures r.ok <==> r.errors == []
    decreases |ts|, 1
  {
    var v := ParseValue(ts, Null, f);
    var es' := es + [v.value];
    if !v.ok then Parsed(false, Arr(es'), Recover(v.rest, ArrayEnd), v.errors)
    else
      var ws := SkipComments(v.rest);
      if Head(ws).kind == ArrayEnd then Parsed(true, Arr(es'), Tail(ws), [])
      else ParseElements(Tail(ws), es', f)
  }

  /** `parse`: the result, the root, and the errors. What follows the first value is not looked at;
      a strict root must be a container, and null passes for one. */
  function ParseDocument(document: string, before: Value, f: Features): (r: Parsed)
    ensures r.ok <==> r.errors == []
  {
    var v := ParseValue(Tokens(document), before, f);
    if f.strictRoot && !StrictRoot(v.value) then
      Parsed(false, v.value, [], v.errors + [RootNotContainer])
    else Parsed(v.ok, v.value, [], v.errors)
  }

  // ---------------------------------------------------------------- the grammar of section 2 of RFC 4627

  datatype Syntax =
    | SNull
    | SBool(b: bool)
    | SNumber(text: string)
    | SString(items: seq<Item>)
    | SArray(elems: seq<Syntax>)
    | SObject(members: seq<SMember>)

  datatype SMember = SMember(key: seq<Item>, value: Syntax)

  /** The lexemes are well formed. */
  predicate Valid(x: Syntax) {
    match x
    case SNumber(text) => IsLiteral(text)
    case SString(items) => ValidItems(items)
    case SArray(es) => ValidElems(es)
    case SObject(ms) => ValidMembers(ms)
    case _ => true
  }

  predicate ValidElems(es: seq<Syntax>) { es == [] || (Valid(es[0]) && ValidElems(es[1..])) }

  predicate ValidMembers(ms: seq<SMember>) {
    ms == [] || (ValidItems(ms[0].key) && Valid(ms[0].value) && ValidMembers(ms[1..]))
  }

  predicate ValidPaired(items: seq<Item>) { ValidItems(items) && Paired(items) }

  /** No string has an escaped high surrogate that is not followed by a second escaped unit. */
  predicate AllPaired(x: Syntax) {
    match x
    case SString(items) => ValidPaired(items)
    case SArray(es) => PairedElems(es)
    case SObject(ms) => PairedMembers(ms)
    case _ => true
  }

  predicate PairedElems(es: seq<Syntax>) { es == [] || (AllPaired(es[0]) && PairedElems(es[1..])) }

  predicate PairedMembers(ms: seq<SMember>) {
    ms == [] || (ValidPaired(ms[0].key) && AllPaired(ms[0].value) && PairedMembers(ms[1..]))
  }

  function Punct(c: char): Token { Token(KindOf(c), [c]) }

  /** The tokens of a sentence. */
  function Flat(x: Syntax): (ts: seq<Token>)
    ensures ts != [] && ts[0].kind != Comment && ts[0].kind != ArrayEnd
  {
    match x
    case SNull => [Token(NullToken, "null")]
    case SBool(b) => [if b then Token(TrueToken, "true") else Token(FalseToken, "false")]
    case SNumber(text) => [Token(NumberToken, text)]
    case SString(items) => [Token(StringToken, Literal(items))]
    case SArray(es) => [Punct('[')] + if es == [] then [Punct(']')] else Flat(es[0]) + FlatElems(es[1..])
    case SObject(ms) =>
      [Punct('{')] + if ms == [] then [Punct('}')] else FlatKey(ms[0].key) + Flat(ms[0].value) + FlatMembers(ms[1..])
  }

  /** The elements after the first, with their separators and the closing bracket. */
  function FlatElems(es: seq<Syntax>): (ts: seq<Token>)
    ensures ts != []
  {
    if es == [] then [Punct(']')] else [Punct(',')] + (Flat(es[0]) + FlatElems(es[1..]))
  }

  function FlatKey(key: seq<Item>): seq<Token> { [Token(StringToken, Literal(key)), Punct(':')] }

  function FlatMembers(ms: seq<SMember>): (ts: seq<Token>)
    ensures ts != []
  {
    if ms == [] then [Punct('}')]
    else [Punct(',')] + (FlatKey(ms[0].key) + Flat(ms[0].value) + FlatMembers(ms[1..]))
  }

  function StringValue(items: seq<Item>): string {
    if ValidPaired(items) then CStr(ItemsValue(items)) else ""
  }

  /** The value a sentence denotes; of two members with one name the later wins. */
  function Denote(x: Syntax): Value {
    match x
    case SNull => Null
    case SBool(b) => Bool(b)
    case SNumber(text) => (match DecodeNumber(text) case Some(v) => v case None => Null)
    case SString(items) => Str(StringValue(items))
    case SArray(es) => Arr(DenoteElems(es))
    case SObject(ms) => Obj(DenoteMembers([], ms))
  }

  function DenoteElems(es: seq<Syntax>): seq<Value> {
    if es == [] then [] else [Denote(es[0])] + DenoteElems(es[1..])
  }

  function DenoteMembers(before: seq<Member>, ms: seq<SMember>): seq<Member>
    decreases ms
  {
    if ms == [] then before
    else DenoteMembers(Put(before, StringValue(ms[0].key), Denote(ms[0].value)), ms[1..])
  }

  lemma DecodeStringOf(items: seq<Item>)
    requires ValidItems(items)
    ensures DecodeString(Token(StringToken, Literal(items))).Ok? <==> Paired(items)
    ensures Paired(items) ==> DecodeString(Token(StringToken, Literal(items))) == Ok(ItemsValue(items))
  {
    hide DecodeBody, ItemsText, Paired, ItemsValue;
    assert Literal(items)[1..|Literal(items)| - 1] == ItemsText(items);
    DecodeLiteral(items);
  }

  /** What reading the tokens of a sentence followed by `rest` comes to. */
  ghost predicate ReadsAs(r: Parsed, good: bool, value: Value, rest: seq<Token>) {
    r.ok == good && (good ==> r == Parsed(true, value, rest, []))
  }

  predicate IsLeaf(x: Syntax) { !x.SArray? && !x.SObject? }

  lemma LeafAhead(t: Token, rest: seq<Token>)
    requires t.kind != Comment
    ensures var ts := [t] + rest; SkipComments(ts) == ts && Head(ts) == t && Tail(ts) == rest
  {}

  lemma ReaderAcceptsLeaf(x: Syntax, rest: seq<Token>, before: Value, f: Features)
    requires Valid(x) && IsLeaf(x)
    ensures ReadsAs(ParseValue(Flat(x) + rest, before, f), AllPaired(x), Denote(x), rest)
  {
    hide DecodeNumber, DecodeString, Paired, ItemsValue, ValidItems, Literal, IsLiteral, SkipComments, Head, Tail,
      ParseMembers, ParseElements, LooksDouble, NumericValue, LiteralValue;
    LeafAhead(Flat(x)[0], rest);
    assert Flat(x) == [Flat(x)[0]];
    if x.SNumber? {
      DecodeNumberKeepsValue(x.text);
    } else if x.SString? {
      DecodeStringOf(x.items);
    }
  }

  lemma OpensWith(c: char, ts: seq<Token>, before: Value, f: Features)
    requires c == '[' || c == '{'
    ensures ParseValue([Punct(c)] + ts, before, f) ==
            if c == '{' then ParseMembers(ts, [], "", f)
            else if Head(ts).kind == ArrayEnd then Parsed(true, Arr([]), Tail(ts), [])
            else ParseElements(ts, [], f)
  {
    hide ParseMembers, ParseElements;
    var us := [Punct(c)] + ts;
    assert SkipComments(us) == us && Head(us) == Punct(c) && Tail(us) == ts;
  }

  lemma EmptyObject(ts: seq<Token>, f: Features)
    ensures ParseMembers([Punct('}')] + ts, [], "", f) == Parsed(true, Obj([]), ts, [])
  {
    var us := [Punct('}')] + ts;
    assert SkipComments(us) == us && Head(us) == Punct('}') && Tail(us) == ts;
  }

  /** The tokens of the elements `es`, the closing bracket and what follows. */
  function ElemTokens(es: seq<Syntax>, rest: seq<Token>): seq<Token>
    requires es != []
  {
    Flat(es[0]) + (FlatElems(es[1..]) + rest)
  }

  function MemberTokens(ms: seq<SMember>, rest: seq<Token>): seq<Token>
    requires ms != []
  {
    FlatKey(ms[0].key) + (Flat(ms[0].value) + (FlatMembers(ms[1..]) + rest))
  }

  lemma PushToken(t: Token, a: seq<Token>, b: seq<Token>)
    ensures ([t] + a) + b == [t] + (a + b)
    ensures var ts := ([t] + a) + b; ts[0] == t && Tail(ts) == a + b
  {}

  lemma Associative(a: seq<Token>, b: seq<Token>, c: seq<Token>)
    ensures (a + b) + c == a + (b + c)
  {}

  lemma FlatElemsTail(es: seq<Syntax>, rest: seq<Token>)
    ensures var ts := FlatElems(es) + rest;
            ts != [] && ts[0] == Punct(if es == [] then ']' else ',') &&
            Tail(ts) == if es == [] then rest else ElemTokens(es, rest)
  {
    hide Flat;
    if es == [] {
      assert FlatElems(es) == [Punct(']')] + [];
      PushToken(Punct(']'), [], rest);
      assert [] + rest == rest;
    } else {
      PushToken(Punct(','), Flat(es[0]) + FlatElems(es[1..]), rest);
      Associative(Flat(es[0]), FlatElems(es[1..]), rest);
    }
  }

  lemma FlatMembersTail(ms: seq<SMember>, rest: seq<Token>)
    ensures var ts := FlatMembers(ms) + rest;
            ts != [] && ts[0] == Punct(if ms == [] then '}' else ',') &&
            Tail(ts) == if ms == [] then rest else MemberTokens(ms, rest)
  {
    hide Flat, FlatKey;
    if ms == [] {
      assert FlatMembers(ms) == [Punct('}')] + [];
      PushToken(Punct('}'), [], rest);
      assert [] + rest == rest;
    } else {
      var m := ms[0];
      PushToken(Punct(','), FlatKey(m.key) + Flat(m.value) + FlatMembers(ms[1..]), rest);
      Associative(FlatKey(m.key) + Flat(m.value), FlatMembers(ms[1..]), rest);
      Associative(FlatKey(m.key), Flat(m.value), FlatMembers(ms[1..]) + rest);
    }
  }

  lemma FlatArray(es: seq<Syntax>, rest: seq<Token>)
    ensures Flat(SArray(es)) + rest ==
            [Punct('[')] + if es == [] then [Punct(']')] + rest else ElemTokens(es, rest)
  {
    if es != [] {
      PushToken(Punct('['), Flat(es[0]) + FlatElems(es[1..]), rest);
      Associative(Flat(es[0]), FlatElems(es[1..]), rest);
    }
  }

  lemma FlatObject(ms: seq<SMember>, rest: seq<Token>)
    ensures Flat(SObject(ms)) + rest ==
            [Punct('{')] + if ms == [] then [Punct('}')] + rest else MemberTokens(ms, rest)
  {
    if ms != [] {
      var m := ms[0];
      PushToken(Punct('{'), FlatKey(m.key) + Flat(m.value) + FlatMembers(ms[1..]), rest);
      Associative(FlatKey(m.key) + Flat(m.value), FlatMembers(ms[1..]), rest);
      Associative(FlatKey(m.key), Flat(m.value), FlatMembers(ms[1..]) + rest);
    }
  }

  /** The reader accepts a sentence of the grammar exactly when its surrogates are paired, and
      then yields what the sentence denotes and consumes exactly its tokens. */
  lemma {:induction false} ReaderAcceptsGrammar(x: Syntax, rest: seq<Token>, before: Value, f: Features)
    requires Valid(x)
    ensures ReadsAs(ParseValue(Flat(x) + rest, before, f), AllPaired(x), Denote(x), rest)
    decreases x, 0
  {
    hide ParseMembers, ParseElements, ParseValue, Flat, MemberTokens;
    match x
    case SArray(es) =>
      FlatArray(es, rest);
      if es == [] {
        OpensWith('[', [Punct(']')] + rest, before, f);
      } else {
        OpensWith('[', ElemTokens(es, rest), before, f);
        assert Head(ElemTokens(es, rest)) == Flat(es[0])[0];
        ReaderAcceptsElems(es, [], rest, f);
        assert [] + DenoteElems(es) == DenoteElems(es);
      }
    case SObject(ms) =>
      FlatObject(ms, rest);
      if ms == [] {
        OpensWith('{', [Punct('}')] + rest, before, f);
        EmptyObject(rest, f);
      } else {
        OpensWith('{', MemberTokens(ms, rest), before, f);
        ReaderAcceptsMembers(ms, [], "", rest, f);
      }
    case _ => ReaderAcceptsLeaf(x, rest, before, f);
  }

  /** One turn of the array loop on an element followed by a separator or the closing bracket. */
  lemma ElementsStep(ts: seq<Token>, after: seq<Token>, acc: seq<Value>, f: Features)
    requires after != [] && after[0].kind in {ArraySeparator, ArrayEnd}
    ensures var v := ParseValue(ts, Null, f);
            var r := ParseElements(ts, acc, f);
            if !v.ok then !r.ok
            else if v.rest == after then
              r == if after[0].kind == ArrayEnd then Parsed(true, Arr(acc + [v.value]), Tail(after), [])
                   else ParseElements(Tail(after), acc + [v.value], f)
            else true
  {
    hide ParseValue;
  }

  lemma {:induction false} ReaderAcceptsElems(es: seq<Syntax>, acc: seq<Value>, rest: seq<Token>, f: Features)
    requires es != [] && ValidElems(es)
    ensures ReadsAs(ParseElements(ElemTokens(es, rest), acc, f), PairedElems(es), Arr(acc + DenoteElems(es)), rest)
    decreases es, 1
  {
    hide Flat, FlatElems, Denote, AllPaired, Valid, ParseValue, ParseElements, KindOf;
    var tail := es[1..];
    var after := FlatElems(tail) + rest;
    FlatElemsTail(tail, rest);
    PunctKinds();
    ElementsStep(ElemTokens(es, rest), after, acc, f);
    ReaderAcceptsGrammar(es[0], after, Null, f);
    if AllPaired(es[0]) {
      hide ElemTokens;
      var acc' := acc + [Denote(es[0])];
      DenoteElemsStep(es, acc);
      if tail != [] { ReaderAcceptsElems(tail, acc', rest, f); }
    }
  }

  lemma PunctKinds()
    ensures KindOf(',') == ArraySeparator && KindOf(']') == ArrayEnd && KindOf('}') == ObjectEnd
  {}

  lemma DenoteElemsStep(es: seq<Syntax>, acc: seq<Value>)
    requires es != []
    ensures (acc + [Denote(es[0])]) + DenoteElems(es[1..]) == acc + DenoteElems(es)
    ensures es[1..] == [] ==> acc + [Denote(es[0])] == acc + DenoteElems(es)
  {
    hide Denote;
    MoveValue(acc, Denote(es[0]), DenoteElems(es[1..]));
    MoveValue(acc, Denote(es[0]), []);
  }

  lemma MoveValue(a: seq<Value>, v: Value, b: seq<Value>)
    ensures (a + [v]) + b == a + ([v] + b)
    ensures b == [] ==> (a + [v]) + b == a + [v] && [v] + b == [v]
  {}

  /** One turn of the object loop on "name : value" followed by a separator or the closing brace. */
  lemma MembersStep(key: seq<Item>, value: Syntax, after: seq<Token>, acc: seq<Member>, name: string, f: Features)
    requires ValidPaired(key) && after != [] && after[0].kind in {ArraySeparator, ObjectEnd}
    ensures var k := StringValue(key);
            var v := ParseValue(Flat(value) + after, GetOrNull(acc, k), f);
            var r := ParseMembers(FlatKey(key) + (Flat(value) + after), acc, name, f);
            if !v.ok then !r.ok
            else if v.rest == after then
              var ms := Put(acc, k, v.value);
              r == if after[0].kind == ObjectEnd then Parsed(true, Obj(ms), Tail(after), [])
                   else ParseMembers(Tail(after), ms, ItemsValue(key), f)
            else true
  {
    hide Flat, DecodeString, Paired, ItemsValue, ValidItems, Literal, CStr, Put, Get, ParseValue;
    var ts := FlatKey(key) + (Flat(value) + after);
    DecodeStringOf(key);
    assert ts[0] == FlatKey(key)[0] && Tail(ts) == [Punct(':')] + (Flat(value) + after);
    assert Tail(Tail(ts)) == Flat(value) + after;
  }

  lemma MembersBadName(key: seq<Item>, ts: seq<Token>, acc: seq<Member>, name: string, f: Features)
    requires ValidItems(key) && !Paired(key)
    ensures !ParseMembers(FlatKey(key) + ts, acc, name, f).ok
  {
    hide DecodeString, Paired, ValidItems, Literal;
    var us := FlatKey(key) + ts;
    DecodeStringOf(key);
    assert us[0] == FlatKey(key)[0];
  }

  lemma {:induction false} ReaderAcceptsMembers(ms: seq<SMember>, acc: seq<Member>, name: string,
                                                rest: seq<Token>, f: Features)
    requires ms != [] && ValidMembers(ms)
    ensures ReadsAs(ParseMembers(MemberTokens(ms, rest), acc, name, f), PairedMembers(ms),
                    Obj(DenoteMembers(acc, ms)), rest)
    decreases ms, 1
  {
    hide Flat, FlatMembers, FlatKey, Denote, AllPaired, Valid, Paired, ItemsValue, ValidItems, StringValue, Put,
      ParseValue, ParseMembers;
    var m, tail := ms[0], ms[1..];
    var after := FlatMembers(tail) + rest;
    FlatMembersTail(tail, rest);
    if !Paired(m.key) {
      MembersBadName(m.key, Flat(m.value) + after, acc, name, f);
    } else {
      MembersStep(m.key, m.value, after, acc, name, f);
      var key := StringValue(m.key);
      ReaderAcceptsGrammar(m.value, after, GetOrNull(acc, key), f);
      if tail != [] { ReaderAcceptsMembers(tail, Put(acc, key, Denote(m.value)), ItemsValue(m.key), rest, f); }
    }
  }

  /** What a strict root may be. */
  predicate StrictRoot(v: Value) { v.Null? || v.Arr? || v.Obj? }

  /** Any document whose tokens start with those of a sentence, however it is laid out, in every feature
      set. */
  lemma ReaderAcceptsText(x: Syntax, rest: seq<Token>, document: string, before: Value, f: Features)
    requires Valid(x) && Tokens(document) == Flat(x) + rest
    ensures var r := ParseDocument(document, before, f);
            (r.ok <==> AllPaired(x) && (f.strictRoot ==> StrictRoot(Denote(x))))
            && (AllPaired(x) ==> r.value == Denote(x))
  {
    hide Tokens, ParseValue, Denote, Flat;
    ReaderAcceptsGrammar(x, rest, before, f);
  }

  /** The check of the separator in `readArray` never fires: whatever token stands between two
      elements, unless it is a comment or the closing bracket, is taken for a comma. */
  lemma AnyTokenSeparates(x: Syntax, separator: Token, rest: seq<Token>, acc: seq<Value>, f: Features)
    requires Valid(x) && AllPaired(x)
    requires separator.kind != Comment && separator.kind != ArrayEnd
    ensures ParseElements(Flat(x) + ([separator] + rest), acc, f)
            == ParseElements(Flat(x) + ([Punct(',')] + rest), acc, f)
  {
    hide ParseValue, Flat, Denote, AllPaired, Valid;
    ReaderAcceptsGrammar(x, [separator] + rest, Null, f);
    ReaderAcceptsGrammar(x, [Punct(',')] + rest, Null, f);
    assert SkipComments([separator] + rest) == [separator] + rest;
    assert Tail([separator] + rest) == rest == Tail([Punct(',')] + rest);
  }
}
