/** The language the reader really accepts (json_reader.cpp:195-579), which is larger than JSON: an extended
    grammar over tokens, with a meaning, and the proof that it is exact. */
module JsonAccepted {
  import opened Wrappers
  import opened JsonValue
  import opened JsonNumber
  import opened JsonString
  import opened JsonLexer
  import opened JsonParser

  /** A value with the comments before it. */
  datatype Form = Form(pre: seq<Token>, body: Body)

  datatype Body =
    | Scalar(t: Token)
    | EmptyList(start: Token, bracket: Token)
    | List(start: Token, elements: seq<Element>)
    | Record(start: Token, fields: seq<Field>, close: seq<Token>)

  /** An element, the comments after it, and the token that ends or separates it. */
  datatype Element = Element(value: Form, post: seq<Token>, sep: Token)

  datatype Field = Field(pre: seq<Token>, key: Token, colon: Token, value: Form, post: seq<Token>, sep: Token)

  predicate AllComments(ts: seq<Token>) { forall k :: 0 <= k < |ts| ==> ts[k].kind == Comment }

  predicate GoodScalar(t: Token) {
    match t.kind
    case NumberToken => DecodeNumber(t.text).Some?
    case StringToken => DecodeString(t).Ok?
    case TrueToken => true
    case FalseToken => true
    case NullToken => true
    case _ => false
  }

  /** A derivation in the extended grammar. Comments may precede a value unless they are switched off, follow
      any element, and precede any name, but stand neither in an empty array nor before a ':'. */
  predicate Good(x: Form, f: Features) {
    AllComments(x.pre) && (f.allowComments || x.pre == []) && GoodBody(x.body, f)
  }

  predicate GoodBody(b: Body, f: Features) {
    match b
    case Scalar(t) => GoodScalar(t)
    case EmptyList(start, bracket) => start.kind == ArrayBegin && bracket.kind == ArrayEnd
    case List(start, elements) => start.kind == ArrayBegin && GoodElements(elements, f)
    case Record(start, fields, close) => start.kind == ObjectBegin && GoodFields(fields, close, "", f)
  }

  /** Any token that is neither a comment nor a ']' separates elements. */
  predicate GoodElements(es: seq<Element>, f: Features) {
    es != [] && Good(es[0].value, f) && AllComments(es[0].post) && es[0].sep.kind != Comment
    && if |es| == 1 then es[0].sep.kind == ArrayEnd else es[0].sep.kind != ArrayEnd && GoodElements(es[1..], f)
  }

  /** Members are separated by a comma, or by any token at all behind a comment. A '}' ends the object behind
      a member, or in place of a name if there is no member yet or the last one has the empty name. */
  predicate GoodFields(fs: seq<Field>, close: seq<Token>, name: string, f: Features) {
    if fs == [] then
      close != [] && AllComments(close[..|close| - 1]) && close[|close| - 1].kind == ObjectEnd && name == ""
    else
      var m := fs[0];
      AllComments(m.pre) && m.key.kind == StringToken && DecodeString(m.key).Ok? && m.colon.kind == MemberSeparator
      && Good(m.value, f) && AllComments(m.post) && m.sep.kind != Comment
      && if m.sep.kind == ObjectEnd then |fs| == 1 && close == []
         else (m.post == [] ==> m.sep.kind == ArraySeparator)
              && GoodFields(fs[1..], close, DecodeString(m.key).value, f)
  }

  // ---------------------------------------------------------------- tokens and meaning

  function Spelled(x: Form): seq<Token> { x.pre + SpelledBody(x.body) }

  function SpelledBody(b: Body): seq<Token> {
    match b
    case Scalar(t) => [t]
    case EmptyList(start, close) => [start, close]
    case List(start, elements) => [start] + SpelledElements(elements)
    case Record(start, fields, close) => [start] + SpelledFields(fields, close)
  }

  function SpelledElements(es: seq<Element>): seq<Token> {
    if es == [] then [] else Spelled(es[0].value) + (es[0].post + ([es[0].sep] + SpelledElements(es[1..])))
  }

  function SpelledFields(fs: seq<Field>, close: seq<Token>): seq<Token> {
    if fs == [] then close
    else
      var m := fs[0];
      m.pre + ([m.key, m.colon] + (Spelled(m.value) + (m.post + ([m.sep] + SpelledFields(fs[1..], close)))))
  }

  function ScalarMeaning(t: Token): Value {
    match t.kind
    case NumberToken => (match DecodeNumber(t.text) case Some(v) => v case None => Null)
    case StringToken => (match DecodeString(t) case Ok(s) => Str(CStr(s)) case Err(_) => Null)
    case TrueToken => Bool(true)
    case FalseToken => Bool(false)
    case _ => Null
  }

  function Meaning(x: Form): Value { BodyMeaning(x.body) }

  function BodyMeaning(b: Body): Value {
    match b
    case Scalar(t) => ScalarMeaning(t)
    case EmptyList(_, _) => Arr([])
    case List(_, elements) => Arr(ElementsMeaning(elements))
    case Record(_, fields, _) => Obj(FieldsMeaning(fields, []))
  }

  function ElementsMeaning(es: seq<Element>): seq<Value> {
    if es == [] then [] else [Meaning(es[0].value)] + ElementsMeaning(es[1..])
  }

  function KeyText(t: Token): string { match DecodeString(t) case Ok(s) => s case Err(_) => "" }

  function FieldsMeaning(fs: seq<Field>, ms: seq<Member>): seq<Member> {
    if fs == [] then ms else FieldsMeaning(fs[1..], Put(ms, CStr(KeyText(fs[0].key)), Meaning(fs[0].value)))
  }

  // ---------------------------------------------------------------- every derivation is accepted

  lemma {:induction false} SkipAll(pre: seq<Token>, ts: seq<Token>)
    requires AllComments(pre) && Head(ts).kind != Comment
    ensures SkipComments(pre + ts) == ts
  {
    if pre == [] {
      assert pre + ts == ts;
    } else {
      assert (pre + ts)[1..] == pre[1..] + ts;
      SkipAll(pre[1..], ts);
    }
  }

  lemma SpelledBodyStarts(b: Body, f: Features)
    requires GoodBody(b, f)
    ensures SpelledBody(b) != [] && SpelledBody(b)[0].kind != Comment
  {}

  /** A value starts, behind its comments, with the token that decides what it is. */
  lemma StartOf(x: Form, rest: seq<Token>, f: Features)
    requires Good(x, f)
    ensures var ts := Spelled(x) + rest;
            (if f.allowComments then SkipComments(ts) else ts) == SpelledBody(x.body) + rest
  {
    SpelledBodyStarts(x.body, f);
    assert Spelled(x) + rest == x.pre + (SpelledBody(x.body) + rest);
    SkipAll(x.pre, SpelledBody(x.body) + rest);
    if !f.allowComments { assert [] + (SpelledBody(x.body) + rest) == SpelledBody(x.body) + rest; }
  }

  lemma AcceptsScalar(t: Token, ts: seq<Token>, rest: seq<Token>, before: Value, f: Features)
    requires GoodScalar(t) && (if f.allowComments then SkipComments(ts) else ts) == [t] + rest
    ensures ParseValue(ts, before, f) == Parsed(true, ScalarMeaning(t), rest, [])
  {
    hide DecodeNumber, DecodeString, ParseMembers, ParseElements;
    assert ([t] + rest)[1..] == rest;
  }

  lemma AcceptsEmptyList(b: Body, ts: seq<Token>, rest: seq<Token>, before: Value, f: Features)
    requires b.EmptyList? && b.start.kind == ArrayBegin && b.bracket.kind == ArrayEnd
    requires (if f.allowComments then SkipComments(ts) else ts) == SpelledBody(b) + rest
    ensures ParseValue(ts, before, f) == Parsed(true, Arr([]), rest, [])
  {
    var us := SpelledBody(b) + rest;
    assert us[1..][1..] == rest && us[1..][0] == b.bracket;
  }

  lemma OpensList(start: Token, ts: seq<Token>, us: seq<Token>, before: Value, f: Features)
    requires start.kind == ArrayBegin && Head(us).kind != ArrayEnd
    requires (if f.allowComments then SkipComments(ts) else ts) == [start] + us
    ensures ParseValue(ts, before, f) == ParseElements(us, [], f)
  {
    hide ParseElements;
    assert ([start] + us)[1..] == us;
  }

  lemma OpensRecord(start: Token, ts: seq<Token>, us: seq<Token>, before: Value, f: Features)
    requires start.kind == ObjectBegin
    requires (if f.allowComments then SkipComments(ts) else ts) == [start] + us
    ensures ParseValue(ts, before, f) == ParseMembers(us, [], "", f)
  {
    hide ParseMembers;
    assert ([start] + us)[1..] == us;
  }

  lemma NoClosingStart(x: Form, f: Features, rest: seq<Token>)
    requires Good(x, f)
    ensures Head(Spelled(x) + rest).kind != ArrayEnd
  {
    SpelledBodyStarts(x.body, f);
    if x.pre == [] {
      assert (Spelled(x) + rest)[0] == SpelledBody(x.body)[0];
    } else {
      assert (Spelled(x) + rest)[0] == x.pre[0];
    }
  }

  lemma Regroup2(a: seq<Token>, b: seq<Token>, c: seq<Token>)
    ensures (a + b) + c == a + (b + c)
  {}

  lemma {:induction false} Accepts(x: Form, rest: seq<Token>, before: Value, f: Features)
    requires Good(x, f)
    ensures ParseValue(Spelled(x) + rest, before, f) == Parsed(true, Meaning(x), rest, [])
    decreases x, 0
  {
    hide ParseValue, ParseElements, ParseMembers, SkipComments, GoodScalar, GoodElements, GoodFields, Spelled;
    hide SpelledElements, SpelledFields, ElementsMeaning, FieldsMeaning, ScalarMeaning;
    var ts := Spelled(x) + rest;
    StartOf(x, rest, f);
    match x.body
    case Scalar(t) => AcceptsScalar(t, ts, rest, before, f);
    case EmptyList(_, _) => AcceptsEmptyList(x.body, ts, rest, before, f);
    case List(start, es) =>
      Regroup2([start], SpelledElements(es), rest);
      ListStart(es, rest, f);
      OpensList(start, ts, SpelledElements(es) + rest, before, f);
      AcceptsElements(es, rest, [], f);
      assert [] + ElementsMeaning(es) == ElementsMeaning(es);
    case Record(start, fs, close) =>
      Regroup2([start], SpelledFields(fs, close), rest);
      OpensRecord(start, ts, SpelledFields(fs, close) + rest, before, f);
      AcceptsFields(fs, close, rest, [], "", f);
  }

  lemma ListStart(es: seq<Element>, rest: seq<Token>, f: Features)
    requires GoodElements(es, f)
    ensures Head(SpelledElements(es) + rest).kind != ArrayEnd
  {
    hide Good, Spelled;
    var tail := es[0].post + ([es[0].sep] + SpelledElements(es[1..]));
    NoClosingStart(es[0].value, f, tail + rest);
    assert SpelledElements(es) + rest == Spelled(es[0].value) + (tail + rest);
  }

  /** The array loop after an element whose value has been read. */
  lemma ElementStep(ts: seq<Token>, acc: seq<Value>, v: Value, post: seq<Token>, sep: Token, us: seq<Token>, f: Features)
    requires ParseValue(ts, Null, f) == Parsed(true, v, post + ([sep] + us), [])
    requires AllComments(post) && sep.kind != Comment
    ensures ParseElements(ts, acc, f) ==
            if sep.kind == ArrayEnd then Parsed(true, Arr(acc + [v]), us, []) else ParseElements(us, acc + [v], f)
  {
    hide ParseValue;
    SkipAll(post, [sep] + us);
    assert ([sep] + us)[1..] == us;
  }

  lemma Regroup4(a: seq<Token>, b: seq<Token>, c: seq<Token>, d: seq<Token>, e: seq<Token>)
    ensures (a + (b + (c + d))) + e == a + (b + (c + (d + e)))
  {}

  lemma {:induction false} AcceptsElements(es: seq<Element>, rest: seq<Token>, acc: seq<Value>, f: Features)
    requires GoodElements(es, f)
    ensures ParseElements(SpelledElements(es) + rest, acc, f) == Parsed(true, Arr(acc + ElementsMeaning(es)), rest, [])
    decreases es, 0
  {
    hide Good, Spelled, Meaning, ParseValue, ParseElements, SkipComments;
    var e, us := es[0], SpelledElements(es[1..]) + rest;
    var ts := SpelledElements(es) + rest;
    Regroup4(Spelled(e.value), e.post, [e.sep], SpelledElements(es[1..]), rest);
    Accepts(e.value, e.post + ([e.sep] + us), Null, f);
    var v := Meaning(e.value);
    ElementStep(ts, acc, v, e.post, e.sep, us, f);
    if |es| == 1 {
      assert es[1..] == [] && us == rest;
      assert ElementsMeaning(es) == [v];
    } else {
      AcceptsElements(es[1..], rest, acc + [v], f);
      assert acc + [v] + ElementsMeaning(es[1..]) == acc + ([v] + ElementsMeaning(es[1..]));
    }
  }

  /** The object loop after a name and a value. */
  lemma FieldStep(m: Field, v: Value, us: seq<Token>, ms: seq<Member>, name: string, f: Features)
    requires AllComments(m.pre) && m.key.kind == StringToken && DecodeString(m.key).Ok? && m.colon.kind == MemberSeparator
    requires AllComments(m.post) && m.sep.kind != Comment
    requires m.post == [] ==> m.sep.kind == ArraySeparator || m.sep.kind == ObjectEnd
    requires var ws := m.post + ([m.sep] + us);
             ParseValue(Spelled(m.value) + ws, GetOrNull(ms, CStr(KeyText(m.key))), f) == Parsed(true, v, ws, [])
    ensures var ms' := Put(ms, CStr(KeyText(m.key)), v);
            ParseMembers(m.pre + ([m.key, m.colon] + (Spelled(m.value) + (m.post + ([m.sep] + us)))), ms, name, f) ==
            if m.sep.kind == ObjectEnd then Parsed(true, Obj(ms'), us, []) else ParseMembers(us, ms', KeyText(m.key), f)
  {
    hide ParseValue, DecodeString, CStr, Put, Get, GetOrNull, Spelled;
    var ws := m.post + ([m.sep] + us);
    var vs := Spelled(m.value) + ws;
    var ks := [m.key, m.colon] + vs;
    SkipAll(m.pre, ks);
    assert ks[1..] == [m.colon] + vs && ks[1..][1..] == vs;
    SkipAll(m.post, [m.sep] + us);
    assert ([m.sep] + us)[1..] == us;
    assert Head(ws) == if m.post == [] then m.sep else m.post[0];
  }

  lemma CloseStep(close: seq<Token>, rest: seq<Token>, ms: seq<Member>, f: Features)
    requires close != [] && AllComments(close[..|close| - 1]) && close[|close| - 1].kind == ObjectEnd
    ensures ParseMembers(close + rest, ms, "", f) == Parsed(true, Obj(ms), rest, [])
  {
    hide ParseValue;
    var n := |close| - 1;
    assert close + rest == close[..n] + ([close[n]] + rest);
    SkipAll(close[..n], [close[n]] + rest);
    assert ([close[n]] + rest)[1..] == rest;
  }

  lemma Regroup6(a: seq<Token>, b: seq<Token>, c: seq<Token>, d: seq<Token>, e: seq<Token>, r: seq<Token>, s: seq<Token>)
    ensures (a + (b + (c + (d + (e + r))))) + s == a + (b + (c + (d + (e + (r + s)))))
  {}

  lemma {:induction false} AcceptsFields(fs: seq<Field>, close: seq<Token>, rest: seq<Token>, ms: seq<Member>, name: string,
                                         f: Features)
    requires GoodFields(fs, close, name, f)
    ensures ParseMembers(SpelledFields(fs, close) + rest, ms, name, f) == Parsed(true, Obj(FieldsMeaning(fs, ms)), rest, [])
    decreases fs, 0
  {
    hide Good, Spelled, Meaning, ParseValue, ParseMembers, SkipComments, DecodeString, CStr, Put, GetOrNull, Get;
    if fs == [] {
      CloseStep(close, rest, ms, f);
    } else {
      var m, us := fs[0], SpelledFields(fs[1..], close) + rest;
      var ws := m.post + ([m.sep] + us);
      var key := CStr(KeyText(m.key));
      Accepts(m.value, ws, GetOrNull(ms, key), f);
      var v := Meaning(m.value);
      FieldStep(m, v, us, ms, name, f);
      Regroup6(m.pre, [m.key, m.colon], Spelled(m.value), m.post, [m.sep], SpelledFields(fs[1..], close), rest);
      if m.sep.kind == ObjectEnd {
        assert fs[1..] == [] && us == [] + rest;
      } else {
        AcceptsFields(fs[1..], close, rest, Put(ms, key, v), KeyText(m.key), f);
      }
    }
  }

  // ---------------------------------------------------------------- everything accepted is derived

  lemma {:induction false} SplitComments(ts: seq<Token>) returns (pre: seq<Token>)
    ensures AllComments(pre) && ts == pre + SkipComments(ts)
  {
    if ts != [] && ts[0].kind == Comment {
      var p := SplitComments(ts[1..]);
      pre := [ts[0]] + p;
    } else {
      pre := [];
    }
  }

  lemma HeadAndTail(ts: seq<Token>)
    requires ts != []
    ensures ts == [Head(ts)] + Tail(ts)
  {}

  /** What an accepted value begins with, and how it goes on. */
  lemma AcceptedStart(ts: seq<Token>, us: seq<Token>, before: Value, f: Features)
    requires us == if f.allowComments then SkipComments(ts) else ts
    requires ParseValue(ts, before, f).ok
    ensures us != []
    ensures var r := ParseValue(ts, before, f);
            match Head(us).kind
            case ObjectBegin => r == ParseMembers(Tail(us), [], "", f)
            case ArrayBegin =>
              r == if Head(Tail(us)).kind == ArrayEnd then Parsed(true, Arr([]), Tail(Tail(us)), [])
                   else ParseElements(Tail(us), [], f)
            case _ => GoodScalar(Head(us)) && r == Parsed(true, ScalarMeaning(Head(us)), Tail(us), [])
  {
    hide DecodeNumber, DecodeString, ParseMembers, ParseElements, SkipComments, CStr;
  }

  lemma {:induction false} Derives(ts: seq<Token>, before: Value, f: Features) returns (x: Form)
    requires ParseValue(ts, before, f).ok
    ensures var r := ParseValue(ts, before, f);
            Good(x, f) && ts == Spelled(x) + r.rest && r.value == Meaning(x)
    decreases |ts|, 1
  {
    hide ParseValue, SkipComments, GoodBody, SpelledBody, BodyMeaning;
    var pre: seq<Token> := [];
    if f.allowComments { pre := SplitComments(ts); } else { assert ts == [] + ts; }
    ghost var us := if f.allowComments then SkipComments(ts) else ts;
    var b := DerivesBody(ts, us, before, f);
    x := Form(pre, b);
    Regroup2(pre, SpelledBody(b), ParseValue(ts, before, f).rest);
  }

  lemma {:induction false} DerivesBody(ts: seq<Token>, us: seq<Token>, before: Value, f: Features) returns (b: Body)
    requires us == if f.allowComments then SkipComments(ts) else ts
    requires ParseValue(ts, before, f).ok && |us| <= |ts|
    ensures var r := ParseValue(ts, before, f);
            GoodBody(b, f) && us == SpelledBody(b) + r.rest && r.value == BodyMeaning(b)
    decreases |us|, 0
  {
    hide ParseValue, ParseMembers, ParseElements, SkipComments, GoodScalar, GoodElements, GoodFields;
    hide SpelledElements, SpelledFields, ElementsMeaning, FieldsMeaning, ScalarMeaning;
    AcceptedStart(ts, us, before, f);
    HeadAndTail(us);
    var t, rest := Head(us), Tail(us);
    ghost var left := ParseValue(ts, before, f).rest;
    if t.kind == ObjectBegin {
      var fields, close := DerivesFields(rest, [], "", f);
      b := Record(t, fields, close);
      Regroup2([t], SpelledFields(fields, close), left);
    } else if t.kind == ArrayBegin && Head(rest).kind == ArrayEnd {
      HeadAndTail(rest);
      b := EmptyList(t, Head(rest));
      Regroup2([t], [Head(rest)], left);
    } else if t.kind == ArrayBegin {
      var elements := DerivesElements(rest, [], f);
      b := List(t, elements);
      assert [] + ElementsMeaning(elements) == ElementsMeaning(elements);
      Regroup2([t], SpelledElements(elements), left);
    } else {
      b := Scalar(t);
    }
  }

  lemma {:induction false} DerivesElements(ts: seq<Token>, acc: seq<Value>, f: Features) returns (es: seq<Element>)
    requires ParseElements(ts, acc, f).ok
    ensures var r := ParseElements(ts, acc, f);
            GoodElements(es, f) && ts == SpelledElements(es) + r.rest && r.value == Arr(acc + ElementsMeaning(es))
    decreases |ts|, 2
  {
    hide Good, GoodElements, Spelled, SpelledElements, Meaning, ElementsMeaning, ParseValue, ParseElements, SkipComments;
    AcceptedElement(ts, acc, f);
    var v := ParseValue(ts, Null, f);
    var x := Derives(ts, Null, f);
    var post := SplitComments(v.rest);
    var ws := SkipComments(v.rest);
    HeadAndTail(ws);
    var e := Element(x, post, Head(ws));
    if Head(ws).kind == ArrayEnd {
      es := [e];
      OneElement(e, f);
      Regroup4(Spelled(x), post, [e.sep], [], Tail(ws));
      assert [] + Tail(ws) == Tail(ws);
    } else {
      var more := DerivesElements(Tail(ws), acc + [v.value], f);
      es := [e] + more;
      MoreElements(e, more, f);
      Regroup4(Spelled(x), post, [e.sep], SpelledElements(more), ParseElements(Tail(ws), acc + [v.value], f).rest);
      assert acc + [v.value] + ElementsMeaning(more) == acc + ([v.value] + ElementsMeaning(more));
    }
  }

  /** What an accepted array goes on with, up to the next element. */
  lemma AcceptedElement(ts: seq<Token>, acc: seq<Value>, f: Features)
    requires ParseElements(ts, acc, f).ok
    ensures var v := ParseValue(ts, Null, f);
            var ws := SkipComments(v.rest);
            v.ok && ws != [] && |Tail(ws)| < |ts|
            && ParseElements(ts, acc, f) ==
               if Head(ws).kind == ArrayEnd then Parsed(true, Arr(acc + [v.value]), Tail(ws), [])
               else ParseElements(Tail(ws), acc + [v.value], f)
  {
    hide ParseValue;
  }

  lemma OneElement(e: Element, f: Features)
    requires Good(e.value, f) && AllComments(e.post) && e.sep.kind == ArrayEnd
    ensures GoodElements([e], f) && SpelledElements([e]) == Spelled(e.value) + (e.post + ([e.sep] + []))
    ensures ElementsMeaning([e]) == [Meaning(e.value)]
  {
    hide Good, Spelled, Meaning;
    assert [e][1..] == [];
    assert [Meaning(e.value)] + [] == [Meaning(e.value)];
  }

  lemma MoreElements(e: Element, more: seq<Element>, f: Features)
    requires Good(e.value, f) && AllComments(e.post) && e.sep.kind != ArrayEnd && e.sep.kind != Comment && GoodElements(more, f)
    ensures GoodElements([e] + more, f)
    ensures SpelledElements([e] + more) == Spelled(e.value) + (e.post + ([e.sep] + SpelledElements(more)))
    ensures ElementsMeaning([e] + more) == [Meaning(e.value)] + ElementsMeaning(more)
  {
    hide Good, Spelled, Meaning;
    assert ([e] + more)[1..] == more;
  }

  lemma {:induction false} DerivesFields(ts: seq<Token>, ms: seq<Member>, name: string, f: Features)
    returns (fs: seq<Field>, close: seq<Token>)
    requires ParseMembers(ts, ms, name, f).ok
    ensures var r := ParseMembers(ts, ms, name, f);
            GoodFields(fs, close, name, f) && ts == SpelledFields(fs, close) + r.rest && r.value == Obj(FieldsMeaning(fs, ms))
    decreases |ts|, 2
  {
    hide Good, Spelled, Meaning, ParseValue, ParseMembers, DecodeString, CStr, Put, Get, GetOrNull, SkipComments, GoodFields;
    hide SpelledFields, FieldsMeaning, KeyText;
    var pre := SplitComments(ts);
    var us := SkipComments(ts);
    AcceptedName(ts, us, ms, name, f);
    HeadAndTail(us);
    if Head(us).kind == ObjectEnd && name == "" {
      fs, close := [], pre + [Head(us)];
      NoField(pre, Head(us), ms, f);
      Regroup2(pre, [Head(us)], Tail(us));
    } else {
      var afterName := Tail(us);
      HeadAndTail(afterName);
      var key := CStr(KeyText(Head(us)));
      var vs := Tail(afterName);
      var v := ParseValue(vs, GetOrNull(ms, key), f);
      var x := Derives(vs, GetOrNull(ms, key), f);
      var post := SplitComments(v.rest);
      var ws := SkipComments(v.rest);
      HeadAndTail(ws);
      var m := Field(pre, Head(us), Head(afterName), x, post, Head(ws));
      FieldSpelled(ts, m, us, afterName, vs, v.rest, ws);
      if Head(ws).kind == ObjectEnd {
        fs, close := [m], [];
        LastField(m, name, f);
        LastAssembled(m, Tail(ws));
      } else {
        var ms' := Put(ms, key, v.value);
        var more;
        more, close := DerivesFields(Tail(ws), ms', KeyText(Head(us)), f);
        fs := [m] + more;
        PostStart(post, ws, v.rest);
        MoreFields(m, more, close, name, ms, f);
        MoreAssembled(m, more, close, ParseMembers(Tail(ws), ms', KeyText(Head(us)), f).rest);
      }
    }
  }

  lemma LastAssembled(m: Field, rest: seq<Token>)
    ensures m.pre + ([m.key, m.colon] + (Spelled(m.value) + (m.post + ([m.sep] + rest)))) == SpelledFields([m], []) + rest
  {
    hide Spelled;
    assert [m][1..] == [] && [] + rest == rest;
    Regroup6(m.pre, [m.key, m.colon], Spelled(m.value), m.post, [m.sep], [], rest);
  }

  lemma MoreAssembled(m: Field, more: seq<Field>, close: seq<Token>, rest: seq<Token>)
    ensures m.pre + ([m.key, m.colon] + (Spelled(m.value) + (m.post + ([m.sep] + (SpelledFields(more, close) + rest))))) ==
            SpelledFields([m] + more, close) + rest
  {
    hide Spelled;
    assert ([m] + more)[1..] == more;
    Regroup6(m.pre, [m.key, m.colon], Spelled(m.value), m.post, [m.sep], SpelledFields(more, close), rest);
  }

  /** What an accepted object goes on with, up to the next member. */
  lemma AcceptedName(ts: seq<Token>, us: seq<Token>, ms: seq<Member>, name: string, f: Features)
    requires us == SkipComments(ts) && ParseMembers(ts, ms, name, f).ok
    ensures us != []
    ensures var r := ParseMembers(ts, ms, name, f);
            if Head(us).kind == ObjectEnd && name == "" then r == Parsed(true, Obj(ms), Tail(us), [])
            else
              var key := CStr(KeyText(Head(us)));
              var vs := Tail(Tail(us));
              var v := ParseValue(vs, GetOrNull(ms, key), f);
              var ws := SkipComments(v.rest);
              Head(us).kind == StringToken && DecodeString(Head(us)).Ok?
              && Tail(us) != [] && Head(Tail(us)).kind == MemberSeparator && |vs| < |ts|
              && v.ok && Head(v.rest).kind in {ObjectEnd, ArraySeparator, Comment} && ws != [] && |Tail(ws)| < |ts|
              && r == if Head(ws).kind == ObjectEnd then Parsed(true, Obj(Put(ms, key, v.value)), Tail(ws), [])
                      else ParseMembers(Tail(ws), Put(ms, key, v.value), KeyText(Head(us)), f)
  {
    hide ParseValue, DecodeString, CStr, Put, GetOrNull;
  }

  lemma NoField(pre: seq<Token>, close: Token, ms: seq<Member>, f: Features)
    requires AllComments(pre) && close.kind == ObjectEnd
    ensures GoodFields([], pre + [close], "", f) && SpelledFields([], pre + [close]) == pre + [close]
    ensures FieldsMeaning([], ms) == ms
  {
    assert (pre + [close])[..|pre|] == pre;
  }

  lemma PostStart(post: seq<Token>, ws: seq<Token>, ts: seq<Token>)
    requires AllComments(post) && ts == post + ws
    ensures post == [] ==> Head(ts) == Head(ws)
  {}

  lemma FieldSpelled(ts: seq<Token>, m: Field, us: seq<Token>, ks: seq<Token>, vs: seq<Token>, ps: seq<Token>, ws: seq<Token>)
    requires ts == m.pre + us && us == [m.key] + ks && ks == [m.colon] + vs && vs == Spelled(m.value) + ps
    requires ps == m.post + ws && ws == [m.sep] + Tail(ws)
    ensures ts == m.pre + ([m.key, m.colon] + (Spelled(m.value) + (m.post + ([m.sep] + Tail(ws)))))
  {
    assert us == [m.key, m.colon] + vs;
  }

  predicate GoodField(m: Field, f: Features) {
    AllComments(m.pre) && m.key.kind == StringToken && DecodeString(m.key).Ok? && m.colon.kind == MemberSeparator
    && Good(m.value, f) && AllComments(m.post) && m.sep.kind != Comment
  }

  lemma LastField(m: Field, name: string, f: Features)
    requires GoodField(m, f) && m.sep.kind == ObjectEnd
    ensures GoodFields([m], [], name, f)
    ensures SpelledFields([m], []) == m.pre + ([m.key, m.colon] + (Spelled(m.value) + (m.post + ([m.sep] + []))))
    ensures forall ms :: FieldsMeaning([m], ms) == Put(ms, CStr(KeyText(m.key)), Meaning(m.value))
  {
    hide Good, Spelled, Meaning, DecodeString, CStr, Put;
    assert [m][1..] == [];
  }

  lemma MoreFields(m: Field, more: seq<Field>, close: seq<Token>, name: string, ms: seq<Member>, f: Features)
    requires GoodField(m, f) && m.sep.kind != ObjectEnd && (m.post == [] ==> m.sep.kind == ArraySeparator)
    requires GoodFields(more, close, KeyText(m.key), f)
    ensures GoodFields([m] + more, close, name, f)
    ensures SpelledFields([m] + more, close) ==
            m.pre + ([m.key, m.colon] + (Spelled(m.value) + (m.post + ([m.sep] + SpelledFields(more, close)))))
    ensures FieldsMeaning([m] + more, ms) == FieldsMeaning(more, Put(ms, CStr(KeyText(m.key)), Meaning(m.value)))
  {
    hide Good, Spelled, DecodeString, Meaning, Put, CStr;
    assert ([m] + more)[1..] == more;
  }

  // ---------------------------------------------------------------- the results

  /** The reader accepts a value exactly when the tokens begin with a derivation; it takes the tokens of that
      derivation and yields its meaning. */
  lemma AcceptedExactly(ts: seq<Token>, before: Value, f: Features)
    ensures ParseValue(ts, before, f).ok <==> exists x, rest :: Good(x, f) && ts == Spelled(x) + rest
    ensures forall x, rest :: Good(x, f) && ts == Spelled(x) + rest ==>
              ParseValue(ts, before, f) == Parsed(true, Meaning(x), rest, [])
  {
    hide Good, Spelled, Meaning, ParseValue;
    if ParseValue(ts, before, f).ok {
      var x := Derives(ts, before, f);
      assert ts == Spelled(x) + ParseValue(ts, before, f).rest;
    }
    forall x, rest | Good(x, f) && ts == Spelled(x) + rest
      ensures ParseValue(ts, before, f) == Parsed(true, Meaning(x), rest, [])
    {
      Accepts(x, rest, before, f);
    }
  }

  /** A document is accepted exactly when its tokens begin with a derivation whose meaning, in strict mode, is a
      container or null. */
  lemma DocumentAcceptedExactly(document: string, before: Value, f: Features)
    ensures ParseDocument(document, before, f).ok <==>
            exists x, rest :: Good(x, f) && Tokens(document) == Spelled(x) + rest
                              && (f.strictRoot ==> StrictRoot(Meaning(x)))
  {
    hide Good, Spelled, Meaning, ParseValue, Tokens;
    AcceptedExactly(Tokens(document), before, f);
  }

  /** Behind a comment any token separates members, a colon or a number as well as a comma. */
  lemma AnyTokenAfterComment(a: Field, b: Field, f: Features)
    requires GoodField(a, f) && GoodField(b, f)
    requires a.post != [] && a.sep.kind != ObjectEnd && b.sep.kind == ObjectEnd
    ensures var brace := Token(ObjectBegin, "{");
            Good(Form([], Record(brace, [a, b], [])), f)
  {
    hide Good, DecodeString;
    LastField(b, KeyText(a.key), f);
    MoreFields(a, [b], [], "", [], f);
    assert [a] + [b] == [a, b];
    GoodRecord(Token(ObjectBegin, "{"), [a, b], f);
  }

  lemma GoodRecord(start: Token, fs: seq<Field>, f: Features)
    requires start.kind == ObjectBegin && GoodFields(fs, [], "", f)
    ensures Good(Form([], Record(start, fs, [])), f)
  {
    hide GoodFields;
  }
}
