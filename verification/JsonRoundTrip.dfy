/** The reader undoes both printers. */
module JsonRoundTrip {
  import opened JsonValue
  import opened JsonNumber
  import opened JsonString
  import opened JsonLexer
  import opened JsonParser
  import opened JsonText

  lemma LexPunct(c: char, t: string)
    requires IsPunctuation(c)
    ensures Tokens([c] + t) == [Punct(c)] + Tokens(t)
  {
    LexPunctuation(c, t);
  }

  lemma LexLeaf(v: Value, t: string)
    requires WellFormed(v) && Size(v) == 0 && EndsNumber(t)
    ensures Tokens(LeafText(v) + t) == Flat(SyntaxOf(v)) + Tokens(t)
  {
    hide Tokens, IsLiteral, IsRealText, QuoteItems, ValidItems, IntText, Digits, Paired, ItemsValue;
    match v
    case Null => LexWord("null", t);
    case Int(i) =>
      NormIntKeepsValue(i);
      LexNumber(IntText(i), t);
    case UInt(u) =>
      IntTextOfNat(u);
      NormIntKeepsValue(u);
      LexNumber(Digits(u), t);
    case Real(l) =>
      RealTextIsLiteral(l);
      LexNumber(l, t);
    case Str(s) =>
      QuoteDenotes(s);
      LexString(QuoteItems(s), t);
    case Bool(b) => LexWord(if b then "true" else "false", t);
    case Arr(_) =>
      LexPunct(']', t);
      LexPunct('[', "]" + t);
      assert "[]" + t == "[" + ("]" + t);
    case Obj(_) =>
      LexPunct('}', t);
      LexPunct('{', "}" + t);
      assert "{}" + t == "{" + ("}" + t);
  }

  /** Wherever the text is followed by something a number cannot run into, it reads as `ts`. */
  ghost predicate Lexes(x: string, ts: seq<Token>) {
    forall t :: EndsNumber(t) ==> Tokens(x + t) == ts + Tokens(t)
  }

  lemma LexesConcat(a: string, ta: seq<Token>, b: string, tb: seq<Token>)
    requires Lexes(a, ta) && Lexes(b, tb) && b != [] && EndsNumber(b)
    ensures Lexes(a + b, ta + tb)
  {
    hide Tokens;
    forall t | EndsNumber(t) ensures Tokens(a + b + t) == ta + tb + Tokens(t) {
      assert a + b + t == a + (b + t);
      assert (b + t)[0] == b[0];
      assert ta + (tb + Tokens(t)) == ta + tb + Tokens(t);
    }
  }

  lemma LexesPunct(c: char, b: string, tb: seq<Token>)
    requires IsPunctuation(c) && Lexes(b, tb)
    ensures Lexes([c] + b, [Punct(c)] + tb)
  {
    hide Tokens, Punct;
    forall t | EndsNumber(t) ensures Tokens([c] + b + t) == [Punct(c)] + tb + Tokens(t) {
      assert [c] + b + t == [c] + (b + t);
      LexPunct(c, b + t);
      assert [Punct(c)] + (tb + Tokens(t)) == [Punct(c)] + tb + Tokens(t);
    }
  }

  predicate Blank(w: string) { forall k :: 0 <= k < |w| ==> IsSpace(w[k]) }

  lemma LexesBlank(w: string, b: string, tb: seq<Token>)
    requires Blank(w) && Lexes(b, tb)
    ensures Lexes(w + b, tb)
  {
    hide Tokens;
    forall t | EndsNumber(t) ensures Tokens(w + b + t) == tb + Tokens(t) {
      assert w + b + t == w + (b + t);
      LexSpaces(w, b + t);
    }
  }

  lemma LexesNothing()
    ensures Lexes("", [])
  {
    hide Tokens;
    forall t | EndsNumber(t) ensures Tokens("" + t) == [] + Tokens(t) {
      assert "" + t == t;
    }
  }

  lemma LexesClose(c: char)
    requires IsPunctuation(c)
    ensures Lexes([c], [Punct(c)])
  {
    LexesNothing();
    LexesPunct(c, "", []);
    assert [c] + "" == [c] && [Punct(c)] + [] == [Punct(c)];
  }

  lemma LexesLeaf(v: Value)
    requires WellFormed(v) && Size(v) == 0
    ensures Lexes(LeafText(v), Flat(SyntaxOf(v)))
  {
    hide Tokens, LeafText, Flat;
    forall t | EndsNumber(t) ensures Tokens(LeafText(v) + t) == Flat(SyntaxOf(v)) + Tokens(t) {
      LexLeaf(v, t);
    }
  }

  /** "key" ':' and the value, with blank space around the colon, and then `tail`. */
  lemma LexesMember(key: string, colon: string, text: string, x: Syntax, tail: string, tt: seq<Token>)
    requires NulFree(key) && colon in {":", " : "}
    requires Lexes(text, Flat(x)) && Lexes(tail, tt) && tail != [] && EndsNumber(tail)
    ensures Lexes(Quote(key) + (colon + (text + tail)), FlatKey(QuoteItems(key)) + Flat(x) + tt)
  {
    hide Lexes, Quote, Flat, QuoteItems, Literal, WellFormed;
    var body := text + tail;
    LexesConcat(text, Flat(x), tail, tt);
    assert Lexes(colon + body, [Punct(':')] + (Flat(x) + tt)) by {
      if colon == ":" {
        LexesPunct(':', body, Flat(x) + tt);
      } else {
        LexesBlank(" ", body, Flat(x) + tt);
        LexesPunct(':', " " + body, Flat(x) + tt);
        LexesBlank(" ", ":" + (" " + body), [Punct(':')] + (Flat(x) + tt));
        assert " : " + body == " " + (":" + (" " + body));
      }
    }
    LexesKey(key);
    assert (colon + body)[0] == colon[0];
    LexesConcat(Quote(key), [Token(StringToken, Literal(QuoteItems(key)))], colon + body, [Punct(':')] + (Flat(x) + tt));
    assert [Token(StringToken, Literal(QuoteItems(key)))] + ([Punct(':')] + (Flat(x) + tt))
        == FlatKey(QuoteItems(key)) + Flat(x) + tt;
  }

  lemma LexesKey(key: string)
    requires NulFree(key)
    ensures Lexes(Quote(key), [Token(StringToken, Literal(QuoteItems(key)))])
  {
    LexesLeaf(Str(key));
  }

  // ---------------------------------------------------------------- the compact text

  lemma {:induction false} LexFast(v: Value)
    requires WellFormed(v)
    ensures Lexes(FastText(v), Flat(SyntaxOf(v)))
    decreases v, 0
  {
    hide Lexes, Flat, SyntaxOf, FastText;
    if Size(v) == 0 {
      LexesLeaf(v);
      FastLeaf(v);
    } else if v.Arr? {
      var es := v.elems;
      FastArray(es);
      ArrayContents(es);
      LexFast(es[0]);
      LexFastElems(es[1..]);
      LexesConcat(FastText(es[0]), Flat(SyntaxOf(es[0])), FastElems(es[1..]), FlatElems(ElemsSyntax(es[1..])));
      LexesPunct('[', FastText(es[0]) + FastElems(es[1..]), Flat(SyntaxOf(es[0])) + FlatElems(ElemsSyntax(es[1..])));
    } else {
      var ms := v.members;
      FastObject(ms);
      ObjectContents(ms);
      LexFast(ms[0].value);
      LexFastMembers(ms[1..]);
      LexesMember(ms[0].key, ":", FastText(ms[0].value), SyntaxOf(ms[0].value), FastMembers(ms[1..]),
                  FlatMembers(MembersSyntax(ms[1..])));
      LexesPunct('{', Quote(ms[0].key) + (":" + (FastText(ms[0].value) + FastMembers(ms[1..]))),
                 FlatKey(QuoteItems(ms[0].key)) + Flat(SyntaxOf(ms[0].value)) + FlatMembers(MembersSyntax(ms[1..])));
    }
  }

  lemma FastLeaf(v: Value)
    requires Size(v) == 0
    ensures FastText(v) == LeafText(v)
  {}

  lemma FastArray(es: seq<Value>)
    requires es != []
    ensures FastText(Arr(es)) == "[" + (FastText(es[0]) + FastElems(es[1..]))
  {}

  lemma FastObject(ms: seq<Member>)
    requires ms != []
    ensures FastText(Obj(ms)) == "{" + (Quote(ms[0].key) + (":" + (FastText(ms[0].value) + FastMembers(ms[1..]))))
  {}

  lemma ArrayContents(es: seq<Value>)
    requires es != []
    ensures Flat(SyntaxOf(Arr(es))) == [Punct('[')] + (Flat(SyntaxOf(es[0])) + FlatElems(ElemsSyntax(es[1..])))
  {
    assert ElemsSyntax(es)[1..] == ElemsSyntax(es[1..]);
  }

  lemma ObjectContents(ms: seq<Member>)
    requires ms != []
    ensures Flat(SyntaxOf(Obj(ms))) ==
            [Punct('{')] + (FlatKey(QuoteItems(ms[0].key)) + Flat(SyntaxOf(ms[0].value)) + FlatMembers(MembersSyntax(ms[1..])))
  {
    assert MembersSyntax(ms)[1..] == MembersSyntax(ms[1..]);
  }

  lemma ElemsContents(es: seq<Value>)
    requires es != []
    ensures FlatElems(ElemsSyntax(es)) == [Punct(',')] + (Flat(SyntaxOf(es[0])) + FlatElems(ElemsSyntax(es[1..])))
  {
    assert ElemsSyntax(es)[1..] == ElemsSyntax(es[1..]);
  }

  lemma MembersContents(ms: seq<Member>)
    requires ms != []
    ensures FlatMembers(MembersSyntax(ms)) ==
      [Punct(',')] + (FlatKey(QuoteItems(ms[0].key)) + Flat(SyntaxOf(ms[0].value)) + FlatMembers(MembersSyntax(ms[1..])))
  {
    assert MembersSyntax(ms)[1..] == MembersSyntax(ms[1..]);
  }

  lemma {:induction false} LexFastElems(es: seq<Value>)
    requires WellFormedElems(es)
    ensures Lexes(FastElems(es), FlatElems(ElemsSyntax(es)))
    ensures FastElems(es) != [] && EndsNumber(FastElems(es))
    decreases es, 1
  {
    hide Lexes, Flat, SyntaxOf, FastText, WellFormed;
    if es == [] {
      LexesClose(']');
    } else {
      ElemsContents(es);
      LexFast(es[0]);
      LexFastElems(es[1..]);
      LexesConcat(FastText(es[0]), Flat(SyntaxOf(es[0])), FastElems(es[1..]), FlatElems(ElemsSyntax(es[1..])));
      LexesPunct(',', FastText(es[0]) + FastElems(es[1..]), Flat(SyntaxOf(es[0])) + FlatElems(ElemsSyntax(es[1..])));
    }
  }

  lemma {:induction false} LexFastMembers(ms: seq<Member>)
    requires WellFormedMembers(ms)
    ensures Lexes(FastMembers(ms), FlatMembers(MembersSyntax(ms)))
    ensures FastMembers(ms) != [] && EndsNumber(FastMembers(ms))
    decreases ms, 1
  {
    hide Lexes, Flat, SyntaxOf, FastText, WellFormed, Quote, QuoteItems, FlatKey;
    if ms == [] {
      LexesClose('}');
    } else {
      MembersContents(ms);
      LexFast(ms[0].value);
      LexFastMembers(ms[1..]);
      LexesMember(ms[0].key, ":", FastText(ms[0].value), SyntaxOf(ms[0].value), FastMembers(ms[1..]),
                  FlatMembers(MembersSyntax(ms[1..])));
      LexesPunct(',', Quote(ms[0].key) + (":" + (FastText(ms[0].value) + FastMembers(ms[1..]))),
                 FlatKey(QuoteItems(ms[0].key)) + Flat(SyntaxOf(ms[0].value)) + FlatMembers(MembersSyntax(ms[1..])));
    }
  }

  // ---------------------------------------------------------------- the indented text

  lemma LexLineElems(es: seq<Value>)
    requires WellFormedElems(es) && AllLeaves(es)
    ensures Lexes(LineElems(es), FlatElems(ElemsSyntax(es)))
    ensures LineElems(es) != [] && EndsNumber(LineElems(es))
  {
    hide Lexes, Flat, SyntaxOf, LeafText, WellFormed;
    if es == [] {
      LexesClose(']');
      LexesBlank(" ", "]", [Punct(']')]);
      assert " ]" == " " + "]";
    } else {
      var text := LeafText(es[0]) + LineElems(es[1..]);
      var tokens := Flat(SyntaxOf(es[0])) + FlatElems(ElemsSyntax(es[1..]));
      ElemsContents(es);
      LexesLeaf(es[0]);
      LexLineElems(es[1..]);
      LexesConcat(LeafText(es[0]), Flat(SyntaxOf(es[0])), LineElems(es[1..]), FlatElems(ElemsSyntax(es[1..])));
      LexesBlank(" ", text, tokens);
      LexesPunct(',', " " + text, tokens);
      assert LineElems(es) == "," + (" " + text);
    }
  }

  lemma BlankNewLine(indent: string)
    requires Blank(indent)
    ensures Blank(NewLine(indent)) && Blank(indent + INDENT)
  {}

  lemma {:induction false} LexStyled(v: Value, indent: string)
    requires WellFormed(v) && Blank(indent)
    ensures Lexes(StyledText(v, indent), Flat(SyntaxOf(v)))
    decreases v, 0
  {
    hide Lexes, Flat, SyntaxOf, StyledText, OnOneLine, NewLine, Blank, StyledMember;
    if Size(v) == 0 {
      LexesLeaf(v);
      StyledLeaf(v, indent);
    } else if v.Arr? && OnOneLine(v.elems) {
      LexOneLine(v.elems, indent);
    } else if v.Arr? {
      var es := v.elems;
      StyledLines(es, indent);
      ArrayContents(es);
      LexStyledElem(es, indent);
      LexesPunct('[', NewLine(indent + INDENT) + (StyledText(es[0], indent + INDENT) + StyledElems(es[1..], indent)),
                 Flat(SyntaxOf(es[0])) + FlatElems(ElemsSyntax(es[1..])));
    } else {
      var ms := v.members;
      GroupedObject(ms, indent);
      ObjectContents(ms);
      LexStyledMember(ms, indent);
      LexesPunct('{', NewLine(indent + INDENT) + (StyledMember(ms[0].key, ms[0].value, indent) + StyledMembers(ms[1..], indent)),
                 FlatKey(QuoteItems(ms[0].key)) + Flat(SyntaxOf(ms[0].value)) + FlatMembers(MembersSyntax(ms[1..])));
    }
  }

  lemma StyledLines(es: seq<Value>, indent: string)
    requires es != [] && !OnOneLine(es)
    ensures StyledText(Arr(es), indent) ==
            "[" + (NewLine(indent + INDENT) + (StyledText(es[0], indent + INDENT) + StyledElems(es[1..], indent)))
  {}

  lemma GroupedObject(ms: seq<Member>, indent: string)
    requires ms != []
    ensures StyledText(Obj(ms), indent) ==
            "{" + (NewLine(indent + INDENT) + (StyledMember(ms[0].key, ms[0].value, indent) + StyledMembers(ms[1..], indent)))
  {}

  lemma LexOneLine(es: seq<Value>, indent: string)
    requires es != [] && WellFormedElems(es) && OnOneLine(es)
    ensures Lexes(StyledText(Arr(es), indent), Flat(SyntaxOf(Arr(es))))
  {
    hide Lexes, Flat, LeafText;
    var text := LeafText(es[0]) + LineElems(es[1..]);
    var tokens := Flat(SyntaxOf(es[0])) + FlatElems(ElemsSyntax(es[1..]));
    ArrayContents(es);
    LexesLeaf(es[0]);
    LexLineElems(es[1..]);
    LexesConcat(LeafText(es[0]), Flat(SyntaxOf(es[0])), LineElems(es[1..]), FlatElems(ElemsSyntax(es[1..])));
    LexesBlank(" ", text, tokens);
    LexesPunct('[', " " + text, tokens);
    assert StyledText(Arr(es), indent) == "[" + (" " + text);
  }

  /** A new line, an element, and the elements after it. */
  lemma {:induction false} LexStyledElem(es: seq<Value>, indent: string)
    requires es != [] && WellFormedElems(es) && Blank(indent)
    ensures Lexes(NewLine(indent + INDENT) + (StyledText(es[0], indent + INDENT) + StyledElems(es[1..], indent)),
                  Flat(SyntaxOf(es[0])) + FlatElems(ElemsSyntax(es[1..])))
    decreases es, 1
  {
    hide Lexes, Flat, SyntaxOf, StyledText, StyledElems, NewLine, Blank, ElemsSyntax, FlatElems, WellFormed;
    BlankNewLine(indent);
    BlankNewLine(indent + INDENT);
    LexStyled(es[0], indent + INDENT);
    LexStyledElems(es[1..], indent);
    var text, tail := StyledText(es[0], indent + INDENT), StyledElems(es[1..], indent);
    LexesConcat(text, Flat(SyntaxOf(es[0])), tail, FlatElems(ElemsSyntax(es[1..])));
    LexesBlank(NewLine(indent + INDENT), text + tail, Flat(SyntaxOf(es[0])) + FlatElems(ElemsSyntax(es[1..])));
  }

  lemma {:induction false} LexStyledElems(es: seq<Value>, indent: string)
    requires WellFormedElems(es) && Blank(indent)
    ensures Lexes(StyledElems(es, indent), FlatElems(ElemsSyntax(es)))
    ensures StyledElems(es, indent) != [] && EndsNumber(StyledElems(es, indent))
    decreases es, 2
  {
    hide Lexes, Flat, SyntaxOf, StyledText, Blank, WellFormed;
    if es == [] {
      LexesClose(']');
      BlankNewLine(indent);
      LexesBlank(NewLine(indent), "]", [Punct(']')]);
    } else {
      ElemsContents(es);
      LexStyledElem(es, indent);
      LexesPunct(',', NewLine(indent + INDENT) + (StyledText(es[0], indent + INDENT) + StyledElems(es[1..], indent)),
                 Flat(SyntaxOf(es[0])) + FlatElems(ElemsSyntax(es[1..])));
    }
  }

  /** A new line, a member, and the members after it. */
  lemma {:induction false} LexStyledMember(ms: seq<Member>, indent: string)
    requires ms != [] && WellFormedMembers(ms) && Blank(indent)
    ensures Lexes(NewLine(indent + INDENT) + (StyledMember(ms[0].key, ms[0].value, indent) + StyledMembers(ms[1..], indent)),
                  FlatKey(QuoteItems(ms[0].key)) + Flat(SyntaxOf(ms[0].value)) + FlatMembers(MembersSyntax(ms[1..])))
    decreases ms, 1
  {
    hide Lexes, Flat, SyntaxOf, StyledText, StyledMembers, NewLine, Blank, MembersSyntax, FlatMembers, WellFormed, Quote,
      QuoteItems, FlatKey;
    BlankNewLine(indent);
    BlankNewLine(indent + INDENT);
    var m := ms[0];
    LexStyled(m.value, indent + INDENT);
    LexStyledMembers(ms[1..], indent);
    var text, tail := StyledText(m.value, indent + INDENT), StyledMembers(ms[1..], indent);
    LexesMember(m.key, " : ", text, SyntaxOf(m.value), tail, FlatMembers(MembersSyntax(ms[1..])));
    assert StyledMember(m.key, m.value, indent) + tail == Quote(m.key) + (" : " + (text + tail));
    LexesBlank(NewLine(indent + INDENT), StyledMember(m.key, m.value, indent) + tail,
               FlatKey(QuoteItems(m.key)) + Flat(SyntaxOf(m.value)) + FlatMembers(MembersSyntax(ms[1..])));
  }

  lemma {:induction false} LexStyledMembers(ms: seq<Member>, indent: string)
    requires WellFormedMembers(ms) && Blank(indent)
    ensures Lexes(StyledMembers(ms, indent), FlatMembers(MembersSyntax(ms)))
    ensures StyledMembers(ms, indent) != [] && EndsNumber(StyledMembers(ms, indent))
    decreases ms, 2
  {
    hide Lexes, Flat, SyntaxOf, StyledMember, Blank, WellFormed, FlatKey, QuoteItems;
    if ms == [] {
      LexesClose('}');
      BlankNewLine(indent);
      LexesBlank(NewLine(indent), "}", [Punct('}')]);
    } else {
      MembersContents(ms);
      LexStyledMember(ms, indent);
      LexesPunct(',', NewLine(indent + INDENT) + (StyledMember(ms[0].key, ms[0].value, indent) + StyledMembers(ms[1..], indent)),
                 FlatKey(QuoteItems(ms[0].key)) + Flat(SyntaxOf(ms[0].value)) + FlatMembers(MembersSyntax(ms[1..])));
    }
  }

  // ---------------------------------------------------------------- main results

  /** Two printers, one token stream. */
  lemma PrintersAgree(v: Value)
    requires WellFormed(v)
    ensures Tokens(FastDocument(v)) == Tokens(StyledDocument(v)) == Flat(SyntaxOf(v))
  {
    LexDocument(v, "");
    assert FastDocument(v) + "" == FastDocument(v) && StyledDocument(v) + "" == StyledDocument(v);
    assert Flat(SyntaxOf(v)) + [] == Flat(SyntaxOf(v));
  }

  lemma LexDocument(v: Value, t: string)
    requires WellFormed(v)
    ensures Tokens(FastDocument(v) + t) == Flat(SyntaxOf(v)) + Tokens(t)
    ensures Tokens(StyledDocument(v) + t) == Flat(SyntaxOf(v)) + Tokens(t)
  {
    hide Tokens, FastText, StyledText, Flat, SyntaxOf;
    LexFast(v);
    LexStyled(v, "");
    assert FastDocument(v) + t == FastText(v) + ("\n" + t);
    assert StyledDocument(v) + t == StyledText(v, "") + ("\n" + t);
    LexSpaces("\n", t);
    assert EndsNumber("\n" + t);
  }

  predicate IsContainer(v: Value) { v.Null? || v.Arr? || v.Obj? }

  /** Parsing what either printer writes, whatever follows it, succeeds (a strict root must be a
      container) and gives the value back up to `Norm`. */
  lemma ReaderUndoesPrinters(v: Value, t: string, before: Value, f: Features)
    requires WellFormed(v)
    ensures ParseDocument(FastDocument(v) + t, before, f) == ParseDocument(StyledDocument(v) + t, before, f)
    ensures var r := ParseDocument(FastDocument(v) + t, before, f);
            r.value == Norm(v) && (r.ok <==> !f.strictRoot || IsContainer(v))
  {
    hide Tokens, Flat, SyntaxOf, Denote, ParseValue, WellFormed, FastDocument, StyledDocument;
    LexDocument(v, t);
    SyntaxDenotes(v);
    ReaderAcceptsGrammar(SyntaxOf(v), Tokens(t), before, f);
    NormKeepsKind(v);
  }

  lemma NormKeepsKind(v: Value)
    ensures IsContainer(Norm(v)) <==> IsContainer(v)
  {}

  /** The integers that come back as they were: an Int above its threshold, a UInt beyond Int. */
  predicate Stable(v: Value) {
    match v
    case Int(i) => -2147483639 <= i <= INT_MAX
    case UInt(u) => INT_MAX < u <= 4294967289
    case Arr(es) => StableElems(es)
    case Obj(ms) => StableMembers(ms)
    case _ => true
  }

  predicate StableElems(es: seq<Value>) { es == [] || (Stable(es[0]) && StableElems(es[1..])) }

  predicate StableMembers(ms: seq<Member>) { ms == [] || (Stable(ms[0].value) && StableMembers(ms[1..])) }

  /** The round trip is the identity exactly on the stable values. */
  lemma {:induction false} NormIsIdentity(v: Value)
    requires WellFormed(v)
    ensures Norm(v) == v <==> Stable(v)
    decreases v, 0
  {
    match v
    case Arr(es) => NormElemsIsIdentity(es);
    case Obj(ms) => NormMembersIsIdentity(ms);
    case _ =>
  }

  lemma {:induction false} NormElemsIsIdentity(es: seq<Value>)
    requires WellFormedElems(es)
    ensures NormElems(es) == es <==> StableElems(es)
    decreases es, 1
  {
    if es != [] {
      NormIsIdentity(es[0]);
      NormElemsIsIdentity(es[1..]);
      assert es == [es[0]] + es[1..];
      assert NormElems(es)[0] == Norm(es[0]) && NormElems(es)[1..] == NormElems(es[1..]);
    }
  }

  lemma {:induction false} NormMembersIsIdentity(ms: seq<Member>)
    requires WellFormedMembers(ms)
    ensures NormMembers(ms) == ms <==> StableMembers(ms)
    decreases ms, 1
  {
    if ms != [] {
      NormIsIdentity(ms[0].value);
      NormMembersIsIdentity(ms[1..]);
      assert ms == [ms[0]] + ms[1..];
      assert NormMembers(ms)[0] == Member(ms[0].key, Norm(ms[0].value)) && NormMembers(ms)[1..] == NormMembers(ms[1..]);
    }
  }
}
