/** The sentence a value is written as, and the compact and the indented text of it, defined
    without any writer state. */
module JsonText {
  import opened JsonValue
  import opened JsonNumber
  import opened JsonString
  import opened JsonLexer
  import opened JsonParser

  /** Values the library can hold: 32-bit integers, finite doubles, C strings, dense arrays,
      objects in the order of their map. */
  predicate WellFormed(v: Value) {
    match v
    case Int(i) => INT_MIN <= i <= INT_MAX
    case UInt(u) => u <= UINT_MAX
    case Real(l) => IsRealText(l)
    case Str(s) => NulFree(s)
    case Arr(es) => WellFormedElems(es)
    case Obj(ms) => SortedMembers(ms) && WellFormedMembers(ms)
    case _ => true
  }

  predicate WellFormedElems(es: seq<Value>) { es == [] || (WellFormed(es[0]) && WellFormedElems(es[1..])) }

  predicate WellFormedMembers(ms: seq<Member>) {
    ms == [] || (NulFree(ms[0].key) && WellFormed(ms[0].value) && WellFormedMembers(ms[1..]))
  }

  /** The sentence of the grammar that stands for a value. */
  function SyntaxOf(v: Value): Syntax {
    match v
    case Null => SNull
    case Int(i) => SNumber(IntText(i))
    case UInt(u) => SNumber(Digits(u))
    case Real(l) => SNumber(l)
    case Str(s) => SString(QuoteItems(s))
    case Bool(b) => SBool(b)
    case Arr(es) => SArray(ElemsSyntax(es))
    case Obj(ms) => SObject(MembersSyntax(ms))
  }

  function ElemsSyntax(es: seq<Value>): (xs: seq<Syntax>)
    ensures |xs| == |es|
  {
    if es == [] then [] else [SyntaxOf(es[0])] + ElemsSyntax(es[1..])
  }

  function MembersSyntax(ms: seq<Member>): (xs: seq<SMember>)
    ensures |xs| == |ms|
  {
    if ms == [] then []
    else [SMember(QuoteItems(ms[0].key), SyntaxOf(ms[0].value))] + MembersSyntax(ms[1..])
  }

  /** What reading back makes of a value: only integers may change their representation. */
  function Norm(v: Value): Value {
    match v
    case Int(i) => NormInt(i)
    case UInt(u) => NormInt(u)
    case Arr(es) => Arr(NormElems(es))
    case Obj(ms) => Obj(NormMembers(ms))
    case _ => v
  }

  function NormElems(es: seq<Value>): (r: seq<Value>)
    ensures |r| == |es|
  {
    if es == [] then [] else [Norm(es[0])] + NormElems(es[1..])
  }

  function NormMembers(ms: seq<Member>): (r: seq<Member>)
    ensures |r| == |ms|
  {
    if ms == [] then [] else [Member(ms[0].key, Norm(ms[0].value))] + NormMembers(ms[1..])
  }

  // ---------------------------------------------------------------- the sentence denotes the value

  lemma IntegerDenotes(i: int)
    ensures Valid(SNumber(IntText(i))) && Denote(SNumber(IntText(i))) == NormInt(i)
  {
    hide DecodeNumber, IsLiteral, NormInt, IntText;
    DecodeIntText(i);
    NormIntKeepsValue(i);
  }

  lemma RealDenotes(l: string)
    requires IsRealText(l)
    ensures Valid(SNumber(l)) && Denote(SNumber(l)) == Real(l)
  {
    hide DecodeNumber, IsLiteral, IsRealText;
    RealTextIsLiteral(l);
    DecodeNumberKeepsValue(l);
  }

  lemma SyntaxDenotesLeaf(v: Value)
    requires WellFormed(v) && !v.Arr? && !v.Obj?
    ensures Valid(SyntaxOf(v)) && AllPaired(SyntaxOf(v)) && Denote(SyntaxOf(v)) == Norm(v)
  {
    match v
    case Str(s) =>
      hide QuoteItems, Paired, ItemsValue, ValidItems;
      QuoteDenotes(s);
    case Int(i) =>
      hide DecodeNumber, IsLiteral, NormInt, IntText;
      IntegerDenotes(i);
    case UInt(u) =>
      hide DecodeNumber, IsLiteral, NormInt, IntText, Digits;
      IntTextOfNat(u);
      IntegerDenotes(u);
    case Real(l) =>
      hide DecodeNumber, IsLiteral, IsRealText;
      RealDenotes(l);
    case _ =>
  }

  /** The sentence of a value is grammatical and denotes the value up to `Norm`. */
  lemma {:induction false} SyntaxDenotes(v: Value)
    requires WellFormed(v)
    ensures Valid(SyntaxOf(v)) && AllPaired(SyntaxOf(v)) && Denote(SyntaxOf(v)) == Norm(v)
    decreases v, 0
  {
    match v
    case Arr(es) =>
      hide ElemsSyntax, DenoteElems, NormElems, ValidElems, PairedElems, WellFormedElems;
      SyntaxDenotesElems(es);
    case Obj(ms) =>
      hide MembersSyntax, DenoteMembers, NormMembers, ValidMembers, PairedMembers, WellFormedMembers, SortedMembers;
      ContinuesFromStart(ms);
      SyntaxDenotesMembers(ms, []);
      assert [] + NormMembers(ms) == NormMembers(ms);
    case _ => SyntaxDenotesLeaf(v);
  }

  lemma ContinuesFromStart(ms: seq<Member>)
    requires SortedMembers(ms)
    ensures Continues([], ms)
  {}

  lemma IntTextOfNat(u: nat)
    ensures IntText(u) == Digits(u)
  {}

  lemma RealTextIsLiteral(l: string)
    requires IsRealText(l)
    ensures IsLiteral(l) && LooksDouble(l)
  {}

  lemma {:induction false} SyntaxDenotesElems(es: seq<Value>)
    requires WellFormedElems(es)
    ensures var xs := ElemsSyntax(es); ValidElems(xs) && PairedElems(xs) && DenoteElems(xs) == NormElems(es)
    decreases es, 1
  {
    if es != [] {
      SyntaxDenotes(es[0]);
      SyntaxDenotesElems(es[1..]);
      assert ElemsSyntax(es)[1..] == ElemsSyntax(es[1..]);
    }
  }

  /** The keys of `ms` are ascending and lie beyond those of `before`. */
  predicate Continues(before: seq<Member>, ms: seq<Member>) {
    SortedMembers(ms) && forall j, k :: 0 <= j < |before| && 0 <= k < |ms| ==> StrLess(before[j].key, ms[k].key)
  }

  lemma ContinuesStep(before: seq<Member>, ms: seq<Member>, value: Value)
    requires ms != [] && Continues(before, ms)
    ensures Put(before, ms[0].key, value) == before + [Member(ms[0].key, value)]
    ensures Continues(before + [Member(ms[0].key, value)], ms[1..])
  {
    hide StrLess;
    PutLast(before, ms[0].key, value);
  }

  lemma {:induction false} SyntaxDenotesMembers(ms: seq<Member>, before: seq<Member>)
    requires WellFormedMembers(ms) && Continues(before, ms)
    ensures var xs := MembersSyntax(ms); ValidMembers(xs) && PairedMembers(xs)
                                         && DenoteMembers(before, xs) == before + NormMembers(ms)
    decreases ms, 1
  {
    hide Valid, AllPaired, Denote, Paired, ItemsValue, ValidItems, QuoteItems, WellFormed, Norm, Put, Continues,
      SyntaxOf;
    if ms == [] {
      assert before + [] == before;
    } else {
      var m, tail := ms[0], ms[1..];
      var m' := Member(m.key, Norm(m.value));
      SyntaxDenotes(m.value);
      QuoteDenotes(m.key);
      ContinuesStep(before, ms, Norm(m.value));
      SyntaxDenotesMembers(tail, before + [m']);
      Shift(SMember(QuoteItems(m.key), SyntaxOf(m.value)), MembersSyntax(tail));
      Regroup(before, m', NormMembers(tail));
    }
  }

  lemma Shift(x: SMember, xs: seq<SMember>)
    ensures ([x] + xs)[0] == x && ([x] + xs)[1..] == xs
  {}

  lemma Regroup(a: seq<Member>, m: Member, b: seq<Member>)
    ensures a + [m] + b == a + ([m] + b)
  {}

  // ---------------------------------------------------------------- compact text

  function LeafText(v: Value): string {
    match v
    case Null => "null"
    case Int(i) => IntText(i)
    case UInt(u) => Digits(u)
    case Real(l) => l
    case Str(s) => Quote(s)
    case Bool(b) => if b then "true" else "false"
    case Arr(_) => "[]"
    case Obj(_) => "{}"
  }

  function FastText(v: Value): string {
    match v
    case Arr(es) => "[" + if es == [] then "]" else FastText(es[0]) + FastElems(es[1..])
    case Obj(ms) =>
      "{" + if ms == [] then "}" else Quote(ms[0].key) + (":" + (FastText(ms[0].value) + FastMembers(ms[1..])))
    case _ => LeafText(v)
  }

  /** The elements after the first, with their separators and the closing bracket. */
  function FastElems(es: seq<Value>): string {
    if es == [] then "]" else "," + (FastText(es[0]) + FastElems(es[1..]))
  }

  function FastMembers(ms: seq<Member>): string {
    if ms == [] then "}"
    else "," + (Quote(ms[0].key) + (":" + (FastText(ms[0].value) + FastMembers(ms[1..]))))
  }

  function FastDocument(v: Value): string { FastText(v) + "\n" }

  // ---------------------------------------------------------------- indented text

  const RIGHT_MARGIN := 74
  const INDENT := "   "

  function Size(v: Value): nat {
    match v case Arr(es) => |es| case Obj(ms) => |ms| case _ => 0
  }

  /** A value without children is written the same way everywhere. */
  predicate IsLeafValue(v: Value) { Size(v) == 0 }

  predicate AllLeaves(es: seq<Value>) { forall k :: 0 <= k < |es| ==> IsLeafValue(es[k]) }

  function TotalLength(es: seq<Value>): nat {
    if es == [] then 0 else |LeafText(es[0])| + TotalLength(es[1..])
  }

  /** An array goes on one line when it is short, holds no filled container and fits the margin. */
  predicate OnOneLine(es: seq<Value>) {
    |es| * 3 < RIGHT_MARGIN && AllLeaves(es) && 4 + (|es| - 1) * 2 + TotalLength(es) < RIGHT_MARGIN
  }

  /** The indented text of a value, from the column where it starts. */
  function StyledText(v: Value, indent: string): string
    decreases v, 0
  {
    match v
    case Arr(es) =>
      if es == [] then "[]"
      else if OnOneLine(es) then "[ " + (LeafText(es[0]) + LineElems(es[1..]))
      else "[" + (NewLine(indent + INDENT) + (StyledText(es[0], indent + INDENT) + StyledElems(es[1..], indent)))
    case Obj(ms) =>
      if ms == [] then "{}"
      else "{" + (NewLine(indent + INDENT) + (StyledMember(ms[0].key, ms[0].value, indent) + StyledMembers(ms[1..], indent)))
    case _ => LeafText(v)
  }

  function NewLine(indent: string): string { "\n" + indent }

  function LineElems(es: seq<Value>): string {
    if es == [] then " ]" else ", " + (LeafText(es[0]) + LineElems(es[1..]))
  }

  function StyledElems(es: seq<Value>, indent: string): string
    decreases es, 0
  {
    if es == [] then NewLine(indent) + "]"
    else "," + (NewLine(indent + INDENT) + (StyledText(es[0], indent + INDENT) + StyledElems(es[1..], indent)))
  }

  function StyledMember(key: string, value: Value, indent: string): string
    decreases value, 1
  {
    Quote(key) + (" : " + StyledText(value, indent + INDENT))
  }

  function StyledMembers(ms: seq<Member>, indent: string): string
    decreases ms, 0
  {
    if ms == [] then NewLine(indent) + "}"
    else "," + (NewLine(indent + INDENT) + (StyledMember(ms[0].key, ms[0].value, indent) + StyledMembers(ms[1..], indent)))
  }

  function StyledDocument(v: Value): string { StyledText(v, "") + "\n" }

  lemma StyledLeaf(v: Value, indent: string)
    requires Size(v) == 0
    ensures StyledText(v, indent) == LeafText(v)
  {}

  // ---------------------------------------------------------------- the layout of indented text

  function Blanks(n: nat): string { seq(n, _ => ' ') }

  /** Each text on a line of its own behind `n` blanks, with commas between them. */
  function OnLines(texts: seq<string>, n: nat): string {
    if texts == [] then ""
    else "\n" + (Blanks(n) + (texts[0] + (if |texts| == 1 then "" else "," + OnLines(texts[1..], n))))
  }

  lemma ThreeMore(d: nat)
    ensures Blanks(3 * d) + INDENT == Blanks(3 * (d + 1))
  {
    assert INDENT == [' ', ' ', ' '];
  }

  function ElementTexts(es: seq<Value>, d: nat): seq<string> {
    seq(|es|, k requires 0 <= k < |es| => StyledText(es[k], Blanks(3 * d)))
  }

  function MemberTexts(ms: seq<Member>, d: nat): seq<string> {
    seq(|ms|, k requires 0 <= k < |ms| => Quote(ms[k].key) + " : " + StyledText(ms[k].value, Blanks(3 * d)))
  }

  lemma TwoPieces(a: string, b: string, c: string, d: string)
    ensures a + (b + (c + "")) + d == a + (b + (c + d))
  {}

  lemma MorePieces(a: string, b: string, c: string, more: string, d: string, rest: string)
    requires rest == "," + (more + d)
    ensures a + (b + (c + ("," + more))) + d == a + (b + (c + rest))
  {}

  lemma {:induction false} ElementLines(es: seq<Value>, d: nat)
    requires es != []
    ensures OnLines(ElementTexts(es, d + 1), 3 * (d + 1)) + (NewLine(Blanks(3 * d)) + "]")
            == "\n" + (Blanks(3 * (d + 1)) + (StyledText(es[0], Blanks(3 * (d + 1))) + StyledElems(es[1..], Blanks(3 * d))))
    decreases |es|
  {
    hide StyledText;
    var end, texts := NewLine(Blanks(3 * d)) + "]", ElementTexts(es, d + 1);
    var first := StyledText(es[0], Blanks(3 * (d + 1)));
    ThreeMore(d);
    if |es| == 1 {
      TwoPieces("\n", Blanks(3 * (d + 1)), first, end);
    } else {
      ElementLines(es[1..], d);
      assert texts[1..] == ElementTexts(es[1..], d + 1);
      MorePieces("\n", Blanks(3 * (d + 1)), first, OnLines(texts[1..], 3 * (d + 1)), end, StyledElems(es[1..], Blanks(3 * d)));
    }
  }

  /** An array that is not on one line: at depth `d` its brackets stand behind 3 d blanks, and each element begins a
      line behind three more. */
  lemma ArrayLayout(es: seq<Value>, d: nat)
    requires es != [] && !OnOneLine(es)
    ensures StyledText(Arr(es), Blanks(3 * d))
            == "[" + (OnLines(ElementTexts(es, d + 1), 3 * (d + 1)) + ("\n" + Blanks(3 * d) + "]"))
  {
    ElementLines(es, d);
    ThreeMore(d);
    hide OnOneLine, ElementTexts, OnLines, StyledElems, Blanks;
    var first, rest := StyledText(es[0], Blanks(3 * (d + 1))), StyledElems(es[1..], Blanks(3 * d));
    assert NewLine(Blanks(3 * (d + 1))) + (first + rest) == "\n" + (Blanks(3 * (d + 1)) + (first + rest));
  }

  lemma MemberOnLine(m: Member, d: nat)
    ensures StyledMember(m.key, m.value, Blanks(3 * d)) == Quote(m.key) + " : " + StyledText(m.value, Blanks(3 * (d + 1)))
  {
    ThreeMore(d);
    hide Quote, StyledText;
  }

  lemma {:induction false} MemberLines(ms: seq<Member>, d: nat)
    requires ms != []
    ensures OnLines(MemberTexts(ms, d + 1), 3 * (d + 1)) + (NewLine(Blanks(3 * d)) + "}")
            == "\n" + (Blanks(3 * (d + 1))
                       + (StyledMember(ms[0].key, ms[0].value, Blanks(3 * d)) + StyledMembers(ms[1..], Blanks(3 * d))))
    decreases |ms|
  {
    hide StyledText, StyledMember, Quote;
    var end, texts := NewLine(Blanks(3 * d)) + "}", MemberTexts(ms, d + 1);
    var first := StyledMember(ms[0].key, ms[0].value, Blanks(3 * d));
    ThreeMore(d);
    MemberOnLine(ms[0], d);
    if |ms| == 1 {
      TwoPieces("\n", Blanks(3 * (d + 1)), first, end);
    } else {
      MemberLines(ms[1..], d);
      assert texts[1..] == MemberTexts(ms[1..], d + 1);
      MorePieces("\n", Blanks(3 * (d + 1)), first, OnLines(texts[1..], 3 * (d + 1)), end, StyledMembers(ms[1..], Blanks(3 * d)));
    }
  }

  /** The same for the members of an object, with " : " behind the key. */
  lemma ObjectLayout(ms: seq<Member>, d: nat)
    requires ms != []
    ensures StyledText(Obj(ms), Blanks(3 * d))
            == "{" + (OnLines(MemberTexts(ms, d + 1), 3 * (d + 1)) + ("\n" + Blanks(3 * d) + "}"))
  {
    MemberLines(ms, d);
    ThreeMore(d);
    hide MemberTexts, OnLines, StyledMembers, StyledMember, Blanks;
    var first, rest := StyledMember(ms[0].key, ms[0].value, Blanks(3 * d)), StyledMembers(ms[1..], Blanks(3 * d));
    assert NewLine(Blanks(3 * (d + 1))) + (first + rest) == "\n" + (Blanks(3 * (d + 1)) + (first + rest));
  }

  /** The texts of the elements on one line. */
  function InARow(es: seq<Value>): string
    requires es != []
  {
    "[ " + (LeafText(es[0]) + LineElems(es[1..]))
  }

  lemma {:induction false} RowLength(es: seq<Value>)
    ensures |LineElems(es)| == 2 + 2 * |es| + TotalLength(es)
  {
    if es != [] { RowLength(es[1..]); }
  }

  /** An array is written in one row exactly when it holds leaves only, less than a third of 74 of them, and the row
      is shorter than 74 columns. */
  lemma RowFits(es: seq<Value>, indent: string)
    requires es != []
    ensures if AllLeaves(es) && |es| * 3 < 74 && |InARow(es)| < 74 then StyledText(Arr(es), indent) == InARow(es)
            else !OnOneLine(es)
  {
    RowLength(es[1..]);
    assert TotalLength(es) == |LeafText(es[0])| + TotalLength(es[1..]);
    assert |InARow(es)| == 2 + |LeafText(es[0])| + |LineElems(es[1..])|;
    hide TotalLength, LineElems, LeafText;
  }
}
