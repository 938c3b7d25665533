/** The indenting printer (json_writer.cpp:269-480) for values without comments. It measures the
    elements of an array by writing them into a side buffer first; its text nevertheless depends
    on the value and the indentation alone. */
module JsonStyledWriter {
  import opened Wrappers
  import opened JsonValue
  import opened JsonNumber
  import opened JsonString
  import opened JsonText
  import opened JsonFastWriter

  /** Nothing more is needed before a value can be written here. */
  predicate AtValue(document: string, indent: string) {
    if document == "" then indent == "" else document[|document| - 1] == ' '
  }

  /** The text ends within a line, so `writeIndent` will start a new one. */
  predicate InLine(document: string) {
    document != "" && document[|document| - 1] != ' ' && document[|document| - 1] != '\n'
  }

  lemma InLineConcat(a: string, b: string)
    requires InLine(b)
    ensures InLine(a + b)
  {}

  lemma LeafTextInLine(v: Value)
    requires WellFormed(v)
    ensures InLine(LeafText(v))
  {
    hide ScanDouble;
    match v
    case Int(i) => InLineConcat("-", Digits(if i < 0 then -i else i));
    case Str(s) => InLineConcat("\"" + ItemsText(QuoteItems(s)), "\"");
    case Real(l) => assert IsNumberChar(l[|l| - 1]);
    case _ =>
  }

  lemma LineElemsInLine(es: seq<Value>)
    ensures InLine(LineElems(es))
  {
    if es == [] {
    } else {
      LineElemsInLine(es[1..]);
      InLineConcat(LeafText(es[0]), LineElems(es[1..]));
      InLineConcat(", ", LeafText(es[0]) + LineElems(es[1..]));
    }
  }

  lemma StyledElemsInLine(es: seq<Value>, indent: string)
    ensures InLine(StyledElems(es, indent))
  {
    if es == [] {
      InLineConcat(NewLine(indent), "]");
    } else {
      StyledElemsInLine(es[1..], indent);
      var t := StyledElems(es[1..], indent);
      InLineConcat(StyledText(es[0], indent + INDENT), t);
      InLineConcat(NewLine(indent + INDENT), StyledText(es[0], indent + INDENT) + t);
      InLineConcat(",", NewLine(indent + INDENT) + (StyledText(es[0], indent + INDENT) + t));
    }
  }

  lemma StyledMembersInLine(ms: seq<Member>, indent: string)
    ensures InLine(StyledMembers(ms, indent))
  {
    if ms == [] {
      InLineConcat(NewLine(indent), "}");
    } else {
      StyledMembersInLine(ms[1..], indent);
      var t := StyledMembers(ms[1..], indent);
      var m := StyledMember(ms[0].key, ms[0].value, indent);
      InLineConcat(m, t);
      InLineConcat(NewLine(indent + INDENT), m + t);
      InLineConcat(",", NewLine(indent + INDENT) + (m + t));
    }
  }

  /** Every value ends with a character of its own, never with blank space. */
  lemma StyledTextInLine(v: Value, indent: string)
    requires WellFormed(v)
    ensures InLine(StyledText(v, indent))
  {
    hide StyledText, StyledElems, StyledMembers, StyledMember, LineElems;
    if Size(v) == 0 {
      StyledLeaf(v, indent);
      LeafTextInLine(v);
    } else if v.Arr? {
      StyledArray(v.elems, indent);
      if OnOneLine(v.elems) {
        LineElemsInLine(v.elems[1..]);
        InLineConcat("[ " + LeafText(v.elems[0]), LineElems(v.elems[1..]));
      } else {
        StyledElemsInLine(v.elems[1..], indent);
        InLineConcat("[" + FirstElement(v.elems, indent), StyledElems(v.elems[1..], indent));
      }
    } else {
      StyledObject(v.members, indent);
      StyledMembersInLine(v.members[1..], indent);
      InLineConcat("{" + FirstMember(v.members, indent), StyledMembers(v.members[1..], indent));
    }
  }

  function FirstElement(es: seq<Value>, indent: string): string
    requires es != []
  {
    NewLine(indent + INDENT) + StyledText(es[0], indent + INDENT)
  }

  function FirstMember(ms: seq<Member>, indent: string): string
    requires ms != []
  {
    NewLine(indent + INDENT) + StyledMember(ms[0].key, ms[0].value, indent)
  }

  lemma StyledArray(es: seq<Value>, indent: string)
    requires es != []
    ensures StyledText(Arr(es), indent) ==
            if OnOneLine(es) then "[ " + LeafText(es[0]) + LineElems(es[1..])
            else "[" + FirstElement(es, indent) + StyledElems(es[1..], indent)
  {}

  lemma StyledObject(ms: seq<Member>, indent: string)
    requires ms != []
    ensures StyledText(Obj(ms), indent) == "{" + FirstMember(ms, indent) + StyledMembers(ms[1..], indent)
  {}

  lemma StyledElemsStep(es: seq<Value>, indent: string)
    requires es != []
    ensures StyledElems(es, indent) == "," + FirstElement(es, indent) + StyledElems(es[1..], indent)
  {}

  lemma StyledMembersStep(ms: seq<Member>, indent: string)
    requires ms != []
    ensures StyledMembers(ms, indent) == "," + FirstMember(ms, indent) + StyledMembers(ms[1..], indent)
  {}

  lemma EmptyTails(indent: string)
    ensures StyledMembers([], indent) == NewLine(indent) + "}"
    ensures StyledElems([], indent) == NewLine(indent) + "]"
  {}

  /** What `writeIndent` adds to a document. */
  function IndentText(document: string, indent: string): string {
    if document == "" || document[|document| - 1] == '\n' then indent
    else if document[|document| - 1] == ' ' then ""
    else NewLine(indent)
  }

  /** What is still to be written of a single-line array when element `index` comes next. */
  function FromLineElement(es: seq<Value>, index: nat): string
    requires index <= |es|
  {
    if index == 0 && es != [] then LeafText(es[0]) + LineElems(es[1..]) else LineElems(es[index..])
  }

  lemma LineStep(es: seq<Value>, index: nat)
    requires index < |es|
    ensures FromLineElement(es, index) ==
            (if index > 0 then ", " else "") + (LeafText(es[index]) + FromLineElement(es, index + 1))
  {
    assert es[index..][1..] == es[index + 1..];
    var t := LeafText(es[index]) + FromLineElement(es, index + 1);
    assert "" + t == t;
  }

  lemma LineEnds(es: seq<Value>)
    requires es != [] && OnOneLine(es)
    ensures StyledText(Arr(es), "") == "[ " + FromLineElement(es, 0) && FromLineElement(es, |es|) == " ]"
    ensures forall indent :: StyledText(Arr(es), indent) == StyledText(Arr(es), "")
  {
    assert es[|es|..] == [];
  }

  lemma RegroupTail(a: string, b: string, c: string, d: string)
    ensures a + (b + c + d) == a + b + c + d
  {}

  lemma RegroupMemberText(a: string, b: string, c: string, d: string, e: string)
    ensures a + b + c + d + e == a + (b + (c + (d + e)))
  {}

  lemma MemberText(ms: seq<Member>, index: nat, indent: string)
    requires index < |ms|
    ensures FirstMember(ms[index..], indent) ==
            NewLine(indent + INDENT) + (Quote(ms[index].key) + (" : " + StyledText(ms[index].value, indent + INDENT)))
  {}

  lemma ElementText(es: seq<Value>, index: nat, indent: string)
    requires index < |es|
    ensures FirstElement(es[index..], indent) == NewLine(indent + INDENT) + StyledText(es[index], indent + INDENT)
  {}

  lemma LeafElement(es: seq<Value>, index: nat, indent: string)
    requires AllLeaves(es) && index < |es|
    ensures StyledText(es[index], indent) == LeafText(es[index]) == LeafTexts(es)[index]
  {
    StyledLeaf(es[index], indent);
  }

  function LeafTexts(es: seq<Value>): seq<string> { seq(|es|, k requires 0 <= k < |es| => LeafText(es[k])) }

  lemma {:induction false} TotalLengthSnoc(es: seq<Value>, v: Value)
    ensures TotalLength(es + [v]) == TotalLength(es) + |LeafText(v)|
  {
    if es == [] {
      assert (es + [v])[1..] == [];
    } else {
      TotalLengthSnoc(es[1..], v);
      assert (es + [v])[1..] == es[1..] + [v];
    }
  }

  class StyledWriter {
    var document: string
    var indentString: string
    var childValues: seq<string>
    var addChildValues: bool

    constructor ()
      ensures document == "" && indentString == "" && childValues == [] && !addChildValues
    {
      document, indentString, childValues, addChildValues := "", "", [], false;
    }

    /** `write`. */
    method Write(root: Value) returns (r: string)
      requires WellFormed(root)
      modifies this
      ensures r == document == StyledDocument(root)
      ensures indentString == ""
    {
      document := "";
      addChildValues := false;
      indentString := "";
      WriteValue(root);
      assert "" + StyledText(root, "") == StyledText(root, "");
      document := document + "\n";
      r := document;
    }

    /** `writeValue`: the text goes to the document, or, while measuring, to the side buffer. */
    method WriteValue(value: Value)
      requires WellFormed(value)
      requires if addChildValues then Size(value) == 0 else AtValue(document, indentString)
      modifies this
      ensures indentString == old(indentString) && addChildValues == old(addChildValues)
      ensures if addChildValues then document == old(document) && childValues == old(childValues) + [LeafText(value)]
              else document == old(document) + StyledText(value, indentString)
      decreases value, 1
    {
      if !value.Arr? && !value.Obj? { StyledLeaf(value, indentString); }
      match value
      case Null => PushValue("null");
      case Int(i) =>
        var text := ValueToStringInt(i);
        PushValue(text);
      case UInt(u) =>
        var text := ValueToStringUInt(u);
        PushValue(text);
      case Real(literal) => PushValue(literal);
      case Str(s) =>
        var text := ValueToQuotedString(s);
        PushValue(text);
      case Bool(b) => PushValue(if b then "true" else "false");
      case Arr(es) => WriteArrayValue(es);
      case Obj(ms) =>
        if ms == [] {
          StyledLeaf(value, indentString);
          PushValue("{}");
        } else {
          WriteMembers(ms);
        }
    }

    /** The non-empty object case of `writeValue`. */
    method WriteMembers(ms: seq<Member>)
      requires ms != [] && SortedMembers(ms) && WellFormedMembers(ms)
      requires !addChildValues && AtValue(document, indentString)
      modifies this
      ensures indentString == old(indentString) && !addChildValues
      ensures document == old(document) + StyledText(Obj(ms), indentString)
      decreases ms, 0
    {
      hide StyledText, StyledMembers, WellFormed, SortedMembers, Quote, WellFormedMembers, StyledMember, StrLess, Get;
      ghost var outer := indentString;
      ghost var all := document + StyledText(Obj(ms), outer);
      StyledObject(ms, outer);
      var names := MemberNames(ms);
      WriteWithIndent("{");
      Indent();
      var index := 0;
      while true
        invariant 0 <= index < |ms| && !addChildValues
        invariant indentString == outer + INDENT && InLine(document)
        invariant document + FirstMember(ms[index..], outer) + StyledMembers(ms[index + 1..], outer) == all
        decreases |ms| - index
      {
        GetAt(ms, index);
        WellFormedChild(ms, index);
        var childValue := GetOrNull(ms, names[index]);
        ghost var before := document;
        WriteMember(names[index], childValue);
        MemberText(ms, index, outer);
        assert document == before + FirstMember(ms[index..], outer);
        index := index + 1;
        if index == |ms| { break; }
        ghost var rest := ms[index..];
        StyledMembersStep(rest, outer);
        assert rest[1..] == ms[index + 1..];
        RegroupTail(document, ",", FirstMember(rest, outer), StyledMembers(rest[1..], outer));
        document := document + ",";
      }
      assert ms[|ms|..] == [];
      Unindent();
      WriteWithIndent("}");
      EmptyTails(outer);
    }

    /** One turn of the loop over the members. */
    method WriteMember(name: string, childValue: Value)
      requires NulFree(name) && WellFormed(childValue)
      requires !addChildValues && InLine(document) && indentString != "" && indentString[|indentString| - 1] == ' '
      modifies this
      ensures indentString == old(indentString) && !addChildValues
      ensures document == old(document) + (NewLine(indentString) + (Quote(name) + (" : " + StyledText(childValue, indentString))))
      ensures InLine(document)
      decreases childValue, 2
    {
      hide StyledText, WellFormed, Quote;
      var text := ValueToQuotedString(name);
      WriteWithIndent(text);
      document := document + " : ";
      ghost var before := document;
      WriteValue(childValue);
      StyledTextInLine(childValue, indentString);
      InLineConcat(before, StyledText(childValue, indentString));
      RegroupMemberText(old(document), NewLine(indentString), text, " : ", StyledText(childValue, indentString));
    }

    /** One turn of the loop over the elements of a multi-line array. */
    method WriteElement(childValue: Value, measured: Option<string>)
      requires WellFormed(childValue)
      requires measured.Some? ==> measured.value == StyledText(childValue, indentString)
      requires !addChildValues && InLine(document) && indentString != "" && indentString[|indentString| - 1] == ' '
      modifies this
      ensures indentString == old(indentString) && !addChildValues
      ensures measured.Some? ==> childValues == old(childValues)
      ensures document == old(document) + (NewLine(indentString) + StyledText(childValue, indentString))
      ensures InLine(document)
      decreases childValue, 2
    {
      hide StyledText, WellFormed;
      if measured.Some? {
        WriteWithIndent(measured.value);
      } else {
        WriteIndent();
        WriteValue(childValue);
      }
      ghost var text := StyledText(childValue, indentString);
      StyledTextInLine(childValue, indentString);
      InLineConcat(old(document) + NewLine(indentString), text);
      assert old(document) + NewLine(indentString) + text == old(document) + (NewLine(indentString) + text);
    }

    /** `writeArrayValue`. */
    method WriteArrayValue(es: seq<Value>)
      requires WellFormedElems(es)
      requires if addChildValues then es == [] else AtValue(document, indentString)
      modifies this
      ensures indentString == old(indentString) && addChildValues == old(addChildValues)
      ensures if addChildValues then document == old(document) && childValues == old(childValues) + [LeafText(Arr(es))]
              else document == old(document) + StyledText(Arr(es), indentString)
      decreases es, 1
    {
      if es == [] {
        StyledLeaf(Arr(es), indentString);
        PushValue("[]");
      } else {
        StyledArray(es, indentString);
        var isArrayMultiLine := IsMultilineArray(es);
        if isArrayMultiLine {
          WriteLines(es);
        } else {
          WriteLine(es);
        }
      }
    }

    /** The multi-line case of `writeArrayValue`: the elements come from the side buffer when it
        has been filled, and are written afresh otherwise. */
    method WriteLines(es: seq<Value>)
      requires es != [] && WellFormedElems(es) && !OnOneLine(es)
      requires childValues == [] || (childValues == LeafTexts(es) && AllLeaves(es))
      requires !addChildValues && AtValue(document, indentString)
      modifies this
      ensures indentString == old(indentString) && !addChildValues
      ensures document == old(document) + StyledText(Arr(es), indentString)
      decreases es, 0
    {
      hide StyledText, StyledElems, WellFormed, WellFormedElems, OnOneLine, AllLeaves, LeafText;
      ghost var outer := indentString;
      ghost var all := document + StyledText(Arr(es), outer);
      StyledArray(es, outer);
      WriteWithIndent("[");
      Indent();
      var hasChildValue := childValues != [];
      var index := 0;
      while true
        invariant 0 <= index < |es| && !addChildValues
        invariant hasChildValue ==> childValues == LeafTexts(es) && AllLeaves(es)
        invariant indentString == outer + INDENT && InLine(document)
        invariant document + FirstElement(es[index..], outer) + StyledElems(es[index + 1..], outer) == all
        decreases |es| - index
      {
        WellFormedElement(es, index);
        if hasChildValue { LeafElement(es, index, indentString); }
        WriteElement(es[index], if hasChildValue then Some(childValues[index]) else None);
        ElementText(es, index, outer);
        index := index + 1;
        if index == |es| { break; }
        ghost var rest := es[index..];
        StyledElemsStep(rest, outer);
        assert rest[1..] == es[index + 1..];
        RegroupTail(document, ",", FirstElement(rest, outer), StyledElems(rest[1..], outer));
        document := document + ",";
      }
      assert es[|es|..] == [];
      Unindent();
      WriteWithIndent("]");
      EmptyTails(outer);
    }

    /** The single-line case of `writeArrayValue`: the elements come from the side buffer. */
    method WriteLine(es: seq<Value>)
      requires es != [] && OnOneLine(es)
      requires !addChildValues && childValues == LeafTexts(es)
      modifies this
      ensures indentString == old(indentString) && !addChildValues
      ensures document == old(document) + StyledText(Arr(es), indentString)
    {
      hide StyledText, OnOneLine, FromLineElement, LeafText;
      LineEnds(es);
      ghost var all := document + StyledText(Arr(es), indentString);
      document := document + "[ ";
      var index := 0;
      while index < |es|
        invariant 0 <= index <= |es|
        invariant indentString == old(indentString) && !addChildValues && childValues == LeafTexts(es)
        invariant document + FromLineElement(es, index) == all
      {
        LineStep(es, index);
        ghost var before := document;
        ghost var sep := if index > 0 then ", " else "";
        if index > 0 { document := document + ", "; }
        assert document == before + sep;
        document := document + childValues[index];
        RegroupElement(before, sep, childValues[index], FromLineElement(es, index + 1));
        index := index + 1;
      }
      document := document + " ]";
    }

    /** `isMultineArray`: decides the layout, and leaves one text per element in the side buffer
        whenever the elements have been measured. */
    method IsMultilineArray(es: seq<Value>) returns (isMultiLine: bool)
      requires es != [] && WellFormedElems(es) && !addChildValues
      modifies this
      ensures isMultiLine == !OnOneLine(es)
      ensures document == old(document) && indentString == old(indentString) && !addChildValues
      ensures childValues == if |es| * 3 < RIGHT_MARGIN && AllLeaves(es) then LeafTexts(es) else []
      decreases es, 0
    {
      hide WellFormed, WellFormedElems, LeafText;
      var size := |es|;
      isMultiLine := size * 3 >= RIGHT_MARGIN;
      childValues := [];
      var index := 0;
      while index < size && !isMultiLine
        invariant 0 <= index <= size
        invariant document == old(document) && indentString == old(indentString) && !addChildValues && childValues == []
        invariant isMultiLine <==> size * 3 >= RIGHT_MARGIN || !AllLeaves(es[..index])
      {
        assert es[..index + 1] == es[..index] + [es[index]];
        isMultiLine := Size(es[index]) > 0;
        index := index + 1;
      }
      assert !isMultiLine ==> es[..index] == es;
      if !isMultiLine {
        addChildValues := true;
        var lineLength := 4 + (size - 1) * 2;
        index := 0;
        while index < size
          invariant 0 <= index <= size
          invariant document == old(document) && indentString == old(indentString) && addChildValues
          invariant childValues == LeafTexts(es[..index])
          invariant lineLength == 4 + (size - 1) * 2 + TotalLength(es[..index])
        {
          assert es[..index + 1] == es[..index] + [es[index]];
          TotalLengthSnoc(es[..index], es[index]);
          WellFormedElement(es, index);
          WriteValue(es[index]);
          lineLength := lineLength + |childValues[index]|;
          index := index + 1;
        }
        assert es[..index] == es;
        addChildValues := false;
        isMultiLine := lineLength >= RIGHT_MARGIN;
      }
    }

    /** `pushValue`. */
    method PushValue(value: string)
      modifies this
      ensures indentString == old(indentString) && addChildValues == old(addChildValues)
      ensures if addChildValues then document == old(document) && childValues == old(childValues) + [value]
              else document == old(document) + value && childValues == old(childValues)
    {
      if addChildValues {
        childValues := childValues + [value];
      } else {
        document := document + value;
      }
    }

    /** `writeIndent`: starts an indented line unless one has just been started. */
    method WriteIndent()
      modifies `document
      ensures document == old(document) + IndentText(old(document), indentString)
    {
      if document != "" {
        var last := document[|document| - 1];
        if last == ' ' { return; }
        if last != '\n' { document := document + "\n"; }
      }
      document := document + indentString;
    }

    /** `writeWithIndent`. */
    method WriteWithIndent(value: string)
      modifies `document
      ensures document == old(document) + IndentText(old(document), indentString) + value
    {
      WriteIndent();
      document := document + value;
    }

    /** `indent`. */
    method Indent()
      modifies `indentString
      ensures indentString == old(indentString) + INDENT
    {
      indentString := indentString + INDENT;
    }

    /** `unindent`: takes back one level, which must be there. */
    method Unindent()
      requires |indentString| >= |INDENT|
      modifies `indentString
      ensures indentString == old(indentString)[..|old(indentString)| - |INDENT|]
    {
      indentString := indentString[..|indentString| - |INDENT|];
    }
  }
}
