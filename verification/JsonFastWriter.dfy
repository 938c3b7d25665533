/** The compact printer (json_writer.cpp:184-263). */
module JsonFastWriter {
  import opened JsonValue
  import opened JsonNumber
  import opened JsonString
  import opened JsonText

  /** What is still to be written of an array when element `index` comes next. */
  function FromElement(es: seq<Value>, index: nat): string
    requires index <= |es|
  {
    if index == 0 && es != [] then FastText(es[0]) + FastElems(es[1..]) else FastElems(es[index..])
  }

  lemma ElementStep(es: seq<Value>, index: nat)
    requires index < |es|
    ensures FromElement(es, index) ==
            (if index > 0 then "," else "") + (FastText(es[index]) + FromElement(es, index + 1))
  {
    assert es[index..][1..] == es[index + 1..];
    var t := FastText(es[index]) + FromElement(es, index + 1);
    assert "" + t == t;
  }

  function FromMember(ms: seq<Member>, index: nat): string
    requires index <= |ms|
  {
    if index == 0 && ms != [] then Quote(ms[0].key) + (":" + (FastText(ms[0].value) + FastMembers(ms[1..])))
    else FastMembers(ms[index..])
  }

  lemma MemberStep(ms: seq<Member>, index: nat)
    requires index < |ms|
    ensures FromMember(ms, index) ==
            (if index > 0 then "," else "")
            + (Quote(ms[index].key) + (":" + (FastText(ms[index].value) + FromMember(ms, index + 1))))
  {
    assert ms[index..][1..] == ms[index + 1..];
    var t := Quote(ms[index].key) + (":" + (FastText(ms[index].value) + FromMember(ms, index + 1)));
    assert "" + t == t;
  }

  lemma ArrayText(es: seq<Value>)
    ensures FastText(Arr(es)) == "[" + FromElement(es, 0) && FromElement(es, |es|) == "]"
  {
    assert es[|es|..] == [];
  }

  lemma ObjectText(ms: seq<Member>)
    ensures FastText(Obj(ms)) == "{" + FromMember(ms, 0) && FromMember(ms, |ms|) == "}"
  {
    assert ms[|ms|..] == [];
  }

  lemma RegroupElement(a: string, b: string, c: string, d: string)
    ensures a + b + c + d == a + (b + (c + d))
  {}

  lemma RegroupMember(a: string, b: string, c: string, d: string, e: string, f: string)
    ensures a + b + c + d + e + f == a + (b + (c + (d + (e + f))))
  {}

  lemma WellFormedChild(ms: seq<Member>, k: nat)
    requires WellFormedMembers(ms) && k < |ms|
    ensures NulFree(ms[k].key) && WellFormed(ms[k].value)
  {
    if k > 0 { WellFormedChild(ms[1..], k - 1); }
  }

  lemma WellFormedElement(es: seq<Value>, k: nat)
    requires WellFormedElems(es) && k < |es|
    ensures WellFormed(es[k])
  {
    if k > 0 { WellFormedElement(es[1..], k - 1); }
  }

  /** `getMemberNames`. */
  function MemberNames(ms: seq<Member>): seq<string> { seq(|ms|, k requires 0 <= k < |ms| => ms[k].key) }

  class FastWriter {
    var document: string

    constructor ()
      ensures document == ""
    {
      document := "";
    }

    /** `write`: the document is the compact text of the value and a line end. */
    method Write(root: Value) returns (r: string)
      requires WellFormed(root)
      modifies this
      ensures r == document == FastDocument(root)
    {
      document := "";
      WriteValue(root);
      assert "" + FastText(root) == FastText(root);
      document := document + "\n";
      r := document;
    }

    /** `writeValue`: appends the compact text of the value. */
    method WriteValue(value: Value)
      requires WellFormed(value)
      modifies this
      ensures document == old(document) + FastText(value)
      decreases value, 1
    {
      match value
      case Null => document := document + "null";
      case Int(i) =>
        var text := ValueToStringInt(i);
        document := document + text;
      case UInt(u) =>
        var text := ValueToStringUInt(u);
        document := document + text;
      case Real(literal) => document := document + literal;
      case Str(s) =>
        var text := ValueToQuotedString(s);
        document := document + text;
      case Bool(b) => document := document + (if b then "true" else "false");
      case Arr(es) => WriteArray(es);
      case Obj(ms) => WriteObject(ms);
    }

    /** The array case of `writeValue`. */
    method WriteArray(es: seq<Value>)
      requires WellFormedElems(es)
      modifies this
      ensures document == old(document) + FastText(Arr(es))
      decreases es, 0
    {
      hide FastText, WellFormed, FromElement;
      ArrayText(es);
      document := document + "[";
      ghost var start := document;
      var index := 0;
      while index < |es|
        invariant 0 <= index <= |es|
        invariant document + FromElement(es, index) == start + FromElement(es, 0)
      {
        ghost var before := document;
        ghost var sep := if index > 0 then "," else "";
        if index > 0 { document := document + ","; }
        assert document == before + sep;
        WellFormedElement(es, index);
        WriteValue(es[index]);
        ElementStep(es, index);
        RegroupElement(before, sep, FastText(es[index]), FromElement(es, index + 1));
        index := index + 1;
      }
      document := document + "]";
    }

    /** The object case of `writeValue`: the members are looked up by their names. */
    method WriteObject(ms: seq<Member>)
      requires SortedMembers(ms) && WellFormedMembers(ms)
      modifies this
      ensures document == old(document) + FastText(Obj(ms))
      decreases ms, 0
    {
      hide FastText, WellFormed, SortedMembers, Quote, FromMember;
      ObjectText(ms);
      var names := MemberNames(ms);
      document := document + "{";
      ghost var start := document;
      var index := 0;
      while index < |names|
        invariant 0 <= index <= |names|
        invariant document + FromMember(ms, index) == start + FromMember(ms, 0)
      {
        ghost var before := document;
        ghost var sep := if index > 0 then "," else "";
        if index > 0 { document := document + ","; }
        assert document == before + sep;
        WellFormedChild(ms, index);
        GetAt(ms, index);
        var name := ValueToQuotedString(names[index]);
        document := document + name;
        document := document + ":";
        WriteValue(GetOrNull(ms, names[index]));
        MemberStep(ms, index);
        RegroupMember(before, sep, name, ":", FastText(ms[index].value), FromMember(ms, index + 1));
        index := index + 1;
      }
      document := document + "}";
    }
  }
}
