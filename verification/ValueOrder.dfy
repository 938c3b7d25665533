/** The order on JSON values (contrib/jsoncpp/src/lib_json/json_value.cpp, `operator<` and
    `operator==`). Real leaves are compared through `number`, the double that a literal stands for. */
module ValueOrder {
  import opened JsonValue
  import JsonNumber

  type Number = string -> real

  /** The position of the type in the enumeration `ValueType`. */
  function TypeRank(v: Value): nat {
    match v
    case Null => 0
    case Int(_) => 1
    case UInt(_) => 2
    case Real(_) => 3
    case Str(_) => 4
    case Bool(_) => 5
    case Arr(_) => 6
    case Obj(_) => 7
  }

  /** The measure that both directions of a comparison share. */
  function Size(v: Value): nat {
    match v
    case Arr(es) => 1 + ElemsSize(es)
    case Obj(ms) => 1 + MembersSize(ms)
    case _ => 1
  }

  function ElemsSize(es: seq<Value>): nat {
    if es == [] then 0 else 1 + Size(es[0]) + ElemsSize(es[1..])
  }

  function MembersSize(ms: seq<Member>): nat {
    if ms == [] then 0 else 2 + Size(ms[0].value) + MembersSize(ms[1..])
  }

  /** `operator<`: the type first, then the value; of two containers the one with fewer entries, then
      lexicographically. */
  predicate Less(number: Number, v: Value, w: Value)
    decreases Size(v) + Size(w)
  {
    match (v, w)
    case (Int(i), Int(j)) => i < j
    case (UInt(i), UInt(j)) => i < j
    case (Real(a), Real(b)) => number(a) < number(b)
    case (Str(s), Str(t)) => StrLess(CStr(s), CStr(t))
    case (Bool(a), Bool(b)) => !a && b
    case (Arr(es), Arr(fs)) => if |es| != |fs| then |es| < |fs| else ElemsLess(number, es, fs)
    case (Obj(ms), Obj(ns)) => if |ms| != |ns| then |ms| < |ns| else MembersLess(number, ms, ns)
    case _ => TypeRank(v) < TypeRank(w)
  }

  /** The comparison of two maps with the same indices: the first pair of elements of which one is
      less decides. */
  predicate ElemsLess(number: Number, es: seq<Value>, fs: seq<Value>)
    decreases ElemsSize(es) + ElemsSize(fs)
  {
    if es == [] || fs == [] then fs != []
    else Less(number, es[0], fs[0]) || (!Less(number, fs[0], es[0]) && ElemsLess(number, es[1..], fs[1..]))
  }

  /** `operator<` of `std::pair`. */
  predicate PairLess(number: Number, m: Member, n: Member)
    decreases 1 + Size(m.value) + Size(n.value)
  {
    StrLess(CStr(m.key), CStr(n.key))
    || (!StrLess(CStr(n.key), CStr(m.key)) && Less(number, m.value, n.value))
  }

  predicate MembersLess(number: Number, ms: seq<Member>, ns: seq<Member>)
    decreases MembersSize(ms) + MembersSize(ns)
  {
    if ms == [] || ns == [] then ns != []
    else PairLess(number, ms[0], ns[0]) || (!PairLess(number, ns[0], ms[0]) && MembersLess(number, ms[1..], ns[1..]))
  }

  /** `operator==`. */
  predicate Same(number: Number, v: Value, w: Value)
    decreases v
  {
    match (v, w)
    case (Null, Null) => true
    case (Int(i), Int(j)) => i == j
    case (UInt(i), UInt(j)) => i == j
    case (Real(a), Real(b)) => number(a) == number(b)
    case (Str(s), Str(t)) => CStr(s) == CStr(t)
    case (Bool(a), Bool(b)) => a == b
    case (Arr(es), Arr(fs)) => |es| == |fs| && ElemsSame(number, es, fs)
    case (Obj(ms), Obj(ns)) => |ms| == |ns| && MembersSame(number, ms, ns)
    case _ => false
  }

  predicate ElemsSame(number: Number, es: seq<Value>, fs: seq<Value>)
    requires |es| == |fs|
    decreases es
  {
    es == [] || (Same(number, es[0], fs[0]) && ElemsSame(number, es[1..], fs[1..]))
  }

  predicate PairSame(number: Number, m: Member, n: Member)
    decreases m
  {
    CStr(m.key) == CStr(n.key) && Same(number, m.value, n.value)
  }

  predicate MembersSame(number: Number, ms: seq<Member>, ns: seq<Member>)
    requires |ms| == |ns|
    decreases ms
  {
    ms == [] || (PairSame(number, ms[0], ns[0]) && MembersSame(number, ms[1..], ns[1..]))
  }

  // ---------------------------------------------------------------- exactly one of three

  /** Exactly one of the three. */
  predicate OneOf(a: bool, b: bool, c: bool) { (a && !b && !c) || (!a && b && !c) || (!a && !b && c) }

  lemma {:induction false} Trichotomy(number: Number, v: Value, w: Value)
    ensures OneOf(Less(number, v, w), Same(number, v, w), Less(number, w, v))
    decreases v, 1
  {
    match (v, w)
    case (Str(s), Str(t)) => StrLessTrichotomy(CStr(s), CStr(t));
    case (Arr(es), Arr(fs)) => if |es| == |fs| { ElemsTrichotomy(number, es, fs); }
    case (Obj(ms), Obj(ns)) => if |ms| == |ns| { MembersTrichotomy(number, ms, ns); }
    case _ =>
  }

  lemma {:induction false} ElemsTrichotomy(number: Number, es: seq<Value>, fs: seq<Value>)
    requires |es| == |fs|
    ensures OneOf(ElemsLess(number, es, fs), ElemsSame(number, es, fs), ElemsLess(number, fs, es))
    decreases es, 0
  {
    if es != [] {
      Trichotomy(number, es[0], fs[0]);
      ElemsTrichotomy(number, es[1..], fs[1..]);
    }
  }

  lemma {:induction false} PairTrichotomy(number: Number, m: Member, n: Member)
    ensures OneOf(PairLess(number, m, n), PairSame(number, m, n), PairLess(number, n, m))
    decreases m, 0
  {
    StrLessTrichotomy(CStr(m.key), CStr(n.key));
    Trichotomy(number, m.value, n.value);
  }

  lemma {:induction false} MembersTrichotomy(number: Number, ms: seq<Member>, ns: seq<Member>)
    requires |ms| == |ns|
    ensures OneOf(MembersLess(number, ms, ns), MembersSame(number, ms, ns), MembersLess(number, ns, ms))
    decreases ms, 0
  {
    if ms != [] {
      PairTrichotomy(number, ms[0], ns[0]);
      MembersTrichotomy(number, ms[1..], ns[1..]);
    }
  }

  // ---------------------------------------------------------------- chains

  /** `operator<=`. */
  predicate NotAbove(number: Number, v: Value, w: Value) { !Less(number, w, v) }

  /** Two steps up are a step up, a strict one if one of them is. */
  lemma {:induction false} Chain(number: Number, u: Value, v: Value, w: Value)
    requires NotAbove(number, u, v) && NotAbove(number, v, w)
    ensures NotAbove(number, u, w)
    ensures Less(number, u, v) || Less(number, v, w) ==> Less(number, u, w)
    decreases u, 1
  {
    match (u, v, w)
    case (Str(r), Str(s), Str(t)) => StringChain(CStr(r), CStr(s), CStr(t));
    case (Arr(ds), Arr(es), Arr(fs)) =>
      if |ds| == |es| == |fs| { ElemsChain(number, ds, es, fs); }
    case (Obj(ls), Obj(ms), Obj(ns)) =>
      if |ls| == |ms| == |ns| { MembersChain(number, ls, ms, ns); }
    case _ =>
  }

  lemma StringChain(a: string, b: string, c: string)
    requires !StrLess(b, a) && !StrLess(c, b)
    ensures !StrLess(c, a)
    ensures StrLess(a, b) || StrLess(b, c) ==> StrLess(a, c)
  {
    StrLessTrichotomy(a, b);
    StrLessTrichotomy(b, c);
    StrLessTrichotomy(a, c);
    if StrLess(a, b) && StrLess(b, c) { StrLessTransitive(a, b, c); }
  }

  lemma {:induction false} ElemsChain(number: Number, ds: seq<Value>, es: seq<Value>, fs: seq<Value>)
    requires |ds| == |es| == |fs| && !ElemsLess(number, es, ds) && !ElemsLess(number, fs, es)
    ensures !ElemsLess(number, fs, ds)
    ensures ElemsLess(number, ds, es) || ElemsLess(number, es, fs) ==> ElemsLess(number, ds, fs)
    decreases ds, 0
  {
    if ds != [] {
      Trichotomy(number, ds[0], es[0]);
      Trichotomy(number, es[0], fs[0]);
      Trichotomy(number, ds[0], fs[0]);
      Chain(number, ds[0], es[0], fs[0]);
      if !Less(number, ds[0], es[0]) && !Less(number, es[0], fs[0]) {
        ElemsChain(number, ds[1..], es[1..], fs[1..]);
      }
    }
  }

  lemma {:induction false} PairChain(number: Number, l: Member, m: Member, n: Member)
    requires !PairLess(number, m, l) && !PairLess(number, n, m)
    ensures !PairLess(number, n, l)
    ensures PairLess(number, l, m) || PairLess(number, m, n) ==> PairLess(number, l, n)
    decreases l, 0
  {
    StrLessTrichotomy(CStr(l.key), CStr(m.key));
    StrLessTrichotomy(CStr(m.key), CStr(n.key));
    StringChain(CStr(l.key), CStr(m.key), CStr(n.key));
    if CStr(l.key) == CStr(m.key) == CStr(n.key) { Chain(number, l.value, m.value, n.value); }
  }

  lemma {:induction false} MembersChain(number: Number, ls: seq<Member>, ms: seq<Member>, ns: seq<Member>)
    requires |ls| == |ms| == |ns| && !MembersLess(number, ms, ls) && !MembersLess(number, ns, ms)
    ensures !MembersLess(number, ns, ls)
    ensures MembersLess(number, ls, ms) || MembersLess(number, ms, ns) ==> MembersLess(number, ls, ns)
    decreases ls, 0
  {
    if ls != [] {
      PairTrichotomy(number, ls[0], ms[0]);
      PairTrichotomy(number, ms[0], ns[0]);
      PairTrichotomy(number, ls[0], ns[0]);
      PairChain(number, ls[0], ms[0], ns[0]);
      if !PairLess(number, ls[0], ms[0]) && !PairLess(number, ms[0], ns[0]) {
        MembersChain(number, ls[1..], ms[1..], ns[1..]);
      }
    }
  }

  /** `operator<` is a strict order on values of any depth, and neither of two values is less exactly
      when `operator==` holds of them. */
  lemma StrictTotalOrder(number: Number, u: Value, v: Value, w: Value)
    ensures !Less(number, v, v)
    ensures Less(number, u, v) && Less(number, v, w) ==> Less(number, u, w)
    ensures !Less(number, v, w) && !Less(number, w, v) <==> Same(number, v, w)
  {
    Trichotomy(number, v, v);
    Trichotomy(number, v, w);
    Trichotomy(number, u, v);
    if Less(number, u, v) && Less(number, v, w) { Chain(number, u, v, w); }
  }

  /** `operator==` is an equivalence, and equal values compare alike with every other. */
  lemma SameIsCongruence(number: Number, u: Value, v: Value, w: Value)
    ensures Same(number, v, v)
    ensures Same(number, u, v) ==> Same(number, v, u)
    ensures Same(number, u, v) ==> (Less(number, u, w) <==> Less(number, v, w)) && (Same(number, u, w) <==> Same(number, v, w))
  {
    Trichotomy(number, v, v);
    Trichotomy(number, u, v);
    Trichotomy(number, v, u);
    Trichotomy(number, u, w);
    Trichotomy(number, v, w);
    if Same(number, u, v) {
      if Less(number, v, w) || Same(number, v, w) { Chain(number, u, v, w); }
      if Less(number, u, w) || Same(number, u, w) { Chain(number, v, u, w); }
    }
  }

  // ---------------------------------------------------------------- which order it is

  /** The types in the order of the enumeration. */
  const TYPES := ["null", "int", "uint", "real", "string", "boolean", "array", "object"]

  function TypeName(v: Value): string {
    match v
    case Null => "null"
    case Bool(_) => "boolean"
    case Int(_) => "int"
    case UInt(_) => "uint"
    case Real(_) => "real"
    case Str(_) => "string"
    case Arr(_) => "array"
    case Obj(_) => "object"
  }

  predicate EarlierType(v: Value, w: Value) {
    exists i, j :: 0 <= i < j < |TYPES| && TYPES[i] == TypeName(v) && TYPES[j] == TypeName(w)
  }

  predicate IsNumber(v: Value) { v.Int? || v.UInt? || v.Real? }

  /** The number that a numeric value denotes, a literal through the double it stands for. */
  function Denoted(number: Number, v: Value): real
    requires IsNumber(v)
  {
    if v.Real? then number(v.literal) else JsonNumber.NumericValue(v)
  }

  /** The first `k` entries are equal and the entry after them is below. */
  ghost predicate ElemDecides(number: Number, es: seq<Value>, fs: seq<Value>, k: nat) {
    k < |es| == |fs| && Less(number, es[k], fs[k]) && forall j :: 0 <= j < k ==> Same(number, es[j], fs[j])
  }

  /** Of two members the keys decide before the values. */
  ghost predicate MemberBelow(number: Number, m: Member, n: Member) {
    (exists k: nat :: DifferAt(CStr(m.key), CStr(n.key), k)) || (CStr(m.key) == CStr(n.key) && Less(number, m.value, n.value))
  }

  ghost predicate MemberDecides(number: Number, ms: seq<Member>, ns: seq<Member>, k: nat) {
    k < |ms| == |ns| && MemberBelow(number, ms[k], ns[k])
    && forall j :: 0 <= j < k ==> CStr(ms[j].key) == CStr(ns[j].key) && Same(number, ms[j].value, ns[j].value)
  }

  /** Two values of one type in the order that the type has by itself. */
  ghost predicate BelowInType(number: Number, v: Value, w: Value) {
    match (v, w)
    case (Str(s), Str(t)) => exists k: nat :: DifferAt(CStr(s), CStr(t), k)
    case (Bool(a), Bool(b)) => a == false && b == true
    case (Arr(es), Arr(fs)) => |es| < |fs| || exists k: nat :: ElemDecides(number, es, fs, k)
    case (Obj(ms), Obj(ns)) => |ms| < |ns| || exists k: nat :: MemberDecides(number, ms, ns, k)
    case _ => IsNumber(v) && IsNumber(w) && Denoted(number, v) < Denoted(number, w)
  }

  lemma {:induction false} ElemsLessExactlyWhen(number: Number, es: seq<Value>, fs: seq<Value>)
    requires |es| == |fs|
    ensures ElemsLess(number, es, fs) <==> exists k: nat :: ElemDecides(number, es, fs, k)
    decreases |es|
  {
    hide Less, Same;
    if es != [] {
      Trichotomy(number, es[0], fs[0]);
      ElemsLessExactlyWhen(number, es[1..], fs[1..]);
      if Less(number, es[0], fs[0]) { assert ElemDecides(number, es, fs, 0); }
      if k: nat :| ElemDecides(number, es[1..], fs[1..], k) && Same(number, es[0], fs[0]) {
        assert forall j :: 0 < j <= k ==> es[j] == es[1..][j - 1] && fs[j] == fs[1..][j - 1];
        assert ElemDecides(number, es, fs, k + 1);
      }
      if k: nat :| ElemDecides(number, es, fs, k) {
        if k > 0 { assert ElemDecides(number, es[1..], fs[1..], k - 1); }
      }
    }
  }

  lemma PairLessExactlyWhen(number: Number, m: Member, n: Member)
    ensures PairLess(number, m, n) <==> MemberBelow(number, m, n)
  {
    hide Less;
    StrLessExactlyWhen(CStr(m.key), CStr(n.key));
    StrLessTrichotomy(CStr(m.key), CStr(n.key));
  }

  lemma {:induction false} MembersLessExactlyWhen(number: Number, ms: seq<Member>, ns: seq<Member>)
    requires |ms| == |ns|
    ensures MembersLess(number, ms, ns) <==> exists k: nat :: MemberDecides(number, ms, ns, k)
    decreases |ms|
  {
    hide Less, Same, PairLess, MemberBelow;
    if ms != [] {
      PairTrichotomy(number, ms[0], ns[0]);
      PairLessExactlyWhen(number, ms[0], ns[0]);
      MembersLessExactlyWhen(number, ms[1..], ns[1..]);
      if PairLess(number, ms[0], ns[0]) { assert MemberDecides(number, ms, ns, 0); }
      if k: nat :| MemberDecides(number, ms[1..], ns[1..], k) && PairSame(number, ms[0], ns[0]) {
        assert forall j :: 0 < j <= k ==> ms[j] == ms[1..][j - 1] && ns[j] == ns[1..][j - 1];
        assert MemberDecides(number, ms, ns, k + 1);
      }
      if k: nat :| MemberDecides(number, ms, ns, k) {
        if k > 0 { assert MemberDecides(number, ms[1..], ns[1..], k - 1); }
      }
    }
  }

  lemma RankIsPlace(v: Value)
    ensures TypeRank(v) < |TYPES| && forall i :: 0 <= i < |TYPES| ==> (TYPES[i] == TypeName(v) <==> i == TypeRank(v))
  {
    assert |TYPES| == 8;
    assert TYPES[0] == "null" && TYPES[1] == "int" && TYPES[2] == "uint" && TYPES[3] == "real";
    assert TYPES[4] == "string" && TYPES[5] == "boolean" && TYPES[6] == "array" && TYPES[7] == "object";
    assert "null"[0] == 'n' && "int"[0] == 'i' && "uint"[0] == 'u' && "real"[0] == 'r';
    assert "string"[0] == 's' && "boolean"[0] == 'b' && "array"[0] == 'a' && "object"[0] == 'o';
  }

  /** What `operator<` says: the earlier type in the enumeration; of one type the smaller number, false before
      true, the string with the smaller byte where they first differ, the container with fewer entries, and of two
      with equally many the one that is below in the first entry that differs. */
  lemma LessExactlyWhen(number: Number, v: Value, w: Value)
    ensures Less(number, v, w) <==>
            EarlierType(v, w) || (TypeName(v) == TypeName(w) && BelowInType(number, v, w))
  {
    RankIsPlace(v);
    RankIsPlace(w);
    TypesApart(v, w);
    hide TypeName, CStr, StrLess, DifferAt, ElemsLess, MembersLess, Same;
    match (v, w)
    case (Str(s), Str(t)) => StrLessExactlyWhen(CStr(s), CStr(t));
    case (Arr(es), Arr(fs)) => if |es| == |fs| { ElemsLessExactlyWhen(number, es, fs); }
    case (Obj(ms), Obj(ns)) => if |ms| == |ns| { MembersLessExactlyWhen(number, ms, ns); }
    case _ =>
  }

  lemma TypesApart(v: Value, w: Value)
    ensures EarlierType(v, w) <==> TypeRank(v) < TypeRank(w)
    ensures TypeName(v) == TypeName(w) <==> TypeRank(v) == TypeRank(w)
  {
    RankIsPlace(v);
    RankIsPlace(w);
    hide TypeName;
    assert TYPES[TypeRank(v)] == TypeName(v) && TYPES[TypeRank(w)] == TypeName(w);
  }
}
