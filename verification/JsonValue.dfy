/** The JSON value tree (contrib/jsoncpp/src/lib_json/json_value.cpp, json/value.h), in the
    default configuration: arrays and objects live in ordered maps.

    A `char` stands for one byte of the C++ `std::string`. */
module JsonValue {
  import opened Wrappers

  /** A real leaf is kept as its decimal literal; a dense array as the sequence of its
      elements; an object as its member list in the order of the underlying map. */
  datatype Value =
    | Null
    | Int(i: int)
    | UInt(u: nat)
    | Real(literal: string)
    | Str(s: string)
    | Bool(b: bool)
    | Arr(elems: seq<Value>)
    | Obj(members: seq<Member>)

  datatype Member = Member(key: string, value: Value)

  const INT_MAX := 2147483647
  const INT_MIN := -2147483648
  const UINT_MAX := 4294967295

  /** The bytes a `const char *` shows of `s`: everything before the first NUL. */
  function CStr(s: string): (r: string)
    ensures NulFree(r)
    ensures NulFree(s) ==> r == s
    ensures r <= s
    ensures |r| < |s| ==> s[|r|] == '\0'
  {
    if s == [] || s[0] == '\0' then [] else [s[0]] + CStr(s[1..])
  }

  predicate NulFree(s: string) {
    forall k :: 0 <= k < |s| ==> s[k] != '\0'
  }

  /** `strcmp(a, b) < 0` on NUL-free strings. */
  predicate StrLess(a: string, b: string) {
    b != [] && (a == [] || a[0] < b[0] || (a[0] == b[0] && StrLess(a[1..], b[1..])))
  }

  lemma {:induction false} StrLessTrichotomy(a: string, b: string)
    ensures StrLess(a, b) || a == b || StrLess(b, a)
    ensures !(StrLess(a, b) && StrLess(b, a))
    ensures a == b ==> !StrLess(a, b)
  {
    if a != [] && b != [] {
      StrLessTrichotomy(a[1..], b[1..]);
      assert a == [a[0]] + a[1..] && b == [b[0]] + b[1..];
    }
  }

  lemma {:induction false} StrLessTransitive(a: string, b: string, c: string)
    requires StrLess(a, b) && StrLess(b, c)
    ensures StrLess(a, c)
  {
    if a != [] && a[0] == b[0] == c[0] {
      StrLessTransitive(a[1..], b[1..], c[1..]);
    }
  }

  /** They agree up to `k`, where `a` ends or has the smaller byte. */
  predicate DifferAt(a: string, b: string, k: nat) {
    k <= |a| && k < |b| && a[..k] == b[..k] && (k == |a| || a[k] as int < b[k] as int)
  }

  /** The first byte in which two strings differ decides, and the end comes before every byte. */
  lemma {:induction false} StrLessExactlyWhen(a: string, b: string)
    ensures StrLess(a, b) <==> exists k: nat :: DifferAt(a, b, k)
  {
    if b != [] && (a == [] || a[0] < b[0]) {
      assert DifferAt(a, b, 0);
    } else if a != [] && b != [] && a[0] == b[0] {
      StrLessExactlyWhen(a[1..], b[1..]);
      if k: nat :| DifferAt(a[1..], b[1..], k) { DifferLater(a, b, k); }
      if k: nat :| DifferAt(a, b, k) { DifferEarlier(a, b, k); }
    }
  }

  lemma DifferLater(a: string, b: string, k: nat)
    requires a != [] && b != [] && a[0] == b[0] && DifferAt(a[1..], b[1..], k)
    ensures DifferAt(a, b, k + 1)
  {
    assert a[..k + 1] == [a[0]] + a[1..][..k] && b[..k + 1] == [b[0]] + b[1..][..k];
  }

  lemma DifferEarlier(a: string, b: string, k: nat)
    requires a != [] && b != [] && a[0] == b[0] && DifferAt(a, b, k)
    ensures k > 0 && DifferAt(a[1..], b[1..], k - 1)
  {
    assert a[1..][..k - 1] == a[..k][1..] && b[1..][..k - 1] == b[..k][1..];
  }

  /** The keys of an object, strictly ascending as `std::map` keeps them. */
  predicate SortedMembers(ms: seq<Member>) {
    forall j, k :: 0 <= j < k < |ms| ==> StrLess(ms[j].key, ms[k].key)
  }

  /** Assigning through `operator[](key)`: replace the member at the lower bound or insert there. */
  function Put(ms: seq<Member>, key: string, value: Value): seq<Member> {
    if ms == [] then [Member(key, value)]
    else if StrLess(ms[0].key, key) then [ms[0]] + Put(ms[1..], key, value)
    else if ms[0].key == key then [Member(key, value)] + ms[1..]
    else [Member(key, value)] + ms
  }

  /** `find(key)` on the map. */
  function Get(ms: seq<Member>, key: string): Option<Value> {
    if ms == [] then None
    else if ms[0].key == key then Some(ms[0].value)
    else Get(ms[1..], key)
  }

  /** Reading through the non-const `operator[]`: a missing member appears as null. */
  function GetOrNull(ms: seq<Member>, key: string): Value {
    match Get(ms, key) case Some(v) => v case None => Null
  }

  lemma {:induction false} PutKeepsKeys(ms: seq<Member>, key: string, value: Value)
    ensures forall m :: m in Put(ms, key, value) ==> m == Member(key, value) || m in ms
    ensures forall m :: m in ms && m.key != key ==> m in Put(ms, key, value)
  {
    if ms != [] {
      PutKeepsKeys(ms[1..], key, value);
      assert ms == [ms[0]] + ms[1..];
    }
  }

  /** Insertion keeps the map order. */
  lemma {:induction false} PutSorted(ms: seq<Member>, key: string, value: Value)
    requires SortedMembers(ms)
    ensures SortedMembers(Put(ms, key, value))
  {
    if ms != [] {
      StrLessTrichotomy(ms[0].key, key);
      var rest := ms[1..];
      if StrLess(ms[0].key, key) {
        PutSorted(rest, key, value);
        PutKeepsKeys(rest, key, value);
        var p := Put(rest, key, value);
        forall k | 0 <= k < |p| ensures StrLess(ms[0].key, p[k].key) {
          assert p[k] in p;
        }
      } else if ms[0].key != key {
        forall k | 0 <= k < |ms| ensures StrLess(key, ms[k].key) {
          if k > 0 { StrLessTransitive(key, ms[0].key, ms[k].key); }
        }
      }
    }
  }

  /** What is stored under a key is read back, and no other key is touched. */
  lemma {:induction false} GetPut(ms: seq<Member>, key: string, value: Value, other: string)
    requires SortedMembers(ms)
    ensures Get(Put(ms, key, value), other) == if other == key then Some(value) else Get(ms, other)
  {
    if ms != [] {
      StrLessTrichotomy(ms[0].key, key);
      if StrLess(ms[0].key, key) {
        GetPut(ms[1..], key, value, other);
      }
    }
  }

  /** Looking up the name of a member finds that member. */
  lemma {:induction false} GetAt(ms: seq<Member>, k: nat)
    requires SortedMembers(ms) && k < |ms|
    ensures Get(ms, ms[k].key) == Some(ms[k].value)
  {
    if k > 0 {
      StrLessTrichotomy(ms[0].key, ms[k].key);
      GetAt(ms[1..], k - 1);
    }
  }

  /** A key beyond all others is appended. */
  lemma {:induction false} PutLast(ms: seq<Member>, key: string, value: Value)
    requires forall k :: 0 <= k < |ms| ==> StrLess(ms[k].key, key)
    ensures Put(ms, key, value) == ms + [Member(key, value)]
  {
    if ms != [] {
      PutLast(ms[1..], key, value);
      assert ms == [ms[0]] + ms[1..];
    }
  }
}
