/** Scoring (lib/emulator/helpers.cpp, `DivideCoins`): who takes a coin and what each gets. */
module Coins {
  import opened Geometry
  import opened Physics

  datatype Coin = Coin(center: Vector, radius: real, value: real)

  const EPSILON := 0.000001

  function Scores(ps: seq<Player>): real {
    if ps == [] then 0.0 else Scores(ps[..|ps| - 1]) + ps[|ps| - 1].score
  }

  function Worth(cs: seq<Coin>): real {
    if cs == [] then 0.0 else Worth(cs[..|cs| - 1]) + cs[|cs| - 1].value
  }

  // ---------------------------------------------------------------- the nearest players

  /** The running minimum, which only a clearly smaller distance replaces, and the indices that
      were close to it when they were reached. */
  datatype Scan = Scan(min: real, list: seq<nat>)

  function Nearest(distances: seq<real>, maxDouble: real): Scan {
    if distances == [] then Scan(maxDouble, []) else
      var n := |distances| - 1;
      var s, d := Nearest(distances[..n], maxDouble), distances[n];
      if Less(d, s.min, EPSILON) then Scan(d, [n])
      else if Equal(d, s.min, EPSILON) then Scan(s.min, s.list + [n])
      else s
  }

  predicate Increasing(list: seq<nat>, bound: nat) {
    && (forall a, b :: 0 <= a < b < |list| ==> list[a] < list[b])
    && (forall a :: 0 <= a < |list| ==> list[a] < bound)
  }

  predicate Close(d: real, min: real) { -EPSILON < d - min < EPSILON }

  /** The members of the list after the first are the later indices close to the minimum; nobody
      before the first is as near as the minimum, and nobody is nearer by more than epsilon. */
  ghost predicate Leads(distances: seq<real>, s: Scan) {
    && s.list != [] && Increasing(s.list, |distances|)
    && distances[s.list[0]] == s.min
    && (forall i :: 0 <= i < s.list[0] ==> s.min < distances[i])
    && (forall i :: s.list[0] < i < |distances| ==> s.min - EPSILON <= distances[i])
    && (forall i :: s.list[0] < i < |distances| ==> (i in s.list <==> Close(distances[i], s.min)))
  }

  /** While no distance is clearly below the initial value, the minimum stays at that value. */
  ghost predicate Untouched(distances: seq<real>, s: Scan, maxDouble: real) {
    s.min == maxDouble && forall i :: 0 <= i < |distances| ==> maxDouble - EPSILON <= distances[i]
  }

  lemma {:induction false} NearestLeads(distances: seq<real>, maxDouble: real)
    ensures var s := Nearest(distances, maxDouble);
            s.min <= maxDouble && (Untouched(distances, s, maxDouble) || (Leads(distances, s) && s.min < maxDouble - EPSILON))
  {
    if distances != [] {
      var n := |distances| - 1;
      var before, d := distances[..n], distances[n];
      NearestLeads(before, maxDouble);
      var s, t := Nearest(before, maxDouble), Nearest(distances, maxDouble);
      assert t == if Less(d, s.min, EPSILON) then Scan(d, [n])
                  else if Equal(d, s.min, EPSILON) then Scan(s.min, s.list + [n]) else s;
      hide Nearest;
      if Less(d, s.min, EPSILON) {
        NewLeader(before, d, s, maxDouble);
        assert distances == before + [d];
      } else if !Untouched(before, s, maxDouble) {
        NextInLine(before, d, s);
        assert distances == before + [d];
      }
    }
  }

  lemma NewLeader(before: seq<real>, d: real, s: Scan, maxDouble: real)
    requires s.min <= maxDouble && Less(d, s.min, EPSILON)
    requires Untouched(before, s, maxDouble) || Leads(before, s)
    ensures Leads(before + [d], Scan(d, [|before|]))
  {
    forall i | 0 <= i < |before| ensures d < before[i] {
      if Leads(before, s) {
        if i < s.list[0] { assert s.min < before[i]; } else if i > s.list[0] { assert s.min - EPSILON <= before[i]; }
      }
    }
  }

  lemma NextInLine(before: seq<real>, d: real, s: Scan)
    requires Leads(before, s) && !Less(d, s.min, EPSILON)
    ensures Leads(before + [d], if Equal(d, s.min, EPSILON) then Scan(s.min, s.list + [|before|]) else s)
  {
    var n, ds := |before|, before + [d];
    var t := if Equal(d, s.min, EPSILON) then Scan(s.min, s.list + [n]) else s;
    assert t.list[0] == s.list[0] < n;
    forall i | s.list[0] < i < |ds| ensures i in t.list <==> Close(ds[i], s.min) {
      if i < n { assert ds[i] == before[i]; assert i in t.list <==> i in s.list; }
    }
  }

  // ---------------------------------------------------------------- when all close to the recorded minimum share

  /** Everybody close to the recorded minimum, which may stand up to epsilon above the least distance, is in
      the list. */
  ghost predicate RecordedCloseShare(distances: seq<real>, maxDouble: real) {
    var s := Nearest(distances, maxDouble);
    forall i :: 0 <= i < |distances| ==> (i in s.list <==> Close(distances[i], s.min))
  }

  /** The initial value and the distances. */
  function Levels(distances: seq<real>, maxDouble: real): seq<real> { [maxDouble] + distances }

  /** Clearly below every leader before it. */
  predicate IsLeader(xs: seq<real>, i: nat)
    requires i < |xs|
    decreases i
  {
    forall k: nat :: k < i ==> (IsLeader(xs, k) ==> Less(xs[i], xs[k], EPSILON))
  }

  ghost predicate LastLeader(xs: seq<real>, l: nat) {
    l < |xs| && IsLeader(xs, l) && forall j: nat :: l < j < |xs| ==> !IsLeader(xs, j)
  }

  /** Between a leader and the last one stands a distance that does not fall clearly below the former and
      is close to the latter. */
  ghost predicate PassedOverAt(xs: seq<real>, k: nat, b: nat, l: nat) {
    k < b < l && LastLeader(xs, l) && IsLeader(xs, k) && xs[k] - EPSILON <= xs[b] < xs[l] + EPSILON
  }

  lemma {:induction false} LeaderOfPrefix(xs: seq<real>, x: real, i: nat)
    requires i < |xs|
    ensures IsLeader(xs + [x], i) <==> IsLeader(xs, i)
    decreases i
  {
    forall k: nat | k < i ensures IsLeader(xs + [x], k) <==> IsLeader(xs, k) { LeaderOfPrefix(xs, x, k); }
  }

  /** What is no leader stays in the reach of one before it. */
  lemma NoLeader(xs: seq<real>, i: nat) returns (k: nat)
    requires i < |xs| && !IsLeader(xs, i)
    ensures k < i && IsLeader(xs, k) && xs[k] - EPSILON <= xs[i]
  {
    k :| k < i && IsLeader(xs, k) && !Less(xs[i], xs[k], EPSILON);
  }

  lemma BeforeLeader(xs: seq<real>, b: nat, l: nat)
    requires b < l < |xs| && IsLeader(xs, l)
    ensures xs[l] < xs[b]
  {
    if !IsLeader(xs, b) { var k := NoLeader(xs, b); }
  }

  lemma AfterLeader(xs: seq<real>, l: nat, j: nat)
    requires LastLeader(xs, l) && l < j < |xs|
    ensures xs[l] - EPSILON <= xs[j]
  {
    var k := NoLeader(xs, j);
    if k < l { BeforeLeader(xs, k, l); }
  }

  /** The scan has found the last leader; its list are the close ones from there on. */
  ghost predicate ScanEndsAt(distances: seq<real>, maxDouble: real, l: nat) {
    var xs, s := Levels(distances, maxDouble), Nearest(distances, maxDouble);
    LastLeader(xs, l) && s.min == xs[l]
    && forall i: nat :: i in s.list <==> i < |distances| && i + 1 >= l && Close(distances[i], s.min)
  }

  lemma {:induction false} ScanFindsLastLeader(distances: seq<real>, maxDouble: real) returns (l: nat)
    ensures ScanEndsAt(distances, maxDouble, l)
  {
    l := 0;
    if distances != [] {
      var n := |distances| - 1;
      var before, d := distances[..n], distances[n];
      assert distances == before + [d];
      var k := ScanFindsLastLeader(before, maxDouble);
      l := if Less(d, Levels(before, maxDouble)[k], EPSILON) then n + 1 else k;
      LeadersOneMore(Levels(before, maxDouble), k, d, n + 1);
      assert Levels(before, maxDouble) + [d] == Levels(distances, maxDouble);
      ScanOneMore(before, d, maxDouble, k, l);
    }
  }

  lemma LeadersOneMore(xs: seq<real>, k: nat, x: real, n: nat)
    requires LastLeader(xs, k) && n == |xs|
    ensures LastLeader(xs + [x], if Less(x, xs[k], EPSILON) then n else k)
  {
    var ys := xs + [x];
    forall i: nat | i < n ensures IsLeader(ys, i) <==> IsLeader(xs, i) { LeaderOfPrefix(xs, x, i); }
    forall i: nat | i < n && IsLeader(xs, i) ensures xs[k] <= xs[i] {
      if i < k { BeforeLeader(xs, i, k); }
    }
    assert ys[k] == xs[k] && ys[n] == x;
  }

  lemma ScanOneMore(before: seq<real>, d: real, maxDouble: real, k: nat, l: nat)
    requires ScanEndsAt(before, maxDouble, k)
    requires LastLeader(Levels(before + [d], maxDouble), l)
    requires l == if Less(d, Levels(before, maxDouble)[k], EPSILON) then |before| + 1 else k
    ensures ScanEndsAt(before + [d], maxDouble, l)
  {
    var n, ds := |before|, before + [d];
    var s, t := Nearest(before, maxDouble), Nearest(ds, maxDouble);
    assert ds[..n] == before;
    assert t == if Less(d, s.min, EPSILON) then Scan(d, [n])
                else if Equal(d, s.min, EPSILON) then Scan(s.min, s.list + [n]) else s;
    hide Nearest, LastLeader, IsLeader;
    assert forall i :: 0 <= i < n ==> ds[i] == before[i];
    forall i: nat ensures i in t.list <==> i < n + 1 && i + 1 >= l && Close(ds[i], t.min) {
      assert i in s.list + [n] <==> i in s.list || i == n;
    }
  }

  /** Everybody close to the recorded minimum shares unless somebody is passed over: a relation on the distances
      in their order. */
  lemma RecordedCloseShareExactlyWhen(distances: seq<real>, maxDouble: real)
    ensures RecordedCloseShare(distances, maxDouble) <==>
            !exists k: nat, b: nat, l: nat :: PassedOverAt(Levels(distances, maxDouble), k, b, l)
  {
    hide Nearest;
    var xs, s := Levels(distances, maxDouble), Nearest(distances, maxDouble);
    var l := ScanFindsLastLeader(distances, maxDouble);
    if !RecordedCloseShare(distances, maxDouble) {
      var i: nat :| i < |distances| && !(i in s.list <==> Close(distances[i], s.min));
      if IsLeader(xs, i + 1) { assert Less(xs[l], xs[i + 1], EPSILON); }
      var k := NoLeader(xs, i + 1);
      assert PassedOverAt(xs, k, i + 1, l);
    }
    if k: nat, b: nat, m: nat :| PassedOverAt(xs, k, b, m) {
      assert m == l;
      assert Less(xs[m], xs[k], EPSILON);
      assert Close(distances[b - 1], s.min) && b - 1 !in s.list;
    }
  }

  /** Three levels: `b` is within epsilon below `a`, `c` is more than epsilon below `a` and less than
      epsilon below `b`, and nothing lies more than epsilon below `c`. */
  ghost predicate Triple(distances: seq<real>, maxDouble: real, a: real, b: real, c: real) {
    && (a == maxDouble || (a in distances && Less(a, maxDouble, EPSILON)))
    && b in distances && c in distances
    && Less(c, a, EPSILON) && a - EPSILON <= b < c + EPSILON
    && forall d :: d in distances ==> c - EPSILON <= d
  }

  lemma PassedOverTriple(distances: seq<real>, maxDouble: real, k: nat, b: nat, l: nat)
    requires PassedOverAt(Levels(distances, maxDouble), k, b, l)
    ensures var xs := Levels(distances, maxDouble); Triple(distances, maxDouble, xs[k], xs[b], xs[l])
  {
    var xs := Levels(distances, maxDouble);
    assert IsLeader(xs, 0);
    assert xs[b] == distances[b - 1] && xs[l] == distances[l - 1] && (k > 0 ==> xs[k] == distances[k - 1]);
    forall d | d in distances ensures xs[l] - EPSILON <= d {
      var i :| 0 <= i < |distances| && distances[i] == d;
      if i + 1 < l { BeforeLeader(xs, i + 1, l); } else if i + 1 > l { AfterLeader(xs, l, i + 1); }
    }
  }

  lemma TakeOut(ds: seq<real>, x: real) returns (rest: seq<real>)
    requires x in ds
    ensures multiset([x] + rest) == multiset(ds)
    ensures forall d :: d in ds && d != x ==> d in rest
  {
    var i :| 0 <= i < |ds| && ds[i] == x;
    rest := ds[..i] + ds[i + 1..];
    assert ds == ds[..i] + [x] + ds[i + 1..];
  }

  /** A triple in front of the others passes over its middle one. */
  lemma TripleInFront(front: seq<real>, rest: seq<real>, maxDouble: real, a: real, b: real, c: real)
    requires front == (if a == maxDouble then [b, c] else [a, b, c])
    requires Triple(front + rest, maxDouble, a, b, c)
    ensures !RecordedCloseShare(front + rest, maxDouble)
  {
    var ds := front + rest;
    var xs := Levels(ds, maxDouble);
    var k: nat := if a == maxDouble then 0 else 1;
    assert xs[k] == a && xs[k + 1] == b && xs[k + 2] == c && xs[0] == maxDouble;
    assert IsLeader(xs, 0) && IsLeader(xs, k) && !IsLeader(xs, k + 1) && IsLeader(xs, k + 2);
    forall j: nat | k + 2 < j < |xs| ensures !IsLeader(xs, j) { assert xs[j] == ds[j - 1] && ds[j - 1] in ds; }
    assert PassedOverAt(xs, k, k + 1, k + 2);
    RecordedCloseShareExactlyWhen(ds, maxDouble);
  }

  lemma TripleOfMembers(ds: seq<real>, es: seq<real>, maxDouble: real, a: real, b: real, c: real)
    requires multiset(ds) == multiset(es) && Triple(ds, maxDouble, a, b, c)
    ensures Triple(es, maxDouble, a, b, c)
  {
    assert forall d :: d in ds <==> d in multiset(ds);
    assert forall d :: d in es <==> d in multiset(es);
  }

  lemma ThreeInFront(ds: seq<real>, a: real, b: real, c: real) returns (rest: seq<real>)
    requires a in ds && b in ds && c in ds && a != b && b != c && c != a
    ensures multiset([a, b, c] + rest) == multiset(ds)
  {
    var r1 := TakeOut(ds, a);
    var r2 := TakeOut(r1, b);
    rest := TakeOut(r2, c);
    assert [a, b, c] + rest == [a] + ([b] + ([c] + rest));
  }

  lemma TwoInFront(ds: seq<real>, b: real, c: real) returns (rest: seq<real>)
    requires b in ds && c in ds && b != c
    ensures multiset([b, c] + rest) == multiset(ds)
  {
    var r1 := TakeOut(ds, b);
    rest := TakeOut(r1, c);
    assert [b, c] + rest == [b] + ([c] + rest);
  }

  lemma TripleBreaksAnOrder(ds: seq<real>, maxDouble: real, a: real, b: real, c: real) returns (es: seq<real>)
    requires Triple(ds, maxDouble, a, b, c)
    ensures multiset(es) == multiset(ds) && !RecordedCloseShare(es, maxDouble)
  {
    hide RecordedCloseShare;
    var front, rest := [b, c], [];
    if a == maxDouble {
      rest := TwoInFront(ds, b, c);
    } else {
      rest := ThreeInFront(ds, a, b, c);
      front := [a, b, c];
    }
    es := front + rest;
    TripleOfMembers(ds, es, maxDouble, a, b, c);
    hide Triple;
    TripleInFront(front, rest, maxDouble, a, b, c);
  }

  /** In whatever order the players come, everybody close to the recorded minimum shares, exactly when there
      is no triple among the distances. */
  lemma RecordedCloseShareInEveryOrder(distances: seq<real>, maxDouble: real)
    ensures (forall es: seq<real> :: multiset(es) == multiset(distances) ==> RecordedCloseShare(es, maxDouble))
            <==> !exists a, b, c :: Triple(distances, maxDouble, a, b, c)
  {
    hide RecordedCloseShare;
    if a, b, c :| Triple(distances, maxDouble, a, b, c) {
      var es := TripleBreaksAnOrder(distances, maxDouble, a, b, c);
    }
    if es: seq<real> :| multiset(es) == multiset(distances) && !RecordedCloseShare(es, maxDouble) {
      RecordedCloseShareExactlyWhen(es, maxDouble);
      var k: nat, b: nat, l: nat :| PassedOverAt(Levels(es, maxDouble), k, b, l);
      PassedOverTriple(es, maxDouble, k, b, l);
      var xs := Levels(es, maxDouble);
      TripleOfMembers(es, distances, maxDouble, xs[k], xs[b], xs[l]);
      assert Triple(distances, maxDouble, xs[k], xs[b], xs[l]);
    }
  }

  /** No two distances differ by an amount between one and two epsilons. */
  predicate WellSpaced(distances: seq<real>) {
    forall i, j :: 0 <= i < j < |distances| ==>
      (EPSILON <= distances[i] - distances[j] ==> 2.0 * EPSILON <= distances[i] - distances[j])
  }

  /** A simple case: well-spaced distances. */
  lemma WellSpacedShare(distances: seq<real>, maxDouble: real)
    requires WellSpaced(distances)
    requires forall i :: 0 <= i < |distances| ==> distances[i] < maxDouble - EPSILON
    ensures RecordedCloseShare(distances, maxDouble)
  {
    hide RecordedCloseShare;
    var xs := Levels(distances, maxDouble);
    RecordedCloseShareExactlyWhen(distances, maxDouble);
    if k: nat, b: nat, l: nat :| PassedOverAt(xs, k, b, l) {
      PassedOverGap(distances, maxDouble, k, b, l);
    }
  }

  lemma PassedOverGap(distances: seq<real>, maxDouble: real, k: nat, b: nat, l: nat)
    requires PassedOverAt(Levels(distances, maxDouble), k, b, l)
    ensures if k == 0 then maxDouble - EPSILON <= distances[b - 1]
            else EPSILON < distances[k - 1] - distances[l - 1] < 2.0 * EPSILON
  {
    var xs := Levels(distances, maxDouble);
    assert Less(xs[l], xs[k], EPSILON);
    assert xs[b] == distances[b - 1] && xs[l] == distances[l - 1] && (k > 0 ==> xs[k] == distances[k - 1]);
  }

  // ---------------------------------------------------------------- when all near players share

  function Least(distances: seq<real>): (least: real)
    requires distances != []
    ensures least in distances && forall d :: d in distances ==> least <= d
  {
    var n := |distances| - 1;
    var d := distances[n];
    assert distances == distances[..n] + [d];
    if n == 0 then d else
      var least := Least(distances[..n]);
      if d < least then d else least
  }

  /** Those within epsilon of the least distance are the ones in the list. */
  ghost predicate NearShare(distances: seq<real>, maxDouble: real)
    requires distances != []
  {
    var s := Nearest(distances, maxDouble);
    forall i :: 0 <= i < |distances| ==> (i in s.list <==> distances[i] < Least(distances) + EPSILON)
  }

  /** The recorded minimum stands epsilon above the least distance; or somebody near comes before it; or
      somebody that is not near comes later and is close to it. */
  ghost predicate Astray(xs: seq<real>, l: nat, least: real) {
    LastLeader(xs, l)
    && (least <= xs[l] - EPSILON
        || exists j: nat :: 0 < j < |xs| &&
             if j < l then xs[j] < least + EPSILON else least + EPSILON <= xs[j] < xs[l] + EPSILON)
  }

  lemma LeastAndLeader(distances: seq<real>, maxDouble: real, l: nat)
    requires distances != [] && (forall d :: d in distances ==> d <= maxDouble)
    requires LastLeader(Levels(distances, maxDouble), l)
    ensures var m := Levels(distances, maxDouble)[l]; m - EPSILON <= Least(distances) <= m
  {
    hide IsLeader;
    var xs, least := Levels(distances, maxDouble), Least(distances);
    var i :| 0 <= i < |distances| && distances[i] == least;
    assert xs[i + 1] == least;
    if i + 1 < l { BeforeLeader(xs, i + 1, l); } else if i + 1 > l { AfterLeader(xs, l, i + 1); }
    assert l > 0 ==> xs[l] == distances[l - 1] && xs[l] in distances;
  }

  /** Those within epsilon of the least distance share, and nobody else, unless the scan goes astray: a relation
      on the distances in their order. */
  lemma NearShareExactlyWhen(distances: seq<real>, maxDouble: real)
    requires distances != [] && forall d :: d in distances ==> d <= maxDouble
    ensures NearShare(distances, maxDouble) <==>
            !exists l: nat :: Astray(Levels(distances, maxDouble), l, Least(distances))
  {
    hide Nearest, IsLeader, Least;
    var xs, least := Levels(distances, maxDouble), Least(distances);
    var l := ScanFindsLastLeader(distances, maxDouble);
    LeastAndLeader(distances, maxDouble, l);
    assert LastLeader(xs, l);
    hide ScanEndsAt, NearShare, Astray, LastLeader;
    if Astray(xs, l, least) { AstrayFails(distances, maxDouble, l); }
    if !NearShare(distances, maxDouble) { FailureIsAstray(distances, maxDouble, l); }
    forall k: nat | Astray(xs, k, least) ensures k == l { OneLastLeader(xs, k, l); }
  }

  lemma OneLastLeader(xs: seq<real>, k: nat, l: nat)
    requires LastLeader(xs, k) && LastLeader(xs, l)
    ensures k == l
  {}

  lemma FailureIsAstray(distances: seq<real>, maxDouble: real, l: nat)
    requires distances != [] && ScanEndsAt(distances, maxDouble, l)
    requires Least(distances) <= Levels(distances, maxDouble)[l] && !NearShare(distances, maxDouble)
    ensures Astray(Levels(distances, maxDouble), l, Least(distances))
  {
    hide Nearest, IsLeader, Least;
    var xs, s, least := Levels(distances, maxDouble), Nearest(distances, maxDouble), Least(distances);
    var i: nat :| i < |distances| && !(i in s.list <==> distances[i] < least + EPSILON);
    assert least <= distances[i] by { assert distances[i] in distances; }
    assert 0 < i + 1 < |xs| && xs[i + 1] == distances[i];
  }

  lemma AstrayFails(distances: seq<real>, maxDouble: real, l: nat)
    requires distances != [] && ScanEndsAt(distances, maxDouble, l)
    requires Levels(distances, maxDouble)[l] - EPSILON <= Least(distances)
    requires Astray(Levels(distances, maxDouble), l, Least(distances))
    ensures !NearShare(distances, maxDouble)
  {
    hide Nearest, IsLeader, Least;
    var xs, s, least := Levels(distances, maxDouble), Nearest(distances, maxDouble), Least(distances);
    var i: nat;
    if least <= xs[l] - EPSILON {
      i :| i < |distances| && distances[i] == least;
    } else {
      var j: nat :| 0 < j < |xs| && if j < l then xs[j] < least + EPSILON else least + EPSILON <= xs[j] < xs[l] + EPSILON;
      i := j - 1;
      assert xs[j] == distances[i];
    }
    assert !(i in s.list <==> distances[i] < least + EPSILON);
  }

  /** `a` and `b` are not more than epsilon apart with the bound for being near between them, and one of them can
      lead while the other comes next. */
  ghost predicate Straddle(distances: seq<real>, maxDouble: real, a: real, b: real)
    requires distances != []
  {
    b < Least(distances) + EPSILON <= a
    && ((CanLead(distances, maxDouble, a) && b in distances && a <= b + EPSILON)
        || (CanLead(distances, maxDouble, b) && a in distances && a < b + EPSILON))
  }

  ghost predicate CanLead(distances: seq<real>, maxDouble: real, d: real) {
    d == maxDouble || (d in distances && Less(d, maxDouble, EPSILON))
  }

  lemma LeaderCanLead(distances: seq<real>, maxDouble: real, k: nat)
    requires k < |Levels(distances, maxDouble)| && IsLeader(Levels(distances, maxDouble), k)
    ensures CanLead(distances, maxDouble, Levels(distances, maxDouble)[k])
  {
    var xs := Levels(distances, maxDouble);
    assert IsLeader(xs, 0);
    assert k > 0 ==> xs[k] == distances[k - 1] && xs[k] in distances;
  }

  lemma AstrayStraddles(distances: seq<real>, maxDouble: real, l: nat) returns (a: real, b: real)
    requires distances != [] && forall d :: d in distances ==> d <= maxDouble
    requires Astray(Levels(distances, maxDouble), l, Least(distances))
    ensures Straddle(distances, maxDouble, a, b)
  {
    hide IsLeader, Least;
    var xs, least := Levels(distances, maxDouble), Least(distances);
    LeastAndLeader(distances, maxDouble, l);
    LeaderCanLead(distances, maxDouble, l);
    a, b := xs[l], least;
    if least > xs[l] - EPSILON {
      var j: nat :| 0 < j < |xs| && if j < l then xs[j] < least + EPSILON else least + EPSILON <= xs[j] < xs[l] + EPSILON;
      assert xs[j] == distances[j - 1] && xs[j] in distances;
      if j < l {
        assert !IsLeader(xs, j) by { if IsLeader(xs, j) { LeaderBelow(xs, j, l); } }
        var k := NoLeader(xs, j);
        LeaderCanLead(distances, maxDouble, k);
        LeaderBelow(xs, k, l);
        a, b := xs[k], xs[j];
      } else {
        a, b := xs[j], xs[l];
      }
    }
  }

  lemma LeaderBelow(xs: seq<real>, k: nat, l: nat)
    requires k < l && LastLeader(xs, l) && IsLeader(xs, k)
    ensures Less(xs[l], xs[k], EPSILON)
  {}

  /** Two distances that straddle the bound, the leading one in front, lead the scan astray. */
  lemma StraddleInFront(front: seq<real>, rest: seq<real>, maxDouble: real, a: real, b: real, leads: real, other: real)
    requires front == (if leads == maxDouble then [other] else [leads, other])
    requires (leads == a && other == b && a <= b + EPSILON) || (leads == b && other == a && a < b + EPSILON)
    requires CanLead(front + rest, maxDouble, leads) && forall d :: d in front + rest ==> d <= maxDouble
    requires b < Least(front + rest) + EPSILON <= a
    ensures !NearShare(front + rest, maxDouble)
  {
    var ds := front + rest;
    var xs, least := Levels(ds, maxDouble), Least(ds);
    var k: nat := if leads == maxDouble then 0 else 1;
    hide Least, Nearest;
    assert xs[k] == leads && xs[k + 1] == other && xs[0] == maxDouble;
    assert IsLeader(xs, 0) && IsLeader(xs, k) && !IsLeader(xs, k + 1);
    var l := ScanFindsLastLeader(ds, maxDouble);
    LeastAndLeader(ds, maxDouble, l);
    assert xs[k + 1] == ds[k];
    assert other in ds;
    hide IsLeader;
    if l > k + 1 { LeaderBelow(xs, k, l); }
    assert l >= k;
    assert Astray(xs, l, least);
    AstrayFails(ds, maxDouble, l);
  }

  lemma SameMembers(ds: seq<real>, es: seq<real>)
    requires multiset(ds) == multiset(es)
    ensures forall d :: d in ds <==> d in es
  {
    assert forall d :: d in ds <==> d in multiset(ds);
    assert forall d :: d in es <==> d in multiset(es);
  }

  lemma SameLeast(ds: seq<real>, es: seq<real>)
    requires ds != [] && es != [] && forall d :: d in ds <==> d in es
    ensures Least(ds) == Least(es)
  {
    var a, b := Least(ds), Least(es);
    hide Least;
    assert a in ds && b in es;
  }

  lemma SameStraddle(ds: seq<real>, es: seq<real>, maxDouble: real, a: real, b: real)
    requires ds != [] && es != [] && multiset(ds) == multiset(es) && Straddle(ds, maxDouble, a, b)
    ensures Straddle(es, maxDouble, a, b)
  {
    SameMembers(ds, es);
    SameLeast(ds, es);
    hide Least;
  }

  lemma StraddleBreaksAnOrder(ds: seq<real>, maxDouble: real, a: real, b: real) returns (es: seq<real>)
    requires ds != [] && (forall d :: d in ds ==> d <= maxDouble) && Straddle(ds, maxDouble, a, b)
    ensures es != [] && multiset(es) == multiset(ds) && !NearShare(es, maxDouble)
  {
    var leads, other := b, a;
    if CanLead(ds, maxDouble, a) && b in ds && a <= b + EPSILON { leads, other := a, b; }
    var front, rest := [other], [];
    if leads == maxDouble {
      rest := TakeOut(ds, other);
    } else {
      rest := TwoInFront(ds, leads, other);
      front := [leads, other];
    }
    es := front + rest;
    hide Least, NearShare;
    SameMembers(ds, es);
    SameLeast(ds, es);
    StraddleInFront(front, rest, maxDouble, a, b, leads, other);
  }

  /** In whatever order the players come, those within epsilon of the least distance share and nobody else,
      exactly when no two distances straddle the bound. */
  lemma NearShareInEveryOrder(distances: seq<real>, maxDouble: real)
    requires distances != [] && forall d :: d in distances ==> d <= maxDouble
    ensures (forall es: seq<real> :: es != [] && multiset(es) == multiset(distances) ==> NearShare(es, maxDouble))
            <==> !exists a, b :: Straddle(distances, maxDouble, a, b)
  {
    hide NearShare, Straddle;
    if a, b :| Straddle(distances, maxDouble, a, b) {
      var es := StraddleBreaksAnOrder(distances, maxDouble, a, b);
    }
    if es: seq<real> :| es != [] && multiset(es) == multiset(distances) && !NearShare(es, maxDouble) {
      SameMembers(distances, es);
      NearShareExactlyWhen(es, maxDouble);
      var l: nat :| Astray(Levels(es, maxDouble), l, Least(es));
      var a, b := AstrayStraddles(es, maxDouble, l);
      SameStraddle(es, distances, maxDouble, a, b);
    }
  }

  /** With every distance clearly below the initial value: exactly when no two distances that are at most epsilon
      apart lie on different sides of the bound. */
  lemma NearShareSimply(distances: seq<real>, maxDouble: real)
    requires distances != [] && forall d :: d in distances ==> d < maxDouble - EPSILON
    ensures (forall es: seq<real> :: es != [] && multiset(es) == multiset(distances) ==> NearShare(es, maxDouble))
            <==> !exists a, b :: a in distances && b in distances && b < Least(distances) + EPSILON <= a <= b + EPSILON
  {
    hide NearShare, Least;
    NearShareInEveryOrder(distances, maxDouble);
    if a, b :| a in distances && b in distances && b < Least(distances) + EPSILON <= a <= b + EPSILON {
      assert Straddle(distances, maxDouble, a, b);
    }
  }

  /** The nearest player can get nothing: the one before it is farther by no more than the scan tells apart. */
  lemma NearestUnpaid(maxDouble: real)
    requires maxDouble >= 2000.0
    ensures var ds := [1.0, 0.999999];
            Nearest(ds, maxDouble) == Scan(1.0, [0]) && Least(ds) == ds[1]
            && RecordedCloseShare(ds, maxDouble) && !NearShare(ds, maxDouble)
  {
    var ds := [1.0, 0.999999];
    assert ds[..1] == [1.0] && ds[..1][..0] == [];
    assert Nearest([1.0], maxDouble) == Scan(1.0, [0]);
  }

  // ---------------------------------------------------------------- paying

  function Distances(sqrt: real -> real, center: Vector, ps: seq<Player>): (ds: seq<real>)
    ensures |ds| == |ps| && forall k :: 0 <= k < |ps| ==> ds[k] == Distance(sqrt, center, ps[k].center)
  {
    seq(|ps|, k requires 0 <= k < |ps| => Distance(sqrt, center, ps[k].center))
  }

  /** Only scores differ. */
  ghost predicate SameMotion(ps: seq<Player>, qs: seq<Player>) {
    |ps| == |qs| && forall k :: 0 <= k < |ps| ==> qs[k] == ps[k].(score := qs[k].score)
  }

  function AddScore(ps: seq<Player>, k: nat, amount: real): seq<Player>
    requires k < |ps|
  {
    ps[k := ps[k].(score := ps[k].score + amount)]
  }

  function AddScores(ps: seq<Player>, list: seq<nat>, amount: real): (qs: seq<Player>)
    requires forall a :: 0 <= a < |list| ==> list[a] < |ps|
    ensures |qs| == |ps|
  {
    if list == [] then ps else AddScore(AddScores(ps, list[..|list| - 1], amount), list[|list| - 1], amount)
  }

  lemma {:induction false} ScoreUpdate(ps: seq<Player>, k: nat, amount: real)
    requires k < |ps|
    ensures Scores(AddScore(ps, k, amount)) == Scores(ps) + amount
  {
    var n := |ps| - 1;
    var qs := AddScore(ps, k, amount);
    if k < n {
      ScoreUpdate(ps[..n], k, amount);
      assert qs[..n] == AddScore(ps[..n], k, amount);
    } else {
      assert qs[..n] == ps[..n];
    }
  }

  /** Each listed player gets the amount once, nobody else gets anything. */
  ghost predicate Paid(ps: seq<Player>, qs: seq<Player>, list: seq<nat>, amount: real) {
    SameMotion(ps, qs)
    && forall k :: 0 <= k < |ps| ==> qs[k].score == ps[k].score + if k in list then amount else 0.0
  }

  lemma OneMorePaid(ps: seq<Player>, qs: seq<Player>, list: seq<nat>, amount: real, last: nat)
    requires Paid(ps, qs, list, amount) && last < |ps| && last !in list
    ensures Paid(ps, AddScore(qs, last, amount), list + [last], amount)
  {}

  lemma {:induction false} ListedPaid(ps: seq<Player>, list: seq<nat>, amount: real)
    requires Increasing(list, |ps|)
    ensures Paid(ps, AddScores(ps, list, amount), list, amount)
  {
    if list != [] {
      var m := |list| - 1;
      ListedPaid(ps, list[..m], amount);
      assert list == list[..m] + [list[m]];
      assert list[m] !in list[..m];
      var qs := AddScores(ps, list[..m], amount);
      hide Paid, AddScore;
      OneMorePaid(ps, qs, list[..m], amount, list[m]);
    }
  }

  function Times(n: nat, amount: real): real { n as real * amount }

  lemma OneMoreTime(n: nat, amount: real)
    ensures Times(n + 1, amount) == Times(n, amount) + amount
  {}

  lemma {:induction false} TotalPaid(ps: seq<Player>, list: seq<nat>, amount: real)
    requires Increasing(list, |ps|)
    ensures Scores(AddScores(ps, list, amount)) == Scores(ps) + Times(|list|, amount)
  {
    if list != [] {
      var m := |list| - 1;
      TotalPaid(ps, list[..m], amount);
      var qs := AddScores(ps, list[..m], amount);
      hide Scores, AddScore, Times;
      ScoreUpdate(qs, list[m], amount);
      OneMoreTime(m, amount);
    }
  }

  /** The coin is within reach of the nearest player. */
  predicate Taken(sqrt: real -> real, ps: seq<Player>, coin: Coin, reach: real, maxDouble: real) {
    Nearest(Distances(sqrt, coin.center, ps), maxDouble).min < reach
  }

  lemma TakersLead(sqrt: real -> real, ps: seq<Player>, coin: Coin, reach: real, maxDouble: real)
    requires reach <= maxDouble && Taken(sqrt, ps, coin, reach, maxDouble)
    ensures Leads(Distances(sqrt, coin.center, ps), Nearest(Distances(sqrt, coin.center, ps), maxDouble))
  {
    NearestLeads(Distances(sqrt, coin.center, ps), maxDouble);
  }

  function Pay(sqrt: real -> real, ps: seq<Player>, coin: Coin, reach: real, maxDouble: real): (qs: seq<Player>)
    requires reach <= maxDouble
    ensures |qs| == |ps|
  {
    if Taken(sqrt, ps, coin, reach, maxDouble) then
      TakersLead(sqrt, ps, coin, reach, maxDouble);
      var list := Nearest(Distances(sqrt, coin.center, ps), maxDouble).list;
      AddScores(ps, list, coin.value / |list| as real)
    else ps
  }

  lemma ShareSum(n: real, value: real)
    requires n != 0.0
    ensures n * (value / n) == value
  {}

  /** A taken coin is shared out whole, in equal parts, among the players that lead. */
  lemma PayMeans(sqrt: real -> real, ps: seq<Player>, coin: Coin, reach: real, maxDouble: real)
    requires reach <= maxDouble
    ensures var qs := Pay(sqrt, ps, coin, reach, maxDouble);
            var distances := Distances(sqrt, coin.center, ps);
            var s := Nearest(distances, maxDouble);
            if Taken(sqrt, ps, coin, reach, maxDouble) then
              Leads(distances, s) && Paid(ps, qs, s.list, coin.value / |s.list| as real)
              && Scores(qs) == Scores(ps) + coin.value
            else qs == ps
  {
    hide Nearest, Distances, Scores, Paid, AddScores;
    if Taken(sqrt, ps, coin, reach, maxDouble) {
      TakersLead(sqrt, ps, coin, reach, maxDouble);
      var list := Nearest(Distances(sqrt, coin.center, ps), maxDouble).list;
      ListedPaid(ps, list, coin.value / |list| as real);
      TotalPaid(ps, list, coin.value / |list| as real);
      ShareSum(|list| as real, coin.value);
    }
  }

  // ---------------------------------------------------------------- all coins

  datatype Division = Division(players: seq<Player>, left: seq<Coin>)

  function Divide(sqrt: real -> real, ps: seq<Player>, cs: seq<Coin>, reach: real, maxDouble: real): (d: Division)
    requires reach <= maxDouble
    ensures |d.players| == |ps|
  {
    if cs == [] then Division(ps, []) else
      var n := |cs| - 1;
      var d := Divide(sqrt, ps, cs[..n], reach, maxDouble);
      Division(Pay(sqrt, d.players, cs[n], reach, maxDouble),
               if Taken(sqrt, d.players, cs[n], reach, maxDouble) then d.left else d.left + [cs[n]])
  }

  lemma SameMotionSameDistances(sqrt: real -> real, center: Vector, ps: seq<Player>, qs: seq<Player>)
    requires SameMotion(ps, qs)
    ensures Distances(sqrt, center, ps) == Distances(sqrt, center, qs)
  {}

  /** The coins out of reach of every player, in their order. */
  function OutOfReach(sqrt: real -> real, ps: seq<Player>, cs: seq<Coin>, reach: real, maxDouble: real): seq<Coin> {
    if cs == [] then [] else
      var n := |cs| - 1;
      OutOfReach(sqrt, ps, cs[..n], reach, maxDouble)
      + if Taken(sqrt, ps, cs[n], reach, maxDouble) then [] else [cs[n]]
  }

  /** Scores and the worth of the coins that are left add up to what they were, the coins left are
      those out of reach, and nothing but scores changes. */
  lemma {:induction false} DivisionConserves(sqrt: real -> real, ps: seq<Player>, cs: seq<Coin>, reach: real, maxDouble: real)
    requires reach <= maxDouble
    ensures var d := Divide(sqrt, ps, cs, reach, maxDouble);
            SameMotion(ps, d.players)
            && Scores(d.players) + Worth(d.left) == Scores(ps) + Worth(cs)
            && d.left == OutOfReach(sqrt, ps, cs, reach, maxDouble)
  {
    if cs != [] {
      var n := |cs| - 1;
      var d := Divide(sqrt, ps, cs[..n], reach, maxDouble);
      DivisionConserves(sqrt, ps, cs[..n], reach, maxDouble);
      SameMotionSameDistances(sqrt, cs[n].center, ps, d.players);
      PayMeans(sqrt, d.players, cs[n], reach, maxDouble);
      assert (d.left + [cs[n]])[..|d.left|] == d.left;
      hide Nearest, Leads, Distances;
    }
  }

  /** `DivideCoins`. */
  function AfterDivision(sqrt: real -> real, ps: seq<Player>, cs: seq<Coin>, maxDouble: real): (d: Division)
    requires ps != [] && cs != [] ==> ps[0].radius + cs[0].radius <= maxDouble
    ensures |d.players| == |ps|
  {
    if ps == [] || cs == [] then Division(ps, cs)
    else Divide(sqrt, ps, cs, ps[0].radius + cs[0].radius, maxDouble)
  }

  // ---------------------------------------------------------------- a player that is passed over

  lemma AxisDistances(sqrt: real -> real, x: real)
    requires IsSqrt(sqrt) && x >= 0.0
    ensures Distance(sqrt, ZERO, Vector(x, 0.0)) == Distance(sqrt, ZERO, Vector(0.0, x)) == x
    ensures Distance(sqrt, ZERO, Vector(-x, 0.0)) == x
  {
    hide IsSqrt, Square;
    var xx := x * x;
    AxisSquares(x, xx);
    RootOfSquare(sqrt, x, xx);
  }

  lemma AxisSquares(x: real, xx: real)
    requires xx == x * x
    ensures Square(Minus(ZERO, Vector(x, 0.0))) == Square(Minus(ZERO, Vector(0.0, x))) == Square(Minus(ZERO, Vector(-x, 0.0))) == xx
  {}

  function PlayerAt(id: nat, center: Vector): Player { Player(id, 0.0, center, 0.5, Vector(0.0, 0.0)) }

  /** Three players in different directions, at these distances from the middle. */
  function Around(x: real, y: real, z: real): (ps: seq<Player>)
    ensures |ps| == 3 && forall k :: 0 <= k < 3 ==> ps[k].radius == 0.5 && ps[k].score == 0.0
  {
    [PlayerAt(0, Vector(x, 0.0)), PlayerAt(1, Vector(0.0, y)), PlayerAt(2, Vector(-z, 0.0))]
  }

  const COIN := Coin(ZERO, 0.6, 1.0)

  lemma AroundDistances(sqrt: real -> real, x: real, y: real, z: real)
    requires IsSqrt(sqrt) && x >= 0.0 && y >= 0.0 && z >= 0.0
    ensures Distances(sqrt, COIN.center, Around(x, y, z)) == [x, y, z]
  {
    hide Distance, IsSqrt;
    AxisDistances(sqrt, x);
    AxisDistances(sqrt, y);
    AxisDistances(sqrt, z);
  }

  /** Three players around a coin in reach of all of them, the second of them within epsilon of the nearest:
      the third takes it all. */
  lemma PassedOver(sqrt: real -> real)
    requires IsSqrt(sqrt)
    ensures var ps := Around(1.0, 1.0 - 0.9 * EPSILON, 1.0 - 1.5 * EPSILON);
            var distances := Distances(sqrt, COIN.center, ps);
            var d := AfterDivision(sqrt, ps, [COIN], 1000.0);
            Close(distances[1], distances[2]) && distances[2] <= distances[0] && distances[2] <= distances[1]
            && d.left == [] && d.players[1].score == 0.0 && d.players[2].score == 1.0
  {
    hide IsSqrt, Nearest, Pay, Distances, Around, Scores, Divide, Leads;
    var ps := Around(1.0, 1.0 - 0.9 * EPSILON, 1.0 - 1.5 * EPSILON);
    AroundDistances(sqrt, 1.0, 1.0 - 0.9 * EPSILON, 1.0 - 1.5 * EPSILON);
    ThirdAlone();
    assert AfterDivision(sqrt, ps, [COIN], 1000.0) == Divide(sqrt, ps, [COIN], 1.1, 1000.0);
    OneCoin(sqrt, ps, COIN, 1.1, 1000.0);
    PayMeans(sqrt, ps, COIN, 1.1, 1000.0);
  }

  lemma ThirdAlone()
    ensures Nearest([1.0, 1.0 - 0.9 * EPSILON, 1.0 - 1.5 * EPSILON], 1000.0) == Scan(1.0 - 1.5 * EPSILON, [2])
  {
    var distances := [1.0, 1.0 - 0.9 * EPSILON, 1.0 - 1.5 * EPSILON];
    assert distances[..2] == [1.0, 1.0 - 0.9 * EPSILON] && distances[..2][..1] == [1.0] && distances[..2][..1][..0] == [];
    assert Nearest([], 1000.0) == Scan(1000.0, []);
    assert Nearest([1.0], 1000.0) == Scan(1.0, [0]);
    assert Nearest(distances[..2], 1000.0) == Scan(1.0, [0] + [1]);
  }

  lemma OneCoin(sqrt: real -> real, ps: seq<Player>, coin: Coin, reach: real, maxDouble: real)
    requires reach <= maxDouble
    ensures Divide(sqrt, ps, [coin], reach, maxDouble) ==
            Division(Pay(sqrt, ps, coin, reach, maxDouble),
                     if Taken(sqrt, ps, coin, reach, maxDouble) then [] else [coin])
  {
    hide Pay, Taken;
    assert [coin][..0] == [] && [] + [coin] == [coin];
    assert Divide(sqrt, ps, [], reach, maxDouble) == Division(ps, []);
  }
}
