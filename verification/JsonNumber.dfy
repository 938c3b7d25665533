/** Numbers as text: printing (json_writer.cpp:30-64) and decoding (json_reader.cpp:581-643). */
module JsonNumber {
  import opened Wrappers
  import opened JsonValue

  predicate IsDigit(c: char) { '0' <= c <= '9' }

  predicate AllDigits(s: string) { forall k :: 0 <= k < |s| ==> IsDigit(s[k]) }

  /** The characters `readNumber` keeps in a number token. */
  predicate IsNumberChar(c: char) { IsDigit(c) || c == '.' || IsExponentMark(c) || IsSign(c) }

  predicate IsExponentMark(c: char) { c == 'e' || c == 'E' }

  predicate IsSign(c: char) { c == '+' || c == '-' }

  predicate AllNumberChars(s: string) { forall k :: 0 <= k < |s| ==> IsNumberChar(s[k]) }

  function DigitValue(c: char): nat
    requires IsDigit(c)
  {
    c as int - '0' as int
  }

  /** The decimal numeral of `n`. */
  function Digits(n: nat): (r: string)
    ensures r != [] && AllDigits(r)
  {
    var last := [(n % 10 + '0' as int) as char];
    if n < 10 then last else Digits(n / 10) + last
  }

  function IntText(i: int): string {
    if i < 0 then "-" + Digits(-i) else Digits(i)
  }

  /** Horner's scheme: the number read when the digits of `s` follow a prefix worth `value`. */
  function Horner(value: nat, s: string): nat
    requires AllDigits(s)
    decreases |s|
  {
    if s == [] then value else Horner(value * 10 + DigitValue(s[0]), s[1..])
  }

  lemma {:induction false} HornerSnoc(value: nat, s: string, c: char)
    requires AllDigits(s) && IsDigit(c)
    ensures AllDigits(s + [c])
    ensures Horner(value, s + [c]) == Horner(value, s) * 10 + DigitValue(c)
    decreases |s|
  {
    if s == [] {
      assert (s + [c])[1..] == [];
    } else {
      HornerSnoc(value * 10 + DigitValue(s[0]), s[1..], c);
      assert (s + [c])[1..] == s[1..] + [c];
    }
  }

  lemma {:induction false} DigitsValue(n: nat)
    ensures Horner(0, Digits(n)) == n
  {
    var c := (n % 10 + '0' as int) as char;
    if n < 10 {
      assert Digits(n) == [] + [c];
      HornerSnoc(0, [], c);
    } else {
      DigitsValue(n / 10);
      HornerSnoc(0, Digits(n / 10), c);
    }
  }

  /** Ten buffer cells hold every 32-bit numeral. */
  lemma DigitsLength(n: nat)
    requires n <= UINT_MAX
    ensures |Digits(n)| <= 10
  {
    DigitsLengthBelow(n, 10, 10000000000);
  }

  lemma {:induction false} DigitsLengthBelow(n: nat, k: nat, bound: nat)
    requires 1 <= k && bound == Power10(k) && n < bound
    ensures |Digits(n)| <= k
  {
    if n >= 10 {
      DigitsLengthBelow(n / 10, k - 1, Power10(k - 1));
    }
  }

  function Power10(k: nat): nat {
    if k == 0 then 1 else 10 * Power10(k - 1)
  }

  const DECIMALS := "0123456789"

  lemma DivideTwice(n: nat, p: nat)
    requires p > 0
    ensures n / 10 / p == n / (10 * p)
  {
    var a, b := n / 10 / p, n / 10 % p;
    assert n / 10 == p * a + b;
    QuotientIs(n, 10 * p, a, 10 * b + n % 10);
  }

  lemma QuotientIs(n: nat, d: nat, a: nat, r: nat)
    requires n == d * a + r && r < d
    ensures n / d == a
  {
    var q := n / d;
    assert n == d * q + n % d;
    if q > a { Multiples(d, a + 1, q); }
    if q < a { Multiples(d, q + 1, a); }
  }

  lemma Multiples(d: nat, a: nat, b: nat)
    requires a <= b
    ensures d * a <= d * b
  {}

  /** The digits of a numeral, counted from its end, are the decimal digits of the number. */
  lemma {:induction false} DigitsAreDecimal(n: nat, k: nat)
    requires k < |Digits(n)|
    ensures Power10(k) > 0 && Digits(n)[|Digits(n)| - 1 - k] == DECIMALS[n / Power10(k) % 10]
    decreases k
  {
    if k == 0 {
      Decimal(n % 10);
      assert n / 1 == n;
    } else {
      DigitsAreDecimal(n / 10, k - 1);
      var p := Power10(k - 1);
      assert Power10(k) == 10 * p;
      assert Digits(n)[|Digits(n)| - 1 - k] == Digits(n / 10)[|Digits(n / 10)| - 1 - (k - 1)];
      hide Digits, Power10;
      DivideTwice(n, p);
    }
  }

  lemma Decimal(d: nat)
    requires d < 10
    ensures DECIMALS[d] == (d + '0' as int) as char
  {}

  /** A numeral has no leading zero, except the one of zero itself. */
  lemma {:induction false} DigitsBegin(n: nat)
    ensures Digits(n)[0] == '0' ==> n == 0
    ensures n == 0 ==> Digits(n) == "0"
  {
    if n >= 10 { DigitsBegin(n / 10); }
  }

  // ---------------------------------------------------------------- printing

  /** `uintToString`: writes the numeral and its terminator backwards into `buffer`,
      ending just before `current`, and returns the position of its first character. */
  method UIntToString(number: nat, buffer: array<char>, current: nat) returns (start: nat)
    requires number <= UINT_MAX && 11 <= current <= buffer.Length
    modifies buffer
    ensures start < current && buffer[start..current] == Digits(number) + "\0"
    ensures start >= current - 11
    ensures forall k :: 0 <= k < start || current <= k < buffer.Length ==> buffer[k] == old(buffer[k])
  {
    DigitsLength(number);
    ghost var text := Digits(number);
    ghost var first := current - 1 - |text|;
    var value: nat := number;
    start := current - 1;
    buffer[start] := '\0';
    start := start - 1;
    buffer[start] := (value % 10 + '0' as int) as char;
    value := value / 10;
    while value != 0
      invariant first <= start < current - 1 && buffer[current - 1] == '\0'
      invariant if value == 0 then start == first else Digits(value) == text[..start - first]
      invariant forall k :: start <= k < current - 1 ==> buffer[k] == text[k - first]
      invariant forall k :: 0 <= k < start || current <= k < buffer.Length ==> buffer[k] == old(buffer[k])
    {
      start := start - 1;
      buffer[start] := (value % 10 + '0' as int) as char;
      value := value / 10;
    }
    assert buffer[start..current] == text + "\0";
  }

  /** `valueToString(Int)`. Negating the smallest Int wraps around, and its cast to UInt is 2^31. */
  method ValueToStringInt(number: int) returns (r: string)
    requires INT_MIN <= number <= INT_MAX
    ensures r == IntText(number)
  {
    var buffer := new char[32](_ => '\0');
    var isNegative := number < 0;
    var value := if isNegative && number != INT_MIN then -number else number;
    var current := UIntToString(if value < 0 then value + 0x1_0000_0000 else value, buffer, 32);
    var magnitude := buffer[current..31];
    assert magnitude == buffer[current..32][..31 - current] == Digits(if number < 0 then -number else number);
    if isNegative {
      current := current - 1;
      buffer[current] := '-';
      assert buffer[current..31] == "-" + magnitude;
    }
    r := buffer[current..31];
  }

  /** `valueToString(UInt)`. */
  method ValueToStringUInt(number: nat) returns (r: string)
    requires number <= UINT_MAX
    ensures r == Digits(number)
  {
    var buffer := new char[32](_ => '\0');
    var current := UIntToString(number, buffer, 32);
    r := buffer[current..31];
    assert r == buffer[current..32][..31 - current] == Digits(number);
  }

  // ---------------------------------------------------------------- decoding

  datatype NumScan = Exact(n: nat) | Overflow | NotDigit

  /** The digit loop of `decodeNumber`: gives up as soon as one more digit might not fit. */
  function ScanDigits(s: string, value: nat, threshold: nat): NumScan {
    if s == [] then Exact(value)
    else if !IsDigit(s[0]) then NotDigit
    else if value >= threshold then Overflow
    else ScanDigits(s[1..], value * 10 + DigitValue(s[0]), threshold)
  }

  lemma {:induction false} ScanDigitsSplit(a: string, b: string, value: nat, threshold: nat)
    ensures ScanDigits(a + b, value, threshold) ==
            match ScanDigits(a, value, threshold)
            case Exact(n) => ScanDigits(b, n, threshold)
            case other => other
  {
    if a == [] {
      assert a + b == b;
    } else {
      assert (a + b)[1..] == a[1..] + b;
      if IsDigit(a[0]) && value < threshold {
        ScanDigitsSplit(a[1..], b, value * 10 + DigitValue(a[0]), threshold);
      }
    }
  }

  /** What the loop returns is the value of the digits it has read. */
  lemma {:induction false} ScanDigitsValue(s: string, value: nat, threshold: nat)
    requires AllDigits(s)
    ensures ScanDigits(s, value, threshold) in {Exact(Horner(value, s)), Overflow}
  {
    if s != [] && value < threshold {
      ScanDigitsValue(s[1..], value * 10 + DigitValue(s[0]), threshold);
    }
  }

  lemma {:induction false} ScanDigitsOfDigits(n: nat, threshold: nat)
    requires threshold > 0
    ensures ScanDigits(Digits(n), 0, threshold) == if n / 10 < threshold then Exact(n) else Overflow
  {
    var c := (n % 10 + '0' as int) as char;
    assert ScanDigits([c], n / 10, threshold) == if n / 10 < threshold then Exact(n) else Overflow by {
      assert DigitValue(c) == n % 10;
    }
    if n >= 10 {
      ScanDigitsOfDigits(n / 10, threshold);
      ScanDigitsSplit(Digits(n / 10), [c], 0, threshold);
    }
  }

  /** The parts of the longest prefix that `sscanf("%lf")` matches, and what follows it. */
  datatype DoubleParts = DoubleParts(whole: string, fraction: string, exponent: int, rest: string)

  function DigitRun(s: string): (r: string)
    ensures r <= s && AllDigits(r)
    ensures |r| < |s| ==> !IsDigit(s[|r|])
  {
    if s == [] || !IsDigit(s[0]) then [] else [s[0]] + DigitRun(s[1..])
  }

  function SignLength(s: string): (r: nat)
    ensures r <= |s| && r <= 1
  {
    if s != [] && IsSign(s[0]) then 1 else 0
  }

  /** `s` without its longest digit prefix. */
  function AfterDigits(s: string): (r: string)
    ensures s == DigitRun(s) + r
  {
    s[|DigitRun(s)|..]
  }

  /** The exponent part at the start of `s`: its value and what follows; none when malformed. */
  function ScanExponent(s: string): (r: Option<(int, string)>) {
    if s == [] || !IsExponentMark(s[0]) then Some((0, s))
    else
      var digits := s[1 + SignLength(s[1..])..];
      var e: int := Horner(0, DigitRun(digits));
      if DigitRun(digits) == [] then None
      else Some((if s[1] == '-' then -e else e, AfterDigits(digits)))
  }

  function ScanMantissa(whole: string, fraction: string, tail: string): Option<DoubleParts> {
    if whole == [] && fraction == [] then None
    else match ScanExponent(tail)
         case None => None
         case Some(e) => Some(DoubleParts(whole, fraction, e.0, e.1))
  }

  function ScanFraction(whole: string, tail: string): Option<DoubleParts> {
    if tail != [] && tail[0] == '.' then ScanMantissa(whole, DigitRun(tail[1..]), AfterDigits(tail[1..]))
    else ScanMantissa(whole, "", tail)
  }

  function ScanUnsigned(s: string): Option<DoubleParts> { ScanFraction(DigitRun(s), AfterDigits(s)) }

  function ScanParts(s: string): Option<DoubleParts> { ScanUnsigned(s[SignLength(s)..]) }

  /** `sscanf(text, "%lf")`: the literal it converts, if any. */
  function ScanDouble(s: string): Option<string> {
    match ScanParts(s)
    case Some(p) => Some(if |p.rest| <= |s| then s[..|s| - |p.rest|] else s)
    case None => None
  }

  function Scale(m: real, exponent: int): real
    decreases if exponent < 0 then -exponent else exponent
  {
    if exponent == 0 then m
    else if exponent > 0 then Scale(m * 10.0, exponent - 1)
    else Scale(m / 10.0, exponent + 1)
  }

  /** The number a decimal literal denotes. */
  function LiteralValue(s: string): real {
    match ScanParts(s)
    case None => 0.0
    case Some(p) => if s != [] && s[0] == '-' then -PartsValue(p) else PartsValue(p)
  }

  function PartsValue(p: DoubleParts): real {
    if AllDigits(p.whole) && AllDigits(p.fraction) then
      Scale(Horner(Horner(0, p.whole), p.fraction) as real, p.exponent - |p.fraction|)
    else 0.0
  }

  predicate IsDoubleMark(c: char, inside: bool) {
    c == '.' || IsExponentMark(c) || c == '+' || (c == '-' && inside)
  }

  /** `decodeNumber` sends a token to `decodeDouble` when one of these characters occurs. */
  predicate LooksDouble(s: string) {
    exists k :: 0 <= k < |s| && IsDoubleMark(s[k], k > 0)
  }

  /** The largest prefix that can still take a digit. */
  function Threshold(negative: bool): nat {
    (if negative then -INT_MIN else UINT_MAX) / 10
  }

  /** `decodeNumber` on a number token. */
  function DecodeNumber(text: string): Option<Value> {
    if LooksDouble(text) then DecodeDouble(text)
    else
      var negative := text != [] && text[0] == '-';
      match ScanDigits(if negative then text[1..] else text, 0, Threshold(negative))
      case NotDigit => None
      case Overflow => DecodeDouble(text)
      case Exact(n) =>
        Some(if negative then Int(0 - n as int) else if n <= INT_MAX then Int(n) else UInt(n))
  }

  function DecodeDouble(text: string): Option<Value> {
    match ScanDouble(text) case Some(l) => Some(Real(l)) case None => None
  }

  /** The number a numeric leaf stands for. */
  function NumericValue(v: Value): real
    requires v.Int? || v.UInt? || v.Real?
  {
    match v
    case Int(i) => i as real
    case UInt(u) => u as real
    case Real(l) => LiteralValue(l)
  }

  /** A literal `%lf` reads to its end, starting as a number token does. */
  predicate IsLiteral(s: string) {
    IsNumberToken(s) && ScanDouble(s) == Some(s)
  }

  /** What `sprintf("%#.16g")` may leave after `valueToString` has cut trailing zeros. */
  predicate IsRealText(s: string) { IsLiteral(s) && LooksDouble(s) }

  lemma {:induction false} DigitRunOf(d: string, t: string)
    requires AllDigits(d) && (t == [] || !IsDigit(t[0]))
    ensures DigitRun(d + t) == d
  {
    if d == [] {
      assert d + t == t;
    } else {
      assert (d + t)[1..] == d[1..] + t;
      DigitRunOf(d[1..], t);
    }
  }

  /** The fraction part of a literal: nothing, or '.' and digits. */
  predicate IsFraction(s: string) { s == [] || (s[0] == '.' && AllDigits(s[1..])) }

  /** The exponent part of a literal: nothing, or 'e' with an optional sign and digits. */
  predicate IsExponent(s: string) {
    s == [] || (IsExponentMark(s[0]) && s[1 + SignLength(s[1..])..] != [] && AllDigits(s[1 + SignLength(s[1..])..]))
  }

  predicate NoDigitNext(s: string) { s == [] || !IsDigit(s[0]) }

  predicate NoMarkNext(s: string) { s == [] || !IsExponentMark(s[0]) }

  /** Nothing in `rest` goes on with the exponent, nor begins one where there is none. */
  predicate EndsExponent(x: string, rest: string) { if x == [] then NoMarkNext(rest) else NoDigitNext(rest) }

  lemma ScanExponentOf(x: string, rest: string)
    requires IsExponent(x) && EndsExponent(x, rest)
    ensures ScanExponent(x).Some? && ScanExponent(x + rest) == Some((ScanExponent(x).value.0, rest))
    ensures x == [] ==> ScanExponent(x).value.0 == 0
  {
    if x == [] {
      assert x + rest == rest;
    } else {
      var d := x[1 + SignLength(x[1..])..];
      assert d + [] == d;
      DigitRunOf(d, []);
      assert (x + rest)[1..] == x[1..] + rest;
      assert (x + rest)[1 + SignLength(x[1..])..] == d + rest;
      DigitRunOf(d, rest);
    }
  }

  lemma AfterPoint(d: string, t: string)
    requires AllDigits(d) && NoDigitNext(t)
    ensures DigitRun(d + t) == d && AfterDigits(d + t) == t
  {
    DigitRunOf(d, t);
    hide DigitRun;
  }

  lemma ScanFractionOf(whole: string, f: string, more: string)
    requires IsFraction(f) && NoDigitNext(more) && (f == [] ==> more == [] || more[0] != '.')
    ensures ScanFraction(whole, f + more) == ScanMantissa(whole, if f == [] then "" else f[1..], more)
  {
    hide ScanMantissa, ScanExponent, DigitRun, AfterDigits;
    if f == [] {
      assert f + more == more;
    } else {
      assert (f + more)[1..] == f[1..] + more;
      AfterPoint(f[1..], more);
    }
  }

  lemma ScanUnsignedOf(whole: string, tail: string)
    requires AllDigits(whole) && (tail == [] || !IsDigit(tail[0]))
    ensures ScanUnsigned(whole + tail) == ScanFraction(whole, tail)
  {
    DigitRunOf(whole, tail);
  }

  /** The grammar of a number: section 2.4 of RFC 4627, with leading zeros, and with digits missing
      on one side of the '.'. */
  predicate HasParts(s: string, sign: string, whole: string, f: string, x: string) {
    && (sign == "" || sign == "-")
    && AllDigits(whole) && IsFraction(f) && IsExponent(x) && (whole != [] || |f| > 1)
    && s == sign + whole + (f + x)
  }

  ghost predicate IsNumber(s: string) { exists sign, whole, f, x :: HasParts(s, sign, whole, f, x) }

  /** `%lf` on `t` reads these parts of a number and leaves `rest`: the parts are as long as they can be, and
      an exponent mark behind the digits comes with a complete exponent. */
  predicate IsReadAs(t: string, sign: string, whole: string, f: string, x: string, rest: string) {
    && HasParts(sign + whole + (f + x), sign, whole, f, x)
    && t == sign + whole + (f + x) + rest
    && NoDigitNext(x + rest) && (f == [] ==> x + rest == [] || (x + rest)[0] != '.')
    && EndsExponent(x, rest)
  }

  /** It takes them apart exactly as they were put together. */
  lemma ScanPartsAt(t: string, sign: string, whole: string, f: string, x: string, rest: string)
    requires IsReadAs(t, sign, whole, f, x, rest)
    ensures ScanParts(t) == Some(DoubleParts(whole, if f == [] then "" else f[1..], ScanExponent(x).value.0, rest))
  {
    hide ScanFraction, ScanExponent, DigitRun, AfterDigits, IsExponent;
    assert sign + whole + (f + x) + rest == sign + (whole + (f + (x + rest)));
    AfterSign(t, sign, whole + (f + (x + rest)));
    assert f + (x + rest) == [] || !IsDigit((f + (x + rest))[0]);
    ScanUnsignedOf(whole, f + (x + rest));
    ScanFractionOf(whole, f, x + rest);
    ScanExponentOf(x, rest);
  }

  lemma ScanPartsOf(s: string, sign: string, whole: string, f: string, x: string)
    requires HasParts(s, sign, whole, f, x)
    ensures ScanParts(s) == Some(DoubleParts(whole, if f == [] then "" else f[1..], ScanExponent(x).value.0, ""))
  {
    hide ScanParts, ScanExponent;
    assert s + "" == s && x + "" == x;
    ScanPartsAt(s, sign, whole, f, x, "");
  }

  lemma AfterSign(s: string, sign: string, u: string)
    requires sign == "" || sign == "-"
    requires u != [] && !IsSign(u[0]) && s == sign + u
    ensures s[SignLength(s)..] == u
  {
    assert s[0] == if sign == "-" then '-' else u[0];
  }

  /** `m` times ten to the power `k`. */
  function TimesTen(m: real, k: int): real {
    if k >= 0 then m * Power10(k) as real
    else if Power10(-k) != 0 then m / Power10(-k) as real else 0.0
  }

  lemma {:induction false} PowerPositive(k: nat)
    ensures Power10(k) > 0
  {
    if k > 0 { PowerPositive(k - 1); }
  }

  lemma TenTimes(m: real, p: nat)
    ensures m * 10.0 * p as real == m * (10 * p) as real
    ensures p > 0 ==> m / 10.0 / p as real == m / (10 * p) as real
  {
    var q := p as real;
    assert (10 * p) as real == 10.0 * q;
    if p > 0 { QuotientOfQuotient(m, q, 10.0 * q); }
  }

  lemma QuotientOfQuotient(m: real, q: real, tq: real)
    requires q > 0.0 && tq == 10.0 * q
    ensures m / 10.0 / q == m / tq
  {
    var a, b := m / 10.0 / q, m / tq;
    assert a * q == m / 10.0;
    assert b * tq == m;
    assert b * tq == 10.0 * (b * q);
    SameFactor(a, b, q);
  }

  lemma SameFactor(a: real, b: real, q: real)
    requires q > 0.0 && a * q == b * q
    ensures a == b
  {
    if a > b { PositiveTimes(a - b, q, (a - b) * q); }
    if a < b { PositiveTimes(b - a, q, (b - a) * q); }
  }

  lemma PositiveTimes(a: real, q: real, p: real)
    requires a > 0.0 && q > 0.0 && p == a * q
    ensures p > 0.0
  {}

  lemma UpTen(m: real, k: int)
    requires k > 0
    ensures TimesTen(m, k) == TimesTen(m * 10.0, k - 1)
  {
    var p := Power10(k - 1);
    assert Power10(k) == 10 * p;
    hide Power10;
    TenTimes(m, p);
  }

  lemma DownTen(m: real, k: int)
    requires k < 0
    ensures TimesTen(m, k) == TimesTen(m / 10.0, k + 1)
  {
    var p := Power10(-k - 1);
    PowerPositive(-k - 1);
    assert Power10(-k) == 10 * p;
    assert k == -1 ==> p == 1;
    hide Power10;
    TenTimes(m, p);
    if k == -1 { assert m / 10.0 / 1.0 == m / 10.0 * 1.0; }
  }

  lemma ScaleStep(m: real, k: int)
    ensures k == 0 ==> Scale(m, k) == m
    ensures k > 0 ==> Scale(m, k) == Scale(m * 10.0, k - 1)
    ensures k < 0 ==> Scale(m, k) == Scale(m / 10.0, k + 1)
  {}

  lemma {:induction false} ScaleIsPower(m: real, k: int)
    ensures Scale(m, k) == TimesTen(m, k)
    decreases if k < 0 then -k else k
  {
    ScaleStep(m, k);
    if k == 0 {
      assert TimesTen(m, 0) == m * 1.0;
    } else {
      hide *;
      if k > 0 {
        UpTen(m, k);
        ScaleIsPower(m * 10.0, k - 1);
      } else {
        DownTen(m, k);
        ScaleIsPower(m / 10.0, k + 1);
      }
    }
  }

  /** The number that the exponent part stands for: a minus sign makes it negative. */
  ghost predicate ExponentIs(x: string, e: int) {
    (x == "" && e == 0) || exists digits: string :: IsExponentOf(x, digits, e)
  }

  predicate IsExponentOf(x: string, digits: string, e: int) {
    x != "" && IsExponentMark(x[0]) && digits != "" && AllDigits(digits)
    && (x[1..] == "-" + digits || x[1..] == "+" + digits || x[1..] == digits)
    && e == if x[1] == '-' then 0 - Horner(0, digits) else Horner(0, digits)
  }

  lemma {:induction false} HornerAppend(value: nat, a: string, b: string)
    requires AllDigits(a) && AllDigits(b)
    ensures Horner(value, a + b) == Horner(Horner(value, a), b)
    decreases |a|
  {
    if a == [] {
      assert a + b == b;
    } else {
      assert (a + b)[1..] == a[1..] + b;
      HornerAppend(value * 10 + DigitValue(a[0]), a[1..], b);
    }
  }

  lemma ExponentMeans(x: string, e: int)
    requires IsExponent(x)
    ensures ExponentIs(x, e) <==> ScanExponent(x).Some? && ScanExponent(x).value.0 == e
  {
    if x != "" {
      var d := x[1 + SignLength(x[1..])..];
      assert d + [] == d;
      DigitRunOf(d, []);
      assert x[1..] == x[1..1 + SignLength(x[1..])] + d;
      hide Horner, DigitRun;
      if digits: string :| IsExponentOf(x, digits, e) { OneExponent(x, digits); }
      if ScanExponent(x).value.0 == e { assert IsExponentOf(x, d, e); }
    }
  }

  lemma OneExponent(x: string, digits: string)
    requires x != "" && digits != "" && AllDigits(digits)
    requires x[1..] == "-" + digits || x[1..] == "+" + digits || x[1..] == digits
    ensures x[1 + SignLength(x[1..])..] == digits
  {
    var t := x[1..];
    if t == "-" + digits || t == "+" + digits {
      assert x[2..] == t[1..] == digits;
    } else {
      assert IsDigit(digits[0]);
    }
  }

  /** What a number denotes: its digits read as one numeral, times ten to the exponent less the number of digits
      behind the point, with its sign. */
  lemma LiteralMeans(s: string, sign: string, whole: string, f: string, x: string, e: int)
    requires HasParts(s, sign, whole, f, x) && ExponentIs(x, e)
    ensures var fraction := if f == "" then "" else f[1..];
            AllDigits(whole + fraction)
            && var size := TimesTen(Horner(0, whole + fraction) as real, e - |fraction|);
               LiteralValue(s) == if sign == "-" then -size else size
  {
    hide ScanParts, ScanExponent, Scale, TimesTen, Horner, ExponentIs;
    var fraction := if f == "" then "" else f[1..];
    ScanPartsOf(s, sign, whole, f, x);
    ExponentMeans(x, e);
    HornerAppend(0, whole, fraction);
    ScaleIsPower(Horner(0, whole + fraction) as real, e - |fraction|);
    assert s == sign + (whole + (f + x));
    assert s[0] == '-' <==> sign == "-";
  }

  lemma NumeralIsNotDouble(d: string)
    requires AllDigits(d)
    ensures !LooksDouble(d) && !LooksDouble("-" + d)
  {
    var n := "-" + d;
    assert forall k :: 0 < k < |n| ==> n[k] == d[k - 1];
  }

  lemma NumberCharsConcat(a: string, b: string)
    requires AllNumberChars(a) && AllNumberChars(b)
    ensures AllNumberChars(a + b)
  {}

  lemma NumberCharsOf(sign: string, whole: string, f: string, x: string)
    requires sign == "" || sign == "-"
    requires AllDigits(whole) && IsFraction(f) && IsExponent(x)
    ensures AllNumberChars(sign + whole + (f + x))
  {
    assert AllNumberChars(f) by {
      if f != [] { NumberCharsConcat([f[0]], f[1..]); assert f == [f[0]] + f[1..]; }
    }
    assert AllNumberChars(x) by {
      if x != [] {
        var n := 1 + SignLength(x[1..]);
        NumberCharsConcat(x[..n], x[n..]);
        assert x == x[..n] + x[n..];
      }
    }
    NumberCharsConcat(f, x);
    NumberCharsConcat(sign, whole);
    NumberCharsConcat(sign + whole, f + x);
  }

  lemma ScanToTheEnd(s: string)
    requires ScanParts(s).Some? && ScanParts(s).value.rest == ""
    ensures ScanDouble(s) == Some(s)
  {
    hide ScanParts;
    assert s[..|s|] == s;
  }

  /** What `readToken` takes for a number starts like this. */
  predicate IsNumberToken(t: string) {
    t != [] && (IsDigit(t[0]) || t[0] == '-') && AllNumberChars(t)
  }

  lemma StartsLikeNumber(sign: string, whole: string, tail: string)
    requires sign == "" || sign == "-"
    requires whole != [] && AllDigits(whole)
    ensures var s := sign + whole + tail; s != [] && (IsDigit(s[0]) || s[0] == '-')
  {
    assert (sign + whole + tail)[0] == if sign == "" then whole[0] else '-';
  }

  /** Every literal of section 2.4 of RFC 4627, and every text `sprintf("%#.16g")` prints for a
      finite double, is read to its end; with a fraction or an exponent it becomes a double. */
  lemma WellFormedLiteral(sign: string, whole: string, f: string, x: string)
    requires sign == "" || sign == "-"
    requires whole != [] && AllDigits(whole) && IsFraction(f) && IsExponent(x)
    ensures var s := sign + whole + (f + x);
            IsLiteral(s) && (f + x != [] ==> DecodeNumber(s) == Some(Real(s)))
  {
    hide ScanParts;
    var s := sign + whole + (f + x);
    ScanPartsOf(s, sign, whole, f, x);
    ScanToTheEnd(s);
    NumberCharsOf(sign, whole, f, x);
    StartsLikeNumber(sign, whole, f + x);
    if f + x != [] {
      assert s[|sign + whole|] == (f + x)[0];
      assert IsDoubleMark(s[|sign + whole|], true);
    }
  }

  /** A plain numeral is a literal of the same value, whatever its size. */
  lemma NumeralIsLiteral(sign: string, d: string)
    requires (sign == "" || sign == "-") && d != [] && AllDigits(d)
    ensures IsLiteral(sign + d)
    ensures LiteralValue(sign + d) == if sign == "" then Horner(0, d) as real else -(Horner(0, d) as real)
  {
    hide ScanParts, IsLiteral, IsNumberToken;
    assert sign + d + ("" + "") == sign + d;
    WellFormedLiteral(sign, d, "", "");
    ScanPartsOf(sign + d, sign, d, "", "");
    ScanExponentOf("", "");
    assert (sign + d)[0] == if sign == "" then d[0] else '-';
    hide HasParts, IsExponent, ScanExponent;
  }

  /** Its digits after the sign, when nothing in it makes the token a double. */
  lemma PlainToken(t: string)
    requires IsNumberToken(t) && !LooksDouble(t)
    ensures var d := if t[0] == '-' then t[1..] else t;
            AllDigits(d) && t == (if t[0] == '-' then "-" else "") + d && (d == [] ==> t == "-")
  {
    var negative := t[0] == '-';
    var d := if negative then t[1..] else t;
    forall k | 0 <= k < |d| ensures IsDigit(d[k]) {
      assert d[k] == t[if negative then k + 1 else k];
      assert IsNumberChar(t[if negative then k + 1 else k]);
    }
  }

  lemma MinusDecodes()
    ensures ScanDouble("-") == None && DecodeNumber("-") == Some(Int(0))
  {
    assert "-"[1..] == "";
    NumeralIsNotDouble("");
    assert "-" + "" == "-";
  }

  /** `decodeNumber` succeeds on every literal and keeps its value: an integer result is exact. */
  lemma DecodeNumberKeepsValue(text: string)
    requires IsLiteral(text)
    ensures DecodeNumber(text).Some?
    ensures var v := DecodeNumber(text).value; (v.Int? || v.UInt? || v.Real?) && NumericValue(v) == LiteralValue(text)
    ensures LooksDouble(text) ==> DecodeNumber(text) == Some(Real(text))
  {
    hide ScanParts, LiteralValue;
    if !LooksDouble(text) {
      PlainToken(text);
      MinusDecodes();
      var negative := text[0] == '-';
      var d := if negative then text[1..] else text;
      NumeralIsLiteral(if negative then "-" else "", d);
      ScanDigitsValue(d, 0, Threshold(negative));
    }
  }

  // ---------------------------------------------------------------- which tokens are accepted

  lemma ExponentSplits(tail: string) returns (x: string, rest: string)
    requires ScanExponent(tail).Some?
    ensures IsExponent(x) && EndsExponent(x, rest) && tail == x + rest && rest == ScanExponent(tail).value.1
  {
    hide DigitRun, AfterDigits;
    if tail == [] || !IsExponentMark(tail[0]) {
      x, rest := "", tail;
      assert tail == x + rest;
    } else {
      var n := 1 + SignLength(tail[1..]);
      var head, digits := tail[..n], tail[n..];
      var d := DigitRun(digits);
      x, rest := head + d, AfterDigits(digits);
      RunEnds(digits);
      ExponentOf(head, d, tail);
      assert tail == head + digits;
      hide *;
      assert head + (d + rest) == head + d + rest;
      assert EndsExponent(x, rest) by { assert x != []; EndsAfterDigits(x, rest); }
    }
  }

  lemma EndsAfterDigits(x: string, rest: string)
    requires x != [] && NoDigitNext(rest)
    ensures EndsExponent(x, rest)
  {}

  lemma ExponentOf(head: string, d: string, tail: string)
    requires tail != [] && IsExponentMark(tail[0]) && head == tail[..1 + SignLength(tail[1..])]
    requires d != [] && AllDigits(d)
    ensures head + d != [] && IsExponent(head + d)
  {
    var x, n := head + d, |head|;
    assert x[0] == tail[0];
    assert x[1..] == tail[1..n] + d;
    assert n == 1 ==> x[1..] == d;
    assert SignLength(x[1..]) == n - 1 && x[n..] == d;
  }

  lemma {:induction false} RunEnds(s: string)
    ensures NoDigitNext(AfterDigits(s))
  {
    if s != [] && IsDigit(s[0]) {
      RunEnds(s[1..]);
      assert AfterDigits(s) == AfterDigits(s[1..]);
    }
  }

  /** The fraction at the start of what follows the digits. */
  lemma FractionSplits(whole: string, tail: string) returns (f: string, more: string)
    requires ScanFraction(whole, tail).Some? && NoDigitNext(tail)
    ensures IsFraction(f) && (whole != [] || |f| > 1) && tail == f + more
    ensures NoDigitNext(more) && (f == [] ==> more == [] || more[0] != '.')
    ensures ScanExponent(more).Some? && ScanExponent(more).value.1 == ScanFraction(whole, tail).value.rest
  {
    hide DigitRun, AfterDigits, ScanExponent;
    if tail != [] && tail[0] == '.' {
      f, more := ['.'] + DigitRun(tail[1..]), AfterDigits(tail[1..]);
      RunEnds(tail[1..]);
      assert f[1..] == DigitRun(tail[1..]);
      assert tail == [tail[0]] + tail[1..] == f + more;
    } else {
      f, more := "", tail;
      assert f + more == tail;
    }
  }

  lemma UnsignedSplits(u: string) returns (f: string, x: string, rest: string)
    requires ScanUnsigned(u).Some?
    ensures var whole := DigitRun(u);
            IsFraction(f) && IsExponent(x) && (whole != [] || |f| > 1) && u == whole + (f + x) + rest
            && NoDigitNext(x + rest) && (f == [] ==> x + rest == [] || (x + rest)[0] != '.')
            && EndsExponent(x, rest) && rest == ScanUnsigned(u).value.rest
  {
    RunEnds(u);
    var whole, tail := DigitRun(u), AfterDigits(u);
    assert u == whole + tail;
    var more;
    f, more := FractionSplits(whole, tail);
    x, rest := ExponentSplits(more);
    hide DigitRun, AfterDigits, ScanFraction, ScanExponent, IsFraction, IsExponent, EndsExponent, NoDigitNext;
    Joined(whole, f, x, rest);
  }

  lemma Joined(a: string, b: string, c: string, d: string)
    ensures a + (b + (c + d)) == a + (b + c) + d
  {}

  lemma RestIsShort(s: string)
    ensures ScanParts(s).Some? ==> |ScanParts(s).value.rest| <= |s|
  {
    hide DigitRun;
  }

  /** What `%lf` reads at the start of a token has the form of a number. */
  lemma TokenSplits(t: string) returns (sign: string, whole: string, f: string, x: string, rest: string)
    requires IsNumberToken(t) && ScanParts(t).Some?
    ensures IsReadAs(t, sign, whole, f, x, rest) && rest == ScanParts(t).value.rest
  {
    hide ScanUnsigned, DigitRun, IsExponent, IsFraction, EndsExponent, NoDigitNext;
    var k := SignLength(t);
    var u := t[k..];
    sign, whole := t[..k], DigitRun(u);
    f, x, rest := UnsignedSplits(u);
    assert t == sign + u;
    assert sign == if k == 1 then [t[0]] else [];
    var n := f + x;
    hide *;
    assert sign + (whole + n + rest) == sign + whole + n + rest;
    assert IsReadAs(t, sign, whole, f, x, rest) by { Together(t, sign, whole, f, x, rest); }
  }

  lemma Together(t: string, sign: string, whole: string, f: string, x: string, rest: string)
    requires (sign == "" || sign == "-") && AllDigits(whole) && IsFraction(f) && IsExponent(x) && (whole != [] || |f| > 1)
    requires t == sign + whole + (f + x) + rest && EndsExponent(x, rest)
    requires NoDigitNext(x + rest) && (f == [] ==> x + rest == [] || (x + rest)[0] != '.')
    ensures IsReadAs(t, sign, whole, f, x, rest)
  {
    hide IsFraction, IsExponent, AllDigits, EndsExponent, NoDigitNext;
  }

  /** For a number token: exactly that. */
  lemma ReadExactlyWhen(t: string, p: string)
    requires IsNumberToken(t)
    ensures ScanDouble(t) == Some(p) <==>
            exists sign, whole, f, x, rest :: IsReadAs(t, sign, whole, f, x, rest) && p == sign + whole + (f + x)
  {
    hide ScanParts, HasParts, ScanExponent, NoDigitNext, EndsExponent;
    if ScanDouble(t) == Some(p) {
      var sign, whole, f, x, rest := TokenSplits(t);
      BeginningOf(t, sign + whole + (f + x), rest);
    }
    if sign, whole, f, x, rest :| IsReadAs(t, sign, whole, f, x, rest) && p == sign + whole + (f + x) {
      ScanPartsAt(t, sign, whole, f, x, rest);
      BeginningOf(t, p, rest);
    }
  }

  lemma BeginningOf(t: string, p: string, rest: string)
    requires t == p + rest
    ensures |rest| <= |t| && t[..|t| - |rest|] == p
  {}

  lemma LiteralSplits(t: string)
    requires IsLiteral(t)
    ensures IsNumber(t)
  {
    hide ScanParts, HasParts;
    var sign, whole, f, x, rest := TokenSplits(t);
    assert rest == "" by { BeginningOf(t, sign + whole + (f + x), rest); }
    assert t == sign + whole + (f + x);
    assert HasParts(t, sign, whole, f, x);
  }

  /** A number token is read to its end exactly when it has the form of a number. */
  lemma LiteralIsNumber(t: string)
    requires IsNumberToken(t)
    ensures IsLiteral(t) <==> IsNumber(t)
  {
    if IsLiteral(t) { LiteralSplits(t); }
    if IsNumber(t) {
      var sign, whole, f, x :| HasParts(t, sign, whole, f, x);
      ScanPartsOf(t, sign, whole, f, x);
      ScanToTheEnd(t);
    }
  }

  /** The text that an accepted value stands for. */
  function TextTaken(v: Value, t: string): string { if v.Real? then v.literal else t }

  /** A number token is accepted exactly if it is a lone '-' or begins with a number of the form of section 2.4
      of RFC 4627, but for leading zeros and a side of the '.' without digits, that is followed by no exponent
      mark without digits. The value stands for that beginning: all of the token exactly when the token has the
      form of a number or is a lone '-'; what follows is dropped without an error. */
  lemma AcceptedNumbers(t: string)
    requires IsNumberToken(t)
    ensures DecodeNumber(t).Some? <==>
            t == "-" || exists sign, whole, f, x, rest :: IsReadAs(t, sign, whole, f, x, rest)
    ensures forall sign, whole, f, x, rest :: IsReadAs(t, sign, whole, f, x, rest) ==>
              DecodeNumber(t).Some? && TextTaken(DecodeNumber(t).value, t) == sign + whole + (f + x)
    ensures DecodeNumber(t).Some? ==>
              var v := DecodeNumber(t).value;
              (TextTaken(v, t) == t <==> IsNumber(t) || t == "-")
              && (t != "-" ==> NumericValue(v) == LiteralValue(TextTaken(v, t)))
  {
    hide ScanDouble, LooksDouble, LiteralValue, IsNumber, DecodeNumber, IsReadAs, IsNumberToken;
    AcceptedBeginnings(t);
    if ScanDouble(t).Some? { ReadExactlyWhen(t, ScanDouble(t).value); }
    forall sign, whole, f, x, rest | IsReadAs(t, sign, whole, f, x, rest)
      ensures DecodeNumber(t).Some? && TextTaken(DecodeNumber(t).value, t) == sign + whole + (f + x)
    {
      ReadExactlyWhen(t, sign + whole + (f + x));
    }
  }

  lemma AcceptedBeginnings(t: string)
    requires IsNumberToken(t)
    ensures DecodeNumber(t).Some? <==> t == "-" || ScanDouble(t).Some?
    ensures ScanDouble(t).Some? ==> DecodeNumber(t).Some? && TextTaken(DecodeNumber(t).value, t) == ScanDouble(t).value
    ensures DecodeNumber(t).Some? ==>
              var v := DecodeNumber(t).value;
              (TextTaken(v, t) == t <==> IsNumber(t) || t == "-")
              && (t != "-" ==> NumericValue(v) == LiteralValue(TextTaken(v, t)))
  {
    hide ScanDouble, LooksDouble, LiteralValue, IsNumber, DecodeNumber;
    LiteralIsNumber(t);
    if t == "-" {
      MinusDecodes();
    } else if IsLiteral(t) {
      DecodeNumberKeepsValue(t);
      LiteralTaken(t);
    } else {
      if !LooksDouble(t) { PlainIsLiteral(t); }
      DoubleTaken(t);
    }
  }

  lemma PlainIsLiteral(t: string)
    requires IsNumberToken(t) && t != "-" && !LooksDouble(t)
    ensures IsLiteral(t)
  {
    hide ScanDouble;
    PlainToken(t);
    NumeralIsLiteral(if t[0] == '-' then "-" else "", if t[0] == '-' then t[1..] else t);
  }

  lemma LiteralTaken(t: string)
    requires IsLiteral(t) && DecodeNumber(t).Some?
    ensures TextTaken(DecodeNumber(t).value, t) == t
  {
    hide ScanParts, ScanDigits;
  }

  lemma DoubleTaken(t: string)
    requires LooksDouble(t)
    ensures DecodeNumber(t) == if ScanDouble(t).Some? then Some(Real(ScanDouble(t).value)) else None
    ensures ScanDouble(t).Some? ==> ScanDouble(t).value <= t
  {
    hide ScanParts;
  }

  /** Two tokens that are no numbers and are accepted nevertheless: a lone '-' as zero, and "1-2" as
      one. */
  lemma AcceptedNonNumbers()
    ensures IsNumberToken("-") && !IsNumber("-") && DecodeNumber("-") == Some(Int(0))
    ensures IsNumberToken("1-2") && !IsNumber("1-2") && DecodeNumber("1-2") == Some(Real("1"))
  {
    hide ScanDouble, LooksDouble, IsNumber, DecodeNumber;
    MinusDecodes();
    LiteralIsNumber("-");
    OneMinusTwo();
    LiteralIsNumber("1-2");
    DoubleTaken("1-2");
  }

  lemma OneMinusTwo()
    ensures LooksDouble("1-2") && ScanDouble("1-2") == Some("1")
  {
    var t := "1-2";
    assert IsDoubleMark(t[1], true);
    hide ScanDouble;
    ReadExactlyWhen(t, "1");
    assert IsReadAs(t, "", "1", "", "", "-2");
  }

  /** Which integers survive as integers, and as what; the others come back as literals. */
  function NormInt(i: int): Value {
    if i < 0 then if -i / 10 < Threshold(true) then Int(i) else Real(IntText(i))
    else if i / 10 < Threshold(false) then if i <= INT_MAX then Int(i) else UInt(i)
    else Real(IntText(i))
  }

  /** `decodeNumber` undoes `uintToString`, up to `NormInt`. */
  lemma DecodeIntText(i: int)
    ensures DecodeNumber(IntText(i)) == Some(NormInt(i))
  {
    var n := if i < 0 then -i else i;
    var d := Digits(n);
    var t := IntText(i);
    assert i < 0 ==> t[0] == '-' && t[1..] == d;
    NumeralIsNotDouble(d);
    ScanDigitsOfDigits(n, Threshold(i < 0));
    assert t == (if i < 0 then "-" else "") + d;
    NumeralIsLiteral(if i < 0 then "-" else "", d);
  }

  /** Even an integer that comes back as a literal keeps its value. */
  lemma NormIntKeepsValue(i: int)
    ensures NumericValue(NormInt(i)) == i as real && IsLiteral(IntText(i))
  {
    var n := if i < 0 then -i else i;
    assert IntText(i) == (if i < 0 then "-" else "") + Digits(n);
    NumeralIsLiteral(if i < 0 then "-" else "", Digits(n));
    DigitsValue(n);
  }
}
