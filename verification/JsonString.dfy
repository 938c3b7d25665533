/** String literals: quoting (json_writer.cpp:16-29, 111-172) and decoding
    (json_reader.cpp:69-103, 463-476, 646-756). */
module JsonString {
  import opened Wrappers
  import opened JsonValue

  /** The distinct errors of the reader; positions and message texts are not kept. */
  datatype ErrorKind =
    | ValueExpected
    | MemberNameExpected
    | ColonExpected
    | CommaOrBraceExpected
    | CommaOrBracketExpected
    | NotANumber
    | EmptyEscape
    | BadEscape
    | FourDigitsExpected
    | HexDigitExpected
    | SixCharactersExpected
    | SecondHalfExpected
    | RootNotContainer

  datatype Result<+T> = Ok(value: T) | Err(error: ErrorKind)

  const BACKSPACE := 8 as char
  const FORM_FEED := 12 as char

  // ---------------------------------------------------------------- UTF-8

  type CodePoint = n: nat | n <= 0x10FFFF

  predicate IsScalar(cp: nat) { cp <= 0x10FFFF && !(0xD800 <= cp <= 0xDFFF) }

  predicate IsHighSurrogate(n: nat) { 0xD800 <= n <= 0xDBFF }

  /** `codePointToUTF8`: a mask keeps the low bits, `|` joins disjoint bits, and shifting by 12
      or 18 is shifting by 6 twice or three times. */
  function CodePointToUTF8(cp: nat): string {
    var cp6 := cp / 0x40;
    var cp12 := cp6 / 0x40;
    var cp18 := cp12 / 0x40;
    if cp <= 0x7f then [Byte(cp)]
    else if cp <= 0x7ff then [Byte(0xC0 + cp6 % 0x20), Byte(0x80 + cp % 0x40)]
    else if cp <= 0xffff then [Byte(0xE0 + cp12 % 0x10), Byte(0x80 + cp6 % 0x40), Byte(0x80 + cp % 0x40)]
    else if cp <= 0x10ffff then
      [Byte(0xF0 + cp18 % 0x8), Byte(0x80 + cp12 % 0x40), Byte(0x80 + cp6 % 0x40), Byte(0x80 + cp % 0x40)]
    else ""
  }

  function Byte(n: nat): char
    requires n < 256
  {
    n as char
  }

  predicate IsTail(c: char) { 0x80 <= c as int <= 0xBF }

  /** Section 3 of RFC 3629, read backwards: the scalar value at the start of `s` and the number
      of octets it takes; overlong forms, surrogates and stray octets denote nothing. */
  function Utf8Read(s: string): Option<(nat, nat)> {
    if s == [] then None
    else if s[0] as int <= 0x7F then Some((s[0] as int, 1))
    else if 0xC0 <= s[0] as int <= 0xDF && |s| >= 2 && IsTail(s[1]) then
      Checked(Join(s[0] as int - 0xC0, s[1]), 0x80, 2)
    else if 0xE0 <= s[0] as int <= 0xEF && |s| >= 3 && IsTail(s[1]) && IsTail(s[2]) then
      Checked(Join(Join(s[0] as int - 0xE0, s[1]), s[2]), 0x800, 3)
    else if 0xF0 <= s[0] as int <= 0xF7 && |s| >= 4 && IsTail(s[1]) && IsTail(s[2]) && IsTail(s[3]) then
      Checked(Join(Join(Join(s[0] as int - 0xF0, s[1]), s[2]), s[3]), 0x10000, 4)
    else None
  }

  /** Six more bits from a tail octet. */
  function Join(bits: nat, tail: char): nat
    requires IsTail(tail)
  {
    bits * 0x40 + (tail as int - 0x80)
  }

  function Checked(cp: nat, least: nat, length: nat): Option<(nat, nat)> {
    if least <= cp && IsScalar(cp) then Some((cp, length)) else None
  }

  lemma JoinSplit(n: nat)
    ensures IsTail(Byte(0x80 + n % 0x40)) && Join(n / 0x40, Byte(0x80 + n % 0x40)) == n
  {}

  lemma Read2(a: char, b: char, t: string)
    requires 0xC0 <= a as int <= 0xDF && IsTail(b)
    ensures Utf8Read([a, b] + t) == Checked(Join(a as int - 0xC0, b), 0x80, 2)
  {
    var s := [a, b] + t;
    assert s[0] == a && s[1] == b;
  }

  lemma Read3(a: char, b: char, c: char, t: string)
    requires 0xE0 <= a as int <= 0xEF && IsTail(b) && IsTail(c)
    ensures Utf8Read([a, b, c] + t) == Checked(Join(Join(a as int - 0xE0, b), c), 0x800, 3)
  {
    var s := [a, b, c] + t;
    assert s[0] == a && s[1] == b && s[2] == c;
  }

  lemma Read4(a: char, b: char, c: char, d: char, t: string)
    requires 0xF0 <= a as int <= 0xF7 && IsTail(b) && IsTail(c) && IsTail(d)
    ensures Utf8Read([a, b, c, d] + t) == Checked(Join(Join(Join(a as int - 0xF0, b), c), d), 0x10000, 4)
  {
    var s := [a, b, c, d] + t;
    assert s[0] == a && s[1] == b && s[2] == c && s[3] == d;
  }

  lemma LeadBits(cp: nat)
    ensures cp <= 0x7ff ==> cp / 0x40 % 0x20 == cp / 0x40
    ensures cp <= 0xffff ==> cp / 0x40 / 0x40 % 0x10 == cp / 0x40 / 0x40
    ensures cp <= 0x10ffff ==> cp / 0x40 / 0x40 / 0x40 % 0x8 == cp / 0x40 / 0x40 / 0x40
  {}

  lemma Utf8ReadsBack2(cp: nat, t: string)
    requires 0x7f < cp <= 0x7ff
    ensures Utf8Read(CodePointToUTF8(cp) + t) == Some((cp, 2))
  {
    hide Utf8Read, Join;
    LeadBits(cp);
    JoinSplit(cp);
    Read2(Byte(0xC0 + cp / 0x40), Byte(0x80 + cp % 0x40), t);
  }

  lemma Utf8ReadsBack3(cp: nat, t: string)
    requires 0x7ff < cp <= 0xffff && IsScalar(cp)
    ensures Utf8Read(CodePointToUTF8(cp) + t) == Some((cp, 3))
  {
    hide Utf8Read, Join;
    LeadBits(cp);
    JoinSplit(cp);
    JoinSplit(cp / 0x40);
    Read3(Byte(0xE0 + cp / 0x40 / 0x40), Byte(0x80 + cp / 0x40 % 0x40), Byte(0x80 + cp % 0x40), t);
  }

  lemma Utf8ReadsBack4(cp: nat, t: string)
    requires 0xffff < cp <= 0x10ffff
    ensures Utf8Read(CodePointToUTF8(cp) + t) == Some((cp, 4))
  {
    hide Utf8Read, Join;
    LeadBits(cp);
    JoinSplit(cp);
    JoinSplit(cp / 0x40);
    JoinSplit(cp / 0x40 / 0x40);
    Read4(Byte(0xF0 + cp / 0x40 / 0x40 / 0x40), Byte(0x80 + cp / 0x40 / 0x40 % 0x40),
          Byte(0x80 + cp / 0x40 % 0x40), Byte(0x80 + cp % 0x40), t);
  }

  /** The encoder produces the form of RFC 3629 and nothing else, whatever follows it. */
  lemma Utf8ReadsBack(cp: nat, t: string)
    requires IsScalar(cp)
    ensures Utf8Read(CodePointToUTF8(cp) + t) == Some((cp, |CodePointToUTF8(cp)|))
  {
    if cp <= 0x7f {
      assert (CodePointToUTF8(cp) + t)[0] == cp as char;
    } else {
      hide Utf8Read;
      if cp <= 0x7ff {
        Utf8ReadsBack2(cp, t);
      } else if cp <= 0xffff {
        Utf8ReadsBack3(cp, t);
      } else {
        Utf8ReadsBack4(cp, t);
      }
    }
  }

  /** Hence the encoding is injective and no code is a prefix of another. */
  lemma Utf8PrefixFree(a: nat, b: nat)
    requires IsScalar(a) && IsScalar(b)
    requires CodePointToUTF8(a) <= CodePointToUTF8(b)
    ensures a == b
  {
    var ea, eb := CodePointToUTF8(a), CodePointToUTF8(b);
    Utf8ReadsBack(a, eb[|ea|..]);
    Utf8ReadsBack(b, []);
    assert ea + eb[|ea|..] == eb == eb + [];
  }

  // ---------------------------------------------------------------- decoding

  function HexDigitValue(c: char): Option<nat> {
    if '0' <= c <= '9' then Some(c as int - '0' as int)
    else if 'a' <= c <= 'f' then Some(c as int - 'a' as int + 10)
    else if 'A' <= c <= 'F' then Some(c as int - 'A' as int + 10)
    else None
  }

  predicate IsHex4(s: string) {
    |s| == 4 && forall k :: 0 <= k < 4 ==> HexDigitValue(s[k]).Some?
  }

  function HexValue(s: string): (n: nat)
    requires IsHex4(s)
    ensures n <= 0xFFFF
  {
    ((HexDigitValue(s[0]).value * 16 + HexDigitValue(s[1]).value) * 16 + HexDigitValue(s[2]).value) * 16
    + HexDigitValue(s[3]).value
  }

  /** `decodeUnicodeEscapeSequence` on what follows "\u". */
  function DecodeHex4(s: string): Result<nat> {
    if |s| < 4 then Err(FourDigitsExpected)
    else if !IsHex4(s[..4]) then Err(HexDigitExpected)
    else Ok(HexValue(s[..4]))
  }

  function Combine(high: nat, low: nat): nat { 0x10000 + high % 0x400 * 0x400 + low % 0x400 }

  /** `decodeUnicodeCodePoint`: the code point and the number of characters it takes. */
  function DecodeCodePoint(s: string): (r: Result<(nat, nat)>)
    ensures r.Ok? ==> 4 <= r.value.1 <= |s|
  {
    match DecodeHex4(s)
    case Err(e) => Err(e)
    case Ok(unit) =>
      if !IsHighSurrogate(unit) then Ok((unit, 4))
      else if |s| - 4 < 6 then Err(SixCharactersExpected)
      else if s[4] != '\\' || s[5] != 'u' then Err(SecondHalfExpected)
      else match DecodeHex4(s[6..])
        case Err(e) => Err(e)
        case Ok(low) => Ok((Combine(unit, low), 10))
  }

  /** The character a two-character escape stands for. */
  function Unescape(c: char): Option<char> {
    match c
    case '"' => Some('"')
    case '/' => Some('/')
    case '\\' => Some('\\')
    case 'b' => Some(BACKSPACE)
    case 'f' => Some(FORM_FEED)
    case 'n' => Some('\n')
    case 'r' => Some('\r')
    case 't' => Some('\t')
    case _ => None
  }

  function Prepend(a: string, r: Result<string>): Result<string> {
    match r case Ok(b) => Ok(a + b) case Err(e) => r
  }

  /** `decodeString` between the quotes. */
  function DecodeBody(s: string): Result<string>
    decreases |s|
  {
    if s == [] || s[0] == '"' then Ok("")
    else if s[0] != '\\' then Prepend([s[0]], DecodeBody(s[1..]))
    else if |s| == 1 then Err(EmptyEscape)
    else if s[1] == 'u' then
      match DecodeCodePoint(s[2..])
      case Err(e) => Err(e)
      case Ok(cp) => Prepend(CodePointToUTF8(cp.0), DecodeBody(s[2 + cp.1..]))
    else
      match Unescape(s[1])
      case None => Err(BadEscape)
      case Some(c) => Prepend([c], DecodeBody(s[2..]))
  }

  /** `readString` after the opening quote: characters consumed, and whether it was closed. */
  function ScanString(s: string): (r: (nat, bool))
    ensures r.0 <= |s| && (r.1 ==> r.0 > 0)
    decreases |s|
  {
    if s == [] then (0, false)
    else if s[0] == '"' then (1, true)
    else
      var step := if s[0] == '\\' && |s| > 1 then 2 else 1;
      var r := ScanString(s[step..]);
      (step + r.0, r.1)
  }

  // ---------------------------------------------------------------- the grammar of section 2.5 of RFC 4627

  datatype Item = Plain(c: char) | Escape(c: char) | Unit(hex: string)

  predicate ValidItem(i: Item) {
    match i
    case Plain(c) => c != '"' && c != '\\'
    case Escape(c) => Unescape(c).Some?
    case Unit(hex) => IsHex4(hex)
  }

  predicate ValidItems(items: seq<Item>) { forall k :: 0 <= k < |items| ==> ValidItem(items[k]) }

  function ItemText(i: Item): string {
    match i
    case Plain(c) => [c]
    case Escape(c) => ['\\', c]
    case Unit(hex) => ['\\', 'u'] + hex
  }

  function ItemsText(items: seq<Item>): string {
    if items == [] then [] else ItemText(items[0]) + ItemsText(items[1..])
  }

  function Literal(items: seq<Item>): string { "\"" + ItemsText(items) + "\"" }

  predicate OpensPair(i: Item)
    requires ValidItem(i)
  {
    i.Unit? && IsHighSurrogate(HexValue(i.hex))
  }

  /** Every escaped high surrogate is completed by another escaped unit. */
  predicate Paired(items: seq<Item>)
    requires ValidItems(items)
  {
    if items == [] then true
    else if OpensPair(items[0]) then |items| > 1 && items[1].Unit? && Paired(items[2..])
    else Paired(items[1..])
  }

  /** The bytes a literal denotes: escapes resolved, code points in UTF-8. */
  function ItemsValue(items: seq<Item>): string
    requires ValidItems(items) && Paired(items)
  {
    if items == [] then ""
    else match items[0]
      case Plain(c) => [c] + ItemsValue(items[1..])
      case Escape(c) => [Unescape(c).value] + ItemsValue(items[1..])
      case Unit(h) =>
        if OpensPair(items[0]) then
          CodePointToUTF8(Combine(HexValue(h), HexValue(items[1].hex))) + ItemsValue(items[2..])
        else CodePointToUTF8(HexValue(h)) + ItemsValue(items[1..])
  }

  lemma ScanPlain(c: char, rest: string)
    requires c != '"' && c != '\\'
    ensures ScanString([c] + rest) == (1 + ScanString(rest).0, ScanString(rest).1)
  {
    assert ([c] + rest)[1..] == rest;
  }

  lemma ScanEscaped(c: char, rest: string)
    ensures ScanString(['\\', c] + rest) == (2 + ScanString(rest).0, ScanString(rest).1)
  {
    assert (['\\', c] + rest)[2..] == rest;
  }

  lemma ScanHex(h: string, rest: string)
    requires IsHex4(h)
    ensures ScanString(h + rest) == (4 + ScanString(rest).0, ScanString(rest).1)
  {
    assert h + rest == [h[0]] + ([h[1]] + ([h[2]] + ([h[3]] + rest)));
    forall k | 0 <= k < 4 ensures h[k] != '"' && h[k] != '\\' { assert HexDigitValue(h[k]).Some?; }
    ScanPlain(h[3], rest);
    ScanPlain(h[2], [h[3]] + rest);
    ScanPlain(h[1], [h[2]] + ([h[3]] + rest));
    ScanPlain(h[0], [h[1]] + ([h[2]] + ([h[3]] + rest)));
  }

  lemma ScanUnit(h: string, rest: string)
    requires IsHex4(h)
    ensures ScanString(['\\', 'u'] + h + rest) == (6 + ScanString(rest).0, ScanString(rest).1)
  {
    ScanHex(h, rest);
    ScanEscaped('u', h + rest);
    assert ['\\', 'u'] + h + rest == ['\\', 'u'] + (h + rest);
  }

  lemma ScanItem(i: Item, rest: string)
    requires ValidItem(i)
    ensures ScanString(ItemText(i) + rest) == (|ItemText(i)| + ScanString(rest).0, ScanString(rest).1)
  {
    match i
    case Plain(c) => ScanPlain(c, rest);
    case Escape(c) => ScanEscaped(c, rest);
    case Unit(h) => ScanUnit(h, rest);
  }

  /** The scanner runs to the closing quote and no further. */
  lemma {:induction false} ScanLiteral(items: seq<Item>, t: string)
    requires ValidItems(items)
    ensures ScanString(ItemsText(items) + ("\"" + t)) == (|ItemsText(items)| + 1, true)
  {
    if items == [] {
      assert ItemsText(items) + ("\"" + t) == "\"" + t;
    } else {
      ScanLiteral(items[1..], t);
      ScanItem(items[0], ItemsText(items[1..]) + ("\"" + t));
      assert ItemsText(items) + ("\"" + t) == ItemText(items[0]) + (ItemsText(items[1..]) + ("\"" + t));
    }
  }

  lemma DecodeHex4Of(h: string, t: string)
    requires IsHex4(h)
    ensures DecodeHex4(h + t) == Ok(HexValue(h))
  {
    assert (h + t)[..4] == h;
  }

  lemma DecodePlain(c: char, rest: string)
    requires c != '"' && c != '\\'
    ensures DecodeBody([c] + rest) == Prepend([c], DecodeBody(rest))
  {
    assert ([c] + rest)[1..] == rest;
  }

  lemma DecodeEscape(c: char, rest: string)
    requires Unescape(c).Some?
    ensures DecodeBody(['\\', c] + rest) == Prepend([Unescape(c).value], DecodeBody(rest))
  {
    assert (['\\', c] + rest)[2..] == rest;
  }

  lemma DecodeUnit(h: string, rest: string)
    requires IsHex4(h) && !IsHighSurrogate(HexValue(h))
    ensures DecodeBody(['\\', 'u'] + h + rest) == Prepend(CodePointToUTF8(HexValue(h)), DecodeBody(rest))
  {
    var s := ['\\', 'u'] + h + rest;
    assert s[2..] == h + rest && s[6..] == rest;
    DecodeHex4Of(h, rest);
  }

  lemma DecodeCodePointOfPair(h: string, low: string, rest: string)
    requires IsHex4(h) && IsHighSurrogate(HexValue(h)) && IsHex4(low)
    ensures DecodeCodePoint(h + (['\\', 'u'] + low + rest)) == Ok((Combine(HexValue(h), HexValue(low)), 10))
  {
    var s := h + (['\\', 'u'] + low + rest);
    DecodeHex4Of(h, ['\\', 'u'] + low + rest);
    assert s[4] == '\\' && s[5] == 'u' && s[6..] == low + rest;
    DecodeHex4Of(low, rest);
  }

  lemma DecodePair(h: string, low: string, rest: string)
    requires IsHex4(h) && IsHighSurrogate(HexValue(h)) && IsHex4(low)
    ensures DecodeBody(['\\', 'u'] + h + (['\\', 'u'] + low + rest))
            == Prepend(CodePointToUTF8(Combine(HexValue(h), HexValue(low))), DecodeBody(rest))
  {
    var s := ['\\', 'u'] + h + (['\\', 'u'] + low + rest);
    assert s[2..] == h + (['\\', 'u'] + low + rest) && s[12..] == rest;
    DecodeCodePointOfPair(h, low, rest);
  }

  lemma HexLength(h: string)
    requires IsHex4(h)
    ensures |h| == 4
  {}

  /** After an escaped high surrogate nothing but a second escaped unit is accepted. */
  lemma DecodeUnpaired(h: string, next: seq<Item>)
    requires IsHex4(h) && IsHighSurrogate(HexValue(h))
    requires ValidItems(next) && (next == [] || !next[0].Unit?)
    ensures DecodeBody(['\\', 'u'] + h + ItemsText(next)).Err?
  {
    hide HexValue, IsHex4, DecodeHex4;
    var rest := ItemsText(next);
    var s := ['\\', 'u'] + h + rest;
    assert |h| == 4 by { HexLength(h); }
    assert s[2..] == h + rest;
    DecodeHex4Of(h, rest);
    if |rest| >= 6 {
      assert (h + rest)[4] == rest[0] && (h + rest)[5] == rest[1];
      assert next[0].Plain? || next[0].Escape?;
    }
  }

  /** A literal is decoded to what it denotes; it is refused exactly when an escaped high
      surrogate is left without a second escaped unit. */
  lemma {:induction false} DecodeLiteral(items: seq<Item>)
    requires ValidItems(items)
    ensures DecodeBody(ItemsText(items)).Ok? <==> Paired(items)
    ensures Paired(items) ==> DecodeBody(ItemsText(items)) == Ok(ItemsValue(items))
    decreases |items|
  {
    if items != [] {
      var rest := items[1..];
      match items[0]
      case Plain(c) =>
        DecodePlain(c, ItemsText(rest));
        DecodeLiteral(rest);
      case Escape(c) =>
        DecodeEscape(c, ItemsText(rest));
        DecodeLiteral(rest);
      case Unit(h) =>
        if !OpensPair(items[0]) {
          DecodeUnit(h, ItemsText(rest));
          DecodeLiteral(rest);
        } else if rest != [] && rest[0].Unit? {
          DecodePair(h, rest[0].hex, ItemsText(rest[1..]));
          assert rest[1..] == items[2..];
          DecodeLiteral(items[2..]);
        } else {
          DecodeUnpaired(h, rest);
        }
    }
  }

  // ---------------------------------------------------------------- quoting

  predicate IsControl(c: char) { 0 < c as int <= 0x1F }

  function HexChar(n: nat): char
    requires n < 16
  {
    if n < 10 then (n + '0' as int) as char else (n - 10 + 'A' as int) as char
  }

  /** Four upper-case hexadecimal digits, as the stream manipulators print them. */
  function Hex4(n: nat): string
    requires n < 0x10000
  {
    [HexChar(n / 16 / 16 / 16), HexChar(n / 16 / 16 % 16), HexChar(n / 16 % 16), HexChar(n % 16)]
  }

  lemma HexCharValue(n: nat)
    requires n < 16
    ensures HexDigitValue(HexChar(n)) == Some(n)
  {}

  lemma Hex4Value(n: nat)
    requires n < 0x10000
    ensures IsHex4(Hex4(n)) && HexValue(Hex4(n)) == n
  {
    HexCharValue(n / 16 / 16 / 16);
    HexCharValue(n / 16 / 16 % 16);
    HexCharValue(n / 16 % 16);
    HexCharValue(n % 16);
  }

  /** One of the escapes of a scalar value. */
  function UnicodeEscape(cp: nat): seq<Item>
    requires IsScalar(cp)
  {
    if cp < 0x10000 then [Unit(Hex4(cp))]
    else [Unit(Hex4(0xD800 + (cp - 0x10000) / 0x400)), Unit(Hex4(0xDC00 + (cp - 0x10000) % 0x400))]
  }

  const HEX_DIGITS := "0123456789abcdef"

  function LowerCase(c: char): char { if 'A' <= c <= 'Z' then c - 'A' + 'a' else c }

  /** Four digits, in either case, that stand for `n` by their places in the row of digits. */
  predicate Spells(h: string, n: nat)
    requires n < 0x10000
  {
    && |h| == 4
    && LowerCase(h[0]) == HEX_DIGITS[n / 0x1000] && LowerCase(h[1]) == HEX_DIGITS[n / 0x100 % 0x10]
    && LowerCase(h[2]) == HEX_DIGITS[n / 0x10 % 0x10] && LowerCase(h[3]) == HEX_DIGITS[n % 0x10]
  }

  lemma DigitSpelling(c: char, d: nat)
    requires d < 0x10
    ensures HexDigitValue(c) == Some(d) <==> LowerCase(c) == HEX_DIGITS[d]
  {
    var digits := HEX_DIGITS;
    assert forall k :: 0 <= k < 10 ==> digits[k] == (k + '0' as int) as char;
    assert forall k :: 10 <= k < 16 ==> digits[k] == (k - 10 + 'a' as int) as char;
  }

  lemma FourDigits(a: nat, b: nat, c: nat, d: nat, n: nat)
    requires a < 0x10 && b < 0x10 && c < 0x10 && d < 0x10 && n < 0x10000
    ensures ((a * 16 + b) * 16 + c) * 16 + d == n <==>
            a == n / 0x1000 && b == n / 0x100 % 0x10 && c == n / 0x10 % 0x10 && d == n % 0x10
  {}

  /** Four characters are read as `n` exactly when they spell it. */
  lemma SpellingIsValue(h: string, n: nat)
    requires n < 0x10000
    ensures Spells(h, n) <==> IsHex4(h) && HexValue(h) == n
  {
    hide HexDigitValue, LowerCase;
    var a, b, c, d := n / 0x1000, n / 0x100 % 0x10, n / 0x10 % 0x10, n % 0x10;
    if |h| == 4 {
      DigitSpelling(h[0], a);
      DigitSpelling(h[1], b);
      DigitSpelling(h[2], c);
      DigitSpelling(h[3], d);
      if IsHex4(h) {
        DigitBound(h[0]);
        DigitBound(h[1]);
        DigitBound(h[2]);
        DigitBound(h[3]);
        FourDigits(HexDigitValue(h[0]).value, HexDigitValue(h[1]).value, HexDigitValue(h[2]).value,
                   HexDigitValue(h[3]).value, n);
      }
    }
  }

  lemma DigitBound(c: char)
    ensures HexDigitValue(c).Some? ==> HexDigitValue(c).value < 0x10
  {}

  /** `decodeUnicodeEscapeSequence` gives `n` exactly for the spellings of `n`. */
  lemma EscapeSequenceSpells(s: string, n: nat)
    requires n < 0x10000
    ensures DecodeHex4(s) == Ok(n) <==> |s| >= 4 && Spells(s[..4], n)
  {
    hide IsHex4, HexValue, Spells;
    if |s| >= 4 { SpellingIsValue(s[..4], n); }
  }

  /** One unit, or the surrogate pair of section 2.1 of RFC 2781, in any spelling. */
  predicate EscapesScalar(items: seq<Item>, cp: nat)
    requires IsScalar(cp)
  {
    if cp < 0x10000 then |items| == 1 && items[0].Unit? && Spells(items[0].hex, cp)
    else
      |items| == 2 && items[0].Unit? && items[1].Unit?
      && Spells(items[0].hex, 0xD800 + (cp - 0x10000) / 0x400) && Spells(items[1].hex, 0xDC00 + (cp - 0x10000) % 0x400)
  }

  /** Every scalar value escaped, in any spelling, is decoded to its UTF-8 form. */
  lemma UnicodeEscapeDecodes(items: seq<Item>, cp: nat)
    requires IsScalar(cp) && EscapesScalar(items, cp)
    ensures DecodeBody(ItemsText(items)) == Ok(CodePointToUTF8(cp))
  {
    hide CodePointToUTF8, HexValue, IsHex4, Spells, DecodeBody;
    if cp < 0x10000 {
      SpellingIsValue(items[0].hex, cp);
      assert items[1..] == [];
    } else {
      var high, low := 0xD800 + (cp - 0x10000) / 0x400, 0xDC00 + (cp - 0x10000) % 0x400;
      SpellingIsValue(items[0].hex, high);
      SpellingIsValue(items[1].hex, low);
      assert items[2..] == [];
      assert Combine(high, low) == cp;
    }
    DecodeLiteral(items);
    assert ItemsValue(items) == CodePointToUTF8(cp) + "" == CodePointToUTF8(cp);
  }

  /** Every scalar value has such an escape. */
  lemma EscapeExists(cp: nat)
    requires IsScalar(cp)
    ensures EscapesScalar(UnicodeEscape(cp), cp)
  {
    hide Spells, Hex4;
    if cp < 0x10000 {
      WrittenUnit(cp);
    } else {
      WrittenUnit(0xD800 + (cp - 0x10000) / 0x400);
      WrittenUnit(0xDC00 + (cp - 0x10000) % 0x400);
    }
  }

  // ---------------------------------------------------------------- the table of section 2.5 of RFC 4627

  /** The code of the character after the backslash, and of the character meant. */
  const ESCAPES: set<(int, int)> :=
    {(0x22, 0x22), (0x5C, 0x5C), (0x2F, 0x2F), (0x62, 0x8), (0x66, 0xC), (0x6E, 0xA), (0x72, 0xD), (0x74, 0x9)}

  predicate InTable(escape: int, meant: int) { (escape, meant) in ESCAPES }

  /** A backslash and a character other than 'u' decode as the table says, and no others do. */
  lemma EscapesAreTheTable(c: char, text: string)
    requires c != 'u'
    ensures DecodeBody(['\\', c]) == Ok(text) <==> |text| == 1 && InTable(c as int, text[0] as int)
  {
    var s := ['\\', c];
    assert s[2..] == "";
    assert c == c as int as char;
    if Unescape(c).Some? { assert [Unescape(c).value] + "" == [Unescape(c).value]; }
    if |text| == 1 { assert text == [text[0]] && text[0] == text[0] as int as char; }
    EscapeTable(c);
  }

  lemma EscapeTable(c: char)
    ensures forall d: char :: Unescape(c) == Some(d) <==> InTable(c as int, d as int)
  {
    forall d: char ensures Unescape(c) == Some(d) <==> InTable(c as int, d as int) {
      assert d == d as int as char && c == c as int as char;
    }
  }

  /** The writer takes the short form wherever the table has one, except for the slash, and four digits for the
      other control characters; everything else it copies. */
  lemma WrittenEscapes(c: char)
    ensures match QuoteItem(c)
            case Escape(e) => InTable(e as int, c as int) && c as int != 0x2F
            case Unit(h) => 0 < c as int < 0x20 && c as int !in {0x8, 0x9, 0xA, 0xC, 0xD} && Spells(h, c as int)
            case Plain(d) => d == c && (c as int == 0 || c as int >= 0x20) && c as int != 0x22 && c as int != 0x5C
  {
    if QuoteItem(c).Unit? {
      assert QuoteItem(c) == Unit(Hex4(c as int));
      WrittenUnit(c as int);
      hide Hex4, Spells;
    } else {
      assert c == c as int as char;
      hide Hex4, Spells, HexValue, IsHex4;
    }
  }

  lemma WrittenUnit(n: nat)
    requires n < 0x10000
    ensures Spells(Hex4(n), n)
  {
    hide Hex4, Spells, HexValue, IsHex4;
    Hex4Value(n);
    SpellingIsValue(Hex4(n), n);
  }

  /** What `valueToQuotedString` writes for one character. */
  function QuoteItem(c: char): Item {
    match c
    case '"' => Escape('"')
    case '\\' => Escape('\\')
    case '\n' => Escape('n')
    case '\r' => Escape('r')
    case '\t' => Escape('t')
    case _ =>
      if c == BACKSPACE then Escape('b')
      else if c == FORM_FEED then Escape('f')
      else if IsControl(c) then Unit(Hex4(c as int))
      else Plain(c)
  }

  function QuoteItems(s: string): seq<Item> { seq(|s|, k requires 0 <= k < |s| => QuoteItem(s[k])) }

  /** The text `valueToQuotedString` produces. */
  function Quote(s: string): string { Literal(QuoteItems(s)) }

  lemma QuoteItemValid(c: char)
    ensures ValidItem(QuoteItem(c)) && !OpensPair(QuoteItem(c))
    ensures ItemsValueOf(QuoteItem(c)) == [c]
  {
    if IsControl(c) { Hex4Value(c as int); }
  }

  /** The bytes one item denotes when it opens no pair. */
  function ItemsValueOf(i: Item): string
    requires ValidItem(i)
  {
    match i
    case Plain(c) => [c]
    case Escape(c) => [Unescape(c).value]
    case Unit(h) => CodePointToUTF8(HexValue(h))
  }

  /** Quoting keeps every string: its literal denotes it. */
  lemma {:induction false} QuoteDenotes(s: string)
    ensures ValidItems(QuoteItems(s)) && Paired(QuoteItems(s)) && ItemsValue(QuoteItems(s)) == s
  {
    if s != [] {
      QuoteItemValid(s[0]);
      QuoteDenotes(s[1..]);
      assert QuoteItems(s)[1..] == QuoteItems(s[1..]);
      assert QuoteItems(s) == [QuoteItem(s[0])] + QuoteItems(s[1..]);
    }
  }

  /** Reading back: scanning the quoted text stops at its closing quote, whatever follows, and
      decoding what lies between the quotes gives the string again. */
  lemma QuoteReadsBack(s: string, t: string)
    ensures ScanString(Quote(s)[1..] + t) == (|Quote(s)| - 1, true)
    ensures DecodeBody(Quote(s)[1..|Quote(s)| - 1]) == Ok(s)
  {
    hide ScanString, DecodeBody, QuoteItems, Paired, ItemsValue;
    var items := QuoteItems(s);
    QuoteDenotes(s);
    ScanLiteral(items, t);
    assert Quote(s)[1..] + t == ItemsText(items) + ("\"" + t);
    DecodeLiteral(items);
    assert Quote(s)[1..|Quote(s)| - 1] == ItemsText(items);
  }

  /** `strpbrk` finds one of the characters with an escape of their own. */
  predicate HasOwnEscape(c: char) { QuoteItem(c).Escape? }

  lemma {:induction false} ItemsTextSnoc(items: seq<Item>, i: Item)
    ensures ItemsText(items + [i]) == ItemsText(items) + ItemText(i)
  {
    hide ItemText;
    if items == [] {
      assert items + [i] == [i] && [i][1..] == [];
    } else {
      ItemsTextSnoc(items[1..], i);
      assert (items + [i])[1..] == items[1..] + [i];
    }
  }

  lemma {:induction false} PlainItemsText(s: string)
    requires forall k :: 0 <= k < |s| ==> QuoteItem(s[k]) == Plain(s[k])
    ensures ItemsText(QuoteItems(s)) == s
  {
    if s != [] {
      PlainItemsText(s[1..]);
      assert QuoteItems(s)[1..] == QuoteItems(s[1..]);
    }
  }

  /** `valueToQuotedString`: text without special characters takes a short cut. */
  method ValueToQuotedString(value: string) returns (result: string)
    requires NulFree(value)
    ensures result == Quote(value)
  {
    hide ItemsText, Hex4;
    var special := false;
    var c := 0;
    while c < |value| && !special
      invariant 0 <= c <= |value|
      invariant special <==> exists k :: 0 <= k < c && (HasOwnEscape(value[k]) || IsControl(value[k]))
    {
      special := HasOwnEscape(value[c]) || IsControl(value[c]);
      c := c + 1;
    }
    if !special {
      PlainItemsText(value);
      return "\"" + value + "\"";
    }
    result := "\"";
    c := 0;
    PlainItemsText("");
    assert value[..0] == "";
    while c < |value|
      invariant 0 <= c <= |value|
      invariant result == "\"" + ItemsText(QuoteItems(value[..c]))
    {
      assert QuoteItems(value[..c + 1]) == QuoteItems(value[..c]) + [QuoteItem(value[c])];
      ItemsTextSnoc(QuoteItems(value[..c]), QuoteItem(value[c]));
      match value[c] {
        case '"' => result := result + "\\\"";
        case '\\' => result := result + "\\\\";
        case '\n' => result := result + "\\n";
        case '\r' => result := result + "\\r";
        case '\t' => result := result + "\\t";
        case _ =>
          if value[c] == BACKSPACE { result := result + "\\b"; }
          else if value[c] == FORM_FEED { result := result + "\\f"; }
          else if IsControl(value[c]) { result := result + ("\\u" + Hex4(value[c] as int)); }
          else { result := result + [value[c]]; }
      }
      c := c + 1;
    }
    assert value[..c] == value;
    result := result + "\"";
  }
}
