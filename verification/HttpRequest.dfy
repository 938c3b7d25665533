/** Parsing the header of an HTTP request (src/web-ui-client/http.cpp). */
module HttpRequest {
  import opened Wrappers
  import opened HttpReader
  import opened Urls
  import JsonNumber

  const CRLF := "\r\n"

  datatype Header = Header(name: string, value: string)

  datatype Request = Request(verb: string, url: Url, version: string, headers: seq<Header>)

  // ---------------------------------------------------------------- lines

  predicate CrlfAt(s: string, p: nat) { p + 2 <= |s| && s[p] == '\r' && s[p + 1] == '\n' }

  predicate CrlfFree(line: string) { forall p: nat :: p < |line| ==> !CrlfAt(line, p) }

  /** `find("\r\n", from)`. */
  function FindCrlf(s: string, from: nat): (r: Option<nat>)
    requires from <= |s|
    ensures r.Some? ==> from <= r.value && CrlfAt(s, r.value) && forall p: nat :: from <= p < r.value ==> !CrlfAt(s, p)
    ensures r.None? ==> forall p: nat :: from <= p ==> !CrlfAt(s, p)
    decreases |s| - from
  {
    if |s| == from then None else if CrlfAt(s, from) then Some(from) else FindCrlf(s, from + 1)
  }

  lemma FindUnique(s: string, from: nat, e: nat)
    requires from <= e && CrlfAt(s, e) && forall p: nat :: from <= p < e ==> !CrlfAt(s, p)
    ensures FindCrlf(s, from) == Some(e)
  {}

  function Block(lines: seq<string>): string {
    if lines == [] then "" else lines[0] + CRLF + Block(lines[1..])
  }

  predicate ProperLines(lines: seq<string>) {
    lines == [] || (lines[0] != "" && CrlfFree(lines[0]) && ProperLines(lines[1..]))
  }

  /** A first line, lines that are not empty, and an empty line. */
  ghost predicate IsRequest(s: string, first: string, lines: seq<string>) {
    CrlfFree(first) && ProperLines(lines) && s == first + CRLF + Block(lines) + CRLF
  }

  /** Two line ends in a row at `q`. */
  predicate MarkAt(s: string, q: nat) { CrlfAt(s, q) && CrlfAt(s, q + 2) }

  /** `s` ends with its first empty line. */
  ghost predicate Complete(s: string) {
    |s| >= 4 && MarkAt(s, |s| - 4) && forall q: nat :: q < |s| - 4 ==> !MarkAt(s, q)
  }

  lemma MarkIsEnd(s: string, n: nat)
    requires n <= |s|
    ensures Ends(s[..n], 4) <==> n >= 4 && MarkAt(s, n - 4)
  {
    if n >= 4 {
      var t := s[..n][n - 4..];
      assert t[0] == s[n - 4] && t[1] == s[n - 3] && t[2] == s[n - 2] && t[3] == s[n - 1];
      assert END[..4] == END && |t| == 4;
      assert END[0] == '\r' && END[1] == '\n' && END[2] == '\r' && END[3] == '\n';
      assert t == END <==> MarkAt(s, n - 4);
    }
  }

  /** The reader stops exactly at a complete request. */
  lemma CompleteIsEnd(s: string)
    ensures Complete(s) <==> Ends(s, 4) && NoEndBefore(s, |s|)
  {
    hide Ends, MarkAt;
    assert s[..|s|] == s;
    MarkIsEnd(s, |s|);
    forall n: nat | n < |s| ensures Ends(s[..n], 4) <==> n >= 4 && MarkAt(s, n - 4) { MarkIsEnd(s, n); }
    if Complete(s) {
      forall n | 0 <= n < |s| ensures !Ends(s[..n], 4) {
        if n >= 4 { assert !MarkAt(s, n - 4); }
      }
    }
    if Ends(s, 4) && NoEndBefore(s, |s|) {
      forall q: nat | q < |s| - 4 ensures !MarkAt(s, q) { assert !Ends(s[..q + 4], 4); }
    }
  }

  /** Where line ends are in a text that starts with a line. */
  lemma LineEnds(line: string, rest: string, p: nat)
    requires CrlfFree(line)
    ensures CrlfAt(line + CRLF + rest, p) <==> p == |line| || (p >= |line| + 2 && CrlfAt(rest, p - |line| - 2))
  {
    var s := line + CRLF + rest;
    assert s[|line|] == '\r' && s[|line| + 1] == '\n';
    assert forall i :: 0 <= i < |line| ==> s[i] == line[i];
    assert forall i :: 0 <= i < |rest| ==> s[|line| + 2 + i] == rest[i];
    if p < |line| { assert !CrlfAt(line, p); }
  }

  lemma LineMarks(line: string, rest: string, q: nat)
    requires CrlfFree(line)
    ensures MarkAt(line + CRLF + rest, q) <==>
            (q == |line| && CrlfAt(rest, 0)) || (q >= |line| + 2 && MarkAt(rest, q - |line| - 2))
  {
    hide CrlfAt, CrlfFree;
    LineEnds(line, rest, q);
    LineEnds(line, rest, q + 2);
  }

  lemma LastLine()
    ensures CrlfAt(CRLF, 0) && forall q: nat :: !MarkAt(CRLF, q)
  {}

  lemma BlockStarts(lines: seq<string>)
    requires ProperLines(lines)
    ensures CrlfAt(Block(lines) + CRLF, 0) <==> lines == []
  {
    if lines == [] {
      assert Block(lines) + CRLF == CRLF;
    } else {
      var rest := Block(lines[1..]) + CRLF;
      assert Block(lines) + CRLF == lines[0] + CRLF + rest;
      LineEnds(lines[0], rest, 0);
    }
  }

  lemma {:induction false} BlockMarks(line: string, lines: seq<string>, q: nat)
    requires CrlfFree(line) && ProperLines(lines)
    ensures var s := line + CRLF + (Block(lines) + CRLF); MarkAt(s, q) <==> q + 4 == |s|
    decreases |lines|
  {
    hide MarkAt, CrlfAt, CrlfFree;
    var rest := Block(lines) + CRLF;
    LineMarks(line, rest, q);
    BlockStarts(lines);
    if lines == [] {
      LastLine();
      assert rest == CRLF;
    } else if q >= |line| + 2 {
      BlockMarks(lines[0], lines[1..], q - |line| - 2);
      assert rest == lines[0] + CRLF + (Block(lines[1..]) + CRLF);
    } else {
      assert |rest| >= 4;
    }
  }

  lemma Grouped(a: string, b: string, c: string, d: string)
    ensures a + b + c + d == a + b + (c + d)
  {}

  /** A request in lines is complete: no empty line comes before its end. */
  lemma LinesAreComplete(s: string, first: string, lines: seq<string>)
    requires IsRequest(s, first, lines)
    ensures Complete(s)
  {
    hide MarkAt, CrlfFree, Block, ProperLines;
    Grouped(first, CRLF, Block(lines), CRLF);
    forall q: nat ensures MarkAt(s, q) <==> q + 4 == |s| { BlockMarks(first, lines, q); }
  }

  /** From the start of a line the search finds its end, at or before the last but one line end. */
  lemma NextLine(s: string, from: nat)
    requires Complete(s) && (from == 0 || (2 <= from <= |s| - 2 && CrlfAt(s, from - 2)))
    ensures var e := FindCrlf(s, from);
            e.Some? && (if e.value == from && from > 0 then from + 2 == |s| else e.value <= |s| - 4)
  {
    assert CrlfAt(s, |s| - 4) && CrlfAt(s, |s| - 2);
    var e := FindCrlf(s, from);
    if e.Some? && e.value == from && from > 0 { assert MarkAt(s, from - 2); }
  }

  /** The lines between `from` and the empty line. */
  function LinesAt(s: string, from: nat): seq<string>
    requires from <= |s|
    decreases |s| - from
  {
    match FindCrlf(s, from)
    case None => []
    case Some(e) => if e == from then [] else [s[from..e]] + LinesAt(s, e + 2)
  }

  lemma SliceCrlfFree(s: string, from: nat, e: nat)
    requires from <= |s| && FindCrlf(s, from) == Some(e)
    ensures CrlfFree(s[from..e])
  {
    forall p: nat | p < e - from ensures !CrlfAt(s[from..e], p) { assert !CrlfAt(s, from + p); }
  }

  lemma LinesAtStep(s: string, from: nat, e: nat)
    requires from < e && from <= |s| && FindCrlf(s, from) == Some(e)
    ensures LinesAt(s, from) == [s[from..e]] + LinesAt(s, e + 2)
    ensures s[from..] == s[from..e] + CRLF + s[e + 2..]
  {}

  lemma OneLineMore(line: string, lines: seq<string>)
    requires line != "" && CrlfFree(line) && ProperLines(lines)
    ensures ProperLines([line] + lines) && Block([line] + lines) == line + CRLF + Block(lines)
  {
    assert ([line] + lines)[1..] == lines;
  }

  lemma {:induction false} LinesAtSplit(s: string, from: nat)
    requires Complete(s) && 2 <= from <= |s| - 2 && CrlfAt(s, from - 2)
    ensures ProperLines(LinesAt(s, from)) && s[from..] == Block(LinesAt(s, from)) + CRLF
    decreases |s| - from
  {
    NextLine(s, from);
    var e := FindCrlf(s, from).value;
    if e == from {
      assert s[from..] == CRLF;
    } else {
      hide Complete, CrlfFree, Block, ProperLines, LinesAt;
      SliceCrlfFree(s, from, e);
      LinesAtSplit(s, e + 2);
      LinesAtStep(s, from, e);
      OneLineMore(s[from..e], LinesAt(s, e + 2));
      Grouped(s[from..e], CRLF, Block(LinesAt(s, e + 2)), CRLF);
    }
  }

  /** Complete texts are those made of lines: where the reader stops, the parser finds its lines. */
  lemma CompleteInLines(s: string)
    ensures Complete(s) <==> exists first, lines :: IsRequest(s, first, lines)
  {
    if Complete(s) {
      NextLine(s, 0);
      var e := FindCrlf(s, 0).value;
      SliceCrlfFree(s, 0, e);
      LinesAtSplit(s, e + 2);
      var lines := LinesAt(s, e + 2);
      assert s == s[..e] + CRLF + s[e + 2..];
      Grouped(s[..e], CRLF, Block(lines), CRLF);
      assert s[0..e] == s[..e];
      assert IsRequest(s, s[..e], lines);
    }
    if exists first, lines :: IsRequest(s, first, lines) {
      var first, lines :| IsRequest(s, first, lines);
      LinesAreComplete(s, first, lines);
    }
  }

  // ---------------------------------------------------------------- one header

  function FindColon(line: string): (r: Option<nat>)
    ensures r.Some? ==> r.value < |line| && line[r.value] == ':' && forall k :: 0 <= k < r.value ==> line[k] != ':'
    ensures r.None? ==> forall k :: 0 <= k < |line| ==> line[k] != ':'
  {
    if line == "" then None
    else if line[0] == ':' then Some(0)
    else match FindColon(line[1..]) case None => None case Some(k) => Some(k + 1)
  }

  predicate IsBlank(c: char) { c == ' ' || c == '\t' }

  /** Without the blanks at both ends. */
  function Trim(s: string): string
    decreases |s|
  {
    if s == "" then ""
    else if IsBlank(s[0]) then Trim(s[1..])
    else if IsBlank(s[|s| - 1]) then Trim(s[..|s| - 1])
    else s
  }

  function ToLower(c: char): char { if 'A' <= c <= 'Z' then c - 'A' + 'a' else c }

  function NormalizeName(name: string): (r: string)
    ensures |r| == |name| && forall k :: 0 <= k < |name| ==> r[k] == ToLower(name[k])
  {
    seq(|name|, k requires 0 <= k < |name| => ToLower(name[k]))
  }

  /** A line without a colon is both the name and the value: the position after "not found" is 0. */
  function HeaderOf(line: string): Header {
    match FindColon(line)
    case None => Header(NormalizeName(line), Trim(line))
    case Some(c) => Header(NormalizeName(line[..c]), Trim(line[c + 1..]))
  }

  predicate Trimmed(s: string) { s == "" || (!IsBlank(s[0]) && !IsBlank(s[|s| - 1])) }

  lemma {:induction false} TrimIsTrimmed(s: string)
    ensures Trimmed(Trim(s)) && (Trim(s) == s <==> Trimmed(s))
    decreases |s|
  {
    if s != "" {
      if IsBlank(s[0]) {
        TrimIsTrimmed(s[1..]);
        TrimShorter(s[1..]);
      } else if IsBlank(s[|s| - 1]) {
        TrimIsTrimmed(s[..|s| - 1]);
        TrimShorter(s[..|s| - 1]);
      }
    }
  }

  lemma {:induction false} TrimShorter(s: string)
    ensures |Trim(s)| <= |s|
    decreases |s|
  {
    if s != "" {
      if IsBlank(s[0]) { TrimShorter(s[1..]); } else if IsBlank(s[|s| - 1]) { TrimShorter(s[..|s| - 1]); }
    }
  }

  /** Capital letters become small ones, and blanks and tabs are trimmed. */
  lemma LettersAndBlanks(c: char)
    ensures NormalizeName([c]) == [if 0x41 <= c as int <= 0x5A then (c as int + 0x20) as char else c]
    ensures Trim([c]) == if c as int == 0x20 || c as int == 0x9 then "" else [c]
  {
    assert c == c as int as char;
    assert [c][1..] == "";
  }

  function HeaderLine(h: Header): string { h.name + ": " + h.value }

  /** A header written as `Serialize` writes it reads back as itself exactly when its name is in lower
      case without a colon and its value neither begins nor ends with a blank. */
  lemma HeaderReadsBack(h: Header)
    ensures HeaderOf(HeaderLine(h)) == h <==>
            NormalizeName(h.name) == h.name && ':' !in h.name && Trimmed(h.value)
  {
    var line := HeaderLine(h);
    var c := FindColon(line).value;
    assert line[|h.name|] == ':';
    if ':' in h.name {
      var k :| 0 <= k < |h.name| && h.name[k] == ':';
      assert line[k] == ':';
      assert |NormalizeName(line[..c])| == c < |h.name|;
    } else {
      assert forall k :: 0 <= k < |h.name| ==> line[k] == h.name[k];
      assert c == |h.name| && line[..c] == h.name && line[c + 1..] == " " + h.value;
      assert (" " + h.value)[1..] == h.value;
      assert Trim(line[c + 1..]) == Trim(h.value);
      TrimIsTrimmed(h.value);
    }
  }

  /** A line is taken for a header of its own name and value exactly when it has no colon. */
  lemma WholeLineIsNameExactlyWhen(line: string)
    ensures |HeaderOf(line).name| == |line| <==> ':' !in line
    ensures ':' !in line ==> HeaderOf(line) == Header(NormalizeName(line), Trim(line))
  {}

  /** A line without a colon, with the text that becomes name and value. */
  lemma NoColon()
    ensures HeaderOf("Host ") == Header("host ", "Host")
  {
    WholeLineIsNameExactlyWhen("Host ");
    HostTrimmed();
    HostLowered();
    hide HeaderOf, Trim, NormalizeName, FindColon;
  }

  lemma HostTrimmed()
    ensures Trim("Host ") == "Host"
  {
    TrimLast("Host ", 0, 5);
    NothingToTrim("Host ", 0, 4);
    assert "Host "[0..5] == "Host " && "Host "[0..4] == "Host";
  }

  lemma HostLowered()
    ensures NormalizeName("Host ") == "host "
  {}

  lemma TrimFirst(line: string, i: nat, j: nat)
    requires i < j <= |line| && IsBlank(line[i])
    ensures Trim(line[i..j]) == Trim(line[i + 1..j])
  {
    assert line[i..j][1..] == line[i + 1..j];
  }

  lemma TrimLast(line: string, i: nat, j: nat)
    requires i < j <= |line| && !IsBlank(line[i]) && IsBlank(line[j - 1])
    ensures Trim(line[i..j]) == Trim(line[i..j - 1])
  {
    assert line[i..j][..j - i - 1] == line[i..j - 1];
  }

  lemma NothingToTrim(line: string, i: nat, j: nat)
    requires i <= j <= |line| && (i < j ==> !IsBlank(line[i]) && !IsBlank(line[j - 1]))
    ensures Trim(line[i..j]) == line[i..j]
  {}

  lemma ColonAt(line: string, k: nat)
    requires k <= |line| && (forall j :: 0 <= j < k ==> line[j] != ':') && (k < |line| ==> line[k] == ':')
    ensures HeaderOf(line) ==
            Header(NormalizeName(line[..k]), Trim(if k < |line| then line[k + 1..|line|] else line[0..|line|]))
  {
    if k == |line| {
      assert line[..k] == line == line[0..|line|];
    } else {
      assert line[k + 1..|line|] == line[k + 1..];
    }
  }

  method SplitHeader(line: string) returns (h: Header)
    ensures h == HeaderOf(line)
  {
    hide Trim, HeaderOf, FindColon;
    var colonPos := 0;
    while colonPos < |line| && line[colonPos] != ':'
      invariant colonPos <= |line| && forall k :: 0 <= k < colonPos ==> line[k] != ':'
    {
      colonPos := colonPos + 1;
    }
    ColonAt(line, colonPos);
    var name, valueStart := line[..colonPos], if colonPos < |line| then colonPos + 1 else 0;
    ghost var value := Trim(line[valueStart..|line|]);
    while valueStart < |line| && IsBlank(line[valueStart])
      invariant valueStart <= |line| && Trim(line[valueStart..|line|]) == value
    {
      TrimFirst(line, valueStart, |line|);
      valueStart := valueStart + 1;
    }
    var valueEnd := |line|;
    while valueEnd > valueStart && IsBlank(line[valueEnd - 1])
      invariant valueStart <= valueEnd <= |line| && Trim(line[valueStart..valueEnd]) == value
      invariant valueStart < valueEnd ==> !IsBlank(line[valueStart])
    {
      TrimLast(line, valueStart, valueEnd);
      valueEnd := valueEnd - 1;
    }
    NothingToTrim(line, valueStart, valueEnd);
    h := Header(NormalizeName(name), line[valueStart..valueEnd]);
  }

  // ---------------------------------------------------------------- the first line

  predicate SpaceFree(s: string) { forall k :: 0 <= k < |s| ==> !IsSpace(s[k]) }

  function Word(s: string): (r: string)
    ensures r <= s && SpaceFree(r)
    ensures s != "" && !IsSpace(s[0]) ==> r != ""
  {
    if s == "" || IsSpace(s[0]) then "" else [s[0]] + Word(s[1..])
  }

  /** `operator>>`: the next word, and what follows it. */
  function NextWord(s: string): (r: (string, string))
    ensures SpaceFree(r.0)
  {
    var t := SkipSpace(s);
    (Word(t), t[|Word(t)|..])
  }

  /** What follows the first '/', or all of it: the position after "not found" is 0. */
  function AfterSlash(s: string): (r: string)
    ensures SpaceFree(s) ==> SpaceFree(r)
  {
    if '/' in s then AfterFirstSlash(s) else s
  }

  function AfterFirstSlash(s: string): (r: string)
    requires '/' in s
    ensures SpaceFree(s) ==> SpaceFree(r)
  {
    if s[0] == '/' then s[1..] else AfterFirstSlash(s[1..])
  }

  /** Verb, URL and version. */
  function FirstWords(first: string): (string, string, string) {
    var verb := NextWord(first);
    var url := NextWord(verb.1);
    var version := NextWord(url.1);
    (verb.0, url.0, AfterSlash(version.0))
  }

  /** None when taking the URL apart throws. */
  function RequestOf(first: string, lines: seq<string>): Option<Request> {
    var w := FirstWords(first);
    match UrlOf(w.1)
    case None => None
    case Some(url) => Some(Request(w.0, url, w.2, Headers(lines)))
  }

  lemma {:induction false} WordOf(w: string, t: string)
    requires SpaceFree(w) && (t == "" || IsSpace(t[0]))
    ensures Word(w + t) == w
  {
    if w == "" {
      assert w + t == t;
    } else {
      assert (w + t)[1..] == w[1..] + t;
      WordOf(w[1..], t);
    }
  }

  lemma NextWordOf(w: string, t: string)
    requires SpaceFree(w) && w != "" && (t == "" || IsSpace(t[0]))
    ensures NextWord(w + t) == (w, t) && NextWord(" " + (w + t)) == (w, t)
  {
    WordOf(w, t);
    assert (w + t)[|w|..] == t;
    assert (" " + (w + t))[1..] == w + t;
  }

  lemma {:induction false} SkipSpaceFinds(s: string, k: nat)
    requires k < |s| && !IsSpace(s[k])
    ensures SkipSpace(s) != ""
    decreases |s|
  {
    if IsSpace(s[0]) { SkipSpaceFinds(s[1..], k - 1); }
  }

  /** Words are never empty before the end. */
  lemma SomeWord(s: string, k: nat)
    requires k < |s| && !IsSpace(s[k])
    ensures NextWord(s).0 != ""
  {
    SkipSpaceFinds(s, k);
  }

  function FirstLineText(verb: string, url: string, version: string): string {
    verb + (" " + (url + (" " + ("HTTP/" + version))))
  }

  lemma VersionOf(version: string)
    ensures AfterSlash("HTTP/" + version) == version
  {
    var s := "HTTP/" + version;
    assert s[4] == '/';
    assert s[1..][1..][1..][1..][1..] == version;
    assert AfterFirstSlash(s) == AfterFirstSlash(s[1..]) == AfterFirstSlash(s[1..][1..]) == AfterFirstSlash(s[1..][1..][1..]);
  }

  /** A first line is taken apart into what it was put together from exactly when verb and URL are words and
      the version has no white space. */
  lemma FirstLineReadsBack(verb: string, url: string, version: string)
    ensures FirstWords(FirstLineText(verb, url, version)) == (verb, url, version) <==>
            verb != "" && SpaceFree(verb) && url != "" && SpaceFree(url) && SpaceFree(version)
  {
    var last := "HTTP/" + version;
    var t := " " + (url + (" " + last));
    var line := verb + t;
    if verb != "" && SpaceFree(verb) {
      NextWordOf(verb, t);
      if url != "" && SpaceFree(url) {
        NextWordOf(url, " " + last);
        assert last[4] == '/';
        VersionOf(version);
        if SpaceFree(version) {
          assert SpaceFree(last);
          NextWordOf(last, "");
          assert last + "" == last;
        }
      } else if url == "" {
        assert t[2] == 'H';
        SomeWord(t, 2);
      }
    } else if verb == "" {
      assert line[|verb| + |url| + 2] == 'H';
      SomeWord(line, |verb| + |url| + 2);
    }
  }

  // ---------------------------------------------------------------- the whole header

  function Headers(lines: seq<string>): seq<Header> {
    if lines == [] then [] else [HeaderOf(lines[0])] + Headers(lines[1..])
  }

  /** On what the reader returns every search succeeds, the loop ends at the last line end, and there
      is one header for each line between the first and the empty one, unless the URL makes it throw. */
  method Parse(body: string) returns (r: Option<Request>)
    requires Ends(body, 4) && NoEndBefore(body, |body|)
    ensures exists first, lines :: IsRequest(body, first, lines) && r == RequestOf(first, lines)
  {
    hide UrlOf, IsRequest, HeaderOf, Ends, NoEndBefore, LinesAt, Headers, NextWord, AfterSlash;
    CompleteIsEnd(body);
    NextLine(body, 0);
    var lineEnd := FindCrlf(body, 0).value;
    var verb := NextWord(body[..lineEnd]);
    var url := NextWord(verb.1);
    var httpAndVersion := NextWord(url.1);
    var version := AfterSlash(httpAndVersion.0);
    FirstLine(body, lineEnd);
    assert FirstWords(body[..lineEnd]) == (verb.0, url.0, version);
    hide FirstWords;
    assert IsRequest(body, body[..lineEnd], LinesAt(body, lineEnd + 2));
    var parsedUrl := UrlOf(url.0);
    if parsedUrl.None? { return None; }
    var result := Request(verb.0, parsedUrl.value, version, []);
    var lineStart := lineEnd + 2;
    ghost var first, lines, bare := body[..lineEnd], LinesAt(body, lineStart), result;
    assert [] + Headers(lines) == Headers(lines);
    hide Complete;
    while true
      invariant 2 <= lineStart <= |body| - 2 && CrlfAt(body, lineStart - 2)
      invariant result == bare.(headers := result.headers)
      invariant result.headers + Headers(LinesAt(body, lineStart)) == Headers(lines)
      decreases |body| - lineStart
    {
      NextLine(body, lineStart);
      lineEnd := FindCrlf(body, lineStart).value;
      if lineStart == lineEnd {
        NoMoreLines(body, lineStart);
        lineStart := lineEnd + 2;
        break;
      }
      var line := body[lineStart..lineEnd];
      var header := SplitHeader(line);
      LinesAtStep(body, lineStart, lineEnd);
      HeadersSplit(line, LinesAt(body, lineEnd + 2), result.headers);
      result := result.(headers := result.headers + [header]);
      lineStart := lineEnd + 2;
    }
    assert result.headers + [] == result.headers;
    r := Some(result);
    assert IsRequest(body, first, lines) && r == RequestOf(first, lines);
  }

  lemma NoMoreLines(s: string, from: nat)
    requires from <= |s| && FindCrlf(s, from) == Some(from)
    ensures Headers(LinesAt(s, from)) == []
  {}

  lemma HeadersSplit(line: string, lines: seq<string>, before: seq<Header>)
    ensures before + Headers([line] + lines) == before + [HeaderOf(line)] + Headers(lines)
  {
    assert ([line] + lines)[1..] == lines;
  }

  lemma FirstLine(s: string, e: nat)
    requires Complete(s) && FindCrlf(s, 0) == Some(e) && e <= |s| - 4
    ensures IsRequest(s, s[..e], LinesAt(s, e + 2))
  {
    SliceCrlfFree(s, 0, e);
    LinesAtSplit(s, e + 2);
    assert s == s[..e] + CRLF + s[e + 2..] && s[0..e] == s[..e];
    Grouped(s[..e], CRLF, Block(LinesAt(s, e + 2)), CRLF);
  }

  /** The decomposition into lines is unique. */
  lemma {:induction false} LinesUnique(s: string, from: nat, lines: seq<string>)
    requires ProperLines(lines) && from <= |s| && s[from..] == Block(lines) + CRLF
    ensures LinesAt(s, from) == lines
    decreases |lines|
  {
    hide *;
    if lines == [] {
      NothingLeft(s, from);
    } else {
      LinesCons(s, from, lines);
      LinesUnique(s, from + |lines[0]| + 2, lines[1..]);
    }
  }

  /** So `Parse` has no choice. */
  lemma DivisionUnique(s: string, first: string, lines: seq<string>, other: string, otherLines: seq<string>)
    requires IsRequest(s, first, lines) && IsRequest(s, other, otherLines)
    ensures first == other && lines == otherLines
  {
    FirstLineFound(s, first, lines);
    FirstLineFound(s, other, otherLines);
  }

  lemma FirstLineFound(s: string, first: string, lines: seq<string>)
    requires IsRequest(s, first, lines)
    ensures FindCrlf(s, 0) == Some(|first|) && |first| + 2 <= |s| && first == s[..|first|]
    ensures lines == LinesAt(s, |first| + 2)
  {
    hide FindCrlf, CrlfFree, ProperLines, Block, LinesAt;
    var rest := Block(lines) + CRLF;
    Grouped(first, CRLF, Block(lines), CRLF);
    assert s[0..] == s;
    LineFound(s, 0, first, rest);
    Sliced(s, 0, first, rest);
    LinesUnique(s, |first| + 2, lines);
  }

  lemma LinesCons(s: string, from: nat, lines: seq<string>)
    requires lines != [] && ProperLines(lines) && from <= |s| && s[from..] == Block(lines) + CRLF
    ensures var line := lines[0];
            ProperLines(lines[1..])
            && from + |line| + 2 <= |s| && s[from + |line| + 2..] == Block(lines[1..]) + CRLF
            && (LinesAt(s, from + |line| + 2) == lines[1..] ==> LinesAt(s, from) == lines)
  {
    hide CrlfAt, CrlfFree, LinesAt, FindCrlf;
    var line, rest := lines[0], Block(lines[1..]) + CRLF;
    assert lines == [line] + lines[1..];
    BlockCons(line, lines[1..]);
    hide Block;
    LineFound(s, from, line, rest);
    Sliced(s, from, line, rest);
    LinesAtStep(s, from, from + |line|);
  }

  lemma BlockCons(line: string, lines: seq<string>)
    ensures Block([line] + lines) + CRLF == line + CRLF + (Block(lines) + CRLF)
  {
    assert ([line] + lines)[1..] == lines;
    Grouped(line, CRLF, Block(lines), CRLF);
  }

  lemma Sliced(s: string, from: nat, line: string, rest: string)
    requires from <= |s| && s[from..] == line + CRLF + rest
    ensures from + |line| + 2 <= |s| && s[from..from + |line|] == line && s[from + |line| + 2..] == rest
  {
    var t := line + CRLF + rest;
    assert t[..|line|] == line && t[|line| + 2..] == rest;
    assert s[from..from + |line|] == s[from..][..|line|];
    assert s[from + |line| + 2..] == s[from..][|line| + 2..];
  }

  lemma NothingLeft(s: string, from: nat)
    requires from <= |s| && s[from..] == Block([]) + CRLF
    ensures LinesAt(s, from) == []
  {
    assert s[from..] == CRLF;
    assert s[from] == s[from..][0] && s[from + 1] == s[from..][1];
    FindUnique(s, from, from);
  }

  lemma LineFound(s: string, from: nat, line: string, rest: string)
    requires from <= |s| && s[from..] == line + CRLF + rest && CrlfFree(line)
    ensures FindCrlf(s, from) == Some(from + |line|)
  {
    forall p: nat | from <= p <= from + |line| ensures CrlfAt(s, p) <==> p == from + |line| {
      LineEnds(line, rest, p - from);
      ShiftedCrlf(s, from, p);
    }
    FindUnique(s, from, from + |line|);
  }

  lemma ShiftedCrlf(s: string, from: nat, p: nat)
    requires from <= p && from <= |s|
    ensures CrlfAt(s, p) <==> CrlfAt(s[from..], p - from)
  {}

  // ---------------------------------------------------------------- responses

  datatype Response = Response(version: string, statusCode: nat, statusMessage: string, headers: seq<Header>, body: string)

  function StatusLine(r: Response): string {
    "HTTP/" + r.version + " " + JsonNumber.Digits(r.statusCode) + " " + r.statusMessage
  }

  /** The headers that are written: the length of the body is computed, not taken over. */
  function Written(hs: seq<Header>): seq<Header> {
    if hs == [] then [] else (if hs[0].name == "content-length" then [] else [hs[0]]) + Written(hs[1..])
  }

  function HeaderLines(hs: seq<Header>): seq<string> {
    if hs == [] then [] else [HeaderLine(hs[0])] + HeaderLines(hs[1..])
  }

  function AllHeaders(r: Response): seq<Header> {
    Written(r.headers) + [Header("content-length", JsonNumber.Digits(|r.body|))]
  }

  function HeaderText(r: Response): string {
    StatusLine(r) + CRLF + Block(HeaderLines(AllHeaders(r))) + CRLF
  }

  lemma {:induction false} BlockMore(lines: seq<string>, line: string)
    ensures Block(lines + [line]) == Block(lines) + line + CRLF
  {
    if lines == [] {
      assert ([] + [line])[1..] == [];
    } else {
      BlockMore(lines[1..], line);
      assert (lines + [line])[1..] == lines[1..] + [line];
    }
  }

  lemma {:induction false} HeaderLinesMore(hs: seq<Header>, h: Header)
    ensures HeaderLines(hs + [h]) == HeaderLines(hs) + [HeaderLine(h)]
  {
    if hs != [] {
      HeaderLinesMore(hs[1..], h);
      assert (hs + [h])[1..] == hs[1..] + [h];
    }
  }

  lemma {:induction false} WrittenMore(hs: seq<Header>, h: Header)
    ensures Written(hs + [h]) == Written(hs) + if h.name == "content-length" then [] else [h]
  {
    if hs == [] {
      assert ([] + [h])[1..] == [];
    } else {
      WrittenMore(hs[1..], h);
      assert (hs + [h])[1..] == hs[1..] + [h];
    }
  }

  method Serialize(r: Response) returns (stream: string)
    ensures stream == HeaderText(r) + r.body
  {
    hide Block, HeaderLines, Written;
    stream := "HTTP/" + r.version + " " + JsonNumber.Digits(r.statusCode) + " " + r.statusMessage + CRLF;
    ghost var start := stream;
    assert stream == StatusLine(r) + CRLF;
    assert start + Block(HeaderLines(Written([]))) == start by { NothingWritten(); }
    for k := 0 to |r.headers|
      invariant stream == start + Block(HeaderLines(Written(r.headers[..k])))
    {
      var h := r.headers[k];
      assert r.headers[..k + 1] == r.headers[..k] + [h];
      WrittenMore(r.headers[..k], h);
      if h.name != "content-length" {
        ghost var before := Written(r.headers[..k]);
        HeaderLinesMore(before, h);
        BlockMore(HeaderLines(before), HeaderLine(h));
        stream := stream + h.name + ": " + h.value + CRLF;
        assert stream == start + (Block(HeaderLines(before)) + HeaderLine(h) + CRLF);
      } else {
        assert Written(r.headers[..k]) + [] == Written(r.headers[..k]);
      }
    }
    assert r.headers[..|r.headers|] == r.headers;
    ghost var length := Header("content-length", JsonNumber.Digits(|r.body|));
    HeaderLinesMore(Written(r.headers), length);
    BlockMore(HeaderLines(Written(r.headers)), HeaderLine(length));
    stream := stream + "content-length: " + JsonNumber.Digits(|r.body|) + CRLF;
    assert stream == start + Block(HeaderLines(AllHeaders(r)));
    stream := stream + CRLF;
    stream := stream + r.body;
  }

  lemma NothingWritten()
    ensures Block(HeaderLines(Written([]))) == ""
  {}

  /** A header that survives being written and read. */
  predicate Plain(h: Header) {
    NormalizeName(h.name) == h.name && ':' !in h.name && Trimmed(h.value) && CrlfFree(HeaderLine(h))
  }

  predicate AllPlain(hs: seq<Header>) { hs == [] || (Plain(hs[0]) && AllPlain(hs[1..])) }

  lemma {:induction false} PlainLines(hs: seq<Header>)
    requires AllPlain(hs)
    ensures ProperLines(HeaderLines(hs)) && Headers(HeaderLines(hs)) == hs
  {
    if hs != [] {
      PlainLines(hs[1..]);
      HeaderReadsBack(hs[0]);
      var lines := HeaderLines(hs);
      assert lines[1..] == HeaderLines(hs[1..]);
    }
  }

  lemma {:induction false} PlainMore(hs: seq<Header>, h: Header)
    requires AllPlain(hs) && Plain(h)
    ensures AllPlain(hs + [h])
  {
    hide Plain;
    if hs == [] {
      assert ([] + [h])[1..] == [];
    } else {
      PlainMore(hs[1..], h);
      assert (hs + [h])[1..] == hs[1..] + [h];
    }
  }

  lemma LengthIsPlain(n: nat)
    ensures Plain(Header("content-length", JsonNumber.Digits(n)))
  {
    var h := Header("content-length", JsonNumber.Digits(n));
    var line := HeaderLine(h);
    assert forall k :: 16 <= k < |line| ==> JsonNumber.IsDigit(line[k]);
  }

  /** The loop reads back from a serialized response the headers that were written, the computed length
      of the body last, and stops where the body begins. */
  lemma HeadersReadBack(r: Response)
    requires AllPlain(Written(r.headers)) && CrlfFree(StatusLine(r))
    ensures var s := HeaderText(r);
            Ends(s, 4) && NoEndBefore(s, |s|)
            && IsRequest(s, StatusLine(r), HeaderLines(AllHeaders(r)))
            && Headers(LinesAt(s, |StatusLine(r)| + 2)) == AllHeaders(r)
  {
    hide Plain, CrlfFree, StatusLine, Ends, Block, Complete;
    LengthIsPlain(|r.body|);
    PlainMore(Written(r.headers), Header("content-length", JsonNumber.Digits(|r.body|)));
    PlainLines(AllHeaders(r));
    var s, first, lines := HeaderText(r), StatusLine(r), HeaderLines(AllHeaders(r));
    LinesAreComplete(s, first, lines);
    CompleteIsEnd(s);
    Grouped(first, CRLF, Block(lines), CRLF);
    assert s[|first| + 2..] == Block(lines) + CRLF;
    LinesUnique(s, |first| + 2, lines);
  }
}
