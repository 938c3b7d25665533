/** Taking a URL apart (src/web-ui-client/http.cpp, `Url::Parse`). */
module Urls {
  import opened Wrappers
  import opened JsonNumber

  datatype Url = Url(scheme: string, host: string, port: nat, absolutePath: string, query: string)

  const ULONG_MAX := 0xFFFF_FFFF_FFFF_FFFF

  predicate IsSpace(c: char) { c == ' ' || ('\t' <= c <= '\r') }

  /** The first place of `c`, or the length. */
  function FirstOf(s: string, c: char): (r: nat)
    ensures r <= |s| && (r < |s| ==> s[r] == c) && forall k :: 0 <= k < r ==> s[k] != c
  {
    if s == "" || s[0] == c then 0 else 1 + FirstOf(s[1..], c)
  }

  predicate SeparatorAt(s: string, p: nat) { p + 3 <= |s| && s[p] == ':' && s[p + 1] == '/' && s[p + 2] == '/' }

  predicate HasSeparator(s: string) { exists p: nat :: p < |s| && SeparatorAt(s, p) }

  /** `find("://")`. */
  function FindSeparator(s: string, from: nat): (r: Option<nat>)
    requires from <= |s|
    ensures r.Some? ==> from <= r.value && SeparatorAt(s, r.value) && forall p: nat :: from <= p < r.value ==> !SeparatorAt(s, p)
    ensures r.None? ==> forall p: nat :: from <= p ==> !SeparatorAt(s, p)
    decreases |s| - from
  {
    if |s| == from then None else if SeparatorAt(s, from) then Some(from) else FindSeparator(s, from + 1)
  }

  function SkipSpace(s: string): (r: string)
    ensures r == "" || !IsSpace(r[0])
  {
    if s != "" && IsSpace(s[0]) then SkipSpace(s[1..]) else s
  }

  /** `stoul`; none when it throws. */
  function Stoul(s: string): Option<nat> {
    var t := SkipSpace(s);
    var digits := DigitRun(t[SignLength(t)..]);
    if digits == "" then None
    else
      var n := Horner(0, digits);
      if n > ULONG_MAX then None
      else Some(if t[0] == '-' then (ULONG_MAX + 1 - n) % (ULONG_MAX + 1) else n)
  }

  function WithPath(scheme: string, host: string, port: nat, pathAndQuery: string): Url {
    var p := if pathAndQuery == "" then "/" else pathAndQuery;
    var mark := FirstOf(p, '?');
    Url(scheme, host, port, p[..mark], if mark == |p| then "" else p[mark + 1..])
  }

  /** Host and port are split at the first colon. */
  function FromAuthority(scheme: string, authority: string, pathAndQuery: string): Option<Url> {
    var colon := FirstOf(authority, ':');
    if colon == |authority| then Some(WithPath(scheme, authority, 0, pathAndQuery))
    else
      match Stoul(authority[colon + 1..])
      case None => None
      case Some(port) => Some(WithPath(scheme, authority[..colon], port % 0x1_0000_0000, pathAndQuery))
  }

  function AtMost(n: nat, length: nat): nat { if n <= length then n else length }

  /** `Url::Parse`; none when it throws. The second argument of `substr` is a length, but for the authority it is
      given the place of the '/': what is taken goes on behind that place. */
  function UrlOf(s: string): Option<Url> {
    match FindSeparator(s, 0)
    case None => Some(WithPath("", "", 0, s))
    case Some(p) =>
      var start := p + 3;
      var slash := start + FirstOf(s[start..], '/');
      FromAuthority(s[..p], s[start..AtMost(start + slash, |s|)], s[slash..])
  }

  // ---------------------------------------------------------------- what goes in

  /** The two forms of section 5.3 of RFC 7230 that a request to this server takes. */
  datatype Target =
    | Origin(path: string, query: Option<string>)
    | Absolute(scheme: string, host: string, port: Option<nat>, path: string, query: Option<string>)

  function QueryText(query: Option<string>): string { if query.Some? then "?" + query.value else "" }

  function Tail(t: Target): string { t.path + QueryText(t.query) }

  function PortText(port: Option<nat>): string { if port.Some? then ":" + Digits(port.value) else "" }

  function Text(t: Target): string {
    if t.Origin? then Tail(t) else t.scheme + "://" + (t.host + (PortText(t.port) + Tail(t)))
  }

  function Meant(t: Target): Url {
    var path, query := if t.path == "" then "/" else t.path, if t.query.Some? then t.query.value else "";
    if t.Origin? then Url("", "", 0, path, query)
    else Url(t.scheme, t.host, if t.port.Some? then t.port.value else 0, path, query)
  }

  predicate Proper(t: Target) {
    && (t.path != "" ==> t.path[0] == '/') && '?' !in t.path
    && (t.Origin? ==> t.path != "")
    && (t.Absolute? ==> !HasSeparator(t.scheme) && '/' !in t.host && ':' !in t.host
                        && (t.port.Some? ==> t.port.value < 0x1_0000_0000))
  }

  // ---------------------------------------------------------------- what comes out

  lemma {:induction false} FirstOfIs(s: string, c: char, k: nat)
    requires k <= |s| && (k < |s| ==> s[k] == c) && forall j :: 0 <= j < k ==> s[j] != c
    ensures FirstOf(s, c) == k
  {
    if k > 0 { FirstOfIs(s[1..], c, k - 1); }
  }

  /** Path and query are found again. */
  lemma PathReadsBack(scheme: string, host: string, port: nat, path: string, query: Option<string>)
    requires '?' !in path && (path == "" ==> query.None?)
    ensures WithPath(scheme, host, port, path + QueryText(query)) ==
            Url(scheme, host, port, if path == "" then "/" else path, if query.Some? then query.value else "")
  {
    if path == "" {
      assert path + QueryText(query) == "";
      FirstOfIs("/", '?', 1);
    } else {
      FirstBehind(path, QueryText(query), '?');
      Slices(path, QueryText(query), 0);
      if query.Some? { Slices(path, QueryText(query), 1); }
    }
    hide FirstOf;
  }

  lemma OriginReadsBack(t: Target)
    requires t.Origin? && Proper(t)
    ensures UrlOf(Text(t)) == Some(Meant(t)) <==> !HasSeparator(Text(t))
  {
    hide WithPath;
    var s := Text(t);
    if HasSeparator(s) {
      var p := FindSeparator(s, 0).value;
      assert p > 0 by { assert s[0] == t.path[0]; }
      assert |s[..p]| == p;
      SchemeKept(s, p);
    } else {
      PathReadsBack("", "", 0, t.path, t.query);
    }
  }

  lemma SchemeKept(s: string, p: nat)
    requires FindSeparator(s, 0) == Some(p)
    ensures UrlOf(s).Some? ==> UrlOf(s).value.scheme == s[..p]
  {
    hide Stoul, FirstOf;
  }

  /** The first separator of an absolute URL is the one behind its scheme. */
  lemma SeparatorFound(scheme: string, rest: string)
    requires !HasSeparator(scheme)
    ensures FindSeparator(scheme + "://" + rest, 0) == Some(|scheme|)
  {
    var s := scheme + "://" + rest;
    assert s[|scheme|] == ':' && s[|scheme| + 1] == '/' && s[|scheme| + 2] == '/';
    forall p: nat | p < |scheme| ensures !SeparatorAt(s, p) {
      assert s[p] == scheme[p];
      assert p + 1 < |scheme| ==> s[p + 1] == scheme[p + 1];
      assert p + 2 < |scheme| ==> s[p + 2] == scheme[p + 2];
      assert !SeparatorAt(scheme, p);
    }
    assert SeparatorAt(s, |scheme|);
  }

  /** What `UrlOf` makes of scheme, separator and rest. */
  function AfterScheme(scheme: string, rest: string): Option<Url> {
    var k := FirstOf(rest, '/');
    FromAuthority(scheme, rest[..AtMost(|scheme| + 3 + k, |rest|)], rest[k..])
  }

  lemma UrlOfAbsolute(scheme: string, rest: string)
    requires !HasSeparator(scheme)
    ensures UrlOf(scheme + "://" + rest) == AfterScheme(scheme, rest)
  {
    hide FromAuthority, FirstOf, FindSeparator;
    SeparatorFound(scheme, rest);
    var s, start, k := scheme + "://" + rest, |scheme| + 3, FirstOf(rest, '/');
    assert s[start..] == rest && s[..|scheme|] == scheme;
    assert s[start + k..] == rest[k..];
    assert s[start..AtMost(start + (start + k), |s|)] == rest[..AtMost(start + k, |rest|)];
  }

  lemma StoulOfDigits(n: nat, more: string)
    requires n < 0x1_0000_0000 && (more == "" || !IsDigit(more[0]))
    ensures Stoul(Digits(n) + more) == Some(n)
  {
    var s := Digits(n) + more;
    assert IsDigit(s[0]) && SkipSpace(s) == s && SignLength(s) == 0;
    assert s[0..] == s;
    DigitRunOf(Digits(n), more);
    DigitsValue(n);
  }

  lemma FirstBehind(a: string, b: string, c: char)
    requires c !in a
    ensures FirstOf(a + b, c) == |a| + FirstOf(b, c)
  {
    var k := FirstOf(b, c);
    assert forall j :: 0 <= j < |b| ==> (a + b)[|a| + j] == b[j];
    FirstOfIs(a + b, c, |a| + k);
  }

  lemma Slices(a: string, b: string, m: nat)
    requires m <= |b|
    ensures (a + b)[..|a| + m] == a + b[..m] && (a + b)[|a| + m..] == b[m..]
  {}

  lemma AtColon(scheme: string, host: string, behind: string, p: string)
    requires ':' !in host
    ensures FromAuthority(scheme, host + (":" + behind), p) ==
            match Stoul(behind)
            case None => None
            case Some(port) => Some(WithPath(scheme, host, port % 0x1_0000_0000, p))
  {
    hide WithPath, Stoul, FirstOf;
    var authority := host + (":" + behind);
    FirstBehind(host, ":" + behind, ':');
    FirstOfIs(":" + behind, ':', 0);
    assert authority[|host| + 1..] == behind && authority[..|host|] == host;
  }

  lemma AtNoColon(scheme: string, host: string, p: string)
    requires ':' !in host
    ensures FromAuthority(scheme, host, p) == Some(WithPath(scheme, host, 0, p))
  {
    FirstOfIs(host, ':', |host|);
  }

  /** With a port host and port are always found: behind the digits something follows that is none. */
  lemma PortFound(scheme: string, host: string, n: nat, tail: string)
    requires '/' !in host && ':' !in host && n < 0x1_0000_0000
    requires tail == "" || tail[0] == '/' || tail[0] == '?'
    ensures var rest := host + (":" + Digits(n) + tail);
            AfterScheme(scheme, rest) == Some(WithPath(scheme, host, n, rest[FirstOf(rest, '/')..]))
            && |host| + 1 + |Digits(n)| <= FirstOf(rest, '/')
  {
    hide WithPath, Stoul, Digits, FirstOf, FromAuthority;
    var d := Digits(n);
    var head := host + (":" + d);
    var rest := host + (":" + d + tail);
    assert rest == head + tail;
    HeadHasNoSlash(host, d);
    FirstBehind(head, tail, '/');
    var k := FirstOf(rest, '/');
    var m := AtMost(|scheme| + 3 + k, |rest|) - |head|;
    var more := tail[..m];
    Slices(head, tail, m);
    assert head + more == host + (":" + (d + more));
    StoulOfDigits(n, more);
    AtColon(scheme, host, d + more, rest[k..]);
  }

  lemma HeadHasNoSlash(host: string, d: string)
    requires '/' !in host && AllDigits(d)
    ensures '/' !in host + (":" + d)
  {}

  /** Without a port and with something behind the host, the host is never found. */
  lemma HostMissed(scheme: string, host: string, tail: string)
    requires '/' !in host && ':' !in host && tail != "" && tail[0] != ':'
    ensures var u := AfterScheme(scheme, host + tail); u.Some? ==> |u.value.host| > |host|
  {
    hide WithPath, Stoul, FirstOf;
    var rest := host + tail;
    var k := FirstOf(rest, '/');
    assert forall j :: 0 <= j < |host| ==> rest[j] == host[j];
    assert k >= |host|;
    var m := AtMost(|scheme| + 3 + k, |rest|);
    var authority := rest[..m];
    assert |host| < m && authority[|host|] == tail[0];
    assert forall j :: 0 <= j <= |host| ==> authority[j] == rest[j] != ':';
    assert FirstOf(authority, ':') > |host|;
    HostIsKept(scheme, authority, 0, rest[k..]);
  }

  lemma HostIsKept(scheme: string, host: string, port: nat, p: string)
    ensures forall h, n :: WithPath(scheme, h, n, p).host == h
  {}

  /** A query that starts behind a '/' further on is too short. */
  lemma QueryMissed(scheme: string, host: string, port: nat, p: string, query: string)
    requires |p| <= |query| && query != ""
    ensures WithPath(scheme, host, port, p).query != query
  {}

  lemma PortReadsBack(t: Target)
    requires t.Absolute? && Proper(t) && t.port.Some?
    ensures UrlOf(Text(t)) == Some(Meant(t)) <==> t.path != "" || t.query.None? || t.query == Some("")
  {
    hide WithPath, UrlOf, AfterScheme, Digits, HasSeparator;
    var d, tail := Digits(t.port.value), Tail(t);
    var rest := t.host + (":" + d + tail);
    assert Text(t) == t.scheme + "://" + rest;
    UrlOfAbsolute(t.scheme, rest);
    assert tail == "" || tail[0] == '/' || tail[0] == '?';
    PortFound(t.scheme, t.host, t.port.value, tail);
    var n, k := |t.host| + 1 + |d|, FirstOf(rest, '/');
    assert rest[n..] == tail;
    assert n < |rest| ==> rest[n] == tail[0];
    if t.path != "" || t.query.None? {
      assert k == n;
      PathReadsBack(t.scheme, t.host, t.port.value, t.path, t.query);
    } else {
      assert k > n && |rest[k..]| <= |t.query.value|;
      if t.query == Some("") {
        assert rest[k..] == "" && "" + QueryText(None) == "";
        PathReadsBack(t.scheme, t.host, t.port.value, "", None);
      } else {
        QueryMissed(t.scheme, t.host, t.port.value, rest[k..], t.query.value);
      }
    }
  }

  lemma NoPortReadsBack(t: Target)
    requires t.Absolute? && Proper(t) && t.port.None?
    ensures UrlOf(Text(t)) == Some(Meant(t)) <==> t.path == "" && t.query.None?
  {
    hide WithPath, UrlOf, HasSeparator;
    var tail := Tail(t);
    var rest := t.host + tail;
    assert t.host + ("" + tail) == rest;
    UrlOfAbsolute(t.scheme, rest);
    if tail == "" {
      assert rest == t.host;
      FirstOfIs(rest, '/', |rest|);
      FirstOfIs(rest, ':', |rest|);
      assert rest[..|rest|] == rest && "" + QueryText(None) == "";
      PathReadsBack(t.scheme, t.host, 0, "", None);
    } else {
      hide AfterScheme;
      HostMissed(t.scheme, t.host, tail);
    }
  }

  /** A URL is taken apart into what it was put together from: one without a host exactly when "://" occurs nowhere
      in it, not even in the query; one with host and port unless a query stands right behind the port; one with a
      host alone only if nothing stands behind the host. */
  lemma ReadsBackExactlyWhen(t: Target)
    requires Proper(t)
    ensures UrlOf(Text(t)) == Some(Meant(t)) <==>
            match t
            case Origin(_, _) => !HasSeparator(Text(t))
            case Absolute(_, _, port, path, query) =>
              if port.Some? then path != "" || query.None? || query == Some("") else path == "" && query.None?
  {
    hide UrlOf, Text, Meant, HasSeparator;
    match t
    case Origin(_, _) => OriginReadsBack(t);
    case Absolute(_, _, port, _, _) => if port.Some? { PortReadsBack(t); } else { NoPortReadsBack(t); }
  }

  /** What becomes of a host with a path and no port: it takes in as many characters of what follows as the scheme
      and "://" have, and a colon among them makes the rest of them the port. */
  lemma HostRunsOn(scheme: string, host: string, tail: string)
    requires !HasSeparator(scheme) && '/' !in host && ':' !in host && tail != "" && tail[0] == '/'
    ensures var n := |scheme| + 3;
            var more := tail[..AtMost(n, |tail|)];
            var colon := FirstOf(more, ':');
            UrlOf(scheme + "://" + (host + tail)) ==
            if colon == |more| then Some(WithPath(scheme, host + more, 0, tail))
            else
              match Stoul(more[colon + 1..])
              case None => None
              case Some(port) => Some(WithPath(scheme, host + more[..colon], port % 0x1_0000_0000, tail))
  {
    hide WithPath, UrlOf, Stoul, HasSeparator, FirstOf, FromAuthority;
    var rest, n := host + tail, |scheme| + 3;
    UrlOfAbsolute(scheme, rest);
    FirstBehind(host, tail, '/');
    FirstOfIs(tail, '/', 0);
    var m := AtMost(n, |tail|);
    var more := tail[..m];
    Slices(host, tail, m);
    Slices(host, tail, 0);
    var colon := FirstOf(more, ':');
    NoColonBefore(host, more, colon);
    if colon < |more| {
      assert host + more == host + more[..colon] + (":" + more[colon + 1..]);
      AtColon(scheme, host + more[..colon], more[colon + 1..], tail);
    } else {
      assert more[..colon] == more;
      AtNoColon(scheme, host + more, tail);
    }
  }

  lemma NoColonBefore(host: string, more: string, colon: nat)
    requires ':' !in host && colon <= |more| && forall k :: 0 <= k < colon ==> more[k] != ':'
    ensures ':' !in host + more[..colon]
  {}

  /** An ordinary URL, and one on which the parser throws. */
  lemma SomeUrls()
    ensures UrlOf("http" + "://" + ("h" + "/a")) == Some(Url("http", "h/a", 0, "/a", ""))
    ensures UrlOf("http" + "://" + ("h" + "/a:b")) == None
  {
    hide UrlOf, WithPath, FirstOf, Stoul, HasSeparator;
    NoSeparatorInScheme();
    assert "/a"[..2] == "/a" && "/a:b"[..4] == "/a:b" && "/a:b"[3..] == "b" && "h" + "/a" == "h/a";
    assert "/a" + QueryText(None) == "/a";
    HostRunsOn("http", "h", "/a");
    HostRunsOn("http", "h", "/a:b");
    FirstOfIs("/a", ':', 2);
    FirstOfIs("/a:b", ':', 2);
    PathReadsBack("http", "h/a", 0, "/a", None);
    NoNumber();
  }

  lemma NoSeparatorInScheme()
    ensures !HasSeparator("http")
  {}

  lemma NoNumber()
    ensures Stoul("b") == None
  {}
}
