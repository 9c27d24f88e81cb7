/** request_line::parser_reuqest_line and the request line http_do prints for the service. */
module RequestLine {
  import Seqs
  import opened Wrappers
  import opened Strings
  import opened Numerals
  import opened Headers

  // ---------- the regular expressions, as predicates ----------

  predicate IsHostByte(c: char) {
    IsDigit(c) || 'A' <= c <= 'Z' || 'a' <= c <= 'z' || c == '_' || c == '.' || c == '-'
  }

  predicate IsHost(s: string) {
    s != "" && forall i :: 0 <= i < |s| ==> IsHostByte(s[i])
  }

  /** 0, or up to five digits without a leading zero. */
  predicate IsPort(s: string) {
    s == "0" || (0 < |s| <= 5 && AllDigits(s) && s[0] != '0')
  }

  predicate IsVersion(s: string) {
    match Find(s, ".")
    case None => false
    case Some(k) => 1 <= k <= 5 && AllDigits(s[..k]) && 1 <= |s| - k - 1 <= 10 && AllDigits(s[k + 1..])
  }

  /** The endpoint expression against the whole of `s`: the host, and the port if given. */
  function MatchEndpoint(s: string): Option<(string, Option<string>)> {
    match Find(s, ":")
    case None => if IsHost(s) then Some((s, None)) else None
    case Some(k) =>
      if IsHost(s[..k]) && IsPort(s[k + 1..]) then Some((s[..k], Some(s[k + 1..]))) else None
  }

  // ---------- what they match ----------

  const HOST_BYTES := CAPITAL + SMALL + DECIMAL + "_.-"

  predicate AllIn(s: string, bytes: string) {
    forall i :: 0 <= i < |s| ==> s[i] in bytes
  }

  lemma HostByteExactly(c: char)
    ensures IsHostByte(c) <==> c in HOST_BYTES
  {
    hide SMALL, CAPITAL, DECIMAL;
    Alphabets();
    DigitsExactly(c);
    if 'A' <= c <= 'Z' { assert CAPITAL[c as int - 'A' as int] == c; }
    if 'a' <= c <= 'z' { assert SMALL[c as int - 'a' as int] == c; }
    if c in CAPITAL { var k :| 0 <= k < |CAPITAL| && CAPITAL[k] == c; }
    if c in SMALL { var k :| 0 <= k < |SMALL| && SMALL[k] == c; }
  }

  lemma DigitsAreDecimal(s: string)
    ensures AllDigits(s) <==> AllIn(s, DECIMAL)
  {
    hide DECIMAL, IsDigit;
    forall i | 0 <= i < |s| ensures IsDigit(s[i]) <==> s[i] in DECIMAL { DigitsExactly(s[i]); }
  }

  /** Up to five digits, a dot, up to ten digits. */
  ghost predicate IsVersionOf(s: string, major: string, minor: string) {
    && s == major + "." + minor
    && 1 <= |major| <= 5 && AllIn(major, DECIMAL) && 1 <= |minor| <= 10 && AllIn(minor, DECIMAL)
  }

  lemma VersionExactly(s: string)
    ensures IsVersion(s) <==> exists major, minor :: IsVersionOf(s, major, minor)
  {
    hide DECIMAL;
    if IsVersion(s) {
      var k := Find(s, ".").value;
      DigitsAreDecimal(s[..k]);
      DigitsAreDecimal(s[k + 1..]);
      OccursHead(s, ".", k);
      assert s == s[..k] + "." + s[k + 1..];
      assert IsVersionOf(s, s[..k], s[k + 1..]);
    }
    if exists major, minor :: IsVersionOf(s, major, minor) {
      var major, minor :| IsVersionOf(s, major, minor);
      DigitsAreDecimal(major);
      DigitsAreDecimal(minor);
      FindAfter(s, ".", major, minor, '.');
      assert s[..|major|] == major && s[|major| + 1..] == minor;
    }
  }

  /** 0, or up to five digits of which the first is not 0. */
  lemma PortExactly(s: string)
    ensures IsPort(s) <==> s == "0" || (1 <= |s| <= 5 && AllIn(s, "0123456789") && s[0] in "123456789")
  {
    hide IsDigit;
    DigitsAreDecimal(s);
    if s != "" && AllIn(s, DECIMAL) {
      assert s[0] in DECIMAL;
      FirstDigits(s[0]);
    }
  }

  lemma FirstDigits(c: char)
    ensures c in "123456789" <==> c in DECIMAL && c != '0'
  {
    DigitsExactly(c);
    assert DECIMAL == "0" + "123456789";
  }

  /** A host, or a host, a colon and a port. */
  lemma EndpointExactly(e: string, host: string, port: Option<string>)
    ensures MatchEndpoint(e) == Some((host, port)) <==>
              && host != "" && AllIn(host, HOST_BYTES) && e == host + (if port.Some? then ":" + port.value else "")
              && (port.Some? ==> IsPort(port.value))
  {
    hide HOST_BYTES, IsHostByte, IsPort;
    forall i | 0 <= i < |host| ensures IsHostByte(host[i]) <==> host[i] in HOST_BYTES { HostByteExactly(host[i]); }
    NoColon();
    if IsHost(host) {
      assert ':' !in host;
      if port.Some? {
        assert host + (":" + port.value) == host + ":" + port.value;
        FindAfter(host + ":" + port.value, ":", host, port.value, ':');
        assert (host + ":" + port.value)[|host| + 1..] == port.value;
      } else {
        assert host + "" == host;
        NoByte(host, ":");
      }
    }
    if MatchEndpoint(e) == Some((host, port)) && port.Some? {
      OccursHead(e, ":", |host|);
      assert e == host + (":" + port.value);
    }
  }

  lemma NoColon()
    ensures !IsHostByte(':')
  {
  }

  /** The port numbers that are accepted. */
  lemma PortWritten(n: nat, host: string)
    ensures PortFits(Some((host, Some(Written(n, DECIMAL))))) <==> n <= 65535
    ensures n <= 65535 ==> IsPort(Written(n, DECIMAL))
  {
    hide Written, DecValue, IsDigit, Power;
    WrittenInDecimal(n);
    WrittenLength(n, DECIMAL, 5);
    PowerFive();
    WrittenStep(n, DECIMAL);
  }

  lemma PowerFive()
    ensures Power(10, 5) == 100000
  {
  }

  // ---------- request lines ----------

  datatype Request = Request(methodStr: string, host: string, port: string, url: string,
                             paramStart: Option<nat>, version: string)

  /** The forms of a request target the parser knows: to a proxy, to a server, CONNECT. */
  datatype Target =
    | Absolute(host: string, port: Option<string>, path: string)
    | Origin(path: string)
    | Authority(host: string, port: Option<string>)

  const HTTP := "http://"
  const CONNECT := "CONNECT"

  function PrintEndpoint(host: string, port: Option<string>): string {
    match port
    case Some(p) => host + ":" + p
    case None => host
  }

  function PrintTarget(t: Target): string {
    match t
    case Absolute(host, port, path) => HTTP + PrintEndpoint(host, port) + path
    case Origin(path) => path
    case Authority(host, port) => PrintEndpoint(host, port)
  }

  function PrintLine(m: string, t: Target, v: string): string {
    m + " " + PrintTarget(t) + " " + "HTTP/" + v + CRLF
  }

  predicate Token(s: string) { ' ' !in s && '\r' !in s }

  predicate ValidPath(s: string) { Token(s) && (s == "" || s[0] == '/') }

  predicate ValidEndpoint(host: string, port: Option<string>) {
    IsHost(host) && match port
                    case Some(p) => IsPort(p) && AllDigits(p) && DecValue(p) <= 65535
                    case None => true
  }

  predicate ValidLine(m: string, t: Target, v: string) {
    && Token(m) && IsVersion(v)
    && match t
       case Absolute(host, port, path) => m != CONNECT && ValidEndpoint(host, port) && ValidPath(path)
       case Origin(path) => m != CONNECT && ValidPath(path) && path != ""
       case Authority(host, port) => m == CONNECT && ValidEndpoint(host, port)
  }

  function PortOf(port: Option<string>): string {
    match port
    case Some(p) => p
    case None => "80"
  }

  function ParamStart(url: string): nat {
    match Find(url, "?")
    case Some(k) => k
    case None => |url|
  }

  /** What a line means. */
  function Meaning(m: string, t: Target, v: string): Request {
    match t
    case Absolute(host, port, path) =>
      if path == "" then Request(m, host, PortOf(port), "/", None, "HTTP/" + v)
      else Request(m, host, PortOf(port), path, Some(ParamStart(path)), "HTTP/" + v)
    case Origin(path) => Request(m, "", "", path, Some(ParamStart(path)), "HTTP/" + v)
    case Authority(host, port) => Request(m, host, PortOf(port), "", None, "HTTP/" + v)
  }

  // ---------- which lines are accepted ----------

  /** How much of the text after the method is the scheme, and then how long the target and its
      endpoint are. */
  function TargetParts(m: string, svl: string): Option<(nat, nat, nat)> {
    match Find(svl, " ")
    case None => None
    case Some(uri) =>
      var skip := if m != CONNECT && StartsWith(svl, HTTP) && uri >= 7 then 7 else 0;
      var slash := if m == CONNECT then None else Find(svl[skip..uri], "/");
      Some((skip, uri - skip, if slash.Some? then slash.value else uri - skip))
  }

  predicate PortFits(e: Option<(string, Option<string>)>) {
    e.Some? && e.value.1.Some? ==> AllDigits(e.value.1.value) && DecValue(e.value.1.value) <= 65535
  }

  predicate EndsWithVersion(svl: string) {
    StartsWith(svl, "HTTP/") && Find(svl[5..], CRLF).Some? && IsVersion(svl[5..][..Find(svl[5..], CRLF).value])
  }

  /** The text after the target, where the version is looked for. An endpoint that does not match
      is not skipped. */
  function AfterTarget(svl: string, uriEnd: nat, serviceEnd: nat): string {
    if serviceEnd <= uriEnd && uriEnd + 1 <= |svl| then
      if MatchEndpoint(svl[..serviceEnd]).Some? then svl[uriEnd + 1..] else svl[uriEnd - serviceEnd + 1..]
    else ""
  }

  /** What the parser does after the method, as far as it decides. */
  predicate ParsesAfter(m: string, svl: string) {
    match TargetParts(m, svl)
    case None => false
    case Some((skip, uriEnd, serviceEnd)) =>
      skip <= |svl| && ParsesRest(svl[skip..], uriEnd, serviceEnd)
  }

  /** The same from the endpoint on. */
  predicate ParsesRest(svl: string, uriEnd: nat, serviceEnd: nat) {
    && serviceEnd <= |svl|
    && PortFits(MatchEndpoint(svl[..serviceEnd]))
    && EndsWithVersion(AfterTarget(svl, uriEnd, serviceEnd))
  }

  /** What it reads then. */
  function ValueAfter(m: string, svl: string): Request
    requires ParsesAfter(m, svl)
  {
    var (skip, uriEnd, serviceEnd) := TargetParts(m, svl).value;
    ValueRest(m, svl[skip..], uriEnd, serviceEnd)
  }

  function ValueRest(m: string, svl: string, uriEnd: nat, serviceEnd: nat): Request
    requires ParsesRest(svl, uriEnd, serviceEnd)
  {
    var e, version := MatchEndpoint(svl[..serviceEnd]), AfterTarget(svl, uriEnd, serviceEnd);
    var path := if e.Some? then Take(svl[serviceEnd..], uriEnd - serviceEnd) else Take(svl, uriEnd - serviceEnd);
    Request(m, HostOf(e), PortAt(e), UrlOf(m, HostOf(e), path), ParamOf(m, path), version[..|version| - 2])
  }

  function HostOf(e: Option<(string, Option<string>)>): string {
    if e.Some? then e.value.0 else ""
  }

  function PortAt(e: Option<(string, Option<string>)>): string {
    if e.Some? then PortOf(e.value.1) else ""
  }

  function UrlOf(m: string, host: string, path: string): string {
    if m == CONNECT then "" else if path == "" && host != "" then "/" else path
  }

  function ParamOf(m: string, path: string): Option<nat> {
    if m == CONNECT || path == "" then None else Some(ParamStart(path))
  }

  predicate Parses(line: string) {
    match Find(line, " ")
    case None => false
    case Some(k) => k + 1 <= |line| && ParsesAfter(line[..k], line[k + 1..])
  }

  /** A method, which may be empty; a target of a scheme, an endpoint and a path, each of which
      may be missing; a version. */
  predicate IsLine(line: string, m: string, scheme: string, endpoint: string, path: string, v: string) {
    && line == m + " " + (scheme + endpoint + path + " " + VersionText(v))
    && ' ' !in m && ' ' !in path && IsVersion(v)
    && (scheme == "" || (scheme == HTTP && m != CONNECT))
    && (endpoint == "" || (MatchEndpoint(endpoint).Some? && PortFits(MatchEndpoint(endpoint))))
    && (path == "" || (m != CONNECT && path[0] == '/'))
  }

  ghost predicate Accepts(line: string) {
    exists m, scheme, endpoint, path, v :: IsLine(line, m, scheme, endpoint, path, v)
  }

  /** What a line of these parts is read as. */
  function ReadAs(m: string, endpoint: string, path: string, v: string): Request {
    var e := MatchEndpoint(endpoint);
    Request(m, HostOf(e), PortAt(e), UrlOf(m, HostOf(e), path), ParamOf(m, path), "HTTP/" + v)
  }

  /** The line is accepted, and whichever way it is taken apart, that is what it is read as. */
  ghost predicate Means(line: string, r: Request) {
    && Accepts(line)
    && forall m, scheme, endpoint, path, v :: IsLine(line, m, scheme, endpoint, path, v) ==> r == ReadAs(m, endpoint, path, v)
  }

  /** Exactly these lines are accepted. (The line is what is before the first line end, and
      that.) */
  lemma AcceptedExactly(line: string)
    requires |line| >= 2 && Find(line, CRLF) == Some(|line| - 2)
    ensures Parses(line) <==> Accepts(line)
  {
    if Parses(line) {
      ParsedIsLine(line);
    }
    if Accepts(line) {
      var m, scheme, endpoint, path, v :| IsLine(line, m, scheme, endpoint, path, v);
      LineParses(line, m, scheme, endpoint, path, v);
    }
  }

  lemma SchemeBytes(s: string)
    ensures StartsWith(s, "http:") ==> |s| >= 5 && s[0] == 'h' && s[1] == 't' && s[2] == 't' && s[3] == 'p' && s[4] == ':'
    ensures StartsWith(s, HTTP) ==> |s| >= 7 && s[5] == '/' && StartsWith(s, "http:")
  {
    assert |s| >= 7 ==> s[..7][..5] == s[..5] && s[..7][5] == s[5];
    assert |s| >= 5 ==> s[..5][0] == s[0] && s[..5][1] == s[1] && s[..5][2] == s[2] && s[..5][3] == s[3] && s[..5][4] == s[4];
    assert HTTP[..5] == "http:" && HTTP[5] == '/';
  }

  lemma EndpointBytes(e: string)
    requires MatchEndpoint(e).Some?
    ensures e != "" && ' ' !in e && '/' !in e
    ensures StartsWith(e, "http:") ==> |e| >= 6 && IsDigit(e[5])
  {
    hide StartsWith;
    SchemeBytes(e);
    match Find(e, ":")
    case None => HostBytes(e);
    case Some(k) =>
      var host, port := e[..k], e[k + 1..];
      HostBytes(host);
      PortBytes(port);
      OccursHead(e, ":", k);
      assert e == host + ":" + port;
      assert forall i :: 0 <= i < k ==> e[i] == host[i] != ':';
      assert e[k + 1] == port[0] && IsDigit(port[0]);
  }

  /** Without a scheme the target is not taken for one that has it. */
  lemma NotScheme(endpoint: string, path: string)
    requires endpoint == "" || MatchEndpoint(endpoint).Some?
    requires path == "" || path[0] == '/'
    ensures !StartsWith(endpoint + path, HTTP)
  {
    var t, n := endpoint + path, |endpoint|;
    if endpoint != "" { EndpointBytes(endpoint); }
    assert n >= 5 && StartsWith(t, "http:") ==> StartsWith(endpoint, "http:") by {
      assert n >= 5 ==> endpoint[..5] == t[..5];
    }
    SchemeBytes(t);
    hide MatchEndpoint, StartsWith;
    assert n < |t| ==> t[n] == path[0];
    assert forall i :: 0 <= i < n ==> t[i] == endpoint[i];
  }

  lemma LineParses(line: string, m: string, scheme: string, endpoint: string, path: string, v: string)
    requires IsLine(line, m, scheme, endpoint, path, v)
    ensures Parses(line)
    ensures ValueAfter(line[..Find(line, " ").value], line[Find(line, " ").value + 1..]) == ReadAs(m, endpoint, path, v)
  {
    hide MatchEndpoint, IsVersion, Find, FindFrom, VersionText, DecValue, ParsesAfter, ValueAfter, ReadAs;
    FindSpace(line, m, scheme + endpoint + path + " " + VersionText(v));
    TargetFound(m, scheme, endpoint, path, VersionText(v));
    AfterFound(m, scheme, endpoint, path, v);
  }

  lemma TargetFound(m: string, scheme: string, endpoint: string, path: string, rest: string)
    requires ' ' !in path && (scheme == "" || (scheme == HTTP && m != CONNECT))
    requires endpoint == "" || MatchEndpoint(endpoint).Some?
    requires path == "" || (m != CONNECT && path[0] == '/')
    ensures TargetParts(m, scheme + endpoint + path + " " + rest) == Some((|scheme|, |endpoint + path|, |endpoint|))
  {
    hide MatchEndpoint, Find, FindFrom, StartsWith, TargetParts;
    var svl := scheme + endpoint + path + " " + rest;
    if endpoint != "" { EndpointBytes(endpoint); }
    SpaceFound(scheme, endpoint + path, rest);
    SchemeFound(scheme, endpoint, path, rest);
    SlashFound(endpoint, path);
    Grouped(scheme, endpoint, path, rest);
    PartsFound(m, svl, scheme, endpoint, path);
  }

  lemma Grouped(scheme: string, endpoint: string, path: string, rest: string)
    ensures scheme + endpoint + path + " " + rest == scheme + (endpoint + path) + " " + rest
  {
  }

  lemma PartsFound(m: string, svl: string, scheme: string, endpoint: string, path: string)
    requires scheme == "" || scheme == HTTP
    requires Find(svl, " ") == Some(|scheme + (endpoint + path)|) && |scheme + (endpoint + path)| < |svl|
    requires svl[|scheme|..|scheme + (endpoint + path)|] == endpoint + path
    requires m != CONNECT && StartsWith(svl, HTTP) && |scheme + (endpoint + path)| >= 7 <==> scheme == HTTP
    requires Find(endpoint + path, "/") == if path == "" then None else Some(|endpoint|)
    requires path == "" || m != CONNECT
    ensures TargetParts(m, svl) == Some((|scheme|, |endpoint + path|, |endpoint|))
  {
    hide Find, FindFrom, StartsWith;
  }

  lemma SpaceFound(scheme: string, text: string, rest: string)
    requires ' ' !in text && (scheme == "" || scheme == HTTP)
    ensures var svl := scheme + text + " " + rest;
            && Find(svl, " ") == Some(|scheme + text|) && |scheme + text| < |svl|
            && svl[|scheme|..|scheme + text|] == text
  {
    hide Find, FindFrom;
    FindSpace(scheme + text + " " + rest, scheme + text, rest);
  }

  lemma SchemeFound(scheme: string, endpoint: string, path: string, rest: string)
    requires (scheme == "" || scheme == HTTP) && (endpoint == "" || MatchEndpoint(endpoint).Some?)
    requires path == "" || path[0] == '/'
    ensures var svl := scheme + (endpoint + path) + " " + rest;
            StartsWith(svl, HTTP) && |scheme + (endpoint + path)| >= 7 <==> scheme == HTTP
  {
    hide MatchEndpoint;
    NotScheme(endpoint, path);
    var text := endpoint + path;
    var svl := scheme + text + " " + rest;
    if scheme == "" {
      assert |text| >= 7 ==> svl[..7] == text[..7];
    } else {
      assert svl[..7] == HTTP;
    }
  }

  lemma SlashFound(endpoint: string, path: string)
    requires '/' !in endpoint && (path == "" || path[0] == '/')
    ensures Find(endpoint + path, "/") == if path == "" then None else Some(|endpoint|)
  {
    hide Find, FindFrom;
    var text := endpoint + path;
    if path == "" {
      assert text == endpoint;
      NoByte(text, "/");
    } else {
      assert text == endpoint + "/" + path[1..];
      FindAfter(text, "/", endpoint, path[1..], '/');
    }
  }

  lemma AfterFound(m: string, scheme: string, endpoint: string, path: string, v: string)
    requires IsVersion(v) && (endpoint == "" || (MatchEndpoint(endpoint).Some? && PortFits(MatchEndpoint(endpoint))))
    requires var svl := scheme + endpoint + path + " " + VersionText(v);
             TargetParts(m, svl) == Some((|scheme|, |endpoint + path|, |endpoint|))
    ensures ParsesAfter(m, scheme + endpoint + path + " " + VersionText(v))
    ensures ValueAfter(m, scheme + endpoint + path + " " + VersionText(v)) == ReadAs(m, endpoint, path, v)
  {
    hide IsVersion, Find, FindFrom, VersionText, DecValue, TargetParts, IsHost, IsPort, UrlOf, ParamOf, PortAt, HostOf;
    var svl := scheme + endpoint + path + " " + VersionText(v);
    var rest := endpoint + path + " " + VersionText(v);
    assert svl == scheme + rest && svl[|scheme|..] == rest;
    assert rest[..|endpoint|] == endpoint && rest[|endpoint + path| + 1..] == VersionText(v);
    NoByte("", ":");
    assert rest == endpoint + (path + " " + VersionText(v)) && rest[|endpoint|..] == path + " " + VersionText(v);
    NoHost();
    StageVersion(path, v);
    hide MatchEndpoint;
  }

  lemma NoHost()
    ensures !IsHost("")
  {
  }

  /** Behind the only line end there is nothing, so the version is all that follows HTTP/. */
  lemma VersionAtEnd(line: string, k: nat)
    requires |line| >= 2 && Find(line, CRLF) == Some(|line| - 2) && k <= |line| && EndsWithVersion(line[k..])
    ensures var v := line[k + 5..][..|line| - k - 7];
            |line| >= k + 7 && IsVersion(v) && line[k..] == VersionText(v) && ' ' !in line[k..]
  {
    hide IsVersion;
    var svl := line[k..];
    var x := svl[5..];
    var j := Find(x, CRLF).value;
    assert x == line[k + 5..];
    EndOnly(line);
    OnlyLineEnd(line, k + 5, j);
    hide Find, FindFrom;
    var v := x[..j];
    VersionIs(svl, x, v);
    VersionBytes(v);
  }

  lemma EndOnly(line: string)
    requires |line| >= 2 && Find(line, CRLF) == Some(|line| - 2)
    ensures OneLineEnd(line)
  {
  }

  lemma VersionIs(svl: string, x: string, v: string)
    requires StartsWith(svl, "HTTP/") && x == svl[5..] && |v| + 2 == |x| && v == x[..|v|] && OccursAt(x, CRLF, |v|)
    ensures svl == VersionText(v) && (' ' !in v ==> ' ' !in svl)
  {
    assert x == v + CRLF && svl == "HTTP/" + x;
  }

  lemma ParsedIsLine(line: string)
    requires |line| >= 2 && Find(line, CRLF) == Some(|line| - 2) && Parses(line)
    ensures Accepts(line)
  {
    hide IsVersion, Find, FindFrom, VersionText, EndsWithVersion, AfterTarget, Parses, PortFits, MatchEndpoint, Accepts;
    var k, skip, uriEnd, serviceEnd := ParsedParts(line);
    var m, svl := line[..k], line[k + 1..];
    var rest := svl[skip..];
    var v := VersionFound(line, k + 1 + skip, rest, uriEnd, serviceEnd);
    Assembled(line, k, skip, uriEnd, serviceEnd, VersionText(v));
    LineFrom(line, m, svl[..skip], rest[..serviceEnd], rest[serviceEnd..uriEnd], v);
  }

  lemma LineFrom(line: string, m: string, scheme: string, endpoint: string, path: string, v: string)
    requires line == m + " " + (scheme + endpoint + path + " " + VersionText(v))
    requires ' ' !in m && ' ' !in path && IsVersion(v) && (scheme == "" || (scheme == HTTP && m != CONNECT))
    requires endpoint == "" || (MatchEndpoint(endpoint).Some? && PortFits(MatchEndpoint(endpoint)))
    requires path == "" || (m != CONNECT && path[0] == '/')
    ensures Accepts(line)
  {
    assert IsLine(line, m, scheme, endpoint, path, v);
  }

  lemma ParsedParts(line: string) returns (k: nat, skip: nat, uriEnd: nat, serviceEnd: nat)
    requires Parses(line)
    ensures k < |line| && line[k] == ' ' && ' ' !in line[..k]
    ensures var m, svl := line[..k], line[k + 1..];
            && serviceEnd <= uriEnd && skip + uriEnd < |svl| && svl[skip..][uriEnd] == ' '
            && (svl[..skip] == "" || (svl[..skip] == HTTP && m != CONNECT))
            && ' ' !in svl[skip..][serviceEnd..uriEnd]
            && (serviceEnd < uriEnd ==> m != CONNECT && svl[skip..][serviceEnd] == '/')
            && PortFits(MatchEndpoint(svl[skip..][..serviceEnd]))
            && EndsWithVersion(AfterTarget(svl[skip..], uriEnd, serviceEnd))
  {
    hide MatchEndpoint, Find, FindFrom, TargetParts, EndsWithVersion, AfterTarget, PortFits;
    k := Find(line, " ").value;
    var m, svl := line[..k], line[k + 1..];
    NoSpaceBefore(line, k);
    PartsAre(m, svl);
    skip, uriEnd, serviceEnd := TargetParts(m, svl).value.0, TargetParts(m, svl).value.1, TargetParts(m, svl).value.2;
  }

  /** An endpoint that is there and does not match leaves a space before the line end, which no
      version has; so the version follows the target. */
  lemma VersionFound(line: string, at: nat, rest: string, uriEnd: nat, serviceEnd: nat) returns (v: string)
    requires |line| >= 2 && Find(line, CRLF) == Some(|line| - 2) && at <= |line| && rest == line[at..]
    requires serviceEnd <= uriEnd < |rest| && rest[uriEnd] == ' ' && EndsWithVersion(AfterTarget(rest, uriEnd, serviceEnd))
    ensures IsVersion(v) && rest[uriEnd + 1..] == VersionText(v)
    ensures rest[..serviceEnd] == "" || MatchEndpoint(rest[..serviceEnd]).Some?
  {
    hide MatchEndpoint, IsVersion, Find, FindFrom, VersionText, EndsWithVersion;
    var matched := MatchEndpoint(rest[..serviceEnd]).Some?;
    var cut := if matched then uriEnd + 1 else uriEnd - serviceEnd + 1;
    assert rest[cut..] == line[at + cut..];
    VersionAtEnd(line, at + cut);
    SpaceThere(rest, cut, uriEnd);
    v := line[at + cut + 5..][..|line| - (at + cut) - 7];
  }

  lemma SpaceThere(s: string, cut: nat, i: nat)
    requires i < |s| && s[i] == ' '
    ensures cut <= i ==> ' ' in s[cut..]
  {
    if cut <= i { assert s[cut..][i - cut] == ' '; }
  }

  lemma Assembled(line: string, k: nat, skip: nat, uriEnd: nat, serviceEnd: nat, version: string)
    requires k < |line| && line[k] == ' ' && skip <= |line[k + 1..]| && serviceEnd <= uriEnd < |line[k + 1..][skip..]|
    requires line[k + 1..][skip..][uriEnd] == ' ' && line[k + 1..][skip..][uriEnd + 1..] == version
    ensures var svl := line[k + 1..]; var rest := svl[skip..];
            line == line[..k] + " " + (svl[..skip] + rest[..serviceEnd] + rest[serviceEnd..uriEnd] + " " + version)
  {
    var svl := line[k + 1..];
    var rest := svl[skip..];
    AtSpace(line, k);
    SplitAt(svl, skip);
    AtSpace(rest, uriEnd);
    TwoParts(rest, serviceEnd, uriEnd);
    Seqs.JoinFive(svl[..skip], rest[..serviceEnd], rest[serviceEnd..uriEnd], " ", version);
  }

  lemma SplitAt(s: string, n: nat)
    requires n <= |s|
    ensures s == s[..n] + s[n..]
  {
  }

  lemma AtSpace(s: string, n: nat)
    requires n < |s| && s[n] == ' '
    ensures s == s[..n] + " " + s[n + 1..]
  {
  }

  lemma TwoParts(s: string, a: nat, b: nat)
    requires a <= b <= |s|
    ensures s[..b] == s[..a] + s[a..b]
  {
  }

  lemma OneByteAt(s: string, i: nat)
    requires i < |s|
    ensures OccursAt(s, [s[i]], i)
  {
  }

  lemma NoSpaceBefore(s: string, k: nat)
    requires Find(s, " ") == Some(k)
    ensures k < |s| && s[k] == ' ' && ' ' !in s[..k]
  {
    OccursHead(s, " ", k);
    forall i | 0 <= i < k ensures s[i] != ' ' {
      OneByteAt(s, i);
    }
  }

  /** The parts found are a scheme, something without a slash, and a path. */
  lemma PartsAre(m: string, svl: string)
    requires TargetParts(m, svl).Some?
    ensures var (skip, uriEnd, serviceEnd) := TargetParts(m, svl).value;
            && serviceEnd <= uriEnd && skip + uriEnd < |svl| && svl[skip..][uriEnd] == ' '
            && (skip == 0 || (svl[..skip] == HTTP && m != CONNECT))
            && ' ' !in svl[skip..][serviceEnd..uriEnd]
            && (serviceEnd < uriEnd ==> m != CONNECT && svl[skip..][serviceEnd] == '/')
  {
    var uri := Find(svl, " ").value;
    NoSpaceBefore(svl, uri);
    var (skip, uriEnd, serviceEnd) := TargetParts(m, svl).value;
    var t := svl[skip..uri];
    PathIn(svl, skip, serviceEnd, uri);
    if serviceEnd < uriEnd { OccursHead(t, "/", serviceEnd); }
  }

  lemma PathIn(s: string, from: nat, at: nat, to: nat)
    requires from + at <= to <= |s| && ' ' !in s[..to]
    ensures s[from..][at..to - from] == s[from + at..to] == s[from..to][at..] && ' ' !in s[from + at..to]
    ensures from + at < to ==> s[from..][at] == s[from..to][at]
  {
    assert forall i :: from + at <= i < to ==> s[i] == s[..to][i];
  }

  // ---------- the cursor on a printed line ----------

  lemma FindSpace(s: string, word: string, rest: string)
    requires s == word + " " + rest && ' ' !in word
    ensures Find(s, " ") == Some(|word|) && |word| + 1 <= |s|
    ensures s[..|word|] == word && s[|word| + 1..] == rest
  {
    FindAfter(s, " ", word, rest, ' ');
  }

  lemma NoByte(s: string, d: string)
    requires |d| == 1 && d[0] !in s
    ensures Find(s, d) == None
  {
    forall i ensures !OccursAt(s, d, i) {
      if OccursAt(s, d, i) { OccursHead(s, d, i); }
    }
  }

  lemma HostBytes(s: string)
    requires IsHost(s)
    ensures ':' !in s && '/' !in s && ' ' !in s && '\r' !in s
  {
  }

  lemma PortBytes(s: string)
    requires IsPort(s)
    ensures AllDigits(s) && ':' !in s && '/' !in s && ' ' !in s && '\r' !in s
  {
  }

  lemma EndpointMatches(host: string, port: Option<string>)
    requires ValidEndpoint(host, port)
    ensures MatchEndpoint(PrintEndpoint(host, port)) == Some((host, port))
    ensures '/' !in PrintEndpoint(host, port) && Token(PrintEndpoint(host, port))
  {
    HostBytes(host);
    match port
    case None => NoByte(host, ":");
    case Some(p) =>
      PortBytes(p);
      var s := PrintEndpoint(host, port);
      FindAfter(s, ":", host, p, ':');
      assert s[..|host|] == host && s[|host| + 1..] == p;
  }

  lemma VersionBytes(v: string)
    requires IsVersion(v)
    ensures Token(v)
  {
    var k := Find(v, ".").value;
    OccursHead(v, ".", k);
    forall c | c in v ensures c == '.' || IsDigit(c) {
      var i :| 0 <= i < |v| && v[i] == c;
      if i < k { assert v[i] == v[..k][i]; }
      if i > k { assert v[i] == v[k + 1..][i - k - 1]; }
    }
  }

  /** What the parser takes as the line: short, or ending with its only line end. */
  lemma LineShape(msg: string)
    ensures var l := Take(msg, LineLength(msg));
            |l| <= 1 || OneLineEnd(l)
  {
    var l := Take(msg, LineLength(msg));
    if Find(msg, CRLF).Some? {
      var n := Find(msg, CRLF).value;
      assert msg == l + msg[|l|..];
      forall k ensures OccursAt(l, CRLF, k) <==> k == n {
        if k + 2 <= |l| { OccursInPrefix(l, msg[|l|..], CRLF, k); }
      }
    }
  }

  /** The line ends with its only line end. */
  ghost predicate OneLineEnd(line: string) {
    |line| >= 2 && forall e :: OccursAt(line, CRLF, e) <==> e == |line| - 2
  }

  /** A space is not part of the line end, so two bytes follow it. */
  lemma SpaceInside(l: string, k: nat, i: nat)
    requires |l| <= 1 || OneLineEnd(l)
    requires k <= |l| && OccursAt(l[k..], " ", i) && k > 0
    ensures k + i + 3 <= |l|
  {
    OccursHead(l[k..], " ", i);
    assert OccursAt(l, CRLF, |l| - 2);
    OccursHead(l, CRLF, |l| - 2);
    OccursByte(l, CRLF, |l| - 2, 1);
  }

  lemma SchemeHasNoSpace(s: string, i: nat)
    requires StartsWith(s, HTTP) && OccursAt(s, " ", i)
    ensures i >= 7
  {
    assert forall e :: 0 <= e < 7 ==> s[e] == s[..7][e] == HTTP[e];
    OccursHead(s, " ", i);
  }

  lemma OnlyLineEnd(l: string, k: nat, i: nat)
    requires OneLineEnd(l)
    requires k <= |l| && OccursAt(l[k..], CRLF, i)
    ensures k + i + 2 == |l|
  {
    assert l == l[..k] + l[k..];
    OccursInSuffix(l[..k], l[k..], CRLF, k + i);
  }

  // ---------- the cursor on a valid line, stage by stage ----------

  function VersionText(v: string): string { "HTTP/" + v + CRLF }

  function AfterMethod(t: Target, v: string): string { PrintTarget(t) + " " + VersionText(v) }

  function EndpointOf(t: Target): string {
    if t.Origin? then "" else PrintEndpoint(t.host, t.port)
  }

  function PathOf(t: Target): string {
    if t.Authority? then "" else t.path
  }

  function AfterScheme(t: Target, v: string): string {
    EndpointOf(t) + PathOf(t) + " " + VersionText(v)
  }

  lemma TargetBytes(m: string, t: Target, v: string)
    requires ValidLine(m, t, v)
    ensures Token(PrintTarget(t)) && Token(v) && Token(PathOf(t)) && Token(EndpointOf(t)) && '/' !in EndpointOf(t)
  {
    VersionBytes(v);
    if !t.Origin? { EndpointMatches(t.host, t.port); }
    assert Token(HTTP);
  }

  lemma StageLine(msg: string, m: string, t: Target, v: string, tail: string)
    requires ValidLine(m, t, v) && msg == PrintLine(m, t, v) + tail
    ensures var l := Take(msg, LineLength(msg));
            && l == m + " " + AfterMethod(t, v) && Find(l, " ") == Some(|m|)
            && |m| + 1 <= |l| && l[..|m|] == m && l[|m| + 1..] == AfterMethod(t, v)
  {
    TargetBytes(m, t, v);
    hide PrintTarget, IsVersion, LineLength, Find, FindFrom;
    LineText(m, PrintTarget(t), v, tail);
    LineLengthIs(msg, |m + " " + PrintTarget(t) + " " + "HTTP/" + v|);
    FindSpace(PrintLine(m, t, v), m, AfterMethod(t, v));
  }

  lemma LineText(m: string, target: string, v: string, tail: string)
    requires Token(m) && Token(target) && Token(v)
    ensures var text := m + " " + target + " " + "HTTP/" + v;
            && Find(text + CRLF + tail, CRLF) == Some(|text|)
            && Take(text + CRLF + tail, |text| + 2) == text + CRLF
            && text + CRLF == m + " " + (target + " " + ("HTTP/" + v + CRLF))
  {
    var text := m + " " + target + " " + "HTTP/" + v;
    assert '\r' !in text;
    FindAfter(text + CRLF + tail, CRLF, text, tail, '\r');
  }

  lemma LineLengthIs(msg: string, k: nat)
    requires Find(msg, CRLF) == Some(k)
    ensures LineLength(msg) == k + 2
  {
  }

  lemma StageTarget(m: string, t: Target, v: string)
    requires ValidLine(m, t, v)
    ensures Find(AfterMethod(t, v), " ") == Some(|PrintTarget(t)|)
    ensures |PrintTarget(t)| == (if t.Absolute? then 7 else 0) + |EndpointOf(t)| + |PathOf(t)|
  {
    TargetBytes(m, t, v);
    hide Find, FindFrom, IsVersion, IsHost, IsPort, DecValue;
    FindSpace(AfterMethod(t, v), PrintTarget(t), VersionText(v));
  }

  lemma StageScheme(m: string, t: Target, v: string)
    requires ValidLine(m, t, v)
    ensures var s := AfterMethod(t, v);
            && (t.Absolute? ==> StartsWith(s, HTTP) && s[7..] == AfterScheme(t, v))
            && (t.Origin? ==> !StartsWith(s, HTTP))
            && (!t.Absolute? ==> s == AfterScheme(t, v))
  {
    hide Find, FindFrom, IsVersion, IsHost, IsPort, DecValue, VersionText, PrintEndpoint;
    var s := AfterMethod(t, v);
    match t
    case Absolute(host, port, path) =>
      Seqs.Regroup(HTTP, "", PrintEndpoint(host, port), path, " ", VersionText(v));
      assert s == HTTP + AfterScheme(t, v);
    case Origin(path) =>
      assert "" + path == path;
      assert s[0] == '/';
      if StartsWith(s, HTTP) { SchemeStart(s); }
    case Authority(host, port) =>
      assert PrintEndpoint(host, port) + "" == PrintEndpoint(host, port);
  }

  lemma SchemeStart(s: string)
    requires StartsWith(s, HTTP)
    ensures s[0] == 'h'
  {
    assert s[..7][0] == s[0];
  }

  lemma StageSlash(m: string, t: Target, v: string)
    requires ValidLine(m, t, v) && !t.Authority?
    ensures var n := |EndpointOf(t)| + |PathOf(t)|;
            && n <= |AfterScheme(t, v)|
            && Find(AfterScheme(t, v)[..n], "/") == if PathOf(t) == "" then None else Some(|EndpointOf(t)|)
  {
    hide Find, FindFrom, EndpointOf, PathOf, ValidLine, VersionText, MatchEndpoint, PortFits;
    TargetBytes(m, t, v);
    ValidEnd(m, t, v);
    SlashFound(EndpointOf(t), PathOf(t));
    FrontOf(EndpointOf(t), PathOf(t), VersionText(v));
  }

  lemma FrontOf(e: string, p: string, rest: string)
    ensures |e| + |p| <= |e + p + " " + rest| && (e + p + " " + rest)[..|e| + |p|] == e + p
  {
  }

  lemma StageVersion(path: string, v: string)
    requires IsVersion(v)
    ensures var s := path + " " + VersionText(v);
            && Take(s, |path|) == path && s[|path| + 1..] == VersionText(v)
    ensures var s := VersionText(v);
            && s[..|s| - 2] == "HTTP/" + v && StartsWith(s, "HTTP/") && s[5..] == v + CRLF
            && Find(s[5..], CRLF) == Some(|v|) && s[5..][..|v|] == v
  {
    VersionBytes(v);
    assert v + CRLF == v + CRLF + "";
    FindAfter(v + CRLF, CRLF, v, "", '\r');
  }

  /** Which form a valid line has. */
  lemma FormIs(m: string, t: Target, v: string)
    requires ValidLine(m, t, v)
    ensures IsVersion(v) && (t.Authority? <==> m == CONNECT)
    ensures t.Origin? ==> EndpointOf(t) == "" && PathOf(t) == t.path != ""
    ensures t.Absolute? ==> PathOf(t) == t.path
    ensures t.Authority? ==> PathOf(t) == ""
  {
  }

  lemma Dropped(line: string, k: nat, n: nat, svl: string)
    requires k <= |line| && svl == line[k..] && n <= |svl|
    ensures k + n <= |line| && svl[n..] == line[k + n..]
  {
  }

  lemma DropMore(line: string, k: nat, n: nat)
    requires k + n <= |line|
    ensures line[k..][n..] == line[k + n..]
  {
  }

  /** Where the target ends, and its endpoint; the scheme, if there, is to be skipped. */
  method SplitTarget(svl0: string, methodStr: string, ghost line: string, ghost k: nat, ghost m: string, ghost t: Target, ghost v: string)
    returns (r: Option<(nat, nat, nat)>)
    requires 0 < k <= |line| && svl0 == line[k..]
    requires |line| <= 1 || OneLineEnd(line)
    ensures r.Some? ==> var (skip, uriEnd, serviceEnd) := r.value;
                        serviceEnd <= uriEnd && k + skip + uriEnd + 3 <= |line|
    ensures r == TargetParts(methodStr, svl0)
    ensures ValidLine(m, t, v) && methodStr == m && svl0 == AfterMethod(t, v) ==>
              && r == Some((if t.Absolute? then 7 else 0, |EndpointOf(t)| + |PathOf(t)|, |EndpointOf(t)|))
              && svl0[r.value.0..] == AfterScheme(t, v)
  {
    hide Find, FindFrom, OccursAt, PrintTarget, AfterMethod, AfterScheme, EndpointOf, PathOf, ValidLine;
    var svl := svl0;
    if ValidLine(m, t, v) {
      StageTarget(m, t, v);
      StageScheme(m, t, v);
      FormIs(m, t, v);
      if !t.Authority? { StageSlash(m, t, v); }
    }
    var uri := Find(svl, " ");
    if uri == None {
      return None;
    }
    SpaceInside(line, k, uri.value);
    var skip, uriEnd := 0, uri.value;
    var serviceEnd := uriEnd;
    if methodStr != CONNECT {
      if StartsWith(svl, HTTP) {
        SchemeHasNoSpace(svl, uriEnd);
        assert svl[7..][..uriEnd - 7] == svl[7..uriEnd];
        svl := svl[7..];
        skip := 7;
        uriEnd := uriEnd - 7;
        serviceEnd := serviceEnd - 7;
      }
      var slash := Find(svl[..uriEnd], "/");
      if slash.Some? {
        SlashLength(svl[..uriEnd], slash.value);
        serviceEnd := slash.value;
      }
    }
    return Some((skip, uriEnd, serviceEnd));
  }

  lemma LineAccepted(msg: string)
    ensures var line := Take(msg, LineLength(msg)); Parses(line) <==> Accepts(line)
  {
    hide Find, FindFrom, ParsesAfter, IsVersion;
    var line := Take(msg, LineLength(msg));
    if Find(msg, CRLF).Some? {
      FirstLine(msg);
      AcceptedExactly(line);
    } else {
      ShortLine(line);
    }
  }

  lemma FirstLine(msg: string)
    requires Find(msg, CRLF).Some?
    ensures var line := Take(msg, LineLength(msg)); |line| >= 2 && Find(line, CRLF) == Some(|line| - 2)
  {
    var line, n := Take(msg, LineLength(msg)), Find(msg, CRLF).value;
    assert msg == line + msg[|line|..];
    forall e | 0 <= e <= n ensures OccursAt(line, CRLF, e) == OccursAt(msg, CRLF, e) {
      OccursInPrefix(line, msg[|line|..], CRLF, e);
    }
    FindIs(line, CRLF, n);
  }

  lemma ShortLine(line: string)
    requires |line| <= 1
    ensures !Parses(line) && !Accepts(line)
  {
    hide IsVersion;
    if line != "" { NoByte(line[1..], " "); }
    NoByte("", " ");
    assert forall k :: OccursAt(line, " ", k) ==> k == 0 && line[1..] == "";
  }

  lemma EmptyLine(msg: string)
    ensures msg == "" ==> Find(Take(msg, LineLength(msg)), " ") == None
  {
    if msg == "" { NoByte("", " "); }
  }

  method ParseLine(msg: string, ghost m: string, ghost t: Target, ghost v: string, ghost tail: string)
    returns (r: Option<Request>)
    ensures r.Some? ==> Means(Take(msg, LineLength(msg)), r.value)
    ensures ValidLine(m, t, v) && msg == PrintLine(m, t, v) + tail ==> r == Some(Meaning(m, t, v))
    ensures ValidLine(m, t, v) && msg == PrintLine(m, t, v) + tail && !t.Origin? ==>
              r.value.host == t.host && r.value.port == if t.port.Some? then t.port.value else "80"
    ensures msg == "" ==> r == None
    ensures r.Some? <==> Accepts(Take(msg, LineLength(msg)))
  {
    hide Find, FindFrom, OccursAt, LineLength, AfterMethod, PrintLine, ValidLine, Meaning, ParsesAfter, ValueAfter, IsLine, ReadAs;
    LineAccepted(msg);
    LineSays(m, t, v);
    var svl := Take(msg, LineLength(msg));
    ghost var line := svl;
    LineShape(msg);
    EmptyLine(msg);
    if ValidLine(m, t, v) && msg == PrintLine(m, t, v) + tail {
      StageLine(msg, m, t, v, tail);
      ValidIsLine(m, t, v);
    }
    var methodEnd := Find(svl, " ");
    if methodEnd == None {
      return None;
    }
    SpaceLength(svl, methodEnd.value);
    var methodStr := svl[..methodEnd.value];
    svl := svl[methodEnd.value + 1..];
    r := ParseAfterMethod(svl, methodStr, line, methodEnd.value + 1, m, t, v);
    if r.Some? { MeansIt(line, r.value); }
  }

  /** A valid line is one of these, and read as what it means. */
  lemma ValidIsLine(m: string, t: Target, v: string)
    requires ValidLine(m, t, v)
    ensures IsLine(m + " " + AfterMethod(t, v), m, SchemeOf(t), EndpointOf(t), PathOf(t), v)
    ensures ReadAs(m, EndpointOf(t), PathOf(t), v) == Meaning(m, t, v)
  {
    TargetBytes(m, t, v);
    ValidEnd(m, t, v);
    FormIs(m, t, v);
    hide Find, FindFrom, IsVersion, IsHost, IsPort, DecValue, AllDigits, MatchEndpoint, VersionText, ParamStart, PrintEndpoint;
    assert PrintTarget(t) == SchemeOf(t) + EndpointOf(t) + PathOf(t);
  }

  function SchemeOf(t: Target): string {
    if t.Absolute? then HTTP else ""
  }

  lemma ValidEnd(m: string, t: Target, v: string)
    requires ValidLine(m, t, v)
    ensures ' ' !in m
    ensures MatchEndpoint(EndpointOf(t)) == if t.Origin? then None else Some((t.host, t.port))
    ensures PortFits(MatchEndpoint(EndpointOf(t)))
    ensures !t.Origin? ==> t.host != ""
    ensures t.Absolute? ==> PathOf(t) == "" || PathOf(t)[0] == '/'
    ensures t.Origin? ==> PathOf(t)[0] == '/'
  {
    if t.Origin? {
      NoByte("", ":");
    } else {
      EndpointMatches(t.host, t.port);
    }
  }

  /** A line as it is written. */
  function LineWritten(m: string, t: Target, v: string): string {
    var port := if !t.Origin? && t.port.Some? then ":" + t.port.value else "";
    var target := match t
                  case Absolute(host, _, path) => "http://" + host + port + path
                  case Origin(path) => path
                  case Authority(host, _) => host + port;
    m + " " + target + " HTTP/" + v + "\r\n"
  }

  /** A line as it is written, and what it says. */
  lemma LineSays(m: string, t: Target, v: string)
    ensures PrintLine(m, t, v) == LineWritten(m, t, v)
    ensures var r := Meaning(m, t, v);
            && r.methodStr == m && r.version == "HTTP/" + v
            && (!t.Origin? ==> r.host == t.host && r.port == if t.port.Some? then t.port.value else "80")
            && (t.Origin? ==> r.host == "" && r.port == "")
            && r.url == (if t.Authority? then "" else if t.Absolute? && t.path == "" then "/" else t.path)
            && (t.Authority? || (t.Absolute? && t.path == "") ==> r.paramStart == None)
    ensures ValidLine(m, t, v) ==> (t.Authority? <==> m == "CONNECT")
    ensures !t.Authority? && (t.Origin? || t.path != "") ==>
              var k := Meaning(m, t, v).paramStart;
              k.Some? && k.value <= |t.path| && '?' !in t.path[..k.value] && (k.value < |t.path| ==> t.path[k.value] == '?')
  {
    hide ParamStart, PrintLine, LineWritten;
    if !t.Authority? { QueryAt(t.path); }
    TargetWritten(t);
    LineIs(m, t, v);
  }

  lemma TargetWritten(t: Target)
    ensures var port := if !t.Origin? && t.port.Some? then ":" + t.port.value else "";
            PrintTarget(t) == match t
                              case Absolute(host, _, path) => "http://" + host + port + path
                              case Origin(path) => path
                              case Authority(host, _) => host + port
  {
    match t
    case Absolute(host, port, path) =>
      EndpointWritten(host, port);
      hide PrintEndpoint;
      Seqs.Join("http://", host, if port.Some? then ":" + port.value else "");
    case Origin(path) =>
    case Authority(host, port) => EndpointWritten(host, port);
  }

  lemma EndpointWritten(host: string, port: Option<string>)
    ensures PrintEndpoint(host, port) == host + if port.Some? then ":" + port.value else ""
  {
  }

  lemma LineIs(m: string, t: Target, v: string)
    ensures PrintLine(m, t, v) == LineWritten(m, t, v)
  {
    hide PrintTarget;
    TargetWritten(t);
    Ends(m + " " + PrintTarget(t), v);
  }

  lemma Ends(s: string, v: string)
    ensures s + " " + "HTTP/" + v + CRLF == s + " HTTP/" + v + "\r\n"
  {
    assert s + " " + "HTTP/" == s + " HTTP/";
  }

  /** The query starts at the first question mark. */
  lemma QueryAt(path: string)
    ensures var k := ParamStart(path);
            k <= |path| && '?' !in path[..k] && (k < |path| ==> path[k] == '?')
  {
    var k := ParamStart(path);
    match Find(path, "?") {
      case None => NoneThere(path, "?");
      case Some(i) => OccursHead(path, "?", i);
    }
    forall i | 0 <= i < k ensures path[i] != '?' { OneByteAt(path, i); }
  }

  lemma NoneThere(s: string, d: string)
    requires Find(s, d).None? && |d| == 1
    ensures d[0] !in s
  {
    forall i | 0 <= i < |s| ensures s[i] != d[0] {
      OneByteAt(s, i);
      assert d == [d[0]];
    }
  }

  lemma MeansIt(line: string, r: Request)
    requires Accepts(line) && Parses(line) && r == ValueAfter(line[..Find(line, " ").value], line[Find(line, " ").value + 1..])
    ensures Means(line, r)
  {
    hide Find, FindFrom, ParsesAfter, ValueAfter, IsLine, ReadAs;
    forall m, scheme, endpoint, path, v | IsLine(line, m, scheme, endpoint, path, v) ensures r == ReadAs(m, endpoint, path, v) {
      LineParses(line, m, scheme, endpoint, path, v);
    }
  }

  lemma Decides(svl: string, uriEnd: nat, serviceEnd: nat)
    requires serviceEnd <= uriEnd < |svl|
    ensures ParsesRest(svl, uriEnd, serviceEnd) <==>
              && PortFits(MatchEndpoint(svl[..serviceEnd]))
              && EndsWithVersion(if MatchEndpoint(svl[..serviceEnd]).Some? then svl[uriEnd + 1..] else svl[uriEnd - serviceEnd + 1..])
  {
    hide EndsWithVersion, MatchEndpoint, PortFits;
  }

  /** The line after the method and its space: target, version, line end. */
  method ParseAfterMethod(svl0: string, methodStr: string, ghost line: string, ghost k0: nat,
                          ghost m: string, ghost t: Target, ghost v: string)
    returns (r: Option<Request>)
    requires 0 < k0 <= |line| && svl0 == line[k0..]
    requires |line| <= 1 || OneLineEnd(line)
    ensures r.Some? <==> ParsesAfter(methodStr, svl0)
    ensures r.Some? ==> r.value == ValueAfter(methodStr, svl0)
  {
    hide TargetParts, ParsesRest, ValueRest, OneLineEnd, AfterMethod, AfterScheme, EndpointOf, PathOf, ValidLine, OccursAt;
    var target := SplitTarget(svl0, methodStr, line, k0, m, t, v);
    if target == None {
      return None;
    }
    var (skip, uriEnd, serviceEnd) := target.value;
    Dropped(line, k0, skip, svl0);
    r := ParseRest(svl0[skip..], uriEnd, serviceEnd, methodStr, line, k0 + skip);
  }

  /** The endpoint, the path and the version. */
  method ParseRest(svl: string, uriEnd: nat, serviceEnd: nat, methodStr: string, ghost line: string, ghost k: nat)
    returns (r: Option<Request>)
    requires k + uriEnd + 3 <= |line| && svl == line[k..] && serviceEnd <= uriEnd && OneLineEnd(line)
    ensures r.Some? <==> ParsesRest(svl, uriEnd, serviceEnd)
    ensures r.Some? ==> r.value == ValueRest(methodStr, svl, uriEnd, serviceEnd)
  {
    hide ParsesRest, ValueRest, EndsWithVersion, MatchEndpoint, UrlOf, ParamOf, HostOf, PortAt, PortFits, Take, OneLineEnd;
    Decides(svl, uriEnd, serviceEnd);
    var fits, host, port, left;
    ghost var cut;
    fits, host, port, left, cut := TakeEndpoint(svl, serviceEnd, uriEnd);
    if !fits {
      return None;
    }
    var urlEnd := uriEnd - serviceEnd;
    Dropped(line, k, cut, svl);
    r := UrlAndVersion(left, urlEnd, methodStr, host, port, line, k + cut);
    if r.Some? { ValueIs(methodStr, svl, uriEnd, serviceEnd, host, port, left, r.value); }
  }

  lemma ValueIs(m: string, svl: string, uriEnd: nat, serviceEnd: nat, host: string, port: string, left: string, r: Request)
    requires ParsesRest(svl, uriEnd, serviceEnd) && serviceEnd <= uriEnd < |svl|
    requires var e := MatchEndpoint(svl[..serviceEnd]);
             host == HostOf(e) && port == PortAt(e) && left == if e.Some? then svl[serviceEnd..] else svl
    requires uriEnd - serviceEnd + 1 <= |left|
    requires var path, version := Take(left, uriEnd - serviceEnd), left[uriEnd - serviceEnd + 1..];
             |version| >= 2 && r == Request(m, host, port, UrlOf(m, host, path), ParamOf(m, path), version[..|version| - 2])
    ensures r == ValueRest(m, svl, uriEnd, serviceEnd)
  {
    hide EndsWithVersion, MatchEndpoint, PortFits, UrlOf, ParamOf, HostOf, PortAt;
    if MatchEndpoint(svl[..serviceEnd]).Some? {
      assert svl[serviceEnd..][uriEnd - serviceEnd + 1..] == svl[uriEnd + 1..];
    }
  }

  /** The endpoint at the front, if one matches: it is skipped then. */
  method TakeEndpoint(svl0: string, serviceEnd: nat, ghost uriEnd: nat)
    returns (fits: bool, host: string, port: string, svl: string, ghost cut: nat)
    requires serviceEnd <= uriEnd < |svl0|
    ensures fits <==> PortFits(MatchEndpoint(svl0[..serviceEnd]))
    ensures fits ==>
              var e := MatchEndpoint(svl0[..serviceEnd]);
              host == HostOf(e) && port == PortAt(e) && svl == if e.Some? then svl0[serviceEnd..] else svl0
    ensures fits ==>
              var n := uriEnd - serviceEnd + 1;
              && n <= |svl| && cut == (if MatchEndpoint(svl0[..serviceEnd]).Some? then uriEnd + 1 else n) <= uriEnd + 1
              && svl[n..] == svl0[cut..]
  {
    hide MatchEndpoint, DecValue, AllDigits;
    cut := if MatchEndpoint(svl0[..serviceEnd]).Some? then uriEnd + 1 else uriEnd - serviceEnd + 1;
    svl := svl0;
    host, port := "", "";
    var endpoint := MatchEndpoint(svl[..serviceEnd]);
    if endpoint.Some? {
      host := endpoint.value.0;
      if endpoint.value.1.Some? {
        port := endpoint.value.1.value;
        PortDigits(svl[..serviceEnd]);
        if DecValue(port) > 65535 {
          return false, host, port, svl, cut;
        }
      } else {
        port := "80";
      }
      DropMore(svl, serviceEnd, uriEnd - serviceEnd + 1);
      svl := svl[serviceEnd..];
    }
    fits := true;
  }

  /** The path, of `urlEnd` bytes, a space, and the version. */
  method UrlAndVersion(svl0: string, urlEnd: nat, methodStr: string, host: string, port: string, ghost line: string, ghost k: nat)
    returns (r: Option<Request>)
    requires OneLineEnd(line)
    requires urlEnd + 1 <= |svl0| && k + 2 <= |line| && svl0[urlEnd + 1..] == line[k..]
    ensures r.Some? <==> EndsWithVersion(svl0[urlEnd + 1..])
    ensures r.Some? ==>
              var path, version := Take(svl0, urlEnd), svl0[urlEnd + 1..];
              |version| >= 2
              && r.value == Request(methodStr, host, port, UrlOf(methodStr, host, path), ParamOf(methodStr, path), version[..|version| - 2])
  {
    hide Find, FindFrom, OccursAt, IsVersion, EndsWithVersion, VersionText, PathOf, ValidLine, ParamStart, IsHost, IsPort;
    var svl := svl0;
    var url, paramStart := "", None;
    if methodStr != CONNECT {
      url := Take(svl, urlEnd);
      if url == "" && host != "" {
        url := "/";
      } else if url != "" {
        paramStart := Some(ParamStart(url));
      }
    }
    svl := svl[urlEnd + 1..];
    var version := ParseVersion(svl, line, k);
    if version == None {
      return None;
    }
    return Some(Request(methodStr, host, port, url, paramStart, version.value));
  }

  /** The end of the line: the version, and nothing after its line end. */
  method ParseVersion(svl0: string, ghost line: string, ghost k: nat) returns (r: Option<string>)
    requires OneLineEnd(line)
    requires k <= |line| && svl0 == line[k..] && |svl0| >= 2
    ensures forall v :: IsVersion(v) && svl0 == VersionText(v) ==> r == Some("HTTP/" + v)
    ensures r.Some? <==> EndsWithVersion(svl0)
    ensures r.Some? ==> r.value == svl0[..|svl0| - 2]
  {
    hide Find, FindFrom, OccursAt, IsVersion, VersionText;
    forall v | IsVersion(v) && svl0 == VersionText(v)
      ensures svl0[..|svl0| - 2] == "HTTP/" + v && StartsWith(svl0, "HTTP/") && svl0[5..] == v + CRLF
      ensures Find(svl0[5..], CRLF) == Some(|v|) && svl0[5..][..|v|] == v
    {
      StageVersion("", v);
    }
    var svl := svl0;
    var version := svl[..|svl| - 2];
    if !StartsWith(svl, "HTTP/") {
      return None;
    }
    svl := svl[5..];
    var verEnd := Find(svl, CRLF);
    if verEnd == None {
      return None;
    }
    OnlyLineEnd(line, k + 5, verEnd.value);
    if !IsVersion(svl[..verEnd.value]) {
      return None;
    }
    svl := svl[verEnd.value + 2..];
    assert svl == "";
    return Some(version);
  }

  lemma SpaceLength(s: string, i: nat)
    requires OccursAt(s, " ", i)
    ensures i + 1 <= |s|
  {
  }

  lemma SlashLength(s: string, i: nat)
    requires OccursAt(s, "/", i)
    ensures i + 1 <= |s|
  {
  }

  lemma PortDigits(s: string)
    requires MatchEndpoint(s).Some? && MatchEndpoint(s).value.1.Some?
    ensures AllDigits(MatchEndpoint(s).value.1.value)
  {
    PortBytes(MatchEndpoint(s).value.1.value);
  }

  // ---------- printing the line for the service ----------

  /** The request line http_do sends on. */
  function Reprint(r: Request): string {
    r.methodStr + " " + r.url + " " + r.version + CRLF
  }

  /** A request to the proxy is printed in origin form, and means the same there. */
  lemma ReprintIsOrigin(m: string, t: Target, v: string)
    requires ValidLine(m, t, v) && t.Absolute?
    ensures var r := Meaning(m, t, v); var o := Origin(r.url);
            && Reprint(r) == PrintLine(m, o, v) && ValidLine(m, o, v)
            && Meaning(m, o, v).url == r.url && Meaning(m, o, v).host == ""
  {
    hide IsVersion, IsHost, IsPort, Find, FindFrom;
    var r := Meaning(m, t, v);
    Seqs.Regroup("", m + " " + r.url + " ", "HTTP/", v, CRLF, "");
    assert r.methodStr + " " + r.url + " " + ("HTTP/" + v) + CRLF == m + " " + r.url + " " + "HTTP/" + v + CRLF;
  }

  /** What the proxy does to a request line: parse, print, and what the service parses. */
  method ProxyLine(msg: string, ghost m: string, ghost t: Target, ghost v: string, ghost tail: string)
    returns (parsed: Option<Request>, sent: string, received: Option<Request>)
    ensures ValidLine(m, t, v) && t.Absolute? && msg == PrintLine(m, t, v) + tail ==>
              && parsed == Some(Meaning(m, t, v)) && parsed.value.host == t.host
              && parsed.value.port == (if t.port.Some? then t.port.value else "80")
              && received.Some?
              && received.value.methodStr == parsed.value.methodStr == m
              && received.value.url == parsed.value.url == (if t.path == "" then "/" else t.path)
              && received.value.version == parsed.value.version == "HTTP/" + v
  {
    hide ValidLine, PrintLine, Find, FindFrom;
    parsed := ParseLine(msg, m, t, v, tail);
    if parsed == None {
      return parsed, "", None;
    }
    sent := Reprint(parsed.value);
    if ValidLine(m, t, v) && t.Absolute? {
      ReprintIsOrigin(m, t, v);
      assert sent + "" == sent;
    }
    received := ParseLine(sent, m, Origin(parsed.value.url), v, "");
  }
}
