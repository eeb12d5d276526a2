/**
 Endpoints in configuration text: how file_conf.c reads them, how endpoint.c prints them, and
 exactly when reading back what was printed gives the same endpoint.
 */
module EndpointText {
  import opened Options
  import opened CText

  const HOST_SIZE := 256
  const PATH_SIZE := 108

  datatype Proto = Tcp | Udp | UnixStream | UnixDatagram | File | Builtin
  datatype Kind = Inet | Inet6 | UnixPath | UnixDgramPath | BuiltinName | FilePath
  datatype BuiltinUpstream = NoBuiltin | ClientAddr | Discard | Hang | HttpOk | LogConn | Close

  datatype Endpoint = Endpoint(kind: Kind, host: string, port: nat, proto: Proto, path: string, builtin: BuiltinUpstream)

  // ---- Reading -----------------------------------------------------------------------------------

  function ParsePort(s: string): (r: Option<nat>)
    ensures r.Some? ==> 1 <= r.value <= 65535
  {
    var v := Strtoul(s);
    if v.erange || s == [] || v.end != |s| || v.value == 0 || v.value > 65535 then None else Some(v.value)
  }

  datatype HostPort = HostPort(host: string, port: nat, ipv6: bool)

  function WithPort(host: string, portText: string, ipv6: bool): (r: Option<HostPort>) {
    var port := ParsePort(portText);
    if port.None? then None else Some(HostPort(host, port.value, ipv6))
  }

  function SplitHostPort(s: string): (r: Option<HostPort>) {
    if s != [] && s[0] == '[' then
      match IndexOf(s, ']')
      case None => None
      case Some(close) =>
        if close + 1 == |s| || s[close + 1] != ':' then None
        else
          var host, portText := s[1..close], s[close + 2..];
          if host == [] || |host| >= HOST_SIZE || portText == [] then None
          else WithPort(host, portText, true)
    else
      match LastIndexOf(s, ':')
      case None => None
      case Some(colon) =>
        if IndexOf(s, ':') != Some(colon) then None
        else
          var host, portText := s[..colon], s[colon + 1..];
          if |host| >= HOST_SIZE || portText == [] then None
          else WithPort(if host == [] then "0.0.0.0" else host, portText, false)
  }

  function ParseProto(s: string): (r: Option<Proto>) {
    if s == "tcp" then Some(Tcp)
    else if s == "udp" then Some(Udp)
    else if s == "unix" then Some(UnixStream)
    else if s == "unix-dgram" then Some(UnixDatagram)
    else if s == "file" then Some(File)
    else if s == "builtin" then Some(Builtin)
    else None
  }

  function BuiltinText(b: BuiltinUpstream): string {
    match b
    case ClientAddr => "client_addr"
    case Discard => "discard"
    case Hang => "hang"
    case HttpOk => "http_ok"
    case LogConn => "log_conn"
    case Close => "close"
    case NoBuiltin => "none"
  }

  function ParseBuiltin(s: string): (r: Option<BuiltinUpstream>)
    ensures r.Some? ==> BuiltinText(r.value) == s
  {
    if s == "client_addr" then Some(ClientAddr)
    else if s == "discard" then Some(Discard)
    else if s == "hang" then Some(Hang)
    else if s == "http_ok" then Some(HttpOk)
    else if s == "log_conn" then Some(LogConn)
    else if s == "close" then Some(Close)
    else None
  }

  function PathEndpoint(kind: Kind, proto: Proto, s: string): (r: Option<Endpoint>) {
    if s == [] || |s| >= PATH_SIZE then None else Some(Endpoint(kind, "", 0, proto, s, NoBuiltin))
  }

  function ParseEndpoint(proto: Proto, s: string): (r: Option<Endpoint>)
    ensures r.Some? ==> r.value.proto == proto
  {
    match proto
    case Tcp | Udp =>
      (match SplitHostPort(s)
       case None => None
       case Some(hp) => Some(Endpoint(if hp.ipv6 then Inet6 else Inet, hp.host, hp.port, proto, "", NoBuiltin)))
    case UnixStream => PathEndpoint(UnixPath, proto, s)
    case UnixDatagram => PathEndpoint(UnixDgramPath, proto, s)
    case File => PathEndpoint(FilePath, proto, s)
    case Builtin =>
      (match ParseBuiltin(s)
       case None => None
       case Some(b) => Some(Endpoint(BuiltinName, "", 0, proto, "", b)))
  }

  // ---- Printing ----------------------------------------------------------------------------------

  function Text(e: Endpoint): string {
    match e.kind
    case Inet => e.host + ":" + Decimal(e.port)
    case Inet6 => "[" + e.host + "]:" + Decimal(e.port)
    case UnixPath => "unix:" + e.path
    case UnixDgramPath => "unix-dgram:" + e.path
    case BuiltinName => "builtin://" + BuiltinText(e.builtin)
    case FilePath => "file://" + e.path
  }

  /** snprintf into a buffer of n chars: what does not fit before the NUL is lost. */
  function EndpointToString(e: Endpoint, n: nat): (r: Option<string>) {
    if n == 0 then None
    else Some(if |Text(e)| < n then Text(e) else Text(e)[..n - 1])
  }

  // ---- What a port is ----------------------------------------------------------------------------

  /** strtoul lets a sign pass, and takes a negative number modulo 2^64. */
  lemma ParsePortIff(s: string, port: nat)
    ensures ParsePort(s) == Some(port) <==>
            1 <= port <= 65535 && (Numeral(s, false, port) || Numeral(s, true, ULONG_MAX + 1 - port))
  {
    NumeralIff(s, false, port);
    if 1 <= port <= 65535 {
      NumeralIff(s, true, ULONG_MAX + 1 - port);
    }
  }

  /** So every port has a negative spelling too. */
  lemma NegativePort(port: nat)
    requires 1 <= port <= 65535
    ensures ParsePort("-" + Decimal(ULONG_MAX + 1 - port)) == Some(port)
  {
    var m := ULONG_MAX + 1 - port;
    DecimalValue(m);
    NegativeNumeral(Decimal(m));
    ParsePortIff("-" + Decimal(m), port);
  }

  lemma NegativeNumeral(digits: string)
    requires digits != [] && Only(digits, DIGITS)
    ensures Numeral("-" + digits, true, DigitsValue(digits))
  {
    var s := "-" + digits;
    assert s[1..] == digits && s[0..1] == "-" && s[..0] == [];
  }

  lemma DigitsArePort(s: string)
    requires s != [] && Only(s, DIGITS)
    ensures ParsePort(s) == if 1 <= DigitsValue(s) <= 65535 then Some(DigitsValue(s)) else None
  {
    assert s[0..0] == "" && s[0..] == s;
    NumeralIsScanned(s, false, 0, 0);
  }

  // ---- What a host and port are ------------------------------------------------------------------

  ghost predicate Denotes(s: string, hp: HostPort) {
    exists host, portText :: IsSpelling(s, host, portText, hp)
  }

  ghost predicate IsSpelling(s: string, host: string, portText: string, hp: HostPort) {
    && |host| < HOST_SIZE && ParsePort(portText) == Some(hp.port)
    && if hp.ipv6 then
         s == "[" + host + "]:" + portText && host != [] && ']' !in host && hp.host == host
       else
         && s == host + ":" + portText && ':' !in host && ':' !in portText && (host != [] ==> host[0] != '[')
         && hp.host == if host == [] then "0.0.0.0" else host
  }

  lemma SplitHostPortIff(s: string, hp: HostPort)
    ensures SplitHostPort(s) == Some(hp) <==> Denotes(s, hp)
  {
    if SplitHostPort(s) == Some(hp) {
      var host, portText := SplitDenotes(s);
    }
    if Denotes(s, hp) {
      var host, portText :| IsSpelling(s, host, portText, hp);
      if hp.ipv6 {
        SplitBracketed(host, portText);
      } else {
        SplitPlain(host, portText);
      }
    }
  }

  lemma SplitDenotes(s: string) returns (host: string, portText: string)
    requires SplitHostPort(s).Some?
    ensures IsSpelling(s, host, portText, SplitHostPort(s).value)
  {
    if s[0] == '[' {
      var close := IndexOf(s, ']').value;
      host, portText := s[1..close], s[close + 2..];
      Bracketed(s, close);
    } else {
      var colon := LastIndexOf(s, ':').value;
      host, portText := s[..colon], s[colon + 1..];
      Plain(s, colon);
    }
  }

  lemma Bracketed(s: string, close: nat)
    requires 1 <= close && close + 1 < |s| && s[0] == '[' && s[close] == ']' && s[close + 1] == ':'
    ensures s == "[" + s[1..close] + "]:" + s[close + 2..]
    ensures ']' !in s[..close] ==> ']' !in s[1..close]
  {
    assert s[..close] == [s[0]] + s[1..close];
  }

  lemma Plain(s: string, colon: nat)
    requires colon < |s| && s[colon] == ':'
    ensures s == s[..colon] + ":" + s[colon + 1..]
  {
  }

  lemma FirstIndex(s: string, c: char, i: nat)
    requires i < |s| && s[i] == c && c !in s[..i]
    ensures IndexOf(s, c) == Some(i)
  {
    var j := IndexOf(s, c).value;
    assert forall k :: 0 <= k < i ==> s[..i][k] == s[k];
    assert forall k :: 0 <= k < j ==> s[..j][k] == s[k];
  }

  lemma LastIndex(s: string, c: char, i: nat)
    requires i < |s| && s[i] == c && c !in s[i + 1..]
    ensures LastIndexOf(s, c) == Some(i)
  {
    var j := LastIndexOf(s, c).value;
    assert forall k :: i < k < |s| ==> s[i + 1..][k - i - 1] == s[k];
    assert forall k :: j < k < |s| ==> s[j + 1..][k - j - 1] == s[k];
  }

  lemma SplitPlain(host: string, portText: string)
    requires |host| < HOST_SIZE && ':' !in host && ':' !in portText && (host != [] ==> host[0] != '[')
    ensures SplitHostPort(host + ":" + portText) ==
            if portText == [] then None else WithPort(if host == [] then "0.0.0.0" else host, portText, false)
  {
    var s := host + ":" + portText;
    assert s[..|host|] == host && s[|host| + 1..] == portText;
    FirstIndex(s, ':', |host|);
    LastIndex(s, ':', |host|);
  }

  lemma SplitBracketed(host: string, portText: string)
    requires 0 < |host| < HOST_SIZE && ']' !in host
    ensures SplitHostPort("[" + host + "]:" + portText) ==
            if portText == [] then None else WithPort(host, portText, true)
  {
    var s, close := "[" + host + "]:" + portText, |host| + 1;
    assert s[..close] == "[" + host && s[1..close] == host && s[close + 2..] == portText;
    FirstIndex(s, ']', close);
  }

  // ---- What an endpoint is -----------------------------------------------------------------------

  ghost predicate IsInetOf(proto: Proto, s: string, e: Endpoint) {
    exists hp :: Denotes(s, hp) && e == Endpoint(if hp.ipv6 then Inet6 else Inet, hp.host, hp.port, proto, "", NoBuiltin)
  }

  /** What each protocol accepts as an endpoint, and as which. */
  ghost predicate IsEndpointOf(proto: Proto, s: string, e: Endpoint) {
    match proto
    case Tcp | Udp => IsInetOf(proto, s, e)
    case UnixStream => 1 <= |s| <= 107 && e == Endpoint(UnixPath, "", 0, proto, s, NoBuiltin)
    case UnixDatagram => 1 <= |s| <= 107 && e == Endpoint(UnixDgramPath, "", 0, proto, s, NoBuiltin)
    case File => 1 <= |s| <= 107 && e == Endpoint(FilePath, "", 0, proto, s, NoBuiltin)
    case Builtin =>
      e.builtin != NoBuiltin && s == BuiltinText(e.builtin) && e == Endpoint(BuiltinName, "", 0, proto, "", e.builtin)
  }

  lemma BuiltinIff(s: string, b: BuiltinUpstream)
    ensures ParseBuiltin(s) == Some(b) <==> b != NoBuiltin && s == BuiltinText(b)
  {
    BuiltinsDiffer();
  }

  lemma BuiltinsDiffer()
    ensures "client_addr" != "close" && "hang" != "http_ok"
  {
    assert "client_addr"[2] != "close"[2] && "hang"[1] != "http_ok"[1];
  }

  lemma InetEndpointIff(proto: Proto, s: string, e: Endpoint)
    requires proto == Tcp || proto == Udp
    ensures ParseEndpoint(proto, s) == Some(e) <==> IsInetOf(proto, s, e)
  {
    if ParseEndpoint(proto, s) == Some(e) {
      SplitHostPortIff(s, SplitHostPort(s).value);
    }
    if hp :| Denotes(s, hp) && e == Endpoint(if hp.ipv6 then Inet6 else Inet, hp.host, hp.port, proto, "", NoBuiltin) {
      SplitHostPortIff(s, hp);
    }
  }

  lemma ParseEndpointIff(proto: Proto, s: string, e: Endpoint)
    ensures ParseEndpoint(proto, s) == Some(e) <==> IsEndpointOf(proto, s, e)
  {
    match proto {
      case Tcp => InetEndpointIff(proto, s, e);
      case Udp => InetEndpointIff(proto, s, e);
      case Builtin => BuiltinIff(s, e.builtin);
      case _ =>
    }
  }

  // ---- The round trip ----------------------------------------------------------------------------

  predicate IsInet(e: Endpoint) {
    e.kind == Inet || e.kind == Inet6
  }

  /** What every accepted internet endpoint looks like. */
  ghost predicate Accepted(e: Endpoint) {
    && IsInet(e) && (e.proto == Tcp || e.proto == Udp) && e.path == "" && e.builtin == NoBuiltin
    && 1 <= e.port <= 65535 && 0 < |e.host| < HOST_SIZE
    && if e.kind == Inet then ':' !in e.host && e.host[0] != '[' else ']' !in e.host
  }

  lemma ParseAccepts(proto: Proto, s: string)
    requires ParseEndpoint(proto, s).Some? && IsInet(ParseEndpoint(proto, s).value)
    ensures Accepted(ParseEndpoint(proto, s).value)
  {
    SplitAccepts(s);
  }

  lemma SplitAccepts(s: string)
    requires SplitHostPort(s).Some?
    ensures var hp := SplitHostPort(s).value;
            && 1 <= hp.port <= 65535 && 0 < |hp.host| < HOST_SIZE
            && if hp.ipv6 then ']' !in hp.host else ':' !in hp.host && hp.host[0] != '['
  {
    var host, portText := SplitDenotes(s);
    SpellingAccepts(s, host, portText, SplitHostPort(s).value);
  }

  lemma SpellingAccepts(s: string, host: string, portText: string, hp: HostPort)
    requires IsSpelling(s, host, portText, hp)
    ensures 1 <= hp.port <= 65535 && 0 < |hp.host| < HOST_SIZE
    ensures if hp.ipv6 then ']' !in hp.host else ':' !in hp.host && hp.host[0] != '['
  {
  }

  /** An endpoint that the parser accepted is read back from its printed form exactly if the buffer
      held the whole of it. */
  lemma RoundTripIff(proto: Proto, s: string, n: nat)
    requires ParseEndpoint(proto, s).Some? && IsInet(ParseEndpoint(proto, s).value) && n > 0
    ensures var e := ParseEndpoint(proto, s).value;
            ParseEndpoint(proto, EndpointToString(e, n).value) == Some(e) <==> |Text(e)| < n
  {
    var e := ParseEndpoint(proto, s).value;
    ParseAccepts(proto, s);
    PrintedIsParsed(e);
    if |Text(e)| >= n {
      CutIsNotParsed(e, n - 1);
    }
  }

  lemma PrintedIsParsed(e: Endpoint)
    requires Accepted(e)
    ensures ParseEndpoint(e.proto, Text(e)) == Some(e)
  {
    DecimalValue(e.port);
    DigitsArePort(Decimal(e.port));
    if e.kind == Inet {
      SplitPlain(e.host, Decimal(e.port));
    } else {
      SplitBracketed(e.host, Decimal(e.port));
    }
  }

  lemma CutIsNotParsed(e: Endpoint, k: nat)
    requires Accepted(e) && k < |Text(e)|
    ensures ParseEndpoint(e.proto, Text(e)[..k]) != Some(e)
  {
    var digits := Decimal(e.port);
    var head := if e.kind == Inet then e.host + ":" else "[" + e.host + "]:";
    var cut := Text(e)[..k];
    assert Text(e) == head + digits;
    if k >= |head| {
      var m := k - |head|;
      assert cut == head + digits[..m];
      DecimalValue(e.port);
      CutIsSmaller(digits, m);
      if m > 0 {
        DigitsArePort(digits[..m]);
      }
      if e.kind == Inet {
        SplitPlain(e.host, digits[..m]);
      } else {
        SplitBracketed(e.host, digits[..m]);
      }
    } else {
      assert cut == head[..k];
      assert SplitHostPort(cut).None?;
    }
  }

  const LOG_BUFFER := 256

  /** The logger prints endpoints into 256 chars: which internet endpoints it shows in full, so that
      what it shows is the endpoint. */
  lemma LoggedInFullIff(e: Endpoint)
    requires Accepted(e)
    ensures ParseEndpoint(e.proto, EndpointToString(e, LOG_BUFFER).value) == Some(e) <==>
            |e.host| + |Decimal(e.port)| < if e.kind == Inet then 255 else 253
  {
    PrintedIsParsed(e);
    RoundTripIff(e.proto, Text(e), LOG_BUFFER);
  }

  /** A host of 255 chars, the longest that is accepted, is never shown in full. */
  lemma LongestHostIsCut(e: Endpoint)
    requires Accepted(e) && |e.host| == 255
    ensures ParseEndpoint(e.proto, EndpointToString(e, LOG_BUFFER).value) != Some(e)
  {
    LoggedInFullIff(e);
  }

  predicate IsPath(proto: Proto) {
    proto == UnixStream || proto == UnixDatagram || proto == File
  }

  /** The printed form of a path names its kind in front, so it is longer than the path.  It is read
      back exactly if the buffer cuts it to the length of the path and happens to leave the path. */
  lemma PathReadBackIff(proto: Proto, s: string, n: nat)
    requires ParseEndpoint(proto, s).Some? && IsPath(proto) && n > 0
    ensures var e := ParseEndpoint(proto, s).value;
            ParseEndpoint(proto, EndpointToString(e, n).value) == Some(e) <==> n == |s| + 1 && s <= Text(e)
  {
    var e := ParseEndpoint(proto, s).value;
    var printed := EndpointToString(e, n).value;
    assert |Text(e)| > |s| && e.path == s;
    assert ParseEndpoint(proto, printed) == Some(e) <==> printed == s;
    if n == |s| + 1 {
      assert printed == Text(e)[..|s|];
    }
  }

  /** Such a path: "unix:" printed into a buffer of six chars. */
  lemma CutPathIsReadBack()
    ensures var e := Endpoint(UnixPath, "", 0, UnixStream, "unix:", NoBuiltin);
            && ParseEndpoint(UnixStream, "unix:") == Some(e)
            && EndpointToString(e, 6) == Some("unix:")
            && |Text(e)| >= 6
  {
    var e := Endpoint(UnixPath, "", 0, UnixStream, "unix:", NoBuiltin);
    assert Text(e) == "unix:" + "unix:";
    assert Text(e)[..5] == "unix:";
  }

  /** No builtin is read back, whatever the buffer: no name starts as its printed form does. */
  lemma BuiltinIsNotReadBack(s: string, n: nat)
    requires ParseEndpoint(Builtin, s).Some? && n > 0
    ensures ParseEndpoint(Builtin, EndpointToString(ParseEndpoint(Builtin, s).value, n).value).None?
  {
    var e := ParseEndpoint(Builtin, s).value;
    var printed := EndpointToString(e, n).value;
    assert Text(e)[0] == 'b';
    assert printed != [] ==> printed[0] == 'b';
    NoNameStartsWithB(printed);
  }

  lemma NoNameStartsWithB(s: string)
    requires s != [] ==> s[0] == 'b'
    ensures ParseBuiltin(s).None?
  {
  }

  /** All accepted endpoints and all buffers together. */
  lemma ReadBackIff(proto: Proto, s: string, n: nat)
    requires ParseEndpoint(proto, s).Some? && n > 0
    ensures var e := ParseEndpoint(proto, s).value;
            ParseEndpoint(proto, EndpointToString(e, n).value) == Some(e) <==>
            || (IsInet(e) && |Text(e)| < n)
            || (IsPath(proto) && n == |s| + 1 && s <= Text(e))
  {
    if IsInet(ParseEndpoint(proto, s).value) {
      RoundTripIff(proto, s, n);
    } else if IsPath(proto) {
      PathReadBackIff(proto, s, n);
    } else {
      BuiltinIsNotReadBack(s, n);
    }
  }

  /** The shorthand without a host is the IPv4 wildcard. */
  lemma WildcardShorthand(proto: Proto, portText: string)
    requires ':' !in portText && (proto == Tcp || proto == Udp)
    ensures ParseEndpoint(proto, "" + ":" + portText) == ParseEndpoint(proto, "0.0.0.0" + ":" + portText)
  {
    var wildcard := "0.0.0.0";
    assert ':' !in wildcard && wildcard[0] != '[';
    SplitPlain("", portText);
    SplitPlain(wildcard, portText);
  }
}
