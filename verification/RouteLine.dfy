/** A route line as a value: its fields, endpoints and options. */
module RouteLine {
  import opened Options
  import opened CText
  import opened EndpointText

  const MAX_ROUTE_FIELDS := 32
  const BLANKS := {' ', '\t', '\r', '\n'}
  const COMMA := {','}

  datatype BroadcastReply = Off | Listen | Upstream

  datatype RouteOptions = RouteOptions(
    proxyV2: bool,
    keepAlive: bool,
    sniSniff: bool,
    idleTimeout: nat,
    connectTimeout: nat,
    bindWait: nat,
    broadcastReply: BroadcastReply)

  const DEFAULTS := RouteOptions(false, false, false, 60, 5, 0, Off)

  datatype Route = Route(listen: Endpoint, upstream: Endpoint, opts: RouteOptions, lineNo: nat)

  /** Options that a line can ask for. */
  predicate IsOptions(o: RouteOptions) {
    1 <= o.idleTimeout <= INT_MAX && 1 <= o.connectTimeout <= INT_MAX && o.bindWait <= INT_MAX
  }

  // ---- Options -----------------------------------------------------------------------------------

  function ParsePositiveInt(s: string): (r: Option<nat>)
    ensures r.Some? ==> 1 <= r.value <= INT_MAX
  {
    var v := Strtol(s);
    if s == [] || v.erange || v.end == 0 || v.end != |s| || v.value <= 0 || v.value > INT_MAX then None
    else Some(v.value)
  }

  lemma ParsePositiveIntIff(s: string, n: nat)
    ensures ParsePositiveInt(s) == Some(n) <==> 1 <= n <= INT_MAX && Numeral(s, false, n)
  {
    NumeralIff(s, false, n);
  }

  function ApplyKeyed(o: RouteOptions, key: string, value: string): (r: Option<RouteOptions>)
    ensures IsOptions(o) && r.Some? ==> IsOptions(r.value)
  {
    if key == "broadcast_reply" then
      if value == "listen" then Some(o.(broadcastReply := Listen))
      else if value == "upstream" then Some(o.(broadcastReply := Upstream))
      else None
    else
      match ParsePositiveInt(value)
      case None => None
      case Some(n) =>
        if key == "idle_timeout" then Some(o.(idleTimeout := n))
        else if key == "connect_timeout" then Some(o.(connectTimeout := n))
        else if key == "bind_wait" then Some(o.(bindWait := n))
        else None
  }

  function ApplyFlag(o: RouteOptions, name: string): (r: Option<RouteOptions>)
    ensures IsOptions(o) && r.Some? ==> IsOptions(r.value)
  {
    if name == "proxy_v2" then Some(o.(proxyV2 := true))
    else if name == "keep_alive" then Some(o.(keepAlive := true))
    else if name == "sni_sniff" then Some(o.(sniSniff := true))
    else if name == "broadcast_reply" then Some(o.(broadcastReply := Listen))
    else None
  }

  function ApplyOption(o: RouteOptions, token: string): (r: Option<RouteOptions>)
    ensures IsOptions(o) && r.Some? ==> IsOptions(r.value)
  {
    var t := Trimmed(token);
    if t == [] then None
    else
      match IndexOf(t, '=')
      case None => ApplyFlag(o, t)
      case Some(eq) =>
        var key, value := Trimmed(t[..eq]), Trimmed(t[eq + 1..]);
        if key == [] || value == [] then None else ApplyKeyed(o, key, value)
  }

  function ApplyTokens(o: RouteOptions, tokens: seq<string>): (r: Option<RouteOptions>)
    ensures IsOptions(o) && r.Some? ==> IsOptions(r.value)
    decreases |tokens|
  {
    if tokens == [] then Some(o)
    else
      match ApplyOption(o, tokens[0])
      case None => None
      case Some(o') => ApplyTokens(o', tokens[1..])
  }

  function ParseRouteOptions(o: RouteOptions, field: string): (r: Option<RouteOptions>)
    ensures IsOptions(o) && r.Some? ==> IsOptions(r.value)
  {
    ApplyTokens(o, Tokens(field, COMMA))
  }

  function ApplyFields(o: RouteOptions, fields: seq<string>): (r: Option<RouteOptions>)
    ensures IsOptions(o) && r.Some? ==> IsOptions(r.value)
    decreases |fields|
  {
    if fields == [] then Some(o)
    else
      match ParseRouteOptions(o, fields[0])
      case None => None
      case Some(o') => ApplyFields(o', fields[1..])
  }

  // ---- Lines -------------------------------------------------------------------------------------

  /** The fields after the optional keyword. */
  function Operands(fields: seq<string>): (r: seq<string>) {
    if fields != [] && fields[0] == "listen" then fields[1..] else fields
  }

  function RouteOf(line: string): (r: Option<Route>)
    ensures r.Some? ==> r.value.lineNo == 0
  {
    var fields := Tokens(line, BLANKS);
    if |fields| > MAX_ROUTE_FIELDS then None else RouteOfOperands(Operands(fields))
  }

  function RouteOfOperands(f: seq<string>): (r: Option<Route>)
    ensures r.Some? ==> r.value.lineNo == 0
  {
    if |f| < 4 then None
    else
      var listenProto := ParseProto(f[0]);
      if listenProto.None? then None else
      var listen := ParseEndpoint(listenProto.value, f[1]);
      if listen.None? then None else
      var upstreamProto := ParseProto(f[2]);
      if upstreamProto.None? then None else
      var upstream := ParseEndpoint(upstreamProto.value, f[3]);
      if upstream.None? then None else
      var opts := ApplyFields(DEFAULTS, f[4..]);
      if opts.None? then None else Some(Route(listen.value, upstream.value, opts.value, 0))
  }

  // ---- Conflicts ---------------------------------------------------------------------------------

  predicate SameListenEndpoint(a: Endpoint, b: Endpoint) {
    && a.proto == b.proto
    && match a.proto
       case Tcp | Udp => a.host == b.host && a.port == b.port
       case UnixStream | UnixDatagram => a.path == b.path
       case _ => false
  }

  /** Accepted listen endpoints conflict exactly if they are the same endpoint, a bracketed host and
      a plain one not being told apart; files and builtins never conflict. */
  lemma ConflictIffSameEndpoint(p: Proto, s: string, q: Proto, t: string)
    requires ParseEndpoint(p, s).Some? && ParseEndpoint(q, t).Some?
    ensures var a, b := ParseEndpoint(p, s).value, ParseEndpoint(q, t).value;
            SameListenEndpoint(a, b) <==> a.(kind := b.kind) == b && p != File && p != Builtin
  {
    EndpointShape(p, s);
    EndpointShape(q, t);
  }

  /** What the memset leaves in the fields that a protocol does not use. */
  lemma EndpointShape(p: Proto, s: string)
    requires ParseEndpoint(p, s).Some?
    ensures var e := ParseEndpoint(p, s).value;
            && e.proto == p
            && (if p == Tcp || p == Udp then e.path == "" else e.host == "" && e.port == 0)
            && (p != Builtin ==> e.builtin == NoBuiltin) && (p == Builtin ==> e.path == "")
  {
  }
}
