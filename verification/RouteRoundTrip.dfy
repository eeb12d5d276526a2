/**
 Every route that a line can describe is described by its canonical line: the parser reads the
 canonical line of an accepted route back to that route, endpoint by endpoint and option by option.
 */
module RouteRoundTrip {
  import opened Options
  import opened CText
  import opened EndpointText
  import opened RouteLine

  // ---- Joined words ------------------------------------------------------------------------------

  function Spread(words: seq<string>, sep: char): (ws: seq<Word>) {
    seq(|words|, i requires 0 <= i < |words| => Word(if i == 0 then [] else [sep], words[i]))
  }

  function Joined(words: seq<string>, sep: char): string {
    Spell(Spread(words, sep), [])
  }

  ghost predicate AreWords(words: seq<string>, d: set<char>) {
    forall i :: 0 <= i < |words| ==> words[i] != [] && Free(words[i], d)
  }

  lemma TokensOfJoined(words: seq<string>, sep: char, d: set<char>)
    requires AreWords(words, d) && sep in d
    ensures Tokens(Joined(words, sep), d) == words
  {
    var ws := Spread(words, sep);
    TokensOfSpelling(ws, [], d);
    TextsAre(ws, words);
  }

  lemma {:induction false} TextsAre(ws: seq<Word>, words: seq<string>)
    requires |ws| == |words| && forall i :: 0 <= i < |ws| ==> ws[i].text == words[i]
    ensures Texts(ws) == words
    decreases |ws|
  {
    if ws != [] {
      TextsAre(ws[1..], words[1..]);
    }
  }

  lemma {:induction false} SpellFree(ws: seq<Word>, d: set<char>)
    requires forall i :: 0 <= i < |ws| ==> Free(ws[i].gap, d) && Free(ws[i].text, d)
    ensures Free(Spell(ws, []), d)
    decreases |ws|
  {
    if ws != [] {
      SpellFree(ws[1..], d);
    }
  }

  lemma JoinedIsWord(words: seq<string>, sep: char, d: set<char>)
    requires AreWords(words, d) && sep !in d && words != []
    ensures Joined(words, sep) != [] && Free(Joined(words, sep), d)
  {
    var ws := Spread(words, sep);
    SpellFree(ws, d);
    assert |ws[0].text| > 0;
  }

  lemma {:induction false} TokensAreWords(s: string, d: set<char>)
    ensures AreWords(Tokens(s, d), d)
    decreases |s|
  {
    if Span(s, d, true) < |s| {
      var more := After(s, TokenEnd(s, d));
      TokensUnfold(s, d);
      TokensAreWords(more, d);
      TokenIsWord(s, d);
      WordsCons(Token(s, d), Tokens(more, d), d);
    }
  }

  lemma TokenIsWord(s: string, d: set<char>)
    requires Span(s, d, true) < |s|
    ensures Token(s, d) != [] && Free(Token(s, d), d)
  {
    var i := Span(s, d, true);
    assert forall k :: 0 <= k < |Token(s, d)| ==> Token(s, d)[k] == s[i + k];
  }

  lemma WordsCons(word: string, words: seq<string>, d: set<char>)
    requires word != [] && Free(word, d) && AreWords(words, d)
    ensures AreWords([word] + words, d)
  {
  }

  // ---- Options -----------------------------------------------------------------------------------

  datatype Setting =
    | ProxyV2
    | KeepAlive
    | SniSniff
    | IdleTimeout(n: nat)
    | ConnectTimeout(n: nat)
    | BindWait(n: nat)
    | Reply(mode: BroadcastReply)

  predicate IsSetting(x: Setting) {
    match x
    case IdleTimeout(n) => 1 <= n <= INT_MAX
    case ConnectTimeout(n) => 1 <= n <= INT_MAX
    case BindWait(n) => 1 <= n <= INT_MAX
    case Reply(mode) => mode != Off
    case _ => true
  }

  function ReplyText(mode: BroadcastReply): string {
    if mode == Upstream then "upstream" else "listen"
  }

  function SettingText(x: Setting): string {
    match x
    case ProxyV2 => "proxy_v2"
    case KeepAlive => "keep_alive"
    case SniSniff => "sni_sniff"
    case IdleTimeout(n) => "idle_timeout" + "=" + Decimal(n)
    case ConnectTimeout(n) => "connect_timeout" + "=" + Decimal(n)
    case BindWait(n) => "bind_wait" + "=" + Decimal(n)
    case Reply(mode) => "broadcast_reply" + "=" + ReplyText(mode)
  }

  function Set(o: RouteOptions, x: Setting): RouteOptions {
    match x
    case ProxyV2 => o.(proxyV2 := true)
    case KeepAlive => o.(keepAlive := true)
    case SniSniff => o.(sniSniff := true)
    case IdleTimeout(n) => o.(idleTimeout := n)
    case ConnectTimeout(n) => o.(connectTimeout := n)
    case BindWait(n) => o.(bindWait := n)
    case Reply(mode) => o.(broadcastReply := mode)
  }

  const MARKS := SPACES + {'=', ','}

  lemma TrimmedSame(s: string)
    requires s != [] && s[0] !in SPACES && s[|s| - 1] !in SPACES
    ensures Trimmed(s) == s
  {
    assert s[0..|s|] == s && Only(s[..0], SPACES) && Only(s[|s|..], SPACES);
    TrimmedIff(s, s);
  }

  lemma FlagOption(o: RouteOptions, name: string)
    requires name != [] && Free(name, MARKS)
    ensures ApplyOption(o, name) == ApplyFlag(o, name)
  {
    TrimmedSame(name);
  }

  lemma KeyedOption(o: RouteOptions, key: string, value: string)
    requires key != [] && value != [] && Free(key, MARKS) && Free(value, MARKS)
    ensures ApplyOption(o, key + "=" + value) == ApplyKeyed(o, key, value)
  {
    var t := key + "=" + value;
    assert t[..|key|] == key && t[|key| + 1..] == value;
    FirstIndex(t, '=', |key|);
    TrimmedSame(t);
    TrimmedSame(key);
    TrimmedSame(value);
  }

  lemma NumberOption(o: RouteOptions, key: string, n: nat)
    requires key != [] && Free(key, MARKS) && key != "broadcast_reply" && 1 <= n <= INT_MAX
    ensures Free(Decimal(n), MARKS) && ParsePositiveInt(Decimal(n)) == Some(n)
    ensures ApplyOption(o, key + "=" + Decimal(n)) == ApplyKeyed(o, key, Decimal(n))
  {
    var digits := Decimal(n);
    DecimalValue(n);
    assert digits[0..0] == "" && digits[0..] == digits;
    NumeralIsScanned(digits, false, 0, 0);
    KeyedOption(o, key, digits);
  }

  lemma SettingIsSet(o: RouteOptions, x: Setting)
    requires IsSetting(x)
    ensures ApplyOption(o, SettingText(x)) == Some(Set(o, x))
  {
    match x
    case ProxyV2 => FlagOption(o, "proxy_v2");
    case KeepAlive => FlagOption(o, "keep_alive");
    case SniSniff => FlagOption(o, "sni_sniff");
    case IdleTimeout(n) => IdleTimeoutIsSet(o, n);
    case ConnectTimeout(n) => ConnectTimeoutIsSet(o, n);
    case BindWait(n) => BindWaitIsSet(o, n);
    case Reply(mode) => ReplyIsSet(o, mode);
  }

  lemma IdleTimeoutKey(o: RouteOptions, value: string)
    ensures Free("idle_timeout", MARKS) && "idle_timeout" != "broadcast_reply"
    ensures ApplyKeyed(o, "idle_timeout", value) ==
            match ParsePositiveInt(value) case None => None case Some(n) => Some(o.(idleTimeout := n))
  {
  }

  lemma IdleTimeoutIsSet(o: RouteOptions, n: nat)
    requires 1 <= n <= INT_MAX
    ensures ApplyOption(o, "idle_timeout" + "=" + Decimal(n)) == Some(o.(idleTimeout := n))
  {
    IdleTimeoutKey(o, Decimal(n));
    NumberOption(o, "idle_timeout", n);
  }

  lemma ConnectTimeoutKey(o: RouteOptions, value: string)
    ensures Free("connect_timeout", MARKS) && "connect_timeout" != "broadcast_reply"
    ensures ApplyKeyed(o, "connect_timeout", value) ==
            match ParsePositiveInt(value) case None => None case Some(n) => Some(o.(connectTimeout := n))
  {
  }

  lemma ConnectTimeoutIsSet(o: RouteOptions, n: nat)
    requires 1 <= n <= INT_MAX
    ensures ApplyOption(o, "connect_timeout" + "=" + Decimal(n)) == Some(o.(connectTimeout := n))
  {
    ConnectTimeoutKey(o, Decimal(n));
    NumberOption(o, "connect_timeout", n);
  }

  lemma BindWaitKey(o: RouteOptions, value: string)
    ensures Free("bind_wait", MARKS) && "bind_wait" != "broadcast_reply"
    ensures ApplyKeyed(o, "bind_wait", value) ==
            match ParsePositiveInt(value) case None => None case Some(n) => Some(o.(bindWait := n))
  {
  }

  lemma BindWaitIsSet(o: RouteOptions, n: nat)
    requires 1 <= n <= INT_MAX
    ensures ApplyOption(o, "bind_wait" + "=" + Decimal(n)) == Some(o.(bindWait := n))
  {
    BindWaitKey(o, Decimal(n));
    NumberOption(o, "bind_wait", n);
  }

  lemma ReplyIsSet(o: RouteOptions, mode: BroadcastReply)
    requires mode != Off
    ensures ApplyOption(o, "broadcast_reply" + "=" + ReplyText(mode)) == Some(o.(broadcastReply := mode))
  {
    ReplyIsWord(mode);
    KeyedOption(o, "broadcast_reply", ReplyText(mode));
  }

  lemma ReplyIsWord(mode: BroadcastReply)
    requires mode != Off
    ensures ReplyText(mode) != [] && Free("broadcast_reply", MARKS) && Free(ReplyText(mode), MARKS)
    ensures forall o :: ApplyKeyed(o, "broadcast_reply", ReplyText(mode)) == Some(o.(broadcastReply := mode))
  {
    assert "upstream"[0] != "listen"[0];
  }

  lemma SettingIsWord(x: Setting)
    requires IsSetting(x)
    ensures SettingText(x) != [] && Free(SettingText(x), SPACES + {','})
  {
    match x
    case IdleTimeout(n) => KeyValueIsWord("idle_timeout", Decimal(n));
    case ConnectTimeout(n) => KeyValueIsWord("connect_timeout", Decimal(n));
    case BindWait(n) => KeyValueIsWord("bind_wait", Decimal(n));
    case Reply(mode) =>
      ReplyIsWord(mode);
      KeyValueIsWord("broadcast_reply", ReplyText(mode));
    case _ =>
  }

  lemma KeyValueIsWord(key: string, value: string)
    requires Free(key, SPACES + {','}) && Free(value, SPACES + {','})
    ensures key + "=" + value != [] && Free(key + "=" + value, SPACES + {','})
  {
  }

  function SetAll(o: RouteOptions, xs: seq<Setting>): RouteOptions
    decreases |xs|
  {
    if xs == [] then o else SetAll(Set(o, xs[0]), xs[1..])
  }

  function SettingTexts(xs: seq<Setting>): (texts: seq<string>)
    ensures |texts| == |xs| && forall i :: 0 <= i < |xs| ==> texts[i] == SettingText(xs[i])
  {
    if xs == [] then [] else [SettingText(xs[0])] + SettingTexts(xs[1..])
  }

  lemma FirstApplied(o: RouteOptions, o': RouteOptions, token: string, rest: seq<string>)
    requires ApplyOption(o, token) == Some(o')
    ensures ApplyTokens(o, [token] + rest) == ApplyTokens(o', rest)
  {
    assert ([token] + rest)[1..] == rest;
  }

  lemma {:induction false} SettingsAreSet(o: RouteOptions, xs: seq<Setting>)
    requires forall i :: 0 <= i < |xs| ==> IsSetting(xs[i])
    ensures ApplyTokens(o, SettingTexts(xs)) == Some(SetAll(o, xs))
    decreases |xs|
  {
    if xs != [] {
      SettingIsSet(o, xs[0]);
      FirstApplied(o, Set(o, xs[0]), SettingText(xs[0]), SettingTexts(xs[1..]));
      SettingsAreSet(Set(o, xs[0]), xs[1..]);
    }
  }

  /** The settings that make these options out of the defaults. */
  function SettingsOf(o: RouteOptions): (xs: seq<Setting>) {
    Times(o)
    + (if o.bindWait > 0 then [BindWait(o.bindWait)] else [])
    + (if o.broadcastReply != Off then [Reply(o.broadcastReply)] else [])
    + (if o.proxyV2 then [ProxyV2] else [])
    + (if o.keepAlive then [KeepAlive] else [])
    + (if o.sniSniff then [SniSniff] else [])
  }

  function OptionsText(o: RouteOptions): string {
    Joined(SettingTexts(SettingsOf(o)), ',')
  }

  lemma {:induction false} SetAllInTurn(o: RouteOptions, xs: seq<Setting>, ys: seq<Setting>)
    ensures SetAll(o, xs + ys) == SetAll(SetAll(o, xs), ys)
    decreases |xs|
  {
    if xs == [] {
      assert xs + ys == ys;
    } else {
      assert (xs + ys)[1..] == xs[1..] + ys;
      SetAllInTurn(Set(o, xs[0]), xs[1..], ys);
    }
  }

  function Times(o: RouteOptions): seq<Setting> {
    [IdleTimeout(o.idleTimeout), ConnectTimeout(o.connectTimeout)]
  }

  lemma SettingsMakeOptions(o: RouteOptions)
    ensures SetAll(DEFAULTS, SettingsOf(o)) == o
  {
    var wait := if o.bindWait > 0 then [BindWait(o.bindWait)] else [];
    var reply := if o.broadcastReply != Off then [Reply(o.broadcastReply)] else [];
    var proxy := if o.proxyV2 then [ProxyV2] else [];
    var alive := if o.keepAlive then [KeepAlive] else [];
    var sniff := if o.sniSniff then [SniSniff] else [];
    SetAllInTurn(DEFAULTS, Times(o) + wait + reply + proxy + alive, sniff);
    SetAllInTurn(DEFAULTS, Times(o) + wait + reply + proxy, alive);
    SetAllInTurn(DEFAULTS, Times(o) + wait + reply, proxy);
    SetAllInTurn(DEFAULTS, Times(o) + wait, reply);
    SetAllInTurn(DEFAULTS, Times(o), wait);
    SetAllInTurn(DEFAULTS, [IdleTimeout(o.idleTimeout)], [ConnectTimeout(o.connectTimeout)]);
    SetOne(DEFAULTS, IdleTimeout(o.idleTimeout));
    SetOne(Set(DEFAULTS, IdleTimeout(o.idleTimeout)), ConnectTimeout(o.connectTimeout));
  }

  lemma SetOne(o: RouteOptions, x: Setting)
    ensures SetAll(o, [x]) == Set(o, x)
  {
  }

  lemma SettingsAreWords(o: RouteOptions)
    requires IsOptions(o)
    ensures forall i :: 0 <= i < |SettingsOf(o)| ==> IsSetting(SettingsOf(o)[i])
    ensures AreWords(SettingTexts(SettingsOf(o)), SPACES + {','}) && |SettingsOf(o)| >= 2
  {
    var xs := SettingsOf(o);
    assert |xs| >= |Times(o)|;
    forall i | 0 <= i < |xs| ensures IsSetting(xs[i]) && SettingText(xs[i]) != [] && Free(SettingText(xs[i]), SPACES + {','}) {
      assert IsSetting(xs[i]);
      SettingIsWord(xs[i]);
    }
  }

  lemma OptionsRoundTrip(o: RouteOptions)
    requires IsOptions(o)
    ensures ParseRouteOptions(DEFAULTS, OptionsText(o)) == Some(o)
  {
    var texts := SettingTexts(SettingsOf(o));
    SettingsAreWords(o);
    WordsOfFewer(texts, SPACES + {','}, COMMA);
    TokensOfJoined(texts, ',', COMMA);
    SettingsAreSet(DEFAULTS, SettingsOf(o));
    SettingsMakeOptions(o);
  }

  lemma OptionsAreWord(o: RouteOptions)
    requires IsOptions(o)
    ensures OptionsText(o) != [] && Free(OptionsText(o), BLANKS)
  {
    var texts := SettingTexts(SettingsOf(o));
    SettingsAreWords(o);
    WordsOfFewer(texts, SPACES + {','}, BLANKS);
    JoinedIsWord(texts, ',', BLANKS);
  }

  lemma WordsOfFewer(words: seq<string>, d: set<char>, d': set<char>)
    requires AreWords(words, d) && d' <= d
    ensures AreWords(words, d')
  {
  }

  // ---- Endpoints ---------------------------------------------------------------------------------

  function ProtoText(proto: Proto): string {
    match proto
    case Tcp => "tcp"
    case Udp => "udp"
    case UnixStream => "unix"
    case UnixDatagram => "unix-dgram"
    case File => "file"
    case Builtin => "builtin"
  }

  lemma ProtoRoundTrip(proto: Proto)
    ensures ParseProto(ProtoText(proto)) == Some(proto)
    ensures ProtoText(proto) != [] && Free(ProtoText(proto), BLANKS)
  {
    assert "tcp"[0] != "udp"[0] && "tcp"[0] != "unix"[0] && "udp"[1] != "unix"[1];
    assert |"unix"| != |"unix-dgram"|;
    assert "file"[0] != "builtin"[0] && "file"[0] != "unix"[0];
  }

  /** The field that describes an endpoint after its protocol. */
  function EndpointField(e: Endpoint): string {
    match e.kind
    case Inet | Inet6 => Text(e)
    case BuiltinName => BuiltinText(e.builtin)
    case _ => e.path
  }

  lemma EndpointRoundTrip(proto: Proto, field: string)
    requires ParseEndpoint(proto, field).Some? && field != [] && Free(field, BLANKS)
    ensures var e := ParseEndpoint(proto, field).value;
            ParseEndpoint(proto, EndpointField(e)) == Some(e) && EndpointField(e) != [] && Free(EndpointField(e), BLANKS)
  {
    var e := ParseEndpoint(proto, field).value;
    if proto == Tcp || proto == Udp {
      ParseAccepts(proto, field);
      PrintedIsParsed(e);
      var host, portText := SplitDenotes(field);
      HostIsFree(field, host, portText, SplitHostPort(field).value);
      TextIsFree(e);
    } else {
      assert EndpointField(e) == field;
    }
  }

  lemma HostIsFree(s: string, host: string, portText: string, hp: HostPort)
    requires IsSpelling(s, host, portText, hp) && Free(s, BLANKS)
    ensures Free(hp.host, BLANKS)
  {
    var shift := if hp.ipv6 then 1 else 0;
    forall i | 0 <= i < |host| ensures host[i] !in BLANKS {
      assert s[i + shift] == host[i];
    }
    assert Free("0.0.0.0", BLANKS);
  }

  lemma TextIsFree(e: Endpoint)
    requires IsInet(e) && Free(e.host, BLANKS)
    ensures Text(e) != [] && Free(Text(e), BLANKS)
  {
    var digits := Decimal(e.port);
    assert Free(digits, BLANKS);
  }

  // ---- Lines -------------------------------------------------------------------------------------

  function CanonicalFields(r: Route): seq<string> {
    ["listen", ProtoText(r.listen.proto), EndpointField(r.listen),
     ProtoText(r.upstream.proto), EndpointField(r.upstream), OptionsText(r.opts)]
  }

  function Canonical(r: Route): string {
    Joined(CanonicalFields(r), ' ')
  }

  /** A line that is accepted and its canonical line say the same. */
  lemma LineRoundTrip(line: string)
    ensures RouteOf(line).Some? ==> RouteOf(Canonical(RouteOf(line).value)) == RouteOf(line)
  {
    if RouteOf(line).Some? {
      var f := Operands(Tokens(line, BLANKS));
      TokensAreWords(line, BLANKS);
      RouteIsWords(f);
      CanonicalFieldsRead(f);
      CanonicalIsItsFields(RouteOfOperands(f).value);
    }
  }

  lemma CanonicalIsItsFields(r: Route)
    requires AreWords(CanonicalFields(r), BLANKS)
    ensures RouteOf(Canonical(r)) == RouteOfOperands(CanonicalFields(r)[1..])
  {
    var g := CanonicalFields(r);
    TokensOfJoined(g, ' ', BLANKS);
    assert g[0] == "listen" && |g| == 6;
  }

  lemma RouteIsWords(f: seq<string>)
    requires RouteOfOperands(f).Some? && AreWords(f, BLANKS)
    ensures AreWords(CanonicalFields(RouteOfOperands(f).value), BLANKS)
  {
    var r := RouteOfOperands(f).value;
    EndpointRoundTrip(r.listen.proto, f[1]);
    EndpointRoundTrip(r.upstream.proto, f[3]);
    ProtoRoundTrip(r.listen.proto);
    ProtoRoundTrip(r.upstream.proto);
    OptionsAreWord(r.opts);
    SixWords(ProtoText(r.listen.proto), EndpointField(r.listen), ProtoText(r.upstream.proto), EndpointField(r.upstream),
             OptionsText(r.opts));
  }

  lemma SixWords(a: string, b: string, c: string, d: string, e: string)
    requires IsWord(a) && IsWord(b) && IsWord(c) && IsWord(d) && IsWord(e)
    ensures AreWords(["listen", a, b, c, d, e], BLANKS)
  {
    assert Free("listen", BLANKS);
  }

  ghost predicate IsWord(s: string) {
    s != [] && Free(s, BLANKS)
  }

  lemma CanonicalFieldsRead(f: seq<string>)
    requires RouteOfOperands(f).Some? && AreWords(f, BLANKS)
    ensures RouteOfOperands(CanonicalFields(RouteOfOperands(f).value)[1..]) == RouteOfOperands(f)
  {
    var r := RouteOfOperands(f).value;
    EndpointRoundTrip(r.listen.proto, f[1]);
    EndpointRoundTrip(r.upstream.proto, f[3]);
    ProtoRoundTrip(r.listen.proto);
    ProtoRoundTrip(r.upstream.proto);
    OptionsRoundTrip(r.opts);
    var g := CanonicalFields(r)[1..];
    assert g[4..] == [OptionsText(r.opts)];
    OneField(DEFAULTS, OptionsText(r.opts));
  }

  lemma OneField(o: RouteOptions, field: string)
    ensures ApplyFields(o, [field]) == ParseRouteOptions(o, field)
  {
  }
}
