/**
 Which lines are accepted, and as what: a grammar of route lines that does not mention the parser.
 What spells no setting is refused, and a line without options gets the defaults.
 */
module RouteGrammar {
  import opened Options
  import opened CText
  import opened EndpointText
  import opened RouteLine
  import opened RouteRoundTrip

  // ---- Options -----------------------------------------------------------------------------------

  /** The text is key '=' value, with white space allowed around either. */
  ghost predicate HasKey(t: string, key: string, value: string) {
    exists i: nat :: IsKeyAt(t, i, key, value)
  }

  ghost predicate IsKeyAt(t: string, i: nat, key: string, value: string) {
    i < |t| && t[i] == '=' && '=' !in t[..i] && Trimmed(t[..i]) == key && Trimmed(t[i + 1..]) == value
  }

  ghost predicate HasNumber(t: string, key: string, n: nat) {
    exists value :: HasKey(t, key, value) && Numeral(value, false, n)
  }

  predicate SpelledByName(t: string, x: Setting) {
    || (t == "proxy_v2" && x == ProxyV2) || (t == "keep_alive" && x == KeepAlive)
    || (t == "sni_sniff" && x == SniSniff) || (t == "broadcast_reply" && x == Reply(Listen))
  }

  ghost predicate SpelledByKey(t: string, x: Setting) {
    || (x.IdleTimeout? && HasNumber(t, "idle_timeout", x.n))
    || (x.ConnectTimeout? && HasNumber(t, "connect_timeout", x.n))
    || (x.BindWait? && HasNumber(t, "bind_wait", x.n))
    || (x.Reply? && HasKey(t, "broadcast_reply", ReplyText(x.mode)))
  }

  /** A token that spells a setting. */
  ghost predicate Spells(token: string, x: Setting) {
    IsSetting(x) && (SpelledByName(Trimmed(token), x) || SpelledByKey(Trimmed(token), x))
  }

  function FlagSetting(name: string): (r: Option<Setting>) {
    if name == "proxy_v2" then Some(ProxyV2)
    else if name == "keep_alive" then Some(KeepAlive)
    else if name == "sni_sniff" then Some(SniSniff)
    else if name == "broadcast_reply" then Some(Reply(Listen))
    else None
  }

  function KeyedSetting(key: string, value: string): (r: Option<Setting>) {
    if key == "broadcast_reply" then
      if value == "listen" then Some(Reply(Listen)) else if value == "upstream" then Some(Reply(Upstream)) else None
    else
      match ParsePositiveInt(value)
      case None => None
      case Some(n) =>
        if key == "idle_timeout" then Some(IdleTimeout(n))
        else if key == "connect_timeout" then Some(ConnectTimeout(n))
        else if key == "bind_wait" then Some(BindWait(n))
        else None
  }

  function SettingOf(token: string): (r: Option<Setting>) {
    var t := Trimmed(token);
    match IndexOf(t, '=')
    case None => FlagSetting(t)
    case Some(eq) => KeyedSetting(Trimmed(t[..eq]), Trimmed(t[eq + 1..]))
  }

  lemma FlagApplies(o: RouteOptions, name: string)
    ensures ApplyFlag(o, name) == match FlagSetting(name) case None => None case Some(x) => Some(Set(o, x))
  {
  }

  lemma KeyedApplies(o: RouteOptions, key: string, value: string)
    ensures ApplyKeyed(o, key, value) == match KeyedSetting(key, value) case None => None case Some(x) => Some(Set(o, x))
    ensures KeyedSetting(key, value).Some? ==> key != [] && value != []
  {
  }

  /** An option token sets what it spells, whatever was set before. */
  lemma OptionApplies(o: RouteOptions, token: string)
    ensures ApplyOption(o, token) == match SettingOf(token) case None => None case Some(x) => Some(Set(o, x))
  {
    var t := Trimmed(token);
    FlagApplies(o, t);
    match IndexOf(t, '=')
    case None =>
    case Some(eq) => KeyedApplies(o, Trimmed(t[..eq]), Trimmed(t[eq + 1..]));
  }

  lemma FlagIff(t: string, x: Setting)
    requires IndexOf(t, '=').None?
    ensures FlagSetting(t) == Some(x) <==> SpelledByName(t, x)
  {
  }

  lemma NoKey(t: string, key: string, value: string)
    requires IndexOf(t, '=').None?
    ensures !HasKey(t, key, value)
  {
  }

  /** The one way to read the text as key and value. */
  ghost predicate KeyIs(t: string, key: string, value: string) {
    forall k, v :: HasKey(t, k, v) <==> k == key && v == value
  }

  lemma KeyIff(t: string, eq: nat)
    requires IndexOf(t, '=') == Some(eq)
    ensures KeyIs(t, Trimmed(t[..eq]), Trimmed(t[eq + 1..]))
  {
    forall k, v ensures HasKey(t, k, v) <==> k == Trimmed(t[..eq]) && v == Trimmed(t[eq + 1..]) {
      assert '=' !in t[..eq];
      assert k == Trimmed(t[..eq]) && v == Trimmed(t[eq + 1..]) ==> IsKeyAt(t, eq, k, v);
      if i: nat :| IsKeyAt(t, i, k, v) {
        FirstIndex(t, '=', i);
      }
    }
  }

  lemma NumberIff(t: string, key: string, value: string, k: string, n: nat)
    requires KeyIs(t, key, value)
    ensures HasNumber(t, k, n) <==> k == key && Numeral(value, false, n)
  {
    assert HasKey(t, key, value);
  }

  lemma HasNoEquals(t: string, x: Setting)
    requires '=' in t
    ensures !SpelledByName(t, x)
  {
    assert '=' !in "proxy_v2" && '=' !in "keep_alive" && '=' !in "sni_sniff" && '=' !in "broadcast_reply";
  }

  lemma KeyedIff(t: string, key: string, value: string, x: Setting)
    requires KeyIs(t, key, value)
    ensures KeyedSetting(key, value) == Some(x) <==> IsSetting(x) && SpelledByKey(t, x)
  {
    match x {
      case IdleTimeout(n) => NumberIff(t, key, value, "idle_timeout", n); NumberKey(key, value, x, n);
      case ConnectTimeout(n) => NumberIff(t, key, value, "connect_timeout", n); NumberKey(key, value, x, n);
      case BindWait(n) => NumberIff(t, key, value, "bind_wait", n); NumberKey(key, value, x, n);
      case Reply(mode) => ReplyKey(key, value, mode);
      case _ => NoFlagByKey(key, value, x);
    }
  }

  lemma NoFlagByKey(key: string, value: string, x: Setting)
    requires x == ProxyV2 || x == KeepAlive || x == SniSniff
    ensures KeyedSetting(key, value) != Some(x)
  {
  }

  lemma NumberKey(key: string, value: string, x: Setting, n: nat)
    requires x == IdleTimeout(n) || x == ConnectTimeout(n) || x == BindWait(n)
    ensures KeyedSetting(key, value) == Some(x) <==>
            && IsSetting(x) && Numeral(value, false, n)
            && key == (if x.IdleTimeout? then "idle_timeout" else if x.ConnectTimeout? then "connect_timeout" else "bind_wait")
  {
    ParsePositiveIntIff(value, n);
    KeysDiffer();
  }

  lemma ReplyKey(key: string, value: string, mode: BroadcastReply)
    ensures KeyedSetting(key, value) == Some(Reply(mode)) <==>
            mode != Off && key == "broadcast_reply" && value == ReplyText(mode)
  {
    assert "upstream"[0] != "listen"[0];
  }

  lemma KeysDiffer()
    ensures "idle_timeout" != "broadcast_reply" && "connect_timeout" != "broadcast_reply" && "bind_wait" != "broadcast_reply"
    ensures "idle_timeout" != "connect_timeout" && "idle_timeout" != "bind_wait" && "connect_timeout" != "bind_wait"
  {
    assert "idle_timeout"[0] != "broadcast_reply"[0] && "connect_timeout"[0] != "broadcast_reply"[0];
    assert "bind_wait"[1] != "broadcast_reply"[1];
    assert "idle_timeout"[0] != "connect_timeout"[0] && "idle_timeout"[0] != "bind_wait"[0] && "connect_timeout"[0] != "bind_wait"[0];
  }

  /** A token is read as the setting it spells, and refused if it spells none. */
  lemma SettingOfIff(token: string, x: Setting)
    ensures SettingOf(token) == Some(x) <==> Spells(token, x)
  {
    var t := Trimmed(token);
    match IndexOf(t, '=')
    case None => FlagSpells(token, x);
    case Some(eq) => KeyedSpells(token, eq, x);
  }

  lemma FlagSpells(token: string, x: Setting)
    requires IndexOf(Trimmed(token), '=').None?
    ensures FlagSetting(Trimmed(token)) == Some(x) <==> Spells(token, x)
  {
    var t := Trimmed(token);
    FlagIff(t, x);
    match x {
      case IdleTimeout(n) => NoNumber(t, "idle_timeout", n);
      case ConnectTimeout(n) => NoNumber(t, "connect_timeout", n);
      case BindWait(n) => NoNumber(t, "bind_wait", n);
      case Reply(mode) => NoKey(t, "broadcast_reply", ReplyText(mode));
      case _ =>
    }
  }

  lemma NoNumber(t: string, key: string, n: nat)
    requires IndexOf(t, '=').None?
    ensures !HasNumber(t, key, n)
  {
    forall value ensures !HasKey(t, key, value) {
      NoKey(t, key, value);
    }
  }

  lemma KeyedSpells(token: string, eq: nat, x: Setting)
    requires IndexOf(Trimmed(token), '=') == Some(eq)
    ensures KeyedSetting(Trimmed(Trimmed(token)[..eq]), Trimmed(Trimmed(token)[eq + 1..])) == Some(x) <==> Spells(token, x)
  {
    var t := Trimmed(token);
    KeyIff(t, eq);
    KeyedIff(t, Trimmed(t[..eq]), Trimmed(t[eq + 1..]), x);
    HasNoEquals(t, x);
  }

  // ---- Lines -------------------------------------------------------------------------------------

  /** The option tokens of all option fields, in order. */
  function OptionTokens(fields: seq<string>): seq<string> {
    if fields == [] then [] else Tokens(fields[0], COMMA) + OptionTokens(fields[1..])
  }

  lemma {:induction false} ApplyInTurn(o: RouteOptions, a: seq<string>, b: seq<string>)
    ensures ApplyTokens(o, a + b) == match ApplyTokens(o, a) case None => None case Some(o') => ApplyTokens(o', b)
    decreases |a|
  {
    if a == [] {
      assert a + b == b;
    } else {
      assert (a + b)[0] == a[0] && (a + b)[1..] == a[1..] + b;
      OptionApplies(o, a[0]);
      if SettingOf(a[0]).Some? {
        ApplyInTurn(Set(o, SettingOf(a[0]).value), a[1..], b);
      }
    }
  }

  lemma {:induction false} FieldsApply(o: RouteOptions, fields: seq<string>)
    ensures ApplyFields(o, fields) == ApplyTokens(o, OptionTokens(fields))
    decreases |fields|
  {
    if fields != [] {
      ApplyInTurn(o, Tokens(fields[0], COMMA), OptionTokens(fields[1..]));
      if ParseRouteOptions(o, fields[0]).Some? {
        FieldsApply(ParseRouteOptions(o, fields[0]).value, fields[1..]);
      }
    }
  }

  ghost predicate SpellAll(tokens: seq<string>, xs: seq<Setting>) {
    |tokens| == |xs| && forall i :: 0 <= i < |xs| ==> Spells(tokens[i], xs[i])
  }

  /** Tokens are accepted exactly if each spells a setting, and then they set these in turn. */
  lemma {:induction false} TokensApplyIff(o: RouteOptions, tokens: seq<string>, o': RouteOptions)
    ensures ApplyTokens(o, tokens) == Some(o') <==> exists xs :: SpellAll(tokens, xs) && SetAll(o, xs) == o'
    decreases |tokens|
  {
    if tokens == [] {
      assert SpellAll(tokens, []) && SetAll(o, []) == o;
    } else {
      OptionApplies(o, tokens[0]);
      if ApplyTokens(o, tokens) == Some(o') {
        var x := SettingOf(tokens[0]).value;
        TokensApplyIff(Set(o, x), tokens[1..], o');
        var xs :| SpellAll(tokens[1..], xs) && SetAll(Set(o, x), xs) == o';
        FirstSpelled(o, tokens, x, xs);
      }
      if xs :| SpellAll(tokens, xs) && SetAll(o, xs) == o' {
        SettingOfIff(tokens[0], xs[0]);
        TokensApplyIff(Set(o, xs[0]), tokens[1..], o');
        assert SpellAll(tokens[1..], xs[1..]);
      }
    }
  }

  lemma FirstSpelled(o: RouteOptions, tokens: seq<string>, x: Setting, xs: seq<Setting>)
    requires tokens != [] && SettingOf(tokens[0]) == Some(x) && SpellAll(tokens[1..], xs)
    ensures SpellAll(tokens, [x] + xs) && SetAll(o, [x] + xs) == SetAll(Set(o, x), xs)
  {
    SettingOfIff(tokens[0], x);
    var all := [x] + xs;
    assert all[1..] == xs;
    forall i | 0 <= i < |all| ensures Spells(tokens[i], all[i]) {
      if i > 0 {
        assert tokens[i] == tokens[1..][i - 1];
      }
    }
  }

  lemma ParseProtoIff(s: string, proto: Proto)
    ensures ParseProto(s) == Some(proto) <==> s == ProtoText(proto)
  {
    ProtoRoundTrip(proto);
  }

  /** These fields, after the optional "listen", describe this route. */
  ghost predicate Describes(g: seq<string>, r: Route, xs: seq<Setting>) {
    && |g| >= 4
    && g[0] == ProtoText(r.listen.proto) && ParseEndpoint(r.listen.proto, g[1]) == Some(r.listen)
    && g[2] == ProtoText(r.upstream.proto) && ParseEndpoint(r.upstream.proto, g[3]) == Some(r.upstream)
    && SpellAll(OptionTokens(g[4..]), xs) && r.opts == SetAll(DEFAULTS, xs) && r.lineNo == 0
  }

  lemma OperandsAreDescribed(g: seq<string>, r: Route, xs: seq<Setting>)
    requires Describes(g, r, xs)
    ensures RouteOfOperands(g) == Some(r)
  {
    ParseProtoIff(g[0], r.listen.proto);
    ParseProtoIff(g[2], r.upstream.proto);
    FieldsApply(DEFAULTS, g[4..]);
    TokensApplyIff(DEFAULTS, OptionTokens(g[4..]), r.opts);
  }

  lemma OperandsDescribe(g: seq<string>, r: Route) returns (xs: seq<Setting>)
    requires RouteOfOperands(g) == Some(r)
    ensures Describes(g, r, xs)
  {
    ParseProtoIff(g[0], r.listen.proto);
    ParseProtoIff(g[2], r.upstream.proto);
    FieldsApply(DEFAULTS, g[4..]);
    TokensApplyIff(DEFAULTS, OptionTokens(g[4..]), r.opts);
    xs :| SpellAll(OptionTokens(g[4..]), xs) && SetAll(DEFAULTS, xs) == r.opts;
  }

  /** A line is accepted as a route exactly if it has at most 32 fields and they describe that route:
      protocol and endpoint twice, after an optional "listen", and then nothing but settings. */
  lemma RouteIff(line: string, r: Route)
    ensures RouteOf(line) == Some(r) <==>
            |Tokens(line, BLANKS)| <= 32 && exists xs :: Describes(Operands(Tokens(line, BLANKS)), r, xs)
  {
    DescribedIff(Operands(Tokens(line, BLANKS)), r);
  }

  lemma DescribedIff(g: seq<string>, r: Route)
    ensures RouteOfOperands(g) == Some(r) <==> exists xs :: Describes(g, r, xs)
  {
    if RouteOfOperands(g) == Some(r) {
      var xs := OperandsDescribe(g, r);
    }
    if xs :| Describes(g, r, xs) {
      OperandsAreDescribed(g, r, xs);
    }
  }

  /** Without options: an idle timeout of 60 seconds, a connect timeout of 5, and all else off. */
  lemma PlainRoute(line: string, r: Route)
    requires RouteOf(line) == Some(r) && |Operands(Tokens(line, BLANKS))| == 4
    ensures r.opts == RouteOptions(false, false, false, 60, 5, 0, Off)
  {
    RouteIff(line, r);
    var xs :| Describes(Operands(Tokens(line, BLANKS)), r, xs);
    assert OptionTokens(Operands(Tokens(line, BLANKS))[4..]) == [];
  }
}
