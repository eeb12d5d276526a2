/** Route lines parsed in place, as parse_route_options and parse_route_line do. */
module RouteParser {
  import opened Options
  import opened CText
  import opened EndpointText
  import opened RouteLine
  import opened CharBuffer

  /** The token at `tok`, trimmed and split at its '=' in place. */
  method ParseOption(b: array<char>, tok: nat, opts: RouteOptions, ghost s: string) returns (r: Option<RouteOptions>)
    requires Holds(b[..], tok, s)
    modifies b
    ensures r == ApplyOption(opts, s)
    ensures Kept(old(b[..]), b[..], tok, |s|)
  {
    ghost var t := Trimmed(s);
    var p := Trim(b, tok, s);
    var text := ReadString(b, p, t);
    if text == [] {
      return None;
    }
    var eq := IndexOf(text, '=');
    if eq.None? {
      return ApplyFlag(opts, text);
    }
    ghost var trimmed := b[..];
    var key, value := SplitOption(b, p, eq.value, t);
    KeptWider(trimmed, b[..], p, |t|, tok, |s|);
    KeptTwice(old(b[..]), trimmed, b[..], tok, |s|);
    r := if key == [] || value == [] then None else ApplyKeyed(opts, key, value);
  }

  method SplitOption(b: array<char>, p: nat, eq: nat, ghost t: string) returns (key: string, value: string)
    requires Holds(b[..], p, t) && eq < |t|
    modifies b
    ensures key == Trimmed(t[..eq]) && value == Trimmed(t[eq + 1..])
    ensures Kept(old(b[..]), b[..], p, |t|)
  {
    ghost var k, v := t[..eq], t[eq + 1..];
    Terminate(b, p, eq, t);
    ghost var b1 := b[..];
    var keyAt := Trim(b, p, k);
    ghost var b2 := b[..];
    HoldsElsewhere(b1, b2, p, eq, p + eq + 1, v);
    var valueAt := Trim(b, p + eq + 1, v);
    ghost var b3 := b[..];
    HoldsElsewhere(b2, b3, p + eq + 1, |v|, keyAt, Trimmed(k));
    key := ReadString(b, keyAt, Trimmed(k));
    value := ReadString(b, valueAt, Trimmed(v));
    KeptWider(b1, b2, p, eq, p, |t|);
    KeptWider(b2, b3, p + eq + 1, |v|, p, |t|);
    KeptTwice(old(b[..]), b1, b2, p, |t|);
    KeptTwice(old(b[..]), b2, b3, p, |t|);
  }

  method ParseOptionsInPlace(b: array<char>, p: nat, opts: RouteOptions, ghost s: string) returns (r: Option<RouteOptions>)
    requires Holds(b[..], p, s)
    modifies b
    ensures r == ParseRouteOptions(opts, s)
    ensures Kept(old(b[..]), b[..], p, |s|)
  {
    r := Some(opts);
    ghost var rest := s;
    ghost var b0 := b[..];
    var found, tok, save := StrTok(b, p, COMMA, s);
    ghost var from: nat := p;
    while found
      invariant r.Some?
      invariant found <==> Span(rest, COMMA, true) < |rest|
      invariant found ==> IsFound(b[..], from, tok, save, rest, COMMA) && p <= from && from + |rest| == p + |s|
      invariant ApplyTokens(r.value, Tokens(rest, COMMA)) == ParseRouteOptions(opts, s)
      invariant Kept(b0, b[..], p, |s|)
      decreases |rest|
    {
      ghost var b1 := b[..];
      ghost var word, more := Token(rest, COMMA), After(rest, TokenEnd(rest, COMMA));
      TokensUnfold(rest, COMMA);
      r := ParseOption(b, tok, r.value, word);
      ghost var b2 := b[..];
      KeptWider(b1, b2, tok, |word|, p, |s|);
      KeptTwice(b0, b1, b2, p, |s|);
      if r.None? {
        return;
      }
      HoldsElsewhere(b1, b2, tok, |word|, save, more);
      from, rest := save, more;
      found, tok, save := StrTok(b, save, COMMA, rest);
      KeptWider(b2, b[..], from, |rest|, p, |s|);
      KeptTwice(b0, b2, b[..], p, |s|);
    }
  }

  /** The fields from lo on are in the buffer, in order and apart. */
  ghost predicate Held(b: seq<char>, fields: seq<nat>, texts: seq<string>, lo: nat) {
    && |fields| == |texts|
    && (forall i :: lo <= i < |fields| ==> Holds(b, fields[i], texts[i]))
    && (forall i, j :: 0 <= i < j < |fields| ==> fields[i] + |texts[i]| < fields[j])
  }

  ghost predicate EndBefore(fields: seq<nat>, texts: seq<string>, p: nat) {
    |fields| == |texts| && forall i :: 0 <= i < |fields| ==> fields[i] + |texts[i]| < p
  }

  lemma HeldElsewhere(b: seq<char>, b': seq<char>, p: nat, n: nat, fields: seq<nat>, texts: seq<string>)
    requires Held(b, fields, texts, 0) && Kept(b, b', p, n) && (n == 0 || EndBefore(fields, texts, p))
    ensures Held(b', fields, texts, 0)
  {
    forall i | 0 <= i < |fields| ensures Holds(b', fields[i], texts[i]) {
      HoldsElsewhere(b, b', p, n, fields[i], texts[i]);
    }
  }

  lemma HeldAfterFirst(b: seq<char>, b': seq<char>, fields: seq<nat>, texts: seq<string>, lo: nat)
    requires Held(b, fields, texts, lo) && lo < |fields| && Kept(b, b', fields[lo], |texts[lo]|)
    ensures Held(b', fields, texts, lo + 1)
  {
    forall i | lo < i < |fields| ensures Holds(b', fields[i], texts[i]) {
      HoldsElsewhere(b, b', fields[lo], |texts[lo]|, fields[i], texts[i]);
    }
  }

  /** The fields found so far and those in the rest of the string. */
  ghost function Gathered(texts: seq<string>, rest: string): seq<string> {
    texts + Tokens(rest, BLANKS)
  }

  lemma TextAdded(texts: seq<string>, rest: string)
    requires Span(rest, BLANKS, true) < |rest|
    ensures var more := After(rest, TokenEnd(rest, BLANKS));
            && |texts| < |Gathered(texts, rest)| && |more| < |rest|
            && Gathered(texts + [Token(rest, BLANKS)], more) == Gathered(texts, rest)
  {
    TokensUnfold(rest, BLANKS);
    Shift(texts, Token(rest, BLANKS), Tokens(After(rest, TokenEnd(rest, BLANKS)), BLANKS));
  }

  lemma Shift(texts: seq<string>, word: string, more: seq<string>)
    ensures texts + ([word] + more) == (texts + [word]) + more
  {
  }

  lemma AllGathered(texts: seq<string>, rest: string)
    requires Span(rest, BLANKS, true) == |rest|
    ensures Gathered(texts, rest) == texts
  {
  }

  lemma FieldAdded(b: seq<char>, from: nat, tok: nat, save: nat, rest: string, fields: seq<nat>, texts: seq<string>)
    requires IsFound(b, from, tok, save, rest, BLANKS) && Held(b, fields, texts, 0) && EndBefore(fields, texts, from)
    ensures var word := Token(rest, BLANKS);
            && Held(b, fields + [tok], texts + [word], 0)
            && (After(rest, TokenEnd(rest, BLANKS)) == [] || EndBefore(fields + [tok], texts + [word], save))
  {
    FoundApart(b, from, tok, save, rest, BLANKS);
  }

  /** Where a token and the text after it lie. */
  lemma FoundApart(b: seq<char>, from: nat, tok: nat, save: nat, s: string, d: set<char>)
    requires IsFound(b, from, tok, save, s, d)
    ensures from <= tok && (After(s, TokenEnd(s, d)) == [] || tok + |Token(s, d)| < save)
  {
  }

  /** strtok_r writes nothing in the fields found before. */
  method NextField(b: array<char>, save: nat, ghost rest: string, ghost fields: seq<nat>, ghost texts: seq<string>)
    returns (found: bool, tok: nat, save': nat)
    requires Holds(b[..], save, rest) && Held(b[..], fields, texts, 0) && (rest == [] || EndBefore(fields, texts, save))
    modifies b
    ensures Held(b[..], fields, texts, 0)
    ensures found <==> Span(rest, BLANKS, true) < |rest|
    ensures found ==> IsFound(b[..], save, tok, save', rest, BLANKS)
  {
    found, tok, save' := StrTok(b, save, BLANKS, rest);
    HeldElsewhere(old(b[..]), b[..], save, |rest|, fields, texts);
  }

  /** The first loop of parse_route_line: no more than 32 fields. */
  method SplitFields(b: array<char>, p: nat, ghost s: string) returns (fields: seq<nat>, ok: bool)
    requires Holds(b[..], p, s)
    modifies b
    ensures ok <==> |Tokens(s, BLANKS)| <= MAX_ROUTE_FIELDS
    ensures ok ==> Held(b[..], fields, Tokens(s, BLANKS), 0)
  {
    fields, ok := [], true;
    ghost var texts: seq<string> := [];
    ghost var rest, from: nat := s, p;
    assert Gathered([], s) == Tokens(s, BLANKS);
    var found, tok, save := NextField(b, p, s, fields, texts);
    while found
      invariant found <==> Span(rest, BLANKS, true) < |rest|
      invariant found ==> IsFound(b[..], from, tok, save, rest, BLANKS)
      invariant found ==> EndBefore(fields, texts, from)
      invariant Held(b[..], fields, texts, 0) && |fields| <= MAX_ROUTE_FIELDS
      invariant Gathered(texts, rest) == Tokens(s, BLANKS)
      decreases |rest|
    {
      TextAdded(texts, rest);
      if |fields| >= MAX_ROUTE_FIELDS {
        ok := false;
        return;
      }
      ghost var word := Token(rest, BLANKS);
      FieldAdded(b[..], from, tok, save, rest, fields, texts);
      from, rest := save, After(rest, TokenEnd(rest, BLANKS));
      fields, texts := fields + [tok], texts + [word];
      found, tok, save := NextField(b, save, rest, fields, texts);
    }
    AllGathered(texts, rest);
  }

  /** The route that the fields from pos on describe. */
  ghost function RouteFrom(texts: seq<string>, pos: nat, step: OptionStep): Option<Route>
    requires pos + 4 <= |texts|
  {
    match EndpointOf(texts[pos], texts[pos + 1])
    case None => None
    case Some(listen) =>
      match EndpointOf(texts[pos + 2], texts[pos + 3])
      case None => None
      case Some(upstream) =>
        match FieldsFrom(step, DEFAULTS, texts, pos + 4)
        case None => None
        case Some(opts) => Some(Route(listen, upstream, opts, 0))
  }

  ghost function EndpointOf(proto: string, address: string): Option<Endpoint> {
    match ParseProto(proto) case None => None case Some(p) => ParseEndpoint(p, address)
  }

  lemma OperandsFrom(texts: seq<string>, pos: nat, step: OptionStep)
    requires IsOptionStep(step)
    requires texts != [] && pos == if texts[0] == "listen" then 1 else 0
    ensures RouteOfOperands(Operands(texts)) == if |texts| - pos < 4 then None else RouteFrom(texts, pos, step)
  {
    var f := Operands(texts);
    assert f == texts[pos..];
    if |f| >= 4 {
      assert f[4..] == texts[pos + 4..];
      FieldsFromIs(step, DEFAULTS, texts, pos + 4);
    }
  }

  method ParseRouteLine(b: array<char>, p: nat, ghost s: string) returns (r: Option<Route>)
    requires Holds(b[..], p, s)
    modifies b
    ensures r == RouteOf(s)
  {
    var fields, ok := SplitFields(b, p, s);
    if !ok || |fields| == 0 {
      return None;
    }
    r := ParseFields(b, fields, Tokens(s, BLANKS));
  }

  method ParseFields(b: array<char>, fields: seq<nat>, ghost texts: seq<string>) returns (r: Option<Route>)
    requires Held(b[..], fields, texts, 0) && fields != []
    modifies b
    ensures r == RouteOfOperands(Operands(texts))
  {
    var keyword := ReadString(b, fields[0], texts[0]);
    var pos := if keyword == "listen" then 1 else 0;
    ghost var step: OptionStep := (o, s) => ParseRouteOptions(o, s);
    OperandsFrom(texts, pos, step);
    if |fields| - pos < 4 {
      return None;
    }
    r := ParseOperands(b, fields, pos, texts, step);
  }

  method ParseOperands(b: array<char>, fields: seq<nat>, pos: nat, ghost texts: seq<string>, ghost step: OptionStep)
    returns (r: Option<Route>)
    requires Held(b[..], fields, texts, 0) && pos + 4 <= |fields| && IsOptionStep(step)
    modifies b
    ensures r == RouteFrom(texts, pos, step)
  {
    var listen := ParseEndpointFields(b, fields, pos, texts);
    if listen.None? {
      return None;
    }
    var upstream := ParseEndpointFields(b, fields, pos + 2, texts);
    if upstream.None? {
      return None;
    }
    var opts := ParseOptionFields(b, fields, pos + 4, DEFAULTS, texts, step);
    r := if opts.None? then None else Some(Route(listen.value, upstream.value, opts.value, 0));
  }

  /** A protocol field and the endpoint field after it. */
  method ParseEndpointFields(b: array<char>, fields: seq<nat>, pos: nat, ghost texts: seq<string>) returns (r: Option<Endpoint>)
    requires Held(b[..], fields, texts, 0) && pos + 1 < |fields|
    ensures r == EndpointOf(texts[pos], texts[pos + 1])
  {
    var text := ReadString(b, fields[pos], texts[pos]);
    var proto := ParseProto(text);
    if proto.None? {
      return None;
    }
    var address := ReadString(b, fields[pos + 1], texts[pos + 1]);
    r := ParseEndpoint(proto.value, address);
  }

  type OptionStep = (RouteOptions, string) -> Option<RouteOptions>

  ghost predicate IsOptionStep(step: OptionStep) {
    forall o, s {:trigger ParseRouteOptions(o, s)} :: step(o, s) == ParseRouteOptions(o, s)
  }

  /** What the option fields from k on make of these options, if a field does this step. */
  ghost function FieldsFrom(step: OptionStep, o: RouteOptions, texts: seq<string>, k: nat): Option<RouteOptions>
    requires k <= |texts|
    decreases |texts| - k
  {
    if k == |texts| then Some(o)
    else match step(o, texts[k]) case None => None case Some(o') => FieldsFrom(step, o', texts, k + 1)
  }

  lemma {:induction false} FieldsFromIs(step: OptionStep, o: RouteOptions, texts: seq<string>, k: nat)
    requires k <= |texts| && IsOptionStep(step)
    ensures FieldsFrom(step, o, texts, k) == ApplyFields(o, texts[k..])
    decreases |texts| - k
  {
    if k < |texts| {
      assert texts[k..][0] == texts[k] && texts[k..][1..] == texts[k + 1..];
      if ParseRouteOptions(o, texts[k]).Some? {
        FieldsFromIs(step, ParseRouteOptions(o, texts[k]).value, texts, k + 1);
      }
    }
  }

  method ParseOptionField(b: array<char>, fields: seq<nat>, pos: nat, opts: RouteOptions, ghost texts: seq<string>,
                          ghost step: OptionStep)
    returns (r: Option<RouteOptions>)
    requires Held(b[..], fields, texts, pos) && pos < |fields| && IsOptionStep(step)
    modifies b
    ensures Held(b[..], fields, texts, pos + 1)
    ensures r == step(opts, texts[pos])
  {
    r := ParseOptionsInPlace(b, fields[pos], opts, texts[pos]);
    HeldAfterFirst(old(b[..]), b[..], fields, texts, pos);
  }

  method ParseOptionFields(b: array<char>, fields: seq<nat>, first: nat, opts: RouteOptions, ghost texts: seq<string>,
                           ghost step: OptionStep)
    returns (r: Option<RouteOptions>)
    requires Held(b[..], fields, texts, 0) && first <= |fields| && IsOptionStep(step)
    modifies b
    ensures r == FieldsFrom(step, opts, texts, first)
  {
    var o, pos := opts, first;
    while pos < |fields|
      invariant first <= pos <= |fields| && Held(b[..], fields, texts, pos)
      invariant FieldsFrom(step, o, texts, pos) == FieldsFrom(step, opts, texts, first)
    {
      r := ParseOptionField(b, fields, pos, o, texts, step);
      if r.None? {
        return;
      }
      o, pos := r.value, pos + 1;
    }
    r := Some(o);
  }
}
