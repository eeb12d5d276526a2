/**
 The wire format of a ClientHello with a server name: section 5.1 of RFC 8446 for the record,
 sections 4.1.2 and 4.2 of RFC 8446 for the ClientHello and its extensions, section 3 of RFC 6066
 for the server name list.  The format is written as encoders, and `Carries` and `Lacks` say which
 byte strings decompose into it, as leniently as the parser is: whatever follows the first
 host_name, the first server_name extension, the ClientHello or the record is free, and up to two
 stray bytes may end a server name list without a host_name.

 The parser of SniffParser accepts exactly those strings, and each of its statuses is
 characterised.
 */
module SniffGrammar {
  import opened Bytes
  import opened Options
  import opened SniffParser

  datatype Name = Name(kind: Byte, body: seq<Byte>)

  datatype Extension = Extension(kind: nat, data: seq<Byte>)

  datatype Hello = Hello(
    prologue: seq<Byte>,             // legacy_version and random
    sessionId: seq<Byte>,
    ciphers: seq<Byte>,
    compression: seq<Byte>,
    extensions: Option<seq<Byte>>
  )

  // ---- Encoders --------------------------------------------------------------------------------

  predicate IsName(n: Name) {
    |n.body| < 0x1_0000
  }

  function NameBytes(n: Name): seq<Byte>
    requires IsName(n)
  {
    [n.kind] + U16(|n.body|) + n.body
  }

  function NamesBytes(ns: seq<Name>): seq<Byte>
    requires forall i :: 0 <= i < |ns| ==> IsName(ns[i])
  {
    if ns == [] then [] else NameBytes(ns[0]) + NamesBytes(ns[1..])
  }

  predicate IsExtension(e: Extension) {
    e.kind < 0x1_0000 && |e.data| < 0x1_0000
  }

  function ExtensionBytes(e: Extension): seq<Byte>
    requires IsExtension(e)
  {
    U16(e.kind) + U16(|e.data|) + e.data
  }

  function ExtensionsBytes(es: seq<Extension>): seq<Byte>
    requires forall i :: 0 <= i < |es| ==> IsExtension(es[i])
  {
    if es == [] then [] else ExtensionBytes(es[0]) + ExtensionsBytes(es[1..])
  }

  predicate IsHello(h: Hello) {
    && |h.prologue| == 34
    && |h.sessionId| < 0x100
    && 0 < |h.ciphers| < 0x1_0000 && |h.ciphers| % 2 == 0
    && 0 < |h.compression| < 0x100
    && (h.extensions.Some? ==> |h.extensions.value| < 0x1_0000)
  }

  function ExtensionBlock(x: Option<seq<Byte>>): seq<Byte>
    requires x.Some? ==> |x.value| < 0x1_0000
  {
    if x.None? then [] else U16(|x.value|) + x.value
  }

  function HelloBytes(h: Hello): seq<Byte>
    requires IsHello(h)
  {
    h.prologue + ([|h.sessionId|] + h.sessionId +
      (U16(|h.ciphers|) + h.ciphers + ([|h.compression|] + h.compression + ExtensionBlock(h.extensions))))
  }

  /** A handshake record that starts with a ClientHello. */
  function RecordBytes(minor: Byte, body: seq<Byte>, slack: seq<Byte>): seq<Byte>
    requires 0 < |body| && 4 + |body| + |slack| < 0x1_0000
  {
    [0x16, 0x03, minor] + U16(4 + |body| + |slack|) + ([0x01] + U24(|body|) + body + slack)
  }

  // ---- Which strings carry a name, which lack one ----------------------------------------------

  ghost predicate AreOtherNames(ns: seq<Name>) {
    forall i :: 0 <= i < |ns| ==> IsName(ns[i]) && ns[i].kind != 0
  }

  ghost predicate AreOtherExtensions(es: seq<Extension>) {
    forall i :: 0 <= i < |es| ==> IsExtension(es[i]) && es[i].kind != 0
  }

  ghost predicate IsListWith(list: seq<Byte>, ns: seq<Name>, name: seq<Byte>, after: seq<Byte>) {
    AreOtherNames(ns) && |name| < 0x1_0000 && list == NamesBytes(ns) + (NameBytes(Name(0, name)) + after)
  }

  ghost predicate ListCarries(list: seq<Byte>, name: seq<Byte>) {
    exists ns, after :: IsListWith(list, ns, name, after)
  }

  ghost predicate ListLacks(list: seq<Byte>) {
    exists ns, tail :: AreOtherNames(ns) && |tail| <= 2 && list == NamesBytes(ns) + tail
  }

  /** The data of a server_name extension: a list that fills it. */
  ghost predicate IsListData(data: seq<Byte>) {
    2 <= |data| < 0x1_0002 && data[..2] == U16(|data| - 2)
  }

  ghost predicate AreExtensionsWith(x: seq<Byte>, es: seq<Extension>, data: seq<Byte>, after: seq<Byte>) {
    AreOtherExtensions(es) && |data| < 0x1_0000 && IsListData(data) &&
    x == ExtensionsBytes(es) + (ExtensionBytes(Extension(0, data)) + after)
  }

  ghost predicate ExtensionsCarry(x: seq<Byte>, name: seq<Byte>) {
    exists es, data, after :: AreExtensionsWith(x, es, data, after) && ListCarries(data[2..], name)
  }

  ghost predicate ExtensionsLack(x: seq<Byte>) {
    || (exists es :: AreOtherExtensions(es) && x == ExtensionsBytes(es))
    || (exists es, data, after :: AreExtensionsWith(x, es, data, after) && ListLacks(data[2..]))
  }

  ghost predicate HelloCarries(body: seq<Byte>, name: seq<Byte>) {
    exists h :: IsHello(h) && body == HelloBytes(h) && h.extensions.Some? && ExtensionsCarry(h.extensions.value, name)
  }

  ghost predicate HelloLacks(body: seq<Byte>) {
    exists h :: IsHello(h) && body == HelloBytes(h) && (h.extensions.Some? ==> ExtensionsLack(h.extensions.value))
  }

  ghost predicate StartsWithHello(b: seq<Byte>, minor: Byte, body: seq<Byte>, slack: seq<Byte>) {
    0 < |body| && 4 + |body| + |slack| < 0x1_0000 && RecordBytes(minor, body, slack) <= b
  }

  ghost predicate Carries(b: seq<Byte>, name: seq<Byte>) {
    exists minor, body, slack :: StartsWithHello(b, minor, body, slack) && HelloCarries(body, name)
  }

  ghost predicate Lacks(b: seq<Byte>) {
    exists minor, body, slack :: StartsWithHello(b, minor, body, slack) && HelloLacks(body)
  }

  // ---- Server name list ------------------------------------------------------------------------

  lemma NameIsRead(n: Name, rest: seq<Byte>, outLen: nat)
    requires IsName(n)
    ensures ParseNames(NameBytes(n) + rest, outLen) ==
            if n.kind == 0 then HostVerdict(n.body, outLen) else ParseNames(rest, outLen)
  {
    var s := NameBytes(n) + rest;
    assert s == [n.kind] + U16(|n.body|) + (n.body + rest);
    U16RoundTrip(|n.body|, [n.kind], n.body + rest);
    assert s[3..3 + |n.body|] == n.body && s[3 + |n.body|..] == rest;
  }

  lemma {:induction false} OtherNamesAreSkipped(ns: seq<Name>, rest: seq<Byte>, outLen: nat)
    requires AreOtherNames(ns)
    ensures ParseNames(NamesBytes(ns) + rest, outLen) == ParseNames(rest, outLen)
  {
    if ns == [] {
      assert NamesBytes(ns) + rest == rest;
    } else {
      assert NamesBytes(ns) + rest == NameBytes(ns[0]) + (NamesBytes(ns[1..]) + rest);
      NameIsRead(ns[0], NamesBytes(ns[1..]) + rest, outLen);
      OtherNamesAreSkipped(ns[1..], rest, outLen);
    }
  }

  lemma ListCarriesIsRead(list: seq<Byte>, name: seq<Byte>, outLen: nat)
    requires ListCarries(list, name)
    ensures ParseNames(list, outLen) == HostVerdict(name, outLen)
  {
    var ns, after :| IsListWith(list, ns, name, after);
    OtherNamesAreSkipped(ns, NameBytes(Name(0, name)) + after, outLen);
    NameIsRead(Name(0, name), after, outLen);
  }

  lemma ListLacksIsRead(list: seq<Byte>, outLen: nat)
    requires ListLacks(list)
    ensures ParseNames(list, outLen) == NONE
  {
    var ns, tail :| AreOtherNames(ns) && |tail| <= 2 && list == NamesBytes(ns) + tail;
    OtherNamesAreSkipped(ns, tail, outLen);
  }

  /** Every list is some other names and a remainder at which the parser stops. */
  lemma {:induction false} ListSplits(list: seq<Byte>) returns (ns: seq<Name>, tail: seq<Byte>)
    ensures AreOtherNames(ns) && list == NamesBytes(ns) + tail
    ensures |tail| < 3 || 3 + U16At(tail, 1) > |tail| || tail[0] == 0
    decreases |list|
  {
    if |list| < 3 || 3 + U16At(list, 1) > |list| || list[0] == 0 {
      ns, tail := [], list;
    } else {
      var n := U16At(list, 1);
      var first := Name(list[0], list[3..3 + n]);
      var ms;
      ms, tail := ListSplits(list[3 + n..]);
      ns := [first] + ms;
      assert ns[1..] == ms;
      U16Unique(list, 1);
      assert NameBytes(first) == list[..3 + n];
      assert list == list[..3 + n] + list[3 + n..];
      assert NamesBytes(ns) + tail == NameBytes(first) + (NamesBytes(ms) + tail);
    }
  }

  lemma ListIsDecided(list: seq<Byte>, outLen: nat) returns (name: seq<Byte>)
    ensures ParseNames(list, outLen) != ERROR ==> ListLacks(list) || ListCarries(list, name)
  {
    var ns, tail := ListSplits(list);
    OtherNamesAreSkipped(ns, tail, outLen);
    name := [];
    if |tail| >= 3 && 3 + U16At(tail, 1) <= |tail| {
      var n := U16At(tail, 1);
      name := tail[3..3 + n];
      U16Unique(tail, 1);
      assert NameBytes(Name(0, name)) == tail[..3 + n];
      assert tail == NameBytes(Name(0, name)) + tail[3 + n..];
      assert IsListWith(list, ns, name, tail[3 + n..]);
    }
  }

  // ---- Extensions ------------------------------------------------------------------------------

  lemma ExtensionIsRead(e: Extension, rest: seq<Byte>, outLen: nat)
    requires IsExtension(e)
    ensures ParseExtensions(ExtensionBytes(e) + rest, outLen) ==
            if e.kind == 0 then ParseServerName(e.data, outLen) else ParseExtensions(rest, outLen)
  {
    var s := ExtensionBytes(e) + rest;
    assert s == [] + U16(e.kind) + (U16(|e.data|) + e.data + rest);
    U16RoundTrip(e.kind, [], U16(|e.data|) + e.data + rest);
    assert s == U16(e.kind) + U16(|e.data|) + (e.data + rest);
    U16RoundTrip(|e.data|, U16(e.kind), e.data + rest);
    assert s[4..4 + |e.data|] == e.data && s[4 + |e.data|..] == rest;
  }

  lemma {:induction false} OtherExtensionsAreSkipped(es: seq<Extension>, rest: seq<Byte>, outLen: nat)
    requires AreOtherExtensions(es)
    ensures ParseExtensions(ExtensionsBytes(es) + rest, outLen) == ParseExtensions(rest, outLen)
  {
    if es == [] {
      assert ExtensionsBytes(es) + rest == rest;
    } else {
      assert ExtensionsBytes(es) + rest == ExtensionBytes(es[0]) + (ExtensionsBytes(es[1..]) + rest);
      ExtensionIsRead(es[0], ExtensionsBytes(es[1..]) + rest, outLen);
      OtherExtensionsAreSkipped(es[1..], rest, outLen);
    }
  }

  lemma ServerNameIsRead(x: seq<Byte>, es: seq<Extension>, data: seq<Byte>, after: seq<Byte>, outLen: nat)
    requires AreExtensionsWith(x, es, data, after)
    ensures ParseExtensions(x, outLen) == ParseNames(data[2..], outLen)
  {
    OtherExtensionsAreSkipped(es, ExtensionBytes(Extension(0, data)) + after, outLen);
    ExtensionIsRead(Extension(0, data), after, outLen);
    ListDataIsRead(data, outLen);
  }

  lemma ListDataIsRead(data: seq<Byte>, outLen: nat)
    requires IsListData(data)
    ensures ParseServerName(data, outLen) == ParseNames(data[2..], outLen)
  {
    assert data == [] + U16(|data| - 2) + data[2..];
    U16RoundTrip(|data| - 2, [], data[2..]);
  }

  lemma ExtensionsCarryIsRead(x: seq<Byte>, name: seq<Byte>, outLen: nat)
    requires ExtensionsCarry(x, name)
    ensures ParseExtensions(x, outLen) == HostVerdict(name, outLen)
  {
    var es, data, after :| AreExtensionsWith(x, es, data, after) && ListCarries(data[2..], name);
    ServerNameIsRead(x, es, data, after, outLen);
    ListCarriesIsRead(data[2..], name, outLen);
  }

  lemma ExtensionsLackIsRead(x: seq<Byte>, outLen: nat)
    requires ExtensionsLack(x)
    ensures ParseExtensions(x, outLen) == NONE
  {
    if es :| AreOtherExtensions(es) && x == ExtensionsBytes(es) {
      OtherExtensionsAreSkipped(es, [], outLen);
      assert x == ExtensionsBytes(es) + [];
    } else {
      var es, data, after :| AreExtensionsWith(x, es, data, after) && ListLacks(data[2..]);
      ServerNameIsRead(x, es, data, after, outLen);
      ListLacksIsRead(data[2..], outLen);
    }
  }

  lemma {:induction false} ExtensionsSplit(x: seq<Byte>) returns (es: seq<Extension>, tail: seq<Byte>)
    ensures AreOtherExtensions(es) && x == ExtensionsBytes(es) + tail
    ensures |tail| < 4 || 4 + U16At(tail, 2) > |tail| || U16At(tail, 0) == 0
    decreases |x|
  {
    if |x| < 4 || 4 + U16At(x, 2) > |x| || U16At(x, 0) == 0 {
      es, tail := [], x;
    } else {
      var n := U16At(x, 2);
      var first := Extension(U16At(x, 0), x[4..4 + n]);
      var fs;
      fs, tail := ExtensionsSplit(x[4 + n..]);
      es := [first] + fs;
      assert es[1..] == fs;
      U16Unique(x, 0);
      U16Unique(x, 2);
      assert ExtensionBytes(first) == x[..4 + n];
      assert x == x[..4 + n] + x[4 + n..];
      assert ExtensionsBytes(es) + tail == ExtensionBytes(first) + (ExtensionsBytes(fs) + tail);
    }
  }

  lemma ServerNameParts(tail: seq<Byte>)
    requires |tail| >= 4 && 4 + U16At(tail, 2) <= |tail| && U16At(tail, 0) == 0
    ensures tail == ExtensionBytes(Extension(0, tail[4..4 + U16At(tail, 2)])) + tail[4 + U16At(tail, 2)..]
  {
    var n := U16At(tail, 2);
    U16Unique(tail, 0);
    U16Unique(tail, 2);
    PutTogether(tail, U16(0), U16(n), tail[4..4 + n], tail[4 + n..]);
  }

  lemma PutTogether(s: seq<Byte>, a: seq<Byte>, b: seq<Byte>, c: seq<Byte>, d: seq<Byte>)
    requires 4 + |c| <= |s| && |a| == 2 && |b| == 2
    requires s[0..2] == a && s[2..4] == b && s[4..4 + |c|] == c && s[4 + |c|..] == d
    ensures s == a + b + c + d
  {
  }

  lemma ExtensionsAreDecided(x: seq<Byte>, outLen: nat) returns (name: seq<Byte>)
    ensures ParseExtensions(x, outLen) != ERROR ==> ExtensionsLack(x) || ExtensionsCarry(x, name)
  {
    var es, tail := ExtensionsSplit(x);
    OtherExtensionsAreSkipped(es, tail, outLen);
    name := [];
    if tail == [] {
      assert x == ExtensionsBytes(es);
    } else if ParseExtensions(tail, outLen) != ERROR {
      var n := U16At(tail, 2);
      var data, after := tail[4..4 + n], tail[4 + n..];
      ServerNameParts(tail);
      U16Unique(data, 0);
      assert AreExtensionsWith(x, es, data, after);
      name := ListIsDecided(data[2..], outLen);
    }
  }

  // ---- ClientHello -----------------------------------------------------------------------------

  lemma HelloLayout(h: Hello)
    requires IsHello(h)
    ensures var body := HelloBytes(h);
            var p := 35 + |h.sessionId|;
            var q := p + 2 + |h.ciphers|;
            var r := q + 1 + |h.compression|;
            && r <= |body|
            && body[34] == |h.sessionId| && U16At(body, p) == |h.ciphers| && body[q] == |h.compression|
            && body[r..] == ExtensionBlock(h.extensions)
  {
    var body := HelloBytes(h);
    var block := ExtensionBlock(h.extensions);
    var comp := [|h.compression|] + h.compression + block;
    var before := h.prologue + ([|h.sessionId|] + h.sessionId);
    assert body == before + U16(|h.ciphers|) + (h.ciphers + comp);
    U16RoundTrip(|h.ciphers|, before, h.ciphers + comp);
    var start := before + U16(|h.ciphers|) + h.ciphers;
    assert body == start + comp;
  }

  lemma HelloIsRead(h: Hello, outLen: nat)
    requires IsHello(h)
    ensures ParseHello(HelloBytes(h), outLen) ==
            if h.extensions.None? then NONE else ParseExtensions(h.extensions.value, outLen)
  {
    HelloLengths(h, outLen);
  }

  /** The layout without its slices. */
  lemma HelloLengths(h: Hello, outLen: nat)
    requires IsHello(h)
    ensures var body := HelloBytes(h);
            var p := 35 + |h.sessionId|;
            var q := p + 2 + |h.ciphers|;
            var r := q + 1 + |h.compression|;
            && r <= |body|
            && body[34] == |h.sessionId| && U16At(body, p) == |h.ciphers| && body[q] == |h.compression|
            && ExtensionBlockFrom(body, r, |body|, outLen) ==
               if h.extensions.None? then NONE else ParseExtensions(h.extensions.value, outLen)
  {
    HelloLayout(h);
    BlockIsRead(HelloBytes(h), 35 + |h.sessionId| + 2 + |h.ciphers| + 1 + |h.compression|, h.extensions, outLen);
  }

  lemma BlockIsRead(body: seq<Byte>, r: nat, x: Option<seq<Byte>>, outLen: nat)
    requires r <= |body| && (x.Some? ==> |x.value| < 0x1_0000) && body[r..] == ExtensionBlock(x)
    ensures ExtensionBlockFrom(body, r, |body|, outLen) == if x.None? then NONE else ParseExtensions(x.value, outLen)
  {
    if x.Some? {
      assert body == body[..r] + U16(|x.value|) + x.value;
      U16RoundTrip(|x.value|, body[..r], x.value);
      assert body[r + 2..|body|] == x.value;
      ExtensionsFromIs(body, r + 2, |body|, outLen);
    }
  }

  /** A body that is not malformed is the encoding of a ClientHello. */
  lemma HelloSplits(body: seq<Byte>, outLen: nat) returns (h: Hello)
    requires ParseHello(body, outLen) != ERROR
    ensures IsHello(h) && body == HelloBytes(h)
    ensures h.extensions.Some? ==> ParseHello(body, outLen) == ParseExtensions(h.extensions.value, outLen)
  {
    var p := 35 + body[34] as nat;
    var q := p + 2 + U16At(body, p);
    var r := q + 1 + body[q] as nat;
    h := HelloFields(body, p, q, r, outLen);
  }

  lemma HelloFields(body: seq<Byte>, p: nat, q: nat, r: nat, outLen: nat) returns (h: Hello)
    requires 35 <= p && p + 2 < q < r <= |body| && p == 35 + body[34] as nat
    requires q == p + 2 + U16At(body, p) && U16At(body, p) % 2 == 0 && r == q + 1 + body[q] as nat && body[q] != 0
    requires ExtensionBlockFrom(body, r, |body|, outLen) != ERROR
    ensures IsHello(h) && body == HelloBytes(h)
    ensures h.extensions.Some? ==> ExtensionBlockFrom(body, r, |body|, outLen) == ParseExtensions(h.extensions.value, outLen)
  {
    var x := BlockSplits(body, r, outLen);
    h := Hello(body[..34], body[35..p], body[p + 2..q], body[q + 1..r], x);
    U16Unique(body, p);
    HelloParts(body, p, q, r);
  }

  lemma BlockSplits(body: seq<Byte>, r: nat, outLen: nat) returns (x: Option<seq<Byte>>)
    requires r <= |body| && ExtensionBlockFrom(body, r, |body|, outLen) != ERROR
    ensures (x.Some? ==> |x.value| < 0x1_0000) && body[r..] == ExtensionBlock(x)
    ensures x.Some? ==> ExtensionBlockFrom(body, r, |body|, outLen) == ParseExtensions(x.value, outLen)
  {
    if r == |body| {
      x := None;
    } else {
      x := Some(body[r + 2..]);
      U16Unique(body, r);
      assert body[r..] == body[r..r + 2] + body[r + 2..];
      BlockIsRead(body, r, x, outLen);
    }
  }

  lemma HelloParts(s: seq<Byte>, p: nat, q: nat, r: nat)
    requires 35 <= p && p + 2 <= q && q + 1 <= r <= |s|
    ensures s == s[..34] + ([s[34]] + s[35..p] + (s[p..p + 2] + s[p + 2..q] + ([s[q]] + s[q + 1..r] + s[r..])))
  {
    assert [s[q]] + s[q + 1..r] + s[r..] == s[q..];
    assert s[p..p + 2] + s[p + 2..q] + s[q..] == s[p..];
    assert [s[34]] + s[35..p] + s[p..] == s[34..];
  }

  lemma HelloCarriesIsRead(body: seq<Byte>, name: seq<Byte>, outLen: nat)
    requires HelloCarries(body, name)
    ensures ParseHello(body, outLen) == HostVerdict(name, outLen)
  {
    var h :| IsHello(h) && body == HelloBytes(h) && h.extensions.Some? && ExtensionsCarry(h.extensions.value, name);
    HelloIsRead(h, outLen);
    ExtensionsCarryIsRead(h.extensions.value, name, outLen);
  }

  lemma HelloLacksIsRead(body: seq<Byte>, outLen: nat)
    requires HelloLacks(body)
    ensures ParseHello(body, outLen) == NONE
  {
    var h :| IsHello(h) && body == HelloBytes(h) && (h.extensions.Some? ==> ExtensionsLack(h.extensions.value));
    HelloIsRead(h, outLen);
    if h.extensions.Some? {
      ExtensionsLackIsRead(h.extensions.value, outLen);
    }
  }

  lemma HelloIsDecided(body: seq<Byte>, outLen: nat) returns (name: seq<Byte>)
    ensures ParseHello(body, outLen) != ERROR ==> HelloLacks(body) || HelloCarries(body, name)
  {
    name := [];
    if ParseHello(body, outLen) != ERROR {
      var h := HelloSplits(body, outLen);
      if h.extensions.Some? {
        name := ExtensionsAreDecided(h.extensions.value, outLen);
      }
    }
  }

  // ---- Record ----------------------------------------------------------------------------------

  lemma FragmentIsRead(body: seq<Byte>, slack: seq<Byte>, outLen: nat)
    requires 0 < |body| && 4 + |body| + |slack| < 0x1_0000
    ensures ParseFragment([0x01] + U24(|body|) + body + slack, outLen) == ParseHello(body, outLen)
  {
    var frag := [0x01] + U24(|body|) + body + slack;
    assert frag == [0x01] + U24(|body|) + (body + slack);
    U24RoundTrip(|body|, [0x01], body + slack);
    assert frag[4..4 + |body|] == body;
  }

  lemma RecordIsOpened(b: seq<Byte>, minor: Byte, frag: seq<Byte>, rest: seq<Byte>, outLen: nat)
    requires 0 < |frag| < 0x1_0000 && b == [0x16, 0x03, minor] + U16(|frag|) + frag + rest
    ensures Parse(b, outLen) == ParseFragment(frag, outLen)
  {
    assert b == [0x16, 0x03, minor] + U16(|frag|) + (frag + rest);
    U16RoundTrip(|frag|, [0x16, 0x03, minor], frag + rest);
    assert b[5..5 + |frag|] == frag;
  }

  lemma RecordIsRead(b: seq<Byte>, minor: Byte, body: seq<Byte>, slack: seq<Byte>, outLen: nat)
    requires StartsWithHello(b, minor, body, slack)
    ensures Parse(b, outLen) == ParseHello(body, outLen)
  {
    var frag := [0x01] + U24(|body|) + body + slack;
    var record := RecordBytes(minor, body, slack);
    var rest := b[|record|..];
    RecordIsOpened(b, minor, frag, rest, outLen);
    FragmentIsRead(body, slack, outLen);
  }

  lemma FragmentSplits(frag: seq<Byte>, outLen: nat) returns (body: seq<Byte>, slack: seq<Byte>)
    requires |frag| < 0x1_0000 && ParseFragment(frag, outLen).status in {Parsed, Missing, NameTooLong}
    ensures 0 < |body| < 0x1_0000 && frag == [0x01] + U24(|body|) + body + slack
    ensures ParseFragment(frag, outLen) == ParseHello(body, outLen)
  {
    var m := U24At(frag, 1);
    body, slack := frag[4..4 + m], frag[4 + m..];
    FragmentParts(frag);
  }

  lemma FragmentParts(s: seq<Byte>)
    requires |s| >= 4 && 4 + U24At(s, 1) <= |s|
    ensures s == [s[0]] + U24(U24At(s, 1)) + s[4..4 + U24At(s, 1)] + s[4 + U24At(s, 1)..]
  {
    U24Unique(s, 1);
    FourParts(s, U24At(s, 1));
  }

  lemma FourParts(s: seq<Byte>, m: nat)
    requires 4 + m <= |s|
    ensures s == [s[0]] + s[1..4] + s[4..4 + m] + s[4 + m..]
  {
  }

  /** The first record of a buffer, with its length field. */
  lemma RecordHeader(b: seq<Byte>)
    requires 5 <= |b| && b[0] == 0x16 && b[1] == 0x03 && 5 + U16At(b, 3) <= |b|
    ensures b[..5 + U16At(b, 3)] == [0x16, 0x03, b[2]] + U16(U16At(b, 3)) + b[5..5 + U16At(b, 3)]
  {
    U16Unique(b, 3);
    var n := U16At(b, 3);
    assert b[..5 + n] == b[..3] + b[3..5] + b[5..5 + n];
  }

  /** A complete handshake record whose ClientHello is not malformed, taken apart. */
  lemma RecordSplits(b: seq<Byte>, outLen: nat) returns (minor: Byte, body: seq<Byte>, slack: seq<Byte>)
    requires Parse(b, outLen).status in {Parsed, Missing, NameTooLong}
    ensures StartsWithHello(b, minor, body, slack) && Parse(b, outLen) == ParseHello(body, outLen)
  {
    var frag := b[5..5 + U16At(b, 3)];
    assert Parse(b, outLen) == ParseFragment(frag, outLen);
    minor := b[2];
    body, slack := FragmentSplits(frag, outLen);
    RecordHeader(b);
    assert |frag| == 4 + |body| + |slack|;
    assert b[..5 + |frag|] == RecordBytes(minor, body, slack);
  }

  lemma CarriesIsRead(b: seq<Byte>, name: seq<Byte>, outLen: nat)
    requires Carries(b, name)
    ensures Parse(b, outLen) == HostVerdict(name, outLen)
  {
    var minor, body, slack :| StartsWithHello(b, minor, body, slack) && HelloCarries(body, name);
    RecordIsRead(b, minor, body, slack, outLen);
    HelloCarriesIsRead(body, name, outLen);
  }

  lemma LacksIsRead(b: seq<Byte>, outLen: nat)
    requires Lacks(b)
    ensures Parse(b, outLen) == NONE
  {
    var minor, body, slack :| StartsWithHello(b, minor, body, slack) && HelloLacks(body);
    RecordIsRead(b, minor, body, slack, outLen);
    HelloLacksIsRead(body, outLen);
  }

  lemma RecordIsDecided(b: seq<Byte>, outLen: nat) returns (name: seq<Byte>)
    requires Parse(b, outLen).status in {Parsed, Missing, NameTooLong}
    ensures Lacks(b) || Carries(b, name)
  {
    var minor, body, slack := RecordSplits(b, outLen);
    name := HelloIsDecided(body, outLen);
  }

  // ---- The parser accepts exactly the grammar --------------------------------------------------

  /** PARSED with a name: exactly the records that carry that name, valid and short enough. */
  lemma ParsedIff(b: seq<Byte>, name: seq<Byte>, outLen: nat)
    ensures Parse(b, outLen) == Outcome(Parsed, name) <==>
            Carries(b, name) && IsValidName(name) && |name| < outLen
  {
    if Carries(b, name) {
      CarriesIsRead(b, name, outLen);
    }
    if Parse(b, outLen) == Outcome(Parsed, name) {
      var found := RecordIsDecided(b, outLen);
      if Lacks(b) {
        LacksIsRead(b, outLen);
      } else {
        CarriesIsRead(b, found, outLen);
      }
    }
  }

  /** MISSING: exactly the records whose ClientHello lacks a name. */
  lemma MissingIff(b: seq<Byte>, outLen: nat)
    ensures Parse(b, outLen).status == Missing <==> Lacks(b)
  {
    if Lacks(b) {
      LacksIsRead(b, outLen);
    }
    if Parse(b, outLen).status == Missing {
      var found := RecordIsDecided(b, outLen);
      if !Lacks(b) {
        CarriesIsRead(b, found, outLen);
      }
    }
  }

  /** NAME_TOO_LONG: exactly the records whose name exceeds 253 bytes or, being valid, the
      destination. */
  lemma NameTooLongIff(b: seq<Byte>, outLen: nat)
    ensures Parse(b, outLen).status == NameTooLong <==>
            exists name :: Carries(b, name) && (|name| > SNI_MAX || (IsValidName(name) && |name| >= outLen))
  {
    if name :| Carries(b, name) && (|name| > SNI_MAX || (IsValidName(name) && |name| >= outLen)) {
      CarriesIsRead(b, name, outLen);
    }
    if Parse(b, outLen).status == NameTooLong {
      var found := RecordIsDecided(b, outLen);
      if Lacks(b) {
        LacksIsRead(b, outLen);
      } else {
        CarriesIsRead(b, found, outLen);
      }
    }
  }

  ghost predicate IsOtherMessage(b: seq<Byte>, minor: Byte, frag: seq<Byte>) {
    4 <= |frag| < 0x1_0000 && frag[0] != 0x01 && [0x16, 0x03, minor] + U16(|frag|) + frag <= b
  }

  /** Another content type, or a complete record with another handshake message. */
  ghost predicate OtherProtocol(b: seq<Byte>) {
    (b != [] && b[0] != 0x16) || exists minor, frag :: IsOtherMessage(b, minor, frag)
  }

  lemma OtherMessageIsRead(b: seq<Byte>, minor: Byte, frag: seq<Byte>, outLen: nat)
    requires IsOtherMessage(b, minor, frag)
    ensures Parse(b, outLen).status == NotTls
  {
    var rest := b[5 + |frag|..];
    assert b == [0x16, 0x03, minor] + U16(|frag|) + (frag + rest);
    U16RoundTrip(|frag|, [0x16, 0x03, minor], frag + rest);
    assert b[5..5 + |frag|] == frag;
  }

  /** NOT_TLS: exactly the buffers of another protocol. */
  lemma NotTlsIff(b: seq<Byte>, outLen: nat)
    ensures Parse(b, outLen).status == NotTls <==> OtherProtocol(b)
  {
    if minor, frag :| IsOtherMessage(b, minor, frag) {
      OtherMessageIsRead(b, minor, frag, outLen);
    }
    if Parse(b, outLen).status == NotTls && b[0] == 0x16 {
      RecordHeader(b);
      assert IsOtherMessage(b, b[2], b[5..5 + U16At(b, 3)]);
    }
  }

  /** PARSE_ERROR: a complete record of the right type that neither carries a valid name, nor one
      that is too long, nor lacks one. */
  lemma ParseErrorIff(b: seq<Byte>, outLen: nat)
    ensures Parse(b, outLen).status == ParseError <==>
            && !Incomplete(b) && !OtherProtocol(b) && !Lacks(b)
            && forall name :: Carries(b, name) ==> |name| <= SNI_MAX && !IsValidName(name)
  {
    MissingIff(b, outLen);
    NotTlsIff(b, outLen);
    if Parse(b, outLen).status == ParseError {
      forall name | Carries(b, name) ensures |name| <= SNI_MAX && !IsValidName(name) {
        ErrorCarriesNoName(b, name, outLen);
      }
    } else if Parse(b, outLen).status in {Parsed, NameTooLong} {
      var found := NameBehindStatus(b, outLen);
    }
  }

  lemma ErrorCarriesNoName(b: seq<Byte>, name: seq<Byte>, outLen: nat)
    requires Parse(b, outLen).status == ParseError
    ensures Carries(b, name) ==> |name| <= SNI_MAX && !IsValidName(name)
  {
    if Carries(b, name) {
      CarriesIsRead(b, name, outLen);
    }
  }

  lemma NameBehindStatus(b: seq<Byte>, outLen: nat) returns (name: seq<Byte>)
    requires Parse(b, outLen).status in {Parsed, NameTooLong}
    ensures Carries(b, name) && (|name| > SNI_MAX || IsValidName(name))
  {
    name := RecordIsDecided(b, outLen);
    if Lacks(b) {
      LacksIsRead(b, outLen);
    } else {
      CarriesIsRead(b, name, outLen);
    }
  }

  // ---- Round trip ------------------------------------------------------------------------------

  lemma WholeRecordCarries(b: seq<Byte>, minor: Byte, h: Hello, name: seq<Byte>)
    requires IsHello(h) && 4 + |HelloBytes(h)| < 0x1_0000 && b == RecordBytes(minor, HelloBytes(h), [])
    requires h.extensions.Some? && ExtensionsCarry(h.extensions.value, name)
    ensures Carries(b, name)
  {
    assert StartsWithHello(b, minor, HelloBytes(h), []);
    assert HelloCarries(HelloBytes(h), name);
  }

  lemma ListIsCarried(x: seq<Byte>, before: seq<Extension>, others: seq<Name>, name: seq<Byte>, more: seq<Byte>,
                      list: seq<Byte>, after: seq<Byte>)
    requires AreOtherExtensions(before) && IsListWith(list, others, name, more) && |list| < 0xFFFE
    requires x == ExtensionsBytes(before) + (ExtensionBytes(Extension(0, U16(|list|) + list)) + after)
    ensures ExtensionsCarry(x, name)
  {
    var data := U16(|list|) + list;
    assert data[2..] == list && data[..2] == U16(|list|);
    assert AreExtensionsWith(x, before, data, after);
  }

  /** Any ClientHello with any extensions around a server_name extension with a valid host_name,
      alone in one record, is parsed to that name. */
  lemma HelloRoundTrip(minor: Byte, h: Hello, before: seq<Extension>, others: seq<Name>, name: seq<Byte>,
                       more: seq<Byte>, after: seq<Extension>)
    requires AreOtherExtensions(before) && AreOtherNames(others) && IsValidName(name)
    requires forall i :: 0 <= i < |after| ==> IsExtension(after[i])
    requires var list := NamesBytes(others) + (NameBytes(Name(0, name)) + more);
             && |list| < 0xFFFE
             && IsHello(h)
             && h.extensions == Some(ExtensionsBytes(before) +
                  (ExtensionBytes(Extension(0, U16(|list|) + list)) + ExtensionsBytes(after)))
    requires 4 + |HelloBytes(h)| < 0x1_0000
    ensures Parse(RecordBytes(minor, HelloBytes(h), []), SNI_MAX + 1) == Outcome(Parsed, name)
  {
    var list := NamesBytes(others) + (NameBytes(Name(0, name)) + more);
    var b := RecordBytes(minor, HelloBytes(h), []);
    ListIsCarried(h.extensions.value, before, others, name, more, list, ExtensionsBytes(after));
    WholeRecordCarries(b, minor, h, name);
    ParsedIff(b, name, SNI_MAX + 1);
  }

  /** Without a server_name extension the same record is parsed to MISSING. */
  lemma HelloWithoutServerName(minor: Byte, h: Hello, es: seq<Extension>)
    requires AreOtherExtensions(es) && IsHello(h)
    requires h.extensions == None || h.extensions == Some(ExtensionsBytes(es))
    requires 4 + |HelloBytes(h)| < 0x1_0000
    ensures Parse(RecordBytes(minor, HelloBytes(h), []), SNI_MAX + 1).status == Missing
  {
    var b := RecordBytes(minor, HelloBytes(h), []);
    assert StartsWithHello(b, minor, HelloBytes(h), []);
    assert Lacks(b);
    MissingIff(b, SNI_MAX + 1);
  }
}
