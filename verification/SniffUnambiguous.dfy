/**
 The grammar of ClientHello records is unambiguous, level by level: each structure starts with its
 length, so two ways to read the same bytes agree.
 */
module SniffUnambiguous {
  import opened Bytes
  import opened Options
  import opened SniffParser
  import opened SniffGrammar

  lemma FirstNameIsUnique(m: Name, x: seq<Byte>, n: Name, y: seq<Byte>)
    requires IsName(m) && IsName(n) && NameBytes(m) + x == NameBytes(n) + y
    ensures m == n && x == y
  {
    var s := NameBytes(m) + x;
    NameLayout(m, x);
    NameLayout(n, y);
    SplitAt(s, 3, |m.body|, m.body, x);
    SplitAt(s, 3, |n.body|, n.body, y);
  }

  lemma NameLayout(n: Name, y: seq<Byte>)
    requires IsName(n)
    ensures var s := NameBytes(n) + y; |s| >= 3 && s[0] == n.kind && U16At(s, 1) == |n.body| && s[3..] == n.body + y
  {
    var s := NameBytes(n) + y;
    assert s == [n.kind] + U16(|n.body|) + (n.body + y);
    U16RoundTrip(|n.body|, [n.kind], n.body + y);
  }

  lemma SplitAt(s: seq<Byte>, k: nat, n: nat, body: seq<Byte>, rest: seq<Byte>)
    requires k <= |s| && s[k..] == body + rest && |body| == n
    ensures k + n <= |s| && body == s[k..][..n] && rest == s[k..][n..]
  {
  }

  lemma {:induction false} ListNameIsUnique(ns: seq<Name>, m: seq<Byte>, x: seq<Byte>, ns': seq<Name>, n: seq<Byte>, y: seq<Byte>)
    requires AreOtherNames(ns) && AreOtherNames(ns') && |m| < 0x1_0000 && |n| < 0x1_0000
    requires NamesBytes(ns) + (NameBytes(Name(0, m)) + x) == NamesBytes(ns') + (NameBytes(Name(0, n)) + y)
    ensures m == n
    decreases |ns|
  {
    var first, rest := HeadOfNames(ns, m, x);
    var first', rest' := HeadOfNames(ns', n, y);
    FirstNameIsUnique(first, rest, first', rest');
    if ns != [] {
      ListNameIsUnique(ns[1..], m, x, ns'[1..], n, y);
    }
  }

  lemma HeadOfNames(ns: seq<Name>, m: seq<Byte>, x: seq<Byte>) returns (first: Name, rest: seq<Byte>)
    requires AreOtherNames(ns) && |m| < 0x1_0000
    ensures IsName(first) && NamesBytes(ns) + (NameBytes(Name(0, m)) + x) == NameBytes(first) + rest
    ensures if ns == [] then first == Name(0, m)
            else first.kind != 0 && rest == NamesBytes(ns[1..]) + (NameBytes(Name(0, m)) + x)
  {
    if ns == [] {
      first, rest := Name(0, m), x;
      assert NamesBytes(ns) + (NameBytes(Name(0, m)) + x) == NameBytes(first) + rest;
    } else {
      var tail := NameBytes(Name(0, m)) + x;
      first, rest := ns[0], NamesBytes(ns[1..]) + tail;
      assert NamesBytes(ns) + tail == NameBytes(ns[0]) + (NamesBytes(ns[1..]) + tail);
    }
  }

  lemma FirstExtensionIsUnique(d: Extension, x: seq<Byte>, e: Extension, y: seq<Byte>)
    requires IsExtension(d) && IsExtension(e) && ExtensionBytes(d) + x == ExtensionBytes(e) + y
    ensures d == e && x == y
  {
    var s := ExtensionBytes(d) + x;
    ExtensionLayout(d, x);
    ExtensionLayout(e, y);
    SplitAt(s, 4, |d.data|, d.data, x);
    SplitAt(s, 4, |e.data|, e.data, y);
  }

  lemma ExtensionLayout(e: Extension, y: seq<Byte>)
    requires IsExtension(e)
    ensures var s := ExtensionBytes(e) + y;
            |s| >= 4 && U16At(s, 0) == e.kind && U16At(s, 2) == |e.data| && s[4..] == e.data + y
  {
    var s := ExtensionBytes(e) + y;
    assert s == [] + U16(e.kind) + (U16(|e.data|) + e.data + y);
    U16RoundTrip(e.kind, [], U16(|e.data|) + e.data + y);
    assert s == U16(e.kind) + U16(|e.data|) + (e.data + y);
    U16RoundTrip(|e.data|, U16(e.kind), e.data + y);
  }

  lemma {:induction false} ServerNameIsUnique(es: seq<Extension>, d: seq<Byte>, x: seq<Byte>, es': seq<Extension>, e: seq<Byte>, y: seq<Byte>)
    requires AreOtherExtensions(es) && AreOtherExtensions(es') && |d| < 0x1_0000 && |e| < 0x1_0000
    requires ExtensionsBytes(es) + (ExtensionBytes(Extension(0, d)) + x) == ExtensionsBytes(es') + (ExtensionBytes(Extension(0, e)) + y)
    ensures d == e
    decreases |es|
  {
    var first, rest := HeadOfExtensions(es, d, x);
    var first', rest' := HeadOfExtensions(es', e, y);
    FirstExtensionIsUnique(first, rest, first', rest');
    if es != [] {
      ServerNameIsUnique(es[1..], d, x, es'[1..], e, y);
    }
  }

  lemma HeadOfExtensions(es: seq<Extension>, d: seq<Byte>, x: seq<Byte>) returns (first: Extension, rest: seq<Byte>)
    requires AreOtherExtensions(es) && |d| < 0x1_0000
    ensures IsExtension(first) && ExtensionsBytes(es) + (ExtensionBytes(Extension(0, d)) + x) == ExtensionBytes(first) + rest
    ensures if es == [] then first == Extension(0, d)
            else first.kind != 0 && rest == ExtensionsBytes(es[1..]) + (ExtensionBytes(Extension(0, d)) + x)
  {
    if es == [] {
      first, rest := Extension(0, d), x;
      assert ExtensionsBytes(es) + (ExtensionBytes(Extension(0, d)) + x) == ExtensionBytes(first) + rest;
    } else {
      var tail := ExtensionBytes(Extension(0, d)) + x;
      first, rest := es[0], ExtensionsBytes(es[1..]) + tail;
      assert ExtensionsBytes(es) + tail == ExtensionBytes(es[0]) + (ExtensionsBytes(es[1..]) + tail);
    }
  }

  lemma ExtensionsNameIsUnique(x: seq<Byte>, m: seq<Byte>, n: seq<Byte>)
    requires ExtensionsCarry(x, m) && ExtensionsCarry(x, n)
    ensures m == n
  {
    var es, d, after :| AreExtensionsWith(x, es, d, after) && ListCarries(d[2..], m);
    var es', d', after' :| AreExtensionsWith(x, es', d', after') && ListCarries(d'[2..], n);
    ServerNameIsUnique(es, d, after, es', d', after');
    var ns, a :| IsListWith(d[2..], ns, m, a);
    var ns', a' :| IsListWith(d[2..], ns', n, a');
    ListNameIsUnique(ns, m, a, ns', n, a');
  }

  lemma ExtensionsFieldIsUnique(h: Hello, g: Hello)
    requires IsHello(h) && IsHello(g) && HelloBytes(h) == HelloBytes(g)
    ensures h.extensions == g.extensions
  {
    HelloLayout(h);
    HelloLayout(g);
    BlockIsUnique(h.extensions, g.extensions);
  }

  lemma BlockIsUnique(x: Option<seq<Byte>>, y: Option<seq<Byte>>)
    requires (x.Some? ==> |x.value| < 0x1_0000) && (y.Some? ==> |y.value| < 0x1_0000)
    requires ExtensionBlock(x) == ExtensionBlock(y)
    ensures x == y
  {
    if x.Some? && y.Some? {
      assert ExtensionBlock(x)[2..] == x.value && ExtensionBlock(y)[2..] == y.value;
    }
  }

  lemma BodyIsUnique(b: seq<Byte>, minor: Byte, body: seq<Byte>, slack: seq<Byte>, minor': Byte, body': seq<Byte>, slack': seq<Byte>)
    requires StartsWithHello(b, minor, body, slack) && StartsWithHello(b, minor', body', slack')
    ensures body == body'
  {
    BodyLayout(b, minor, body, slack);
    BodyLayout(b, minor', body', slack');
  }

  lemma BodyLayout(b: seq<Byte>, minor: Byte, body: seq<Byte>, slack: seq<Byte>)
    requires StartsWithHello(b, minor, body, slack)
    ensures 9 + |body| <= |b| && U24At(b, 6) == |body| && b[9..9 + |body|] == body
  {
    var record := RecordBytes(minor, body, slack);
    var rest := b[|record|..];
    var before := [0x16, 0x03, minor] + U16(4 + |body| + |slack|) + [0x01];
    assert b == record + rest;
    assert b == before + U24(|body|) + (body + slack + rest);
    U24RoundTrip(|body|, before, body + slack + rest);
  }

  /** A buffer carries at most one name, valid or not, and never both carries and lacks one. */
  lemma NameIsUnique(b: seq<Byte>, m: seq<Byte>, n: seq<Byte>)
    ensures Carries(b, m) && Carries(b, n) ==> m == n
    ensures Carries(b, m) ==> !Lacks(b)
  {
    if Carries(b, m) && Carries(b, n) {
      var minor, body, slack :| StartsWithHello(b, minor, body, slack) && HelloCarries(body, m);
      var minor', body', slack' :| StartsWithHello(b, minor', body', slack') && HelloCarries(body', n);
      BodyIsUnique(b, minor, body, slack, minor', body', slack');
      BodyNameIsUnique(body, m, n);
    }
    if Carries(b, m) && Lacks(b) {
      CarriesIsRead(b, m, SNI_MAX + 1);
      LacksIsRead(b, SNI_MAX + 1);
    }
  }

  lemma BodyNameIsUnique(body: seq<Byte>, m: seq<Byte>, n: seq<Byte>)
    ensures HelloCarries(body, m) && HelloCarries(body, n) ==> m == n
  {
    if HelloCarries(body, m) && HelloCarries(body, n) {
      var h :| IsHello(h) && body == HelloBytes(h) && h.extensions.Some? && ExtensionsCarry(h.extensions.value, m);
      var g :| IsHello(g) && body == HelloBytes(g) && g.extensions.Some? && ExtensionsCarry(g.extensions.value, n);
      ExtensionsFieldIsUnique(h, g);
      ExtensionsNameIsUnique(h.extensions.value, m, n);
    }
  }
}
