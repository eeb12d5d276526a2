/** Octets and the big-endian fields that every wire format of the proxy is made of. */
module Bytes {

  type Byte = x: int | 0 <= x < 256

  function U16(n: nat): (s: seq<Byte>)
    requires n < 0x1_0000
    ensures |s| == 2
  {
    [n / 0x100, n % 0x100]
  }

  function U24(n: nat): (s: seq<Byte>)
    requires n < 0x100_0000
    ensures |s| == 3
  {
    [n / 0x1_0000, (n / 0x100) % 0x100, n % 0x100]
  }

  function U16At(b: seq<Byte>, i: nat): (n: nat)
    requires i + 2 <= |b|
    ensures n < 0x1_0000
  {
    b[i] as int * 0x100 + b[i + 1] as int
  }

  function U24At(b: seq<Byte>, i: nat): (n: nat)
    requires i + 3 <= |b|
    ensures n < 0x100_0000
  {
    b[i] as int * 0x1_0000 + b[i + 1] as int * 0x100 + b[i + 2] as int
  }

  lemma U16RoundTrip(n: nat, before: seq<Byte>, after: seq<Byte>)
    requires n < 0x1_0000
    ensures U16At(before + U16(n) + after, |before|) == n
  {
    var s := before + U16(n) + after;
    assert s[|before|] == n / 0x100 && s[|before| + 1] == n % 0x100;
  }

  lemma U24RoundTrip(n: nat, before: seq<Byte>, after: seq<Byte>)
    requires n < 0x100_0000
    ensures U24At(before + U24(n) + after, |before|) == n
  {
    var s, i := before + U24(n) + after, |before|;
    assert s[i] == n / 0x1_0000 && s[i + 1] == (n / 0x100) % 0x100 && s[i + 2] == n % 0x100;
  }

  lemma U16Unique(b: seq<Byte>, i: nat)
    requires i + 2 <= |b|
    ensures b[i..i + 2] == U16(U16At(b, i))
  {
  }

  lemma U24Unique(b: seq<Byte>, i: nat)
    requires i + 3 <= |b|
    ensures b[i..i + 3] == U24(U24At(b, i))
  {
    U24Digits(b[i], b[i + 1], b[i + 2]);
  }

  lemma U24Digits(a: Byte, b: Byte, c: Byte)
    ensures var n := a as int * 0x1_0000 + b as int * 0x100 + c as int;
            n / 0x1_0000 == a && (n / 0x100) % 0x100 == b && n % 0x100 == c
  {
  }

  lemma Slice(s: seq<Byte>, a: nat, b: nat, c: nat, d: nat)
    requires a <= b <= |s| && c <= d <= b - a
    ensures s[a..b][c..d] == s[a + c..a + d]
  {
    var t := s[a..b];
    assert |t| == b - a && forall i :: 0 <= i < |t| ==> t[i] == s[a + i];
    forall i | 0 <= i < d - c ensures t[c..d][i] == s[a + c..a + d][i] {
      assert t[c..d][i] == t[c + i];
    }
  }

  lemma SliceFrom(s: seq<Byte>, a: nat, b: nat, c: nat)
    requires a + c <= b <= |s|
    ensures s[a..b][c..] == s[a + c..b]
  {
  }

  lemma U24Inside(s: seq<Byte>, a: nat, b: nat, i: nat)
    requires a + i + 3 <= b <= |s|
    ensures U24At(s[a..b], i) == U24At(s, a + i)
  {
  }
}
