/**
 checksum16 of datagram_raw.c: the Internet checksum of RFC 1071, as the IPv4 header of section 3.1
 of RFC 791 uses it.  The accumulator is a uint32_t; its wrap-around is written out.
 */
module Checksum {
  import opened Bytes

  const U32 := 0x1_0000_0000

  /** The sum of the big-endian 16-bit words, a last odd byte being padded with zero. */
  ghost function WordSum(b: seq<Byte>): nat {
    if |b| == 0 then 0
    else if |b| == 1 then b[0] as int * 0x100
    else U16At(b, 0) + WordSum(b[2..])
  }

  /** The end-around-carry fold. */
  function Fold(sum: nat): (r: nat)
    ensures r < 0x1_0000 && r % 0xFFFF == sum % 0xFFFF && (r == 0 <==> sum == 0)
    decreases sum
  {
    if sum / 0x1_0000 == 0 then sum
    else
      var next := sum % 0x1_0000 + sum / 0x1_0000;
      FoldStep(sum);
      Fold(next)
  }

  lemma FoldStep(sum: nat)
    requires sum >= 0x1_0000
    ensures var next := sum % 0x1_0000 + sum / 0x1_0000;
            0 < next < sum && next % 0xFFFF == sum % 0xFFFF
  {
    var q, r := sum / 0x1_0000, sum % 0x1_0000;
    assert sum == (q + r) + 0xFFFF * q;
  }

  /** What checksum16 returns while the accumulator does not wrap. */
  ghost function Sum16(b: seq<Byte>): nat {
    0xFFFF - Fold(WordSum(b))
  }

  lemma {:induction false} WordSumBound(b: seq<Byte>)
    ensures WordSum(b) <= 0xFFFF * ((|b| + 1) / 2)
  {
    if |b| >= 2 {
      WordSumBound(b[2..]);
    }
  }

  lemma {:induction false} WordSumSplit(b: seq<Byte>, k: nat)
    requires k % 2 == 0 && k <= |b|
    ensures WordSum(b) == WordSum(b[..k]) + WordSum(b[k..])
    decreases k
  {
    if k == 0 {
      assert b[0..] == b;
    } else {
      WordSumSplit(b[2..], k - 2);
      assert b[2..][..k - 2] == b[..k][2..] && b[2..][k - 2..] == b[k..];
    }
  }

  lemma WrapAdd(total: nat, word: nat)
    ensures (total % 0x1_0000_0000 + word) % 0x1_0000_0000 == (total + word) % 0x1_0000_0000
  {
  }

  /** The first loop of checksum16 and the odd byte after it, on a uint32_t. */
  method AddWords(data: seq<Byte>) returns (sum: nat)
    ensures sum == WordSum(data) % U32
  {
    var p := data;
    var len := |data|;
    sum := 0;
    ghost var total: nat := 0;
    while len >= 2
      invariant len == |p| && total + WordSum(p) == WordSum(data)
      invariant sum == total % U32
      decreases len
    {
      var word := U16At(p, 0);
      WrapAdd(total, word);
      total := total + word;
      sum := (sum + word) % U32;
      p := p[2..];
      len := len - 2;
    }
    if len != 0 {
      WrapAdd(total, p[0] as int * 0x100);
      sum := (sum + p[0] as int * 0x100) % U32;
    }
  }

  lemma FoldGoesOn(sum: nat)
    requires sum / 0x1_0000 != 0
    ensures sum % 0x1_0000 + sum / 0x1_0000 < sum
    ensures Fold(sum) == Fold(sum % 0x1_0000 + sum / 0x1_0000)
  {
    FoldStep(sum);
  }

  /** The second loop of checksum16. */
  method FoldCarries(start: nat) returns (sum: nat)
    ensures sum == Fold(start)
  {
    sum := start;
    while sum / 0x1_0000 != 0
      invariant Fold(sum) == Fold(start)
      decreases sum
    {
      FoldGoesOn(sum);
      sum := sum % 0x1_0000 + sum / 0x1_0000;
    }
  }

  lemma NoWrap(data: seq<Byte>)
    requires |data| <= 131074
    ensures WordSum(data) % U32 == WordSum(data)
  {
    WordSumBound(data);
  }

  /** checksum16: for up to 131074 bytes the accumulator does not wrap. */
  method Checksum16(data: seq<Byte>) returns (r: nat)
    ensures r < 0x1_0000
    ensures r == 0xFFFF - Fold(WordSum(data) % U32)
    ensures |data| <= 131074 ==> r == Sum16(data)
  {
    var sum := AddWords(data);
    if |data| <= 131074 {
      NoWrap(data);
    }
    sum := FoldCarries(sum);
    r := 0xFFFF - sum;
  }

  // ---- The law ---------------------------------------------------------------------------------

  /** No carry is lost: up to 131074 bytes the result is congruent to the complement of the sum. */
  lemma CongruentToSum(b: seq<Byte>)
    ensures (Sum16(b) + WordSum(b)) % 0xFFFF == 0
  {
    var s, f := WordSum(b), Fold(WordSum(b));
    assert (0xFFFF - f + s) % 0xFFFF == 0 by {
      assert s % 0xFFFF == f % 0xFFFF;
    }
  }

  /** Storing the result, high byte first, in an even slot that was zero makes the checksum zero. */
  lemma VerifiesAfterStore(before: seq<Byte>, after: seq<Byte>)
    requires |before| % 2 == 0
    ensures var zeroed := before + [0, 0] + after;
            Sum16(zeroed) < 0x1_0000 && Sum16(before + U16(Sum16(zeroed)) + after) == 0
  {
    var zeroed := before + [0, 0] + after;
    var c := Sum16(zeroed);
    var stored := before + U16(c) + after;
    SumWithSlot(before, [0, 0], after);
    SumWithSlot(before, U16(c), after);
    assert U16At(U16(c), 0) == c;
    assert WordSum(stored) == WordSum(zeroed) + c;
    CongruentToSum(zeroed);
    var f := Fold(WordSum(stored));
    assert WordSum(stored) > 0 by {
      if WordSum(zeroed) == 0 {
        assert c == 0xFFFF;
      }
    }
    assert f % 0xFFFF == 0 && 0 < f < 0x1_0000;
  }

  lemma SumWithSlot(before: seq<Byte>, slot: seq<Byte>, after: seq<Byte>)
    requires |before| % 2 == 0 && |slot| == 2
    ensures WordSum(before + slot + after) == WordSum(before) + U16At(slot, 0) + WordSum(after)
  {
    var b := before + slot + after;
    WordSumSplit(b, |before|);
    assert b[..|before|] == before;
    var rest := b[|before|..];
    assert rest == slot + after && rest[2..] == after && U16At(rest, 0) == U16At(slot, 0);
  }

  /** The converse, for a receiver: a buffer whose checksum is zero sums to a multiple of 65535. */
  lemma ZeroIffSumsToOnes(b: seq<Byte>)
    ensures Sum16(b) == 0 <==> WordSum(b) > 0 && WordSum(b) % 0xFFFF == 0
  {
    var f := Fold(WordSum(b));
    assert f % 0xFFFF == WordSum(b) % 0xFFFF;
    assert f % 0xFFFF == 0 ==> f == 0 || f == 0xFFFF;
  }

  // ---- The store of the raw sender -------------------------------------------------------------

  /** A uint16_t stored in the memory of a little-endian host. */
  function LittleEndian(n: nat): (s: seq<Byte>)
    requires n < 0x1_0000
    ensures |s| == 2
  {
    [n % 0x100, n / 0x100]
  }

  lemma SwapIsCongruentIff(hi: nat, lo: nat)
    requires hi < 0x100 && lo < 0x100
    ensures (lo * 0x100 + hi) % 0xFFFF == (hi * 0x100 + lo) % 0xFFFF <==> hi == lo
  {
    var a, b := lo * 0x100 + hi, hi * 0x100 + lo;
    assert a - b == 255 * (lo - hi);
  }

  /** 65535 is 255 times 257, so a sum and its checksum are multiples of 257 together; and the
      numbers with two equal bytes are the multiples of 257. */
  lemma EqualBytesIff(c: nat, s: nat)
    requires c < 0x1_0000 && (c + s) % 0xFFFF == 0
    ensures c / 0x100 == c % 0x100 <==> s % 257 == 0
  {
    var k := (c + s) / 0xFFFF;
    assert c + s == 257 * (255 * k);
    MultiplesTogether(c, s, 255 * k);
    TwoEqualBytes(c / 0x100, c % 0x100);
  }

  lemma MultiplesTogether(c: nat, s: nat, k: nat)
    requires c + s == 257 * k
    ensures c % 257 == 0 <==> s % 257 == 0
  {
  }

  lemma TwoEqualBytes(hi: nat, lo: nat)
    requires hi < 0x100 && lo < 0x100
    ensures (0x100 * hi + lo) % 257 == 0 <==> hi == lo
  {
    assert 0x100 * hi + lo == 257 * hi + (lo - hi);
  }

  /** datagram_raw_send_udp_ipv4 stores the value of checksum16 without htons.  On a little-endian
      host the stored buffer verifies exactly when its words sum to a multiple of 257. */
  lemma HostOrderStoreVerifiesIff(before: seq<Byte>, after: seq<Byte>)
    requires |before| % 2 == 0
    ensures var zeroed := before + [0, 0] + after;
            && Sum16(zeroed) < 0x1_0000
            && (Sum16(before + LittleEndian(Sum16(zeroed)) + after) == 0 <==> WordSum(zeroed) % 257 == 0)
  {
    var zeroed := before + [0, 0] + after;
    var c := Sum16(zeroed);
    var stored := before + LittleEndian(c) + after;
    SumWithSlot(before, [0, 0], after);
    SumWithSlot(before, LittleEndian(c), after);
    var swapped := U16At(LittleEndian(c), 0);
    assert swapped == (c % 0x100) * 0x100 + c / 0x100;
    SwapIsCongruentIff(c / 0x100, c % 0x100);
    assert WordSum(stored) == WordSum(zeroed) + swapped;
    CongruentToSum(zeroed);
    ZeroIffSumsToOnes(stored);
    SumsToOnesIff(WordSum(zeroed), c, swapped);
    EqualBytesIff(c, WordSum(zeroed));
    if WordSum(zeroed) == 0 {
      assert c == 0xFFFF;
    }
  }

  lemma SumsToOnesIff(s: nat, c: nat, d: nat)
    requires (c + s) % 0xFFFF == 0
    ensures (s + d) % 0xFFFF == 0 <==> d % 0xFFFF == c % 0xFFFF
  {
  }

  /** The header that the raw sender fills before it computes the checksum, in front of the
      checksum field and behind it: version 4, no options, total length, no fragments, time to
      live 64, UDP, and the two addresses. */
  function BeforeSum(totalLen: nat): (b: seq<Byte>)
    requires totalLen < 0x1_0000
  {
    [0x45, 0] + U16(totalLen) + [0, 0, 0, 0, 64, 17]
  }

  lemma HeaderSum(totalLen: nat, src: seq<Byte>, dst: seq<Byte>)
    requires totalLen < 0x1_0000 && |src| == 4 && |dst| == 4
    ensures WordSum(BeforeSum(totalLen) + [0, 0] + (src + dst)) == 34065 + totalLen + WordSum(src) + WordSum(dst)
  {
    var before := BeforeSum(totalLen);
    SumWithSlot(before, [0, 0], src + dst);
    WordSumSplit(src + dst, 4);
    assert (src + dst)[..4] == src && (src + dst)[4..] == dst;
    FixedSum(totalLen);
  }

  lemma FixedSum(totalLen: nat)
    requires totalLen < 0x1_0000
    ensures WordSum(BeforeSum(totalLen)) == 34065 + totalLen
  {
    var rest := [0, 0, 0, 0, 64, 17];
    assert BeforeSum(totalLen) == [0x45, 0] + U16(totalLen) + rest;
    SumWithSlot([0x45, 0], U16(totalLen), rest);
    assert WordSum([0x45, 0]) == 0x4500 + WordSum([0x45, 0][2..]);
    SumWithSlot([0, 0, 0, 0], [64, 17], []);
    assert [0, 0, 0, 0] + [64, 17] + [] == rest;
    SumWithSlot([0, 0], [0, 0], []);
    assert [0, 0] + [0, 0] + [] == [0, 0, 0, 0];
    assert WordSum([0, 0]) == WordSum([0, 0][2..]);
  }

  /** The header of a raw packet of this length between these addresses, in the buffer that is handed
      to sendto.  A kernel that fills in the checksum of such packets itself replaces the field. */
  ghost function SentHeader(totalLen: nat, src: seq<Byte>, dst: seq<Byte>): seq<Byte>
    requires totalLen < 0x1_0000 && |src| == 4 && |dst| == 4
  {
    BeforeSum(totalLen) + LittleEndian(Sum16(BeforeSum(totalLen) + [0, 0] + (src + dst))) + (src + dst)
  }

  /** Which of the sender's headers verify: about one in 257. */
  lemma SentHeaderVerifiesIff(totalLen: nat, src: seq<Byte>, dst: seq<Byte>)
    requires totalLen < 0x1_0000 && |src| == 4 && |dst| == 4
    ensures Sum16(SentHeader(totalLen, src, dst)) == 0 <==> (34065 + totalLen + WordSum(src) + WordSum(dst)) % 257 == 0
  {
    HostOrderStoreVerifiesIff(BeforeSum(totalLen), src + dst);
    HeaderSum(totalLen, src, dst);
  }

  /** One that does not: a packet of 28 bytes, without payload, from 10.0.0.1 to 10.0.0.2. */
  lemma SentHeaderFails()
    ensures Sum16(SentHeader(28, [10, 0, 0, 1], [10, 0, 0, 2])) != 0
  {
    var src, dst: seq<Byte> := [10, 0, 0, 1], [10, 0, 0, 2];
    SumWithSlot([10, 0], [0, 1], []);
    SumWithSlot([10, 0], [0, 2], []);
    assert src == [10, 0] + [0, 1] + [] && dst == [10, 0] + [0, 2] + [];
    assert WordSum([10, 0]) == 2560 + WordSum([10, 0][2..]);
    SentHeaderVerifiesIff(28, src, dst);
  }

  // ---- The bound is sharp ----------------------------------------------------------------------

  ghost function Ones(n: nat): (b: seq<Byte>)
    ensures |b| == 2 * n && WordSum(b) == 0xFFFF * n
  {
    if n == 0 then [] else
      var rest := Ones(n - 1);
      assert ([0xFF, 0xFF] + rest)[2..] == rest;
      [0xFF, 0xFF] + rest
  }

  /** Two bytes more, and the accumulator wraps: the returned value differs from the checksum. */
  lemma OverflowsBeyondBound()
    ensures |Ones(65538)| == 131076
    ensures 0xFFFF - Fold(WordSum(Ones(65538)) % U32) != Sum16(Ones(65538))
  {
    var s := WordSum(Ones(65538));
    assert s == 4295032830 && s % 0x1_0000_0000 == 0xFFFE && s % 0xFFFF == 0;
    assert Fold(0xFFFE) == 0xFFFE;
  }
}
