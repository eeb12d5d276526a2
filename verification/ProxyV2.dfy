/**
 The PROXY protocol version 2 header of proxy_v2_build, and the datagram that carries it.

 `Decode` is a receiver as section 2.2 of the HAProxy PROXY protocol specification describes it,
 independent of the builder.
 */
module ProxyV2 {
  import opened Bytes
  import opened Options

  /** A socket address as far as the header shows it; sin_port and sin6_port are in network order. */
  datatype SockAddr =
    | Inet(addr: seq<Byte>, port: nat)
    | Inet6(addr: seq<Byte>, port: nat)
    | OtherFamily(family: nat)

  predicate IsSockAddr(a: SockAddr) {
    match a
    case Inet(addr, port) => |addr| == 4 && port < 0x1_0000
    case Inet6(addr, port) => |addr| == 16 && port < 0x1_0000
    case OtherFamily(_) => true
  }

  predicate SameFamily(a: SockAddr, b: SockAddr) {
    (a.Inet? && b.Inet?) || (a.Inet6? && b.Inet6?) || (a.OtherFamily? && b.OtherFamily? && a.family == b.family)
  }

  datatype SockType = Stream | Dgram | OtherType

  datatype Errno = Ok | Einval | Eafnosupport | Eprotonosupport | Enospc | Emsgsize

  const SIGNATURE: seq<Byte> := [0x0D, 0x0A, 0x0D, 0x0A, 0x00, 0x0D, 0x0A, 0x51, 0x55, 0x49, 0x54, 0x0A]
  const VERSION_CMD_PROXY: Byte := 0x21
  const SIZEOF_SOCKADDR_IN := 16
  const SIZEOF_SOCKADDR_IN6 := 28
  const UDP_MAX_PACKET := 65535

  // ---- The header ------------------------------------------------------------------------------

  function FamilyAndTransport(src: SockAddr, t: SockType): Byte
    requires !src.OtherFamily? && t != OtherType
  {
    (if src.Inet? then 0x10 else 0x20) + if t == Stream then 0x01 else 0x02
  }

  function AddressBlock(src: SockAddr, dst: SockAddr): seq<Byte>
    requires IsSockAddr(src) && IsSockAddr(dst) && !src.OtherFamily? && !dst.OtherFamily?
  {
    src.addr + dst.addr + U16(src.port) + U16(dst.port)
  }

  /** Two addresses of one internet family. */
  predicate IsPair(src: SockAddr, dst: SockAddr) {
    IsSockAddr(src) && IsSockAddr(dst) && ((src.Inet? && dst.Inet?) || (src.Inet6? && dst.Inet6?))
  }

  function Header(src: SockAddr, dst: SockAddr, t: SockType): (h: seq<Byte>)
    requires IsPair(src, dst) && t != OtherType
    ensures |h| == if src.Inet? then 28 else 52
  {
    var block := AddressBlock(src, dst);
    SIGNATURE + [VERSION_CMD_PROXY, FamilyAndTransport(src, t)] + U16(|block|) + block
  }

  /** The checks of proxy_v2_build, in its order. */
  function BuildError(bufLen: nat, src: SockAddr, srcLen: nat, dst: SockAddr, dstLen: nat, t: SockType): Errno {
    if !SameFamily(src, dst) then Eafnosupport
    else if t == OtherType then Eprotonosupport
    else
      match src
      case Inet(_, _) =>
        if srcLen < SIZEOF_SOCKADDR_IN || dstLen < SIZEOF_SOCKADDR_IN then Einval
        else if bufLen < 16 + 12 then Enospc else Ok
      case Inet6(_, _) =>
        if srcLen < SIZEOF_SOCKADDR_IN6 || dstLen < SIZEOF_SOCKADDR_IN6 then Einval
        else if bufLen < 16 + 36 then Enospc else Ok
      case OtherFamily(_) => Eafnosupport
  }

  /** memcpy of some bytes to a place in a buffer. */
  method CopyTo(buf: array<Byte>, at: nat, bytes: seq<Byte>)
    requires at + |bytes| <= buf.Length
    modifies buf
    ensures buf[at..at + |bytes|] == bytes
    ensures buf[..at] == old(buf[..at]) && buf[at + |bytes|..] == old(buf[at + |bytes|..])
  {
    for i := 0 to |bytes|
      invariant forall j :: 0 <= j < i ==> buf[at + j] == bytes[j]
      invariant forall j :: 0 <= j < buf.Length && !(at <= j < at + i) ==> buf[j] == old(buf[j])
    {
      buf[at + i] := bytes[i];
    }
  }

  /** Appending at an advancing pointer: what was written before it stays. */
  method Put(buf: array<Byte>, p: nat, bytes: seq<Byte>, ghost done: seq<Byte>, ghost end: nat) returns (q: nat)
    requires p + |bytes| <= end <= buf.Length && p == |done| && buf[..p] == done
    modifies buf
    ensures q == p + |bytes| && buf[..q] == done + bytes && buf[end..] == old(buf[end..])
  {
    ghost var was := buf[..];
    CopyTo(buf, p, bytes);
    q := p + |bytes|;
    assert buf[..q] == buf[..p] + buf[p..q];
    assert buf[end..] == buf[q..][end - q..] && was[end..] == was[q..][end - q..];
  }

  /** proxy_v2_build.  On failure neither the buffer nor *out_len changes. */
  method ProxyV2Build(buf: array?<Byte>, src: Option<SockAddr>, srcLen: nat, dst: Option<SockAddr>, dstLen: nat,
                      sockType: SockType, outLen: nat) returns (rc: Errno, newLen: nat)
    requires src.Some? ==> IsSockAddr(src.value)
    requires dst.Some? ==> IsSockAddr(dst.value)
    modifies if buf == null then {} else {buf}
    ensures rc == if buf == null || src.None? || dst.None? then Einval
                  else BuildError(buf.Length, src.value, srcLen, dst.value, dstLen, sockType)
    ensures rc == Ok ==>
              var h := Header(src.value, dst.value, sockType);
              newLen == |h| <= buf.Length && buf[..newLen] == h && buf[newLen..] == old(buf[newLen..])
    ensures rc != Ok ==> newLen == outLen && (buf != null ==> buf[..] == old(buf[..]))
  {
    if buf == null || src.None? || dst.None? {
      return Einval, outLen;
    }
    var s, d := src.value, dst.value;
    if !SameFamily(s, d) {
      return Eafnosupport, outLen;
    }
    if sockType == OtherType {
      return Eprotonosupport, outLen;
    }
    var addrLen;
    match s {
      case Inet(_, _) =>
        if srcLen < SIZEOF_SOCKADDR_IN || dstLen < SIZEOF_SOCKADDR_IN {
          return Einval, outLen;
        }
        addrLen := 12;
        if buf.Length < 16 + addrLen {
          return Enospc, outLen;
        }
      case Inet6(_, _) =>
        if srcLen < SIZEOF_SOCKADDR_IN6 || dstLen < SIZEOF_SOCKADDR_IN6 {
          return Einval, outLen;
        }
        addrLen := 36;
        if buf.Length < 16 + addrLen {
          return Enospc, outLen;
        }
      case OtherFamily(_) =>
        return Eafnosupport, outLen;
    }
    WriteHeader(buf, s, d, sockType, addrLen);
    return Ok, 16 + addrLen;
  }

  method WriteHeader(buf: array<Byte>, s: SockAddr, d: SockAddr, t: SockType, addrLen: nat)
    requires IsPair(s, d) && t != OtherType
    requires addrLen == (if s.Inet? then 12 else 36) && 16 + addrLen <= buf.Length
    modifies buf
    ensures buf[..16 + addrLen] == Header(s, d, t)
    ensures buf[16 + addrLen..] == old(buf[16 + addrLen..])
  {
    var fixed := [VERSION_CMD_PROXY, FamilyAndTransport(s, t)];
    ghost var end := 16 + addrLen;
    ghost var h0, h1 := SIGNATURE, SIGNATURE + fixed;
    ghost var h2 := h1 + U16(addrLen);
    var p := Put(buf, 0, SIGNATURE, [], end);
    assert [] + SIGNATURE == SIGNATURE;
    p := Put(buf, p, fixed, h0, end);
    p := Put(buf, p, U16(addrLen), h1, end);
    WriteAddresses(buf, p, s, d, h2);
  }

  method WriteAddresses(buf: array<Byte>, start: nat, s: SockAddr, d: SockAddr, ghost head: seq<Byte>)
    requires IsPair(s, d) && start + |AddressBlock(s, d)| <= buf.Length
    requires |head| == start && buf[..start] == head
    modifies buf
    ensures buf[..start + |AddressBlock(s, d)|] == head + AddressBlock(s, d)
    ensures buf[start + |AddressBlock(s, d)|..] == old(buf[start + |AddressBlock(s, d)|..])
  {
    ghost var end := start + |AddressBlock(s, d)|;
    var p := Put(buf, start, s.addr, head, end);
    p := Put(buf, p, d.addr, head + s.addr, end);
    p := Put(buf, p, U16(s.port), head + s.addr + d.addr, end);
    p := Put(buf, p, U16(d.port), head + s.addr + d.addr + U16(s.port), end);
    assert head + s.addr + d.addr + U16(s.port) + U16(d.port) == head + AddressBlock(s, d);
  }

  // ---- The receiver ----------------------------------------------------------------------------

  datatype Decoded =
    | Incomplete
    | Invalid
    | Local(payload: seq<Byte>)
    | Unspecified(payload: seq<Byte>)
    | Proxied(src: SockAddr, dst: SockAddr, transport: SockType, payload: seq<Byte>)

  /** The address part for addresses of n bytes each. */
  function DecodeAddresses(b: seq<Byte>, n: nat): (r: (seq<Byte>, nat, seq<Byte>, nat))
    requires |b| >= 2 * n + 4
    ensures |r.0| == n && |r.2| == n && r.1 < 0x1_0000 && r.3 < 0x1_0000
  {
    (b[..n], U16At(b, 2 * n), b[n..2 * n], U16At(b, 2 * n + 2))
  }

  function Decode(b: seq<Byte>): Decoded {
    if |b| < 16 then Incomplete
    else if b[..12] != SIGNATURE || b[12] / 0x10 != 2 then Invalid
    else
      var len := U16At(b, 14);
      if |b| < 16 + len then Incomplete
      else
        var block, payload := b[16..16 + len], b[16 + len..];
        if b[12] % 0x10 == 0 then Local(payload)
        else if b[12] % 0x10 != 1 then Invalid
        else
          var transport := if b[13] % 0x10 == 1 then Stream else if b[13] % 0x10 == 2 then Dgram else OtherType;
          if transport == OtherType then Unspecified(payload)
          else if b[13] / 0x10 == 1 && len >= 12 then
            var (sa, sp, da, dp) := DecodeAddresses(block, 4);
            Proxied(Inet(sa, sp), Inet(da, dp), transport, payload)
          else if b[13] / 0x10 == 2 && len >= 36 then
            var (sa, sp, da, dp) := DecodeAddresses(block, 16);
            Proxied(Inet6(sa, sp), Inet6(da, dp), transport, payload)
          else Unspecified(payload)
  }

  lemma BlockIsDecoded(src: SockAddr, dst: SockAddr)
    requires IsPair(src, dst)
    ensures DecodeAddresses(AddressBlock(src, dst), |src.addr|) == (src.addr, src.port, dst.addr, dst.port)
  {
    var b := AddressBlock(src, dst);
    var n := |src.addr|;
    assert b[..n] == src.addr && b[n..2 * n] == dst.addr;
    assert b == src.addr + dst.addr + U16(src.port) + U16(dst.port);
    U16RoundTrip(src.port, src.addr + dst.addr, U16(dst.port));
    U16RoundTrip(dst.port, src.addr + dst.addr + U16(src.port), []);
    assert b == src.addr + dst.addr + U16(src.port) + U16(dst.port) + [];
  }

  /** The fixed part of a header with anything behind it. */
  lemma HeaderIsRead(src: SockAddr, dst: SockAddr, t: SockType, payload: seq<Byte>)
    requires IsPair(src, dst) && t != OtherType
    ensures var b, block := Header(src, dst, t) + payload, AddressBlock(src, dst);
            && b[..12] == SIGNATURE && b[12] == 0x21 && b[13] == FamilyAndTransport(src, t)
            && U16At(b, 14) == |block| && b[16..16 + |block|] == block && b[16 + |block|..] == payload
  {
    var block := AddressBlock(src, dst);
    var b := Header(src, dst, t) + payload;
    var fixed := SIGNATURE + [VERSION_CMD_PROXY, FamilyAndTransport(src, t)];
    assert b == fixed + U16(|block|) + (block + payload);
    U16RoundTrip(|block|, fixed, block + payload);
  }

  /** Round trip: for every address pair, transport and payload. */
  lemma DecodeInvertsBuild(src: SockAddr, dst: SockAddr, t: SockType, payload: seq<Byte>)
    requires IsPair(src, dst) && t != OtherType
    ensures Decode(Header(src, dst, t) + payload) == Proxied(src, dst, t, payload)
  {
    HeaderIsRead(src, dst, t, payload);
    BlockIsDecoded(src, dst);
  }

  /** Self-delimiting: no proper prefix of a header is taken for a header. */
  lemma ProperPrefixIsIncomplete(src: SockAddr, dst: SockAddr, t: SockType, k: nat)
    requires IsPair(src, dst) && t != OtherType && k < |Header(src, dst, t)|
    ensures Decode(Header(src, dst, t)[..k]) == Incomplete
  {
    var h := Header(src, dst, t);
    HeaderIsRead(src, dst, t, []);
    assert h + [] == h;
    if k >= 16 {
      assert h[..k][..12] == h[..12] && U16At(h[..k], 14) == U16At(h, 14);
    }
  }

  // ---- The datagram path -----------------------------------------------------------------------

  /** What send_datagram_payload_to_upstream hands to send, or why it does not. */
  function Packet(proxyV2: bool, client: SockAddr, clientLen: nat, local: SockAddr, localLen: nat, payload: seq<Byte>): (Errno, seq<Byte>)
    requires IsSockAddr(client) && IsSockAddr(local)
  {
    if !proxyV2 then (Ok, payload)
    else if !client.Inet? || !local.Inet? then (Eafnosupport, [])
    else if clientLen < SIZEOF_SOCKADDR_IN || localLen < SIZEOF_SOCKADDR_IN then (Einval, [])
    else if |Header(client, local, Dgram)| + |payload| > UDP_MAX_PACKET then (Emsgsize, [])
    else (Ok, Header(client, local, Dgram) + payload)
  }

  method SendPayload(proxyV2: bool, client: SockAddr, clientLen: nat, local: SockAddr, localLen: nat, payload: seq<Byte>)
      returns (rc: Errno, sent: seq<Byte>)
    requires IsSockAddr(client) && IsSockAddr(local)
    ensures (rc, sent) == Packet(proxyV2, client, clientLen, local, localLen, payload)
  {
    if !proxyV2 {
      return Ok, payload;
    }
    if !client.Inet? || !local.Inet? {
      return Eafnosupport, [];
    }
    var hdr := new Byte[256];
    var err, hdrLen := ProxyV2Build(hdr, Some(client), clientLen, Some(local), localLen, Dgram, 0);
    if err != Ok {
      return err, [];
    }
    if hdrLen + |payload| > UDP_MAX_PACKET {
      return Emsgsize, [];
    }
    var out := new Byte[UDP_MAX_PACKET];
    var p := Put(out, 0, hdr[..hdrLen], [], UDP_MAX_PACKET);
    assert [] + hdr[..hdrLen] == hdr[..hdrLen];
    p := Put(out, p, payload, hdr[..hdrLen], UDP_MAX_PACKET);
    return Ok, out[..p];
  }

  /** A datagram with the header is sent exactly when both addresses are IPv4 and the header and the
      payload fit one UDP packet; the receiver then gets the addresses and the payload back. */
  lemma DatagramRoundTrip(client: SockAddr, clientLen: nat, local: SockAddr, localLen: nat, payload: seq<Byte>)
    requires IsSockAddr(client) && IsSockAddr(local)
    ensures var (rc, packet) := Packet(true, client, clientLen, local, localLen, payload);
            && (rc == Ok <==> client.Inet? && local.Inet? && clientLen >= 16 && localLen >= 16 && 28 + |payload| <= 65535)
            && (rc == Ok ==> Decode(packet) == Proxied(client, local, Dgram, payload))
  {
    if client.Inet? && local.Inet? {
      DecodeInvertsBuild(client, local, Dgram, payload);
    }
  }

  /** Without the option exactly the payload is sent, whatever the addresses. */
  lemma PlainDatagram(client: SockAddr, clientLen: nat, local: SockAddr, localLen: nat, payload: seq<Byte>)
    requires IsSockAddr(client) && IsSockAddr(local)
    ensures Packet(false, client, clientLen, local, localLen, payload) == (Ok, payload)
  {
  }

  /** A header is built exactly for two addresses of one internet family, given in full, a stream or
      datagram transport, and a buffer that holds the header. */
  lemma BuildsIff(bufLen: nat, src: SockAddr, srcLen: nat, dst: SockAddr, dstLen: nat, t: SockType)
    requires IsSockAddr(src) && IsSockAddr(dst)
    ensures BuildError(bufLen, src, srcLen, dst, dstLen, t) == Ok <==>
            && IsPair(src, dst) && t != OtherType && |Header(src, dst, t)| <= bufLen
            && srcLen >= (if src.Inet? then 16 else 28) && dstLen >= (if src.Inet? then 16 else 28)
  {
  }

  /** Which error for which input, when none is built. */
  lemma BuildErrorIff(bufLen: nat, src: SockAddr, srcLen: nat, dst: SockAddr, dstLen: nat, t: SockType)
    requires IsSockAddr(src) && IsSockAddr(dst)
    ensures var err := BuildError(bufLen, src, srcLen, dst, dstLen, t);
            var same := src.OtherFamily? && dst.OtherFamily? && src.family == dst.family;
            var full := srcLen >= (if src.Inet? then 16 else 28) && dstLen >= (if src.Inet? then 16 else 28);
            && (err == Eprotonosupport <==> t == OtherType && (IsPair(src, dst) || same))
            && (err == Eafnosupport <==> !IsPair(src, dst) && !(same && t == OtherType))
            && (err == Einval <==> IsPair(src, dst) && t != OtherType && !full)
            && (err == Enospc <==> IsPair(src, dst) && t != OtherType && full && bufLen < |Header(src, dst, t)|)
  {
  }

  /** Which error for which datagram, when it is not sent. */
  lemma DatagramErrorIff(client: SockAddr, clientLen: nat, local: SockAddr, localLen: nat, payload: seq<Byte>)
    requires IsSockAddr(client) && IsSockAddr(local)
    ensures var rc := Packet(true, client, clientLen, local, localLen, payload).0;
            var inet := client.Inet? && local.Inet?;
            && (rc == Eafnosupport <==> !inet)
            && (rc == Einval <==> inet && (clientLen < 16 || localLen < 16))
            && (rc == Emsgsize <==> inet && clientLen >= 16 && localLen >= 16 && 28 + |payload| > 65535)
  {
  }
}
