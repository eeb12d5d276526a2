/**
 The server-name sniffer's parser of a TLS ClientHello.

 `Parse` says, one nested length-delimited structure at a time, what status the parser gives for
 a buffer.  `ParseSniFromClientHello` is the parser as the code has it: one buffer, one advancing
 position, two nested loops.
 */
module SniffParser {
  import opened Bytes

  const SNIFF_MAX := 8192
  const SNI_MAX := 253

  datatype Status =
    NotObserved | NeedMore | Parsed | Missing | NotTls | Truncated | NameTooLong | ParseError

  /** A status, and the name when the status is Parsed. */
  datatype Outcome = Outcome(status: Status, name: seq<Byte>)

  const ERROR := Outcome(ParseError, [])
  const NONE := Outcome(Missing, [])

  predicate IsNameByte(c: Byte) {
    || '0' as int <= c <= '9' as int
    || 'A' as int <= c <= 'Z' as int
    || 'a' as int <= c <= 'z' as int
    || c == '-' as int
    || c == '.' as int
  }

  predicate IsValidName(name: seq<Byte>) {
    1 <= |name| <= SNI_MAX && forall i :: 0 <= i < |name| ==> IsNameByte(name[i])
  }

  method ValidSniName(name: seq<Byte>) returns (valid: bool)
    ensures valid <==> IsValidName(name)
  {
    if |name| == 0 || |name| > SNI_MAX {
      return false;
    }
    for i := 0 to |name|
      invariant forall j :: 0 <= j < i ==> IsNameByte(name[j])
    {
      if !IsNameByte(name[i]) {
        return false;
      }
    }
    return true;
  }

  // ---- The nested structures -------------------------------------------------------------------

  /** Inside a complete record the parser never asks for more, and a name it hands out is valid and
      fits its destination with a terminator. */
  predicate Decided(o: Outcome, outLen: nat) {
    && o.status in {Parsed, Missing, NameTooLong, ParseError}
    && (if o.status == Parsed then IsValidName(o.name) && |o.name| < outLen else o.name == [])
  }

  /** The first host_name decides, whatever follows it. */
  function HostVerdict(name: seq<Byte>, outLen: nat): (o: Outcome)
    ensures Decided(o, outLen)
  {
    if |name| > SNI_MAX then Outcome(NameTooLong, [])
    else if !IsValidName(name) then ERROR
    else if outLen < |name| + 1 then Outcome(NameTooLong, [])
    else Outcome(Parsed, name)
  }

  function ParseNames(list: seq<Byte>, outLen: nat): (o: Outcome)
    ensures Decided(o, outLen)
    decreases |list|
  {
    if |list| < 3 then NONE
    else
      var n := U16At(list, 1);
      if 3 + n > |list| then ERROR
      else if list[0] == 0 then HostVerdict(list[3..3 + n], outLen)
      else ParseNames(list[3 + n..], outLen)
  }

  function ParseServerName(data: seq<Byte>, outLen: nat): (o: Outcome)
    ensures Decided(o, outLen)
  {
    if |data| < 2 then ERROR
    else if 2 + U16At(data, 0) != |data| then ERROR
    else ParseNames(data[2..], outLen)
  }

  function ParseExtensions(exts: seq<Byte>, outLen: nat): (o: Outcome)
    ensures Decided(o, outLen)
    decreases |exts|
  {
    if |exts| < 4 then if exts == [] then NONE else ERROR
    else
      var n := U16At(exts, 2);
      if 4 + n > |exts| then ERROR
      else if U16At(exts, 0) == 0 then ParseServerName(exts[4..4 + n], outLen)
      else ParseExtensions(exts[4 + n..], outLen)
  }

  // The fields of a ClientHello that ends at `end`, read at an index of the buffer.

  /** The extensions from an index of the whole buffer on. */
  function ExtensionsFrom(buf: seq<Byte>, pos: nat, end: nat, outLen: nat): (o: Outcome)
    requires pos <= end <= |buf|
    ensures Decided(o, outLen)
    decreases end - pos
  {
    if pos + 4 > end then if pos == end then NONE else ERROR
    else
      var n := U16At(buf, pos + 2);
      if pos + 4 + n > end then ERROR
      else if U16At(buf, pos) == 0 then ParseServerName(buf[pos + 4..pos + 4 + n], outLen)
      else ExtensionsFrom(buf, pos + 4 + n, end, outLen)
  }

  function ExtensionBlockFrom(buf: seq<Byte>, pos: nat, end: nat, outLen: nat): (o: Outcome)
    requires pos <= end <= |buf|
    ensures Decided(o, outLen)
  {
    if pos == end then NONE
    else if pos + 2 > end then ERROR
    else if pos + 2 + U16At(buf, pos) != end then ERROR
    else ExtensionsFrom(buf, pos + 2, end, outLen)
  }

  function CompressionFrom(buf: seq<Byte>, pos: nat, end: nat, outLen: nat): (o: Outcome)
    requires pos <= end <= |buf|
    ensures Decided(o, outLen)
  {
    if pos + 1 > end then ERROR
    else
      var n: nat := buf[pos];
      if n == 0 || pos + 1 + n > end then ERROR else ExtensionBlockFrom(buf, pos + 1 + n, end, outLen)
  }

  function CiphersFrom(buf: seq<Byte>, pos: nat, end: nat, outLen: nat): (o: Outcome)
    requires pos <= end <= |buf|
    ensures Decided(o, outLen)
  {
    if pos + 2 > end then ERROR
    else
      var n := U16At(buf, pos);
      if n == 0 || n % 2 != 0 || pos + 2 + n > end then ERROR else CompressionFrom(buf, pos + 2 + n, end, outLen)
  }

  function HelloFrom(buf: seq<Byte>, pos: nat, end: nat, outLen: nat): (o: Outcome)
    requires pos <= end <= |buf|
    ensures Decided(o, outLen)
  {
    if pos + 35 > end then ERROR
    else
      var n: nat := buf[pos + 34];
      if pos + 35 + n > end then ERROR else CiphersFrom(buf, pos + 35 + n, end, outLen)
  }

  function ParseHello(body: seq<Byte>, outLen: nat): (o: Outcome)
    ensures Decided(o, outLen)
  {
    HelloFrom(body, 0, |body|, outLen)
  }

  function ParseFragment(frag: seq<Byte>, outLen: nat): (o: Outcome)
    ensures o == Outcome(NotTls, []) || Decided(o, outLen)
  {
    if |frag| < 4 then ERROR
    else if frag[0] != 0x01 then Outcome(NotTls, [])
    else
      var n := U24At(frag, 1);
      if n == 0 || 4 + n > |frag| then ERROR else ParseHello(frag[4..4 + n], outLen)
  }

  /** The record is known to need more bytes. */
  predicate Incomplete(b: seq<Byte>) {
    || b == []
    || (b[0] == 0x16 && |b| < 5)
    || (b[0] == 0x16 && |b| >= 5 && b[1] == 0x03 && 0 < U16At(b, 3) && |b| < 5 + U16At(b, 3))
  }

  function Parse(b: seq<Byte>, outLen: nat): (o: Outcome)
    ensures o == Outcome(NotTls, []) || o == Outcome(NeedMore, []) || Decided(o, outLen)
    ensures o.status == NeedMore <==> Incomplete(b)
  {
    if b == [] then Outcome(NeedMore, [])
    else if b[0] != 0x16 then Outcome(NotTls, [])
    else if |b| < 5 then Outcome(NeedMore, [])
    else if b[1] != 0x03 || U16At(b, 3) == 0 then ERROR
    else if 5 + U16At(b, 3) > |b| then Outcome(NeedMore, [])
    else ParseFragment(b[5..5 + U16At(b, 3)], outLen)
  }

  // ---- The parser in place ---------------------------------------------------------------------

  ghost function Written(out: seq<Byte>, o: Outcome): seq<Byte>
    requires o.status == Parsed ==> |o.name| < |out|
  {
    if o.status == Parsed then o.name + [0] + out[|o.name| + 1..] else out
  }

  /** memcpy of the name and its terminator. */
  method CopyName(name: seq<Byte>, out: array<Byte>)
    requires |name| < out.Length
    modifies out
    ensures out[..] == name + [0] + old(out[..])[|name| + 1..]
  {
    ghost var was := out[..];
    for i := 0 to |name|
      invariant forall j :: 0 <= j < i ==> out[j] == name[j]
      invariant forall j :: i <= j < out.Length ==> out[j] == was[j]
    {
      out[i] := name[i];
    }
    out[|name|] := 0;
  }

  /** What is done with the first host_name. */
  method TakeHostName(name: seq<Byte>, out: array<Byte>) returns (status: Status)
    modifies out
    ensures var o := HostVerdict(name, out.Length);
            status == o.status && out[..] == Written(old(out[..]), o)
  {
    if |name| > SNI_MAX {
      return NameTooLong;
    }
    var valid := ValidSniName(name);
    if !valid {
      return ParseError;
    }
    if out.Length < |name| + 1 {
      return NameTooLong;
    }
    CopyName(name, out);
    return Parsed;
  }

  /** One entry of the list, read at an index of the whole buffer. */
  lemma NameAt(buf: seq<Byte>, pos: nat, end: nat, outLen: nat)
    requires pos + 3 <= end <= |buf|
    ensures var n := U16At(buf, pos + 1);
            ParseNames(buf[pos..end], outLen) ==
            if pos + 3 + n > end then ERROR
            else if buf[pos] == 0 then HostVerdict(buf[pos + 3..pos + 3 + n], outLen)
            else ParseNames(buf[pos + 3 + n..end], outLen)
  {
    var rest := buf[pos..end];
    var n := U16At(buf, pos + 1);
    assert n == U16At(rest, 1) && buf[pos] == rest[0];
    if pos + 3 + n <= end {
      Slice(buf, pos, end, 3, 3 + n);
      SliceFrom(buf, pos, end, 3 + n);
    }
  }

  /** One extension, read at an index of the whole buffer. */
  lemma ExtensionAt(buf: seq<Byte>, pos: nat, end: nat, outLen: nat)
    requires pos + 4 <= end <= |buf|
    ensures var n := U16At(buf, pos + 2);
            ParseExtensions(buf[pos..end], outLen) ==
            if pos + 4 + n > end then ERROR
            else if U16At(buf, pos) == 0 then ParseServerName(buf[pos + 4..pos + 4 + n], outLen)
            else ParseExtensions(buf[pos + 4 + n..end], outLen)
  {
    var rest := buf[pos..end];
    var n := U16At(buf, pos + 2);
    assert n == U16At(rest, 2) && U16At(buf, pos) == U16At(rest, 0);
    if pos + 4 + n <= end {
      Slice(buf, pos, end, 4, 4 + n);
      SliceFrom(buf, pos, end, 4 + n);
    }
  }

  /** The list from an index of the whole buffer on. */
  ghost function NamesFrom(buf: seq<Byte>, pos: nat, end: nat, outLen: nat): (o: Outcome)
    requires pos <= end <= |buf|
    decreases end - pos
  {
    if pos + 3 > end then NONE
    else
      var n := U16At(buf, pos + 1);
      if pos + 3 + n > end then ERROR
      else if buf[pos] == 0 then HostVerdict(buf[pos + 3..pos + 3 + n], outLen)
      else NamesFrom(buf, pos + 3 + n, end, outLen)
  }

  lemma {:induction false} NamesFromIs(buf: seq<Byte>, pos: nat, end: nat, outLen: nat)
    requires pos <= end <= |buf|
    ensures NamesFrom(buf, pos, end, outLen) == ParseNames(buf[pos..end], outLen)
    decreases end - pos
  {
    if pos + 3 <= end {
      NameAt(buf, pos, end, outLen);
      var n := U16At(buf, pos + 1);
      if pos + 3 + n <= end {
        NamesFromIs(buf, pos + 3 + n, end, outLen);
      }
    }
  }

  /** The loop over the server name list. */
  method ParseNameList(buf: seq<Byte>, start: nat, listEnd: nat, out: array<Byte>) returns (status: Status)
    requires start <= listEnd <= |buf|
    modifies out
    ensures var o := ParseNames(buf[start..listEnd], out.Length);
            status == o.status && out[..] == Written(old(out[..]), o)
  {
    ghost var o := NamesFrom(buf, start, listEnd, out.Length);
    NamesFromIs(buf, start, listEnd, out.Length);
    var listPos := start;
    while listPos + 3 <= listEnd
      invariant start <= listPos <= listEnd
      invariant NamesFrom(buf, listPos, listEnd, out.Length) == o
      invariant out[..] == old(out[..])
    {
      var nameType := buf[listPos];
      var nameLen := U16At(buf, listPos + 1);
      listPos := listPos + 3;
      if listPos + nameLen > listEnd {
        return ParseError;
      }
      if nameType == 0 {
        status := TakeHostName(buf[listPos..listPos + nameLen], out);
        return;
      }
      listPos := listPos + nameLen;
    }
    return Missing;
  }

  /** The server_name extension: a length that must fill it, then the list. */
  method ParseServerNameExtension(buf: seq<Byte>, extData: nat, extEnd: nat, out: array<Byte>) returns (status: Status)
    requires extData <= extEnd <= |buf|
    modifies out
    ensures var o := ParseServerName(buf[extData..extEnd], out.Length);
            status == o.status && out[..] == Written(old(out[..]), o)
  {
    ghost var data := buf[extData..extEnd];
    if extEnd - extData < 2 {
      return ParseError;
    }
    var listLen := U16At(buf, extData);
    assert listLen == U16At(data, 0);
    var listPos := extData + 2;
    var listEnd := listPos + listLen;
    if listEnd != extEnd {
      return ParseError;
    }
    SliceFrom(buf, extData, extEnd, 2);
    status := ParseNameList(buf, listPos, listEnd, out);
  }

  lemma {:induction false} ExtensionsFromIs(buf: seq<Byte>, pos: nat, end: nat, outLen: nat)
    requires pos <= end <= |buf|
    ensures ExtensionsFrom(buf, pos, end, outLen) == ParseExtensions(buf[pos..end], outLen)
    decreases end - pos
  {
    if pos + 4 <= end {
      ExtensionAt(buf, pos, end, outLen);
      var n := U16At(buf, pos + 2);
      if pos + 4 + n <= end {
        ExtensionsFromIs(buf, pos + 4 + n, end, outLen);
      }
    }
  }

  /** The loop over the extensions. */
  method ParseExtensionList(buf: seq<Byte>, start: nat, extensionsEnd: nat, out: array<Byte>) returns (status: Status)
    requires start <= extensionsEnd <= |buf|
    modifies out
    ensures var o := ExtensionsFrom(buf, start, extensionsEnd, out.Length);
            status == o.status && out[..] == Written(old(out[..]), o)
  {
    ghost var o := ExtensionsFrom(buf, start, extensionsEnd, out.Length);
    var pos := start;
    while pos + 4 <= extensionsEnd
      invariant start <= pos <= extensionsEnd
      invariant ExtensionsFrom(buf, pos, extensionsEnd, out.Length) == o
      invariant out[..] == old(out[..])
    {
      var extType, extLen := U16At(buf, pos), U16At(buf, pos + 2);
      pos := pos + 4;
      var extEnd := pos + extLen;
      if extEnd > extensionsEnd {
        return ParseError;
      }
      if extType == 0 {
        status := ParseServerNameExtension(buf, pos, extEnd, out);
        return;
      }
      pos := extEnd;
    }
    if pos != extensionsEnd {
      return ParseError;
    }
    return Missing;
  }

  /** The bytes s are those of the buffer from a on. */
  ghost predicate IsWindow(buf: seq<Byte>, a: nat, s: seq<Byte>) {
    a + |s| <= |buf| && forall i {:trigger s[i]} :: 0 <= i < |s| ==> s[i] == buf[a + i]
  }

  lemma {:induction false} ExtensionsShift(buf: seq<Byte>, a: nat, s: seq<Byte>, pos: nat, end: nat, outLen: nat)
    requires IsWindow(buf, a, s) && pos <= end <= |s|
    ensures ExtensionsFrom(s, pos, end, outLen) == ExtensionsFrom(buf, a + pos, a + end, outLen)
    decreases end - pos
  {
    if pos + 4 <= end {
      var n := U16At(s, pos + 2);
      if pos + 4 + n <= end {
        assert s[pos + 4..pos + 4 + n] == buf[a + pos + 4..a + pos + 4 + n];
        ExtensionsShift(buf, a, s, pos + 4 + n, end, outLen);
      }
    }
  }

  lemma ExtensionBlockShift(buf: seq<Byte>, a: nat, s: seq<Byte>, pos: nat, end: nat, outLen: nat)
    requires IsWindow(buf, a, s) && pos <= end <= |s|
    ensures ExtensionBlockFrom(s, pos, end, outLen) == ExtensionBlockFrom(buf, a + pos, a + end, outLen)
  {
    if pos + 2 <= end {
      ExtensionsShift(buf, a, s, pos + 2, end, outLen);
    }
  }

  lemma CompressionShift(buf: seq<Byte>, a: nat, s: seq<Byte>, pos: nat, end: nat, outLen: nat)
    requires IsWindow(buf, a, s) && pos <= end <= |s|
    ensures CompressionFrom(s, pos, end, outLen) == CompressionFrom(buf, a + pos, a + end, outLen)
  {
    if pos < end {
      var n: nat := s[pos];
      if pos + 1 + n <= end {
        ExtensionBlockShift(buf, a, s, pos + 1 + n, end, outLen);
      }
    }
  }

  lemma HelloShift(buf: seq<Byte>, a: nat, s: seq<Byte>, pos: nat, end: nat, outLen: nat)
    requires IsWindow(buf, a, s) && pos <= end <= |s|
    ensures HelloFrom(s, pos, end, outLen) == HelloFrom(buf, a + pos, a + end, outLen)
  {
    if pos + 35 <= end {
      var p := pos + 35 + s[pos + 34] as nat;
      if p + 2 <= end {
        var q := p + 2 + U16At(s, p);
        if q <= end {
          CompressionShift(buf, a, s, q, end, outLen);
        }
      }
    }
  }

  ghost function FragmentFrom(buf: seq<Byte>, pos: nat, end: nat, outLen: nat): (o: Outcome)
    requires pos <= end <= |buf|
    ensures o == Outcome(NotTls, []) || Decided(o, outLen)
  {
    if pos + 4 > end then ERROR
    else if buf[pos] != 0x01 then Outcome(NotTls, [])
    else
      var n := U24At(buf, pos + 1);
      if n == 0 || pos + 4 + n > end then ERROR else HelloFrom(buf, pos + 4, pos + 4 + n, outLen)
  }

  lemma FragmentFromIs(buf: seq<Byte>, pos: nat, end: nat, outLen: nat)
    requires pos <= end <= |buf|
    ensures FragmentFrom(buf, pos, end, outLen) == ParseFragment(buf[pos..end], outLen)
  {
    if pos + 4 <= end {
      var frag := buf[pos..end];
      U24Inside(buf, pos, end, 1);
      var n := U24At(frag, 1);
      if 4 + n <= |frag| {
        var body := frag[4..4 + n];
        assert IsWindow(buf, pos + 4, body);
        HelloShift(buf, pos + 4, body, 0, n, outLen);
      }
    }
  }

  /** The extensions, if the ClientHello has any. */
  method ParseExtensionsField(buf: seq<Byte>, start: nat, hsEnd: nat, out: array<Byte>) returns (status: Status)
    requires start <= hsEnd <= |buf|
    modifies out
    ensures var o := ExtensionBlockFrom(buf, start, hsEnd, out.Length);
            status == o.status && out[..] == Written(old(out[..]), o)
  {
    var pos := start;
    if pos == hsEnd {
      return Missing;
    }
    if pos + 2 > hsEnd {
      return ParseError;
    }
    var extensionsLen := U16At(buf, pos);
    pos := pos + 2;
    if pos + extensionsLen != hsEnd {
      return ParseError;
    }
    status := ParseExtensionList(buf, pos, hsEnd, out);
  }

  /** The end of the ClientHello, from the compression methods on. */
  method ParseHelloEnd(buf: seq<Byte>, start: nat, hsEnd: nat, out: array<Byte>) returns (status: Status)
    requires start <= hsEnd <= |buf|
    modifies out
    ensures var o := CompressionFrom(buf, start, hsEnd, out.Length);
            status == o.status && out[..] == Written(old(out[..]), o)
  {
    var pos := start;
    if pos + 1 > hsEnd {
      return ParseError;
    }
    var compressionLen: nat := buf[pos];
    pos := pos + 1;
    if compressionLen == 0 {
      return ParseError;
    }
    if pos + compressionLen > hsEnd {
      return ParseError;
    }
    pos := pos + compressionLen;
    status := ParseExtensionsField(buf, pos, hsEnd, out);
  }

  /** The cipher suites and what follows them. */
  method ParseFromCiphers(buf: seq<Byte>, start: nat, hsEnd: nat, out: array<Byte>) returns (status: Status)
    requires start <= hsEnd <= |buf|
    modifies out
    ensures var o := CiphersFrom(buf, start, hsEnd, out.Length);
            status == o.status && out[..] == Written(old(out[..]), o)
  {
    var pos := start;
    if pos + 2 > hsEnd {
      return ParseError;
    }
    var cipherSuitesLen := U16At(buf, pos);
    pos := pos + 2;
    if cipherSuitesLen == 0 || cipherSuitesLen % 2 != 0 {
      return ParseError;
    }
    if pos + cipherSuitesLen > hsEnd {
      return ParseError;
    }
    pos := pos + cipherSuitesLen;
    status := ParseHelloEnd(buf, pos, hsEnd, out);
  }

  /** The body of the ClientHello, from the legacy version on. */
  method ParseHelloBody(buf: seq<Byte>, start: nat, hsEnd: nat, out: array<Byte>) returns (status: Status)
    requires start <= hsEnd <= |buf|
    modifies out
    ensures var o := HelloFrom(buf, start, hsEnd, out.Length);
            status == o.status && out[..] == Written(old(out[..]), o)
  {
    var pos := start;
    if pos + 2 + 32 + 1 > hsEnd {
      return ParseError;
    }
    pos := pos + 2;
    pos := pos + 32;
    var sessionIdLen: nat := buf[pos];
    pos := pos + 1;
    if pos + sessionIdLen > hsEnd {
      return ParseError;
    }
    pos := pos + sessionIdLen;
    status := ParseFromCiphers(buf, pos, hsEnd, out);
  }

  /** The handshake message at the start of the record's fragment. */
  method ParseRecordFragment(buf: seq<Byte>, start: nat, recordEnd: nat, out: array<Byte>) returns (status: Status)
    requires start <= recordEnd <= |buf|
    modifies out
    ensures var o := FragmentFrom(buf, start, recordEnd, out.Length);
            status == o.status && out[..] == Written(old(out[..]), o)
  {
    var pos := start;
    if pos + 4 > recordEnd {
      return ParseError;
    }
    if buf[pos] != 0x01 {
      return NotTls;
    }
    var hsLen := U24At(buf, pos + 1);
    pos := pos + 4;
    var hsEnd := pos + hsLen;
    if hsLen == 0 || hsEnd > recordEnd {
      return ParseError;
    }
    status := ParseHelloBody(buf, pos, hsEnd, out);
  }

  /** parse_sni_from_client_hello.  Every read lies inside the buffer, and the destination changes
      only when a name was parsed. */
  method ParseSniFromClientHello(buf: seq<Byte>, out: array<Byte>) returns (status: Status, needMore: bool)
    modifies out
    ensures var o := Parse(buf, out.Length);
            && status == o.status
            && (needMore <==> status == NeedMore)
            && out[..] == Written(old(out[..]), o)
  {
    needMore := false;
    if |buf| == 0 {
      return NeedMore, true;
    }
    if buf[0] != 0x16 {
      return NotTls, false;
    }
    if |buf| < 5 {
      return NeedMore, true;
    }
    if buf[1] != 0x03 {
      return ParseError, false;
    }
    var recordLen := U16At(buf, 3);
    var recordEnd := 5 + recordLen;
    if recordLen == 0 {
      return ParseError, false;
    }
    if recordEnd > |buf| {
      return NeedMore, true;
    }
    FragmentFromIs(buf, 5, recordEnd, out.Length);
    status := ParseRecordFragment(buf, 5, recordEnd, out);
  }
}
