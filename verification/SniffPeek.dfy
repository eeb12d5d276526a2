/**
 The sniffer over time: stream_sniff_peek_client_input looks at what is in the client's input
 buffer until it has a verdict.  As long as the buffer only grows, when the peeks happen does not
 matter.  The read callback, however, moves the buffer's content away after each peek.
 */
module SniffPeek {
  import opened Bytes
  import opened SniffParser

  const SNI_BUFFER := SNI_MAX + 1

  datatype Sniff = Sniff(sni: seq<Byte>, status: Status, observed: nat, done: bool)

  ghost function Zeros(n: nat): (z: seq<Byte>)
    ensures |z| == n && forall i :: 0 <= i < n ==> z[i] == 0
  {
    if n == 0 then [] else [0] + Zeros(n - 1)
  }

  /** The sniffer of a connection that calloc has just cleared. */
  ghost function Fresh(): Sniff {
    Sniff(Zeros(SNI_MAX + 1), NotObserved, 0, false)
  }

  function Window(input: seq<Byte>): seq<Byte> {
    if |input| > SNIFF_MAX then input[..SNIFF_MAX] else input
  }

  ghost function Peek(s: Sniff, input: seq<Byte>): Sniff
    requires |s.sni| == SNI_MAX + 1
  {
    if s.done || input == [] then s
    else
      var seen := Window(input);
      var o := Parse(seen, SNI_MAX + 1);
      if o.status == NeedMore then
        if |input| >= SNIFF_MAX then s.(observed := |seen|, status := Truncated, done := true)
        else s.(observed := |seen|, status := NeedMore)
      else Sniff(Written(s.sni, o), o.status, |seen|, true)
  }

  class StreamSniff {
    const sni: array<Byte>
    var status: Status
    var observed: nat
    var done: bool

    ghost function View(): Sniff
      reads this, sni
    {
      Sniff(sni[..], status, observed, done)
    }

    constructor ()
      ensures View() == Fresh() && fresh(sni) && sni.Length == SNI_MAX + 1
    {
      sni := new Byte[SNI_MAX + 1](i => 0);
      status, observed, done := NotObserved, 0, false;
      new;
      assert sni[..] == Fresh().sni;
    }

    method PeekClientInput(input: seq<Byte>)
      requires sni.Length == SNI_MAX + 1
      modifies this, sni
      ensures View() == Peek(old(View()), input)
    {
      if done {
        return;
      }
      var inputLen := |input|;
      if inputLen == 0 {
        return;
      }
      var copyLen := inputLen;
      if copyLen > SNIFF_MAX {
        copyLen := SNIFF_MAX;
      }
      var buf := input[..copyLen];
      assert buf == Window(input);
      observed := copyLen;
      var st, needMore := ParseSniFromClientHello(buf, sni);
      if st == NeedMore && needMore {
        if inputLen >= SNIFF_MAX {
          status := Truncated;
          done := true;
          return;
        }
        status := NeedMore;
        return;
      }
      status := st;
      match st {
        case Parsed | Missing | NotTls | Truncated | NameTooLong | ParseError => done := true;
        case NotObserved | NeedMore =>
      }
    }
  }

  // ---- Invariant of the record -----------------------------------------------------------------

  predicate IsTerminal(st: Status) {
    st in {Parsed, Missing, NotTls, Truncated, NameTooLong, ParseError}
  }

  /** The characters before the first NUL. */
  function CString(s: seq<Byte>): (r: seq<Byte>)
    ensures |r| <= |s| && r <= s && 0 !in r && (|r| < |s| ==> s[|r|] == 0)
  {
    if s == [] || s[0] == 0 then [] else [s[0]] + CString(s[1..])
  }

  ghost predicate Coherent(s: Sniff) {
    && |s.sni| == SNI_MAX + 1 && s.sni[SNI_MAX] == 0 && s.observed <= SNIFF_MAX
    && (s.done <==> IsTerminal(s.status))
    && (s.status == Parsed ==> IsValidName(CString(s.sni)))
  }

  lemma {:induction false} CStringOf(name: seq<Byte>, rest: seq<Byte>)
    requires 0 !in name
    ensures CString(name + [0] + rest) == name
  {
    var s := name + [0] + rest;
    if name != [] {
      assert s[0] == name[0] && s[1..] == name[1..] + [0] + rest;
      CStringOf(name[1..], rest);
    } else {
      assert s[0] == 0;
    }
  }

  lemma PeekKeepsCoherent(s: Sniff, input: seq<Byte>)
    requires Coherent(s)
    ensures Coherent(Peek(s, input))
    ensures s.done ==> Peek(s, input) == s
    ensures Peek(s, input).status == Parsed && !s.done ==>
              CString(Peek(s, input).sni) == Parse(Window(input), SNI_MAX + 1).name
  {
    if !s.done && input != [] {
      var o := Parse(Window(input), SNI_MAX + 1);
      if o.status == Parsed {
        assert 0 !in o.name;
        CStringOf(o.name, s.sni[|o.name| + 1..]);
      }
    }
  }

  ghost function PeekAll(s: Sniff, inputs: seq<seq<Byte>>): (r: Sniff)
    requires Coherent(s)
    ensures Coherent(r) && (s.done ==> r == s)
    decreases |inputs|
  {
    if inputs == [] then s
    else
      PeekKeepsCoherent(s, inputs[0]);
      PeekAll(Peek(s, inputs[0]), inputs[1..])
  }

  lemma {:induction false} PeekAllThenOne(s: Sniff, inputs: seq<seq<Byte>>, last: seq<Byte>)
    requires Coherent(s)
    ensures PeekAll(s, inputs + [last]) == Peek(PeekAll(s, inputs), last)
    decreases |inputs|
  {
    if inputs == [] {
      assert inputs + [last] == [last];
      PeekKeepsCoherent(s, last);
      assert PeekAll(Peek(s, last), [last][1..]) == Peek(s, last);
    } else {
      PeekKeepsCoherent(s, inputs[0]);
      assert (inputs + [last])[1..] == inputs[1..] + [last];
      PeekAllThenOne(Peek(s, inputs[0]), inputs[1..], last);
    }
  }

  /** stream_sniff_log_sni, as a sequence of characters. */
  function LogSni(s: Sniff): seq<Byte>
    requires |s.sni| > 0
  {
    if s.status == Parsed && s.sni[0] != 0 then CString(s.sni)
    else
      match s.status
      case NotObserved => Text("<not_observed>")
      case NeedMore => Text("<need_more>")
      case Missing => Text("<missing>")
      case NotTls => Text("<not_tls>")
      case Truncated => Text("<truncated>")
      case NameTooLong => Text("<name_too_long>")
      case ParseError => Text("<parse_error>")
      case Parsed => Text("<empty>")
  }

  function Text(t: string): (r: seq<Byte>)
    ensures |r| == |t|
  {
    seq(|t|, i requires 0 <= i < |t| => if t[i] as int < 256 then t[i] as int else 0)
  }

  /** Whatever was peeked at, the log shows a valid host name exactly when one was parsed. */
  lemma LogShowsNameIffParsed(inputs: seq<seq<Byte>>)
    ensures Coherent(Fresh())
    ensures var s := PeekAll(Fresh(), inputs); IsValidName(LogSni(s)) <==> s.status == Parsed
  {
    var s := PeekAll(Fresh(), inputs);
    if s.status == Parsed {
      assert CString(s.sni)[0] == s.sni[0];
    } else {
      assert LogSni(s)[0] == '<' as int;
      assert !IsNameByte(LogSni(s)[0]);
    }
  }

  /** The placeholder of each verdict without a name. */
  function Placeholder(status: Status): string {
    match status
    case NotObserved => "<not_observed>"
    case NeedMore => "<need_more>"
    case Missing => "<missing>"
    case NotTls => "<not_tls>"
    case Truncated => "<truncated>"
    case NameTooLong => "<name_too_long>"
    case ParseError => "<parse_error>"
    case Parsed => "<empty>"
  }

  lemma PlaceholdersDiffer(a: Status, b: Status)
    requires Text(Placeholder(a)) == Text(Placeholder(b))
    ensures a == b
  {
    var s, t := Text(Placeholder(a)), Text(Placeholder(b));
    assert |s| == |t| && s[1] == t[1] && s[2] == t[2] && s[4] == t[4];
  }

  /** The log shows a placeholder exactly for its verdict. */
  lemma LogShowsPlaceholderIff(s: Sniff, status: Status)
    requires Coherent(s) && status != Parsed
    ensures LogSni(s) == Text(Placeholder(status)) <==> s.status == status
  {
    if s.status == Parsed {
      assert CString(s.sni)[0] == s.sni[0];
      assert LogSni(s) == CString(s.sni) && IsNameByte(LogSni(s)[0]);
      assert Text(Placeholder(status))[0] == '<' as int;
    } else if LogSni(s) == Text(Placeholder(status)) {
      PlaceholdersDiffer(s.status, status);
    }
  }

  // ---- Growing buffers -------------------------------------------------------------------------

  /** A verdict on a prefix is the verdict on every extension. */
  lemma VerdictIsStable(b: seq<Byte>, more: seq<Byte>, outLen: nat)
    requires Parse(b, outLen).status != NeedMore
    ensures Parse(b + more, outLen) == Parse(b, outLen)
  {
    var c := b + more;
    if b[0] == 0x16 {
      assert U16At(c, 3) == U16At(b, 3);
      if 5 + U16At(b, 3) <= |b| {
        assert c[5..5 + U16At(b, 3)] == b[5..5 + U16At(b, 3)];
      }
    }
  }

  ghost predicate Growing(inputs: seq<seq<Byte>>) {
    forall i, j :: 0 <= i <= j < |inputs| ==> inputs[i] <= inputs[j]
  }

  /** Two records agree on everything but the number of bytes looked at. */
  ghost predicate SameVerdict(s: Sniff, t: Sniff) {
    s.(observed := 0) == t.(observed := 0)
  }

  lemma WindowGrows(b: seq<Byte>, c: seq<Byte>)
    requires b <= c
    ensures Window(b) <= Window(c)
    ensures |b| >= SNIFF_MAX ==> Window(b) == Window(c)
  {
  }

  /** A peek at a longer buffer, after a peek at a shorter one, is as good as the first peek. */
  lemma SecondPeek(b: seq<Byte>, c: seq<Byte>)
    requires b <= c && Coherent(Fresh())
    ensures Coherent(Peek(Fresh(), b)) && SameVerdict(Peek(Peek(Fresh(), b), c), Peek(Fresh(), c))
  {
    PeekKeepsCoherent(Fresh(), b);
    if b != [] {
      WindowGrows(b, c);
      var more := Window(c)[|Window(b)|..];
      assert Window(c) == Window(b) + more;
      if Parse(Window(b), SNI_MAX + 1).status != NeedMore {
        VerdictIsStable(Window(b), more, SNI_MAX + 1);
      }
    }
  }

  lemma PeekRespectsVerdict(s: Sniff, t: Sniff, c: seq<Byte>)
    requires Coherent(s) && Coherent(t) && SameVerdict(s, t)
    ensures SameVerdict(Peek(s, c), Peek(t, c))
  {
  }

  lemma {:induction false} GrowingPeeksFrom(s: Sniff, b: seq<Byte>, inputs: seq<seq<Byte>>)
    requires Coherent(Fresh()) && Coherent(s) && SameVerdict(s, Peek(Fresh(), b))
    requires Growing([b] + inputs)
    ensures SameVerdict(PeekAll(s, inputs), Peek(Fresh(), ([b] + inputs)[|inputs|]))
    decreases |inputs|
  {
    if inputs != [] {
      var all := [b] + inputs;
      var c := inputs[0];
      assert all[0] <= all[1];
      PeekKeepsCoherent(Fresh(), b);
      PeekKeepsCoherent(s, c);
      PeekRespectsVerdict(s, Peek(Fresh(), b), c);
      SecondPeek(b, c);
      assert [c] + inputs[1..] == inputs;
      assert Growing(inputs) by {
        forall i, j | 0 <= i <= j < |inputs| ensures inputs[i] <= inputs[j] {
          assert all[i + 1] <= all[j + 1];
        }
      }
      GrowingPeeksFrom(Peek(s, c), c, inputs[1..]);
    }
  }

  /** Chunk independence: after any sequence of peeks at a growing buffer the verdict is that of
      one peek at the last content. */
  lemma GrowingPeeks(inputs: seq<seq<Byte>>)
    requires inputs != [] && Growing(inputs)
    ensures Coherent(Fresh())
    ensures SameVerdict(PeekAll(Fresh(), inputs), Peek(Fresh(), inputs[|inputs| - 1]))
  {
    var all := [[]] + inputs;
    assert Growing(all) by {
      forall i, j | 0 <= i <= j < |all| ensures all[i] <= all[j] {
        assert i > 0 ==> inputs[i - 1] <= inputs[j - 1];
      }
    }
    GrowingPeeksFrom(Fresh(), [], inputs);
    assert all[|inputs|] == inputs[|inputs| - 1];
  }

  // ---- The read callbacks ----------------------------------------------------------------------

  /** A chunk on its own that leaves the sniffer waiting. */
  predicate Waits(chunk: seq<Byte>) {
    chunk == [] || (|chunk| < SNIFF_MAX && Incomplete(chunk))
  }

  /** The first chunk that does not. */
  ghost predicate FirstDecided(chunks: seq<seq<Byte>>, i: nat) {
    i < |chunks| && !Waits(chunks[i]) && forall j :: 0 <= j < i ==> Waits(chunks[j])
  }

  /** The first chunk that decides carries this name by itself. */
  ghost predicate FoundIn(chunks: seq<seq<Byte>>, name: seq<Byte>) {
    exists i: nat :: FirstDecided(chunks, i) && Parse(Window(chunks[i]), SNI_MAX + 1) == Outcome(Parsed, name)
  }

  lemma WaitingPeek(s: Sniff, chunk: seq<Byte>)
    requires Coherent(s) && !s.done && Waits(chunk)
    ensures var t := Peek(s, chunk);
            !t.done && t.sni == s.sni && t.status == if chunk == [] then s.status else NeedMore
  {
  }

  lemma DecidingPeek(s: Sniff, chunk: seq<Byte>)
    requires Coherent(s) && Coherent(Fresh()) && !s.done && s.sni == Fresh().sni && !Waits(chunk)
    ensures Peek(s, chunk).done && SameVerdict(Peek(s, chunk), Peek(Fresh(), chunk))
  {
    if |chunk| >= SNIFF_MAX && Parse(Window(chunk), SNI_MAX + 1).status != NeedMore {
      assert !Incomplete(Window(chunk));
    }
  }

  lemma {:induction false} VerdictOfChunksFrom(s: Sniff, chunks: seq<seq<Byte>>, i: nat)
    requires Coherent(s) && Coherent(Fresh()) && !s.done && s.sni == Fresh().sni && FirstDecided(chunks, i)
    ensures SameVerdict(PeekAll(s, chunks), Peek(Fresh(), chunks[i]))
    decreases |chunks|
  {
    PeekKeepsCoherent(s, chunks[0]);
    if i == 0 {
      DecidingPeek(s, chunks[0]);
    } else {
      WaitingPeek(s, chunks[0]);
      VerdictOfChunksFrom(Peek(s, chunks[0]), chunks[1..], i - 1);
    }
  }

  /** However the client's bytes are cut into callbacks, the first chunk that is not a waiting prefix
      decides, as if it were the start of the stream. */
  lemma VerdictOfChunks(chunks: seq<seq<Byte>>, i: nat)
    requires FirstDecided(chunks, i)
    ensures Coherent(Fresh()) && SameVerdict(PeekAll(Fresh(), chunks), Peek(Fresh(), chunks[i]))
  {
    VerdictOfChunksFrom(Fresh(), chunks, i);
  }

  lemma {:induction false} UndecidedChunksFrom(s: Sniff, chunks: seq<seq<Byte>>)
    requires Coherent(s) && !s.done && forall j :: 0 <= j < |chunks| ==> Waits(chunks[j])
    ensures !PeekAll(s, chunks).done
    decreases |chunks|
  {
    if chunks != [] {
      PeekKeepsCoherent(s, chunks[0]);
      WaitingPeek(s, chunks[0]);
      assert forall j :: 0 <= j < |chunks[1..]| ==> chunks[1..][j] == chunks[j + 1];
      UndecidedChunksFrom(Peek(s, chunks[0]), chunks[1..]);
    }
  }

  lemma {:induction false} SomeIsFirst(chunks: seq<seq<Byte>>) returns (i: nat)
    requires exists j :: 0 <= j < |chunks| && !Waits(chunks[j])
    ensures FirstDecided(chunks, i)
  {
    i := 0;
    while Waits(chunks[i])
      invariant i < |chunks| && forall j :: 0 <= j < i ==> Waits(chunks[j])
      invariant exists j :: i <= j < |chunks| && !Waits(chunks[j])
      decreases |chunks| - i
    {
      i := i + 1;
    }
  }

  /** Exactly when a name is found: the first chunk that decides carries it. */
  lemma NameIsFoundIff(chunks: seq<seq<Byte>>, name: seq<Byte>)
    ensures Coherent(Fresh())
    ensures var s := PeekAll(Fresh(), chunks);
            s.status == Parsed && CString(s.sni) == name <==> FoundIn(chunks, name)
  {
    if exists j :: 0 <= j < |chunks| && !Waits(chunks[j]) {
      var i := SomeIsFirst(chunks);
      VerdictOfChunks(chunks, i);
      PeekKeepsCoherent(Fresh(), chunks[i]);
      assert forall k: nat :: FirstDecided(chunks, k) ==> k == i;
      PeekFinds(chunks[i], name);
    } else {
      UndecidedChunksFrom(Fresh(), chunks);
    }
  }

  lemma PeekFinds(chunk: seq<Byte>, name: seq<Byte>)
    requires Coherent(Fresh()) && !Waits(chunk)
    ensures var s := Peek(Fresh(), chunk);
            s.status == Parsed && CString(s.sni) == name <==> Parse(Window(chunk), SNI_MAX + 1) == Outcome(Parsed, name)
  {
    PeekKeepsCoherent(Fresh(), chunk);
    var o := Parse(Window(chunk), SNI_MAX + 1);
    assert Peek(Fresh(), chunk).status == Parsed <==> o.status == Parsed;
    assert o == Outcome(o.status, o.name);
  }

  /** A name in the first chunk is found. */
  lemma WholeHelloIsFound(first: seq<Byte>, rest: seq<seq<Byte>>, name: seq<Byte>)
    requires |first| <= SNIFF_MAX && Parse(first, SNI_MAX + 1) == Outcome(Parsed, name)
    ensures Coherent(Fresh())
    ensures var s := PeekAll(Fresh(), [first] + rest); s.status == Parsed && CString(s.sni) == name
  {
    PeekKeepsCoherent(Fresh(), first);
    assert ([first] + rest)[1..] == rest;
  }

  /** The end of the first record of a buffer that shows its header. */
  function RecordEnd(b: seq<Byte>): nat
    requires |b| >= 5
  {
    5 + U16At(b, 3)
  }

  /** A prefix of a buffer that is parsed, or a continuation of it, waits exactly if it is shorter
      than the record. */
  lemma PrefixWaitsIff(b: seq<Byte>, first: seq<Byte>, name: seq<Byte>)
    requires |b| <= SNIFF_MAX && Parse(b, SNI_MAX + 1) == Outcome(Parsed, name)
    requires first != [] && (first <= b || b <= first)
    ensures Waits(first) <==> |first| < RecordEnd(b)
    ensures !Waits(first) ==> Parse(Window(first), SNI_MAX + 1) == Outcome(Parsed, name)
  {
    assert first[0] == b[0] == 0x16;
    assert |first| >= 2 ==> first[1] == b[1] == 0x03;
    if |first| >= 5 {
      assert U16At(first, 3) == U16At(b, 3);
    }
    if |first| >= RecordEnd(b) {
      var w := Window(first);
      assert U16At(w, 3) == U16At(b, 3) && !Incomplete(w);
      if w <= b {
        assert b == w + b[|w|..];
        VerdictIsStable(w, b[|w|..], SNI_MAX + 1);
      } else {
        assert w == b + w[|b|..];
        VerdictIsStable(b, w[|b|..], SNI_MAX + 1);
      }
    }
  }
}
