/**
 The sniffer on whole runs of a connection.  Each client read callback peeks at its own input and
 then moves it away, so a ClientHello that arrives in pieces is not put together again.  These
 lemmas say exactly what is found instead, and show a run on which a name is missed.
 */
module SniffRuns {
  import opened Bytes
  import opened Options
  import opened SniffParser
  import opened SniffPeek
  import Grammar = SniffGrammar
  import opened StreamConn
  import opened StreamRuns

  /** The inputs of the client read callbacks of a run. */
  ghost function Chunks(es: seq<Event>): seq<seq<Byte>> {
    if es == [] then []
    else (if es[0].what.ClientBytes? then [es[0].what.data] else []) + Chunks(es[1..])
  }

  /** The sniffer of a connection. */
  ghost function SniffOf(c: State): Sniff
    requires Coherent(Fresh())
  {
    PeekAll(Fresh(), c.flow.chunks)
  }

  lemma {:induction false} RunChunks(c: State, es: seq<Event>)
    requires IsRun(c, es)
    ensures Run(c, es).flow.chunks == c.flow.chunks + Chunks(es)
    decreases |es|
  {
    if es != [] {
      StepRecords(c, es[0]);
      RunChunks(Step(c, es[0]), es[1..]);
      ChunksCons(c.flow.chunks, es);
    }
  }

  lemma ChunksCons(before: seq<seq<Byte>>, es: seq<Event>)
    requires es != []
    ensures before + Chunks(es) ==
            (if es[0].what.ClientBytes? then before + [es[0].what.data] else before) + Chunks(es[1..])
  {
  }

  lemma ChunksOfRun(c: State, es: seq<Event>)
    requires IsConnRun(c, es)
    ensures Run(c, es).flow.chunks == Chunks(es)
  {
    RunChunks(c, es);
    assert [] + Chunks(es) == Chunks(es);
  }

  /** On every run: the first chunk that does not wait decides, as if it were the start of the stream. */
  lemma FirstDecidedOnEveryRun(c: State, es: seq<Event>, i: nat)
    requires IsConnRun(c, es) && FirstDecided(Chunks(es), i)
    ensures Coherent(Fresh()) && SameVerdict(SniffOf(Run(c, es)), Peek(Fresh(), Chunks(es)[i]))
  {
    ChunksOfRun(c, es);
    VerdictOfChunks(Chunks(es), i);
  }

  /** On every run: exactly when a name is found. */
  lemma NameOnEveryRunIff(c: State, es: seq<Event>, name: seq<Byte>)
    requires IsConnRun(c, es)
    ensures Coherent(Fresh())
    ensures var s := SniffOf(Run(c, es));
            s.status == Parsed && CString(s.sni) == name <==> FoundIn(Chunks(es), name)
  {
    ChunksOfRun(c, es);
    NameIsFoundIff(Chunks(es), name);
  }

  // ---- What the verdicts mean --------------------------------------------------------------------

  /** What the grammar says of a buffer. */
  ghost predicate Says(seen: seq<Byte>, status: Status) {
    match status
    case NeedMore => Incomplete(seen)
    case Parsed => exists name :: Grammar.Carries(seen, name) && IsValidName(name)
    case Missing => Grammar.Lacks(seen)
    case NotTls => Grammar.OtherProtocol(seen)
    case NameTooLong => exists name :: Grammar.Carries(seen, name) && |name| > 253
    case ParseError =>
      && !Incomplete(seen) && !Grammar.OtherProtocol(seen) && !Grammar.Lacks(seen)
      && forall name :: Grammar.Carries(seen, name) ==> |name| <= 253 && !IsValidName(name)
    case _ => false
  }

  /** The status of the first bytes of an input: what the grammar says of them, except that 8192
      incomplete bytes are not waited on any longer. */
  ghost predicate Deserves(input: seq<Byte>, status: Status) {
    match status
    case NeedMore => Says(Window(input), NeedMore) && |input| < 8192
    case Truncated => Says(Window(input), NeedMore) && |input| >= 8192
    case _ => Says(Window(input), status)
  }

  lemma ParsedDeserved(seen: seq<Byte>)
    ensures Parse(seen, SNI_BUFFER).status == Parsed <==> exists name :: Grammar.Carries(seen, name) && IsValidName(name)
  {
    var o := Parse(seen, SNI_BUFFER);
    if o.status == Parsed {
      assert o == Outcome(Parsed, o.name);
      Grammar.ParsedIff(seen, o.name, SNI_BUFFER);
    }
    if name :| Grammar.Carries(seen, name) && IsValidName(name) {
      Grammar.ParsedIff(seen, name, SNI_BUFFER);
    }
  }

  lemma NameTooLongDeserved(seen: seq<Byte>)
    ensures Parse(seen, SNI_BUFFER).status == NameTooLong <==> exists name :: Grammar.Carries(seen, name) && |name| > 253
  {
    Grammar.NameTooLongIff(seen, SNI_BUFFER);
  }

  lemma ParseSays(seen: seq<Byte>, status: Status)
    ensures Parse(seen, SNI_BUFFER).status == status <==> Says(seen, status)
  {
    match status {
      case Parsed => ParsedDeserved(seen);
      case Missing => Grammar.MissingIff(seen, SNI_BUFFER);
      case NotTls => Grammar.NotTlsIff(seen, SNI_BUFFER);
      case NameTooLong => NameTooLongDeserved(seen);
      case ParseError => Grammar.ParseErrorIff(seen, SNI_BUFFER);
      case _ =>
    }
  }

  /** The status that one peek records for an input is the one it deserves, and no other. */
  lemma PeekStatusIff(input: seq<Byte>, status: Status)
    requires input != []
    ensures Coherent(Fresh())
    ensures Peek(Fresh(), input).status == status <==> Deserves(input, status)
    ensures Peek(Fresh(), input).observed == if |input| < 8192 then |input| else 8192
  {
    ParseSays(Window(input), status);
    ParseSays(Window(input), NeedMore);
  }

  /** On every run the recorded status is the one that the deciding chunk deserves. */
  lemma StatusOnEveryRunIff(c: State, es: seq<Event>, i: nat, status: Status)
    requires IsConnRun(c, es) && FirstDecided(Chunks(es), i)
    ensures Coherent(Fresh())
    ensures SniffOf(Run(c, es)).status == status <==> Deserves(Chunks(es)[i], status)
  {
    FirstDecidedOnEveryRun(c, es, i);
    PeekStatusIff(Chunks(es)[i], status);
  }

  /** ... and the log says so: it shows a placeholder exactly if the deciding chunk deserves it. */
  lemma LogOnEveryRunIff(c: State, es: seq<Event>, i: nat, status: Status)
    requires IsConnRun(c, es) && FirstDecided(Chunks(es), i) && status != Parsed
    ensures Coherent(Fresh())
    ensures LogSni(SniffOf(Run(c, es))) == Text(Placeholder(status)) <==> Deserves(Chunks(es)[i], status)
  {
    StatusOnEveryRunIff(c, es, i, status);
    LogShowsPlaceholderIff(SniffOf(Run(c, es)), status);
  }

  /** While no chunk decides, the status says whether any byte has come. */
  lemma UndecidedOnEveryRun(c: State, es: seq<Event>)
    requires IsConnRun(c, es) && forall j :: 0 <= j < |Chunks(es)| ==> Waits(Chunks(es)[j])
    ensures Coherent(Fresh())
    ensures SniffOf(Run(c, es)).status == if Chunks(es) == [] then NotObserved else NeedMore
  {
    ChunksOfRun(c, es);
    ChunksAreInput(c, es);
    WaitingStatus(Fresh(), Chunks(es));
  }

  lemma {:induction false} ChunksAreInput(c: State, es: seq<Event>)
    requires IsRun(c, es)
    ensures forall j :: 0 <= j < |Chunks(es)| ==> Chunks(es)[j] != []
    decreases |es|
  {
    if es != [] {
      ChunksAreInput(Step(c, es[0]), es[1..]);
    }
  }

  lemma {:induction false} WaitingStatus(s: Sniff, chunks: seq<seq<Byte>>)
    requires Coherent(s) && !s.done && forall j :: 0 <= j < |chunks| ==> Waits(chunks[j]) && chunks[j] != []
    ensures PeekAll(s, chunks).status == if chunks == [] then s.status else NeedMore
    decreases |chunks|
  {
    if chunks != [] {
      PeekKeepsCoherent(s, chunks[0]);
      WaitingPeek(s, chunks[0]);
      assert forall j :: 0 <= j < |chunks[1..]| ==> chunks[1..][j] == chunks[j + 1];
      WaitingStatus(Peek(s, chunks[0]), chunks[1..]);
    }
  }

  // ---- A stream that begins with a hello ---------------------------------------------------------

  lemma {:induction false} FirstChunkIsPrefix(c: State, es: seq<Event>)
    requires IsRun(c, es)
    ensures if Chunks(es) == [] then Sent(es, true) == [] else Chunks(es)[0] != [] && Chunks(es)[0] <= Sent(es, true)
    decreases |es|
  {
    if es != [] {
      FirstChunkIsPrefix(Step(c, es[0]), es[1..]);
      if !es[0].what.ClientBytes? {
        assert Sent(es, true) == Sent(es[1..], true) && Chunks(es) == Chunks(es[1..]);
      } else {
        assert Chunks(es)[0] == es[0].what.data;
      }
    }
  }

  lemma Comparable(a: seq<Byte>, b: seq<Byte>, s: seq<Byte>)
    requires a <= s && b <= s
    ensures a <= b || b <= a
  {
    assert a == s[..|a|] && b == s[..|b|];
    if |a| <= |b| {
      assert a == b[..|a|];
    } else {
      assert b == a[..|b|];
    }
  }

  /** The first chunk decides, or else the first of the others that does. */
  lemma FirstDecidedSplits(chunks: seq<seq<Byte>>, i: nat)
    requires chunks != []
    ensures FirstDecided(chunks, i) <==>
            (if i == 0 then !Waits(chunks[0]) else Waits(chunks[0]) && FirstDecided(chunks[1..], i - 1))
  {
    var rest := chunks[1..];
    assert forall j :: 0 <= j < |rest| ==> rest[j] == chunks[j + 1];
    if i > 0 && Waits(chunks[0]) && FirstDecided(rest, i - 1) {
      forall j | 0 <= j < i ensures Waits(chunks[j]) {
        assert j > 0 ==> Waits(rest[j - 1]);
      }
    }
  }

  /** If the client's stream begins with a hello whose name one peek would find, then on any run the
      name is found if the first callback got the whole record; otherwise the first callback's bytes
      are forgotten, and a name is found exactly if the first deciding one of the later chunks carries
      it by itself. */
  lemma SplitHelloIsMissed(c: State, es: seq<Event>, b: seq<Byte>, name: seq<Byte>, found: seq<Byte>)
    requires IsConnRun(c, es) && b <= Sent(es, true)
    requires |b| <= SNIFF_MAX && Parse(b, SNI_MAX + 1) == Outcome(Parsed, name)
    ensures Coherent(Fresh()) && Peek(Fresh(), b).status == Parsed && Chunks(es) != []
    ensures var s := SniffOf(Run(c, es));
            s.status == Parsed && CString(s.sni) == found <==>
            if |Chunks(es)[0]| >= RecordEnd(b) then found == name else FoundIn(Chunks(es)[1..], found)
  {
    FirstChunkIsPrefix(c, es);
    var chunks := Chunks(es);
    Comparable(chunks[0], b, Sent(es, true));
    PrefixWaitsIff(b, chunks[0], name);
    NameOnEveryRunIff(c, es, found);
    ShiftDecided(chunks, found);
  }

  lemma ShiftDecided(chunks: seq<seq<Byte>>, found: seq<Byte>)
    requires chunks != []
    ensures FoundIn(chunks, found) <==>
            if Waits(chunks[0]) then FoundIn(chunks[1..], found)
            else Parse(Window(chunks[0]), SNI_MAX + 1) == Outcome(Parsed, found)
  {
    var rest := chunks[1..];
    if i: nat :| FirstDecided(chunks, i) && Parse(Window(chunks[i]), SNI_MAX + 1) == Outcome(Parsed, found) {
      FirstDecidedSplits(chunks, i);
      assert i > 0 ==> rest[i - 1] == chunks[i];
    }
    if !Waits(chunks[0]) {
      assert FirstDecided(chunks, 0);
    } else if i: nat :| FirstDecided(rest, i) && Parse(Window(rest[i]), SNI_MAX + 1) == Outcome(Parsed, found) {
      FirstDecidedSplits(chunks, i + 1);
      assert chunks[i + 1] == rest[i];
    }
  }

  // ---- A run on which the name is missed ---------------------------------------------------------

  /** The client sends its first byte, and then the rest. */
  ghost function SplitRun(b: seq<Byte>): seq<Event>
    requires b != []
  {
    [Event(0, UpstreamEvent(Flags(true, false, false, false), true)), Event(0, ClientBytes(b[..1])), Event(0, ClientBytes(b[1..]))]
  }

  lemma SplitRunIsRun(b: seq<Byte>)
    requires 1 < |b| <= SNIFF_MAX
    ensures IsConnRun(Adopt([], 60, 0), SplitRun(b)) && Chunks(SplitRun(b)) == [b[..1], b[1..]] && Sent(SplitRun(b), true) == b
  {
    var es := SplitRun(b);
    var c0 := Adopt([], 60, 0);
    var c1 := Step(c0, es[0]);
    var c2 := Step(c1, es[1]);
    assert Enabled(c2, es[2]);
    var tail, last := es[1..], es[2..];
    assert tail[1..] == last && last[1..] == [];
    assert IsRun(Step(c2, es[2]), []) && IsRun(c2, last) && IsRun(c1, tail) && IsRun(c0, es);
    assert Chunks([]) == [] && Sent([], true) == [];
    assert Chunks(last) == [b[1..]] + Chunks(last[1..]);
    assert Chunks(tail) == [b[..1]] + Chunks(last);
    assert Chunks(es) == [] + Chunks(tail) == Chunks(tail);
    assert Sent(last, true) == b[1..] + Sent(last[1..], true) == b[1..];
    assert Sent(tail, true) == b[..1] + Sent(last, true);
    assert Sent(es, true) == [] + Sent(tail, true) == Sent(tail, true);
    assert b == b[..1] + b[1..];
  }

  /** Any hello at all is missed on that run: the second chunk is taken for another protocol. */
  lemma SplitRunMisses(b: seq<Byte>, name: seq<Byte>)
    requires |b| <= SNIFF_MAX && Parse(b, SNI_MAX + 1) == Outcome(Parsed, name)
    ensures Coherent(Fresh()) && Peek(Fresh(), b).status == Parsed
    ensures IsConnRun(Adopt([], 60, 0), SplitRun(b)) && Sent(SplitRun(b), true) == b
    ensures SniffOf(Run(Adopt([], 60, 0), SplitRun(b))).status == NotTls
  {
    SplitRunIsRun(b);
    var chunks := Chunks(SplitRun(b));
    assert b[1..][0] == b[1] == 0x03;
    assert b[..1][0] == 0x16;
    assert FirstDecided(chunks, 1);
    FirstDecidedOnEveryRun(Adopt([], 60, 0), SplitRun(b), 1);
  }

  /** Such a hello: no session id, one cipher suite, and a server_name extension that says "a". */
  lemma SplitHelloWitness() returns (b: seq<Byte>)
    ensures Coherent(Fresh()) && b != [] && Peek(Fresh(), b).status == Parsed
    ensures IsConnRun(Adopt([], 60, 0), SplitRun(b)) && Sent(SplitRun(b), true) == b
    ensures SniffOf(Run(Adopt([], 60, 0), SplitRun(b))).status == NotTls
  {
    var name: seq<Byte> := ['a' as int];
    var list := Grammar.NamesBytes([]) + (Grammar.NameBytes(Grammar.Name(0, name)) + []);
    var x := Grammar.ExtensionsBytes([]) +
             (Grammar.ExtensionBytes(Grammar.Extension(0, U16(|list|) + list)) + Grammar.ExtensionsBytes([]));
    var h := Grammar.Hello(Zeros(34), [], [0x13, 0x01], [0], Some(x));
    Grammar.HelloRoundTrip(1, h, [], [], name, [], []);
    b := Grammar.RecordBytes(1, Grammar.HelloBytes(h), []);
    SplitRunMisses(b, name);
  }
}
