/** What holds of every run of a stream connection, from its adoption on. */
module StreamRuns {
  import opened Bytes
  import opened StreamConn

  /** A run of a connection that was adopted with this header. */
  ghost predicate IsConnRun(c: State, es: seq<Event>) {
    && |c.flow.header| < HIGH_WATER
    && c == Adopt(c.flow.header, c.idleTimeout, c.now)
    && IsRun(c, es)
  }

  lemma Reachable(c: State, es: seq<Event>)
    requires IsConnRun(c, es)
    ensures Exact(Run(c, es).flow) && Inv(Run(c, es)) && Run(c, es).flow.header == c.flow.header
  {
    AdoptEstablishes(c.flow.header, c.idleTimeout, c.now);
    RunKeepsInv(c, es);
  }

  // ---- Bytes -----------------------------------------------------------------------------------

  /** In every reachable state, freed or not, each peer has received a prefix of what the other
      sent, after the header, and what is missing is in the output buffer. */
  lemma ExactOnEveryRun(c: State, es: seq<Event>)
    requires IsConnRun(c, es)
    ensures var f := Run(c, es).flow;
            && c.flow.header + f.fromClient == f.toUpstream + f.upstreamOut
            && f.fromUpstream == f.toClient + f.clientOut
            && f.toUpstream <= c.flow.header + f.fromClient
            && f.toClient <= f.fromUpstream
  {
    Reachable(c, es);
  }

  /** The same, told by the events alone: what either peer receives over a whole run is a prefix of
      the header and the bytes that the read events of the other side delivered. */
  lemma PeersSeePrefixes(c: State, es: seq<Event>)
    requires IsConnRun(c, es)
    ensures Run(c, es).flow.toUpstream <= c.flow.header + Sent(es, true)
    ensures Run(c, es).flow.toClient <= Sent(es, false)
  {
    ExactOnEveryRun(c, es);
    RunReceives(c, es);
    assert [] + Sent(es, true) == Sent(es, true) && [] + Sent(es, false) == Sent(es, false);
  }

  ghost function Delivered(e: Event, byClient: bool): seq<Byte> {
    if byClient && e.what.ClientBytes? then e.what.data
    else if !byClient && e.what.UpstreamBytes? then e.what.data
    else []
  }

  ghost function Sent(es: seq<Event>, byClient: bool): seq<Byte> {
    if es == [] then [] else Delivered(es[0], byClient) + Sent(es[1..], byClient)
  }

  ghost function Join(chunks: seq<seq<Byte>>): seq<Byte> {
    if chunks == [] then [] else Join(chunks[..|chunks| - 1]) + chunks[|chunks| - 1]
  }

  lemma StepRecords(c: State, e: Event)
    requires Enabled(c, e)
    ensures var f := Step(c, e).flow;
            match e.what
            case ClientBytes(d) => f.fromClient == c.flow.fromClient + d && f.chunks == c.flow.chunks + [d] &&
                                   f.fromUpstream == c.flow.fromUpstream
            case UpstreamBytes(d) => f.fromUpstream == c.flow.fromUpstream + d &&
                                     f.fromClient == c.flow.fromClient && f.chunks == c.flow.chunks
            case _ => f.fromClient == c.flow.fromClient && f.fromUpstream == c.flow.fromUpstream &&
                      f.chunks == c.flow.chunks
  {
    match e.what {
      case ClientBytes(_) =>
      case UpstreamBytes(_) =>
      case ClientTakes(_) =>
      case UpstreamTakes(_) =>
      case _ => assert Step(c, e).flow == Arrive(c, e).flow;
    }
  }

  lemma StepReceives(c: State, e: Event)
    requires Enabled(c, e)
    ensures Step(c, e).flow.fromClient == c.flow.fromClient + Delivered(e, true)
    ensures Step(c, e).flow.fromUpstream == c.flow.fromUpstream + Delivered(e, false)
  {
    StepRecords(c, e);
    assert c.flow.fromClient + [] == c.flow.fromClient && c.flow.fromUpstream + [] == c.flow.fromUpstream;
  }

  /** The history fields are what the sockets delivered, in order. */
  lemma {:induction false} RunReceives(c: State, es: seq<Event>)
    requires IsRun(c, es)
    ensures Run(c, es).flow.fromClient == c.flow.fromClient + Sent(es, true)
    ensures Run(c, es).flow.fromUpstream == c.flow.fromUpstream + Sent(es, false)
    decreases |es|
  {
    if es != [] {
      var c1, rest := Step(c, es[0]), es[1..];
      StepReceives(c, es[0]);
      RunReceives(c1, rest);
      Append(c.flow.fromClient, Delivered(es[0], true), Sent(rest, true));
      Append(c.flow.fromUpstream, Delivered(es[0], false), Sent(rest, false));
    } else {
      assert c.flow.fromClient + [] == c.flow.fromClient && c.flow.fromUpstream + [] == c.flow.fromUpstream;
    }
  }

  lemma Append(a: seq<Byte>, b: seq<Byte>, c: seq<Byte>)
    ensures (a + b) + c == a + (b + c)
  {
  }

  lemma {:induction false} RunRecordsChunks(c: State, es: seq<Event>)
    requires IsRun(c, es) && c.flow.fromClient == Join(c.flow.chunks)
    ensures Run(c, es).flow.fromClient == Join(Run(c, es).flow.chunks)
    decreases |es|
  {
    if es != [] {
      var c1 := Step(c, es[0]);
      StepRecords(c, es[0]);
      if es[0].what.ClientBytes? {
        assert c1.flow.chunks[..|c1.flow.chunks| - 1] == c.flow.chunks;
      }
      RunRecordsChunks(c1, es[1..]);
    }
  }

  // ---- Memory ----------------------------------------------------------------------------------

  lemma BoundedOnEveryRun(c: State, es: seq<Event>)
    requires IsConnRun(c, es) && Run(c, es).live
    ensures var d := Run(c, es);
            && |d.flow.clientOut| < HIGH_WATER + CHUNK
            && (d.upstream.read ==> |d.flow.clientOut| < HIGH_WATER)
            && |d.flow.upstreamOut| < HIGH_WATER + CHUNK + Slack(d.finishes)
            && (d.client.read ==> |d.flow.upstreamOut| < HIGH_WATER + Slack(d.finishes))
            && (!Closing(d) ==> d.finishes == 0)
  {
    Reachable(c, es);
  }

  /** Half-closing is done at most twice: once by the end of the upstream side or the drain that it
      starts, and once more because a later write callback may have re-enabled upstream reading. */
  ghost predicate FinishedTwice(c: State) {
    c.live ==>
      && (Closing(c) ==> !c.upstream.write)
      && (c.clientShut ==> c.closeAfterClientEof && !c.closeClientAfterDrain && !c.client.write)
      && (c.closeClientAfterDrain ==> c.finishes == 0)
      && c.finishes + (if c.clientShut && c.upstream.read then 1 else 0) <= 2
  }

  lemma WriteFinishesTwice(c: State, e: Event)
    requires Inv(c) && FinishedTwice(c) && Enabled(c, e)
    requires e.what.ClientTakes? || e.what.UpstreamTakes? || e.what.ClientWritable? || e.what.UpstreamWritable?
    ensures FinishedTwice(Step(c, e))
  {
  }

  lemma UpstreamEventFinishesTwice(c: State, e: Event)
    requires Inv(c) && FinishedTwice(c) && Enabled(c, e) && e.what.UpstreamEvent?
    ensures FinishedTwice(Step(c, e))
  {
  }

  lemma StepFinishesTwice(c: State, e: Event)
    requires Inv(c) && FinishedTwice(c) && Enabled(c, e)
    ensures FinishedTwice(Step(c, e))
  {
    if e.what.UpstreamEvent? {
      UpstreamEventFinishesTwice(c, e);
    } else if e.what.ClientTakes? || e.what.UpstreamTakes? || e.what.ClientWritable? || e.what.UpstreamWritable? {
      WriteFinishesTwice(c, e);
    }
  }

  lemma {:induction false} RunFinishesTwice(c: State, es: seq<Event>)
    requires Inv(c) && FinishedTwice(c) && IsRun(c, es)
    ensures FinishedTwice(Run(c, es))
    decreases |es|
  {
    if es != [] {
      StepKeepsInv(c, es[0]);
      StepFinishesTwice(c, es[0]);
      RunFinishesTwice(Step(c, es[0]), es[1..]);
    }
  }

  /** Whatever the order of callbacks, six chunks of 128 KiB, 768 KiB in all, are enough for any connection. */
  lemma MemoryOfAConnection(c: State, es: seq<Event>)
    requires IsConnRun(c, es) && Run(c, es).live
    ensures var d := Run(c, es); d.finishes <= 2 && |d.flow.clientOut| + |d.flow.upstreamOut| < 0xC_0000
  {
    AdoptEstablishes(c.flow.header, c.idleTimeout, c.now);
    Reachable(c, es);
    RunFinishesTwice(c, es);
  }

  // ---- How often the write side is shut down ---------------------------------------------------

  /** While closing, upstream reading is re-enabled by one thing only: a client write callback that
      finds output which is not yet drained but below the resume mark. */
  lemma ReenabledIff(c: State, e: Event)
    requires c.live && Closing(c) && Inv(c) && FinishedTwice(c) && !c.upstream.read && Enabled(c, e)
    ensures Step(c, e).upstream.read <==> e.what.ClientWritable? && 0 < |c.flow.clientOut| < RESUME_WATER
  {
  }

  /** After one half-close, a second one is an end of file reported by a side that reads again. */
  lemma SecondIff(c: State, e: Event)
    requires c.live && Inv(c) && FinishedTwice(c) && c.finishes == 1 && Enabled(c, e)
    ensures Step(c, e).finishes == 2 <==>
            c.upstream.read && e.what.UpstreamEvent? && e.what.flags.eof && !e.what.flags.timeout && !e.what.flags.error
  {
  }

  /** During the drain no write callback finds a little output.  With libevent's default low-water
      mark of zero, which the code leaves alone, write callbacks find none at all. */
  ghost predicate QuietDrain(c: State, es: seq<Event>)
    requires IsRun(c, es)
    decreases |es|
  {
    es == [] ||
    ((es[0].what.ClientWritable? && c.closeClientAfterDrain ==> |c.flow.clientOut| >= RESUME_WATER) &&
     QuietDrain(Step(c, es[0]), es[1..]))
  }

  ghost predicate FinishedOnce(c: State) {
    c.live ==>
      && (Closing(c) ==> !c.upstream.read && !c.upstream.write)
      && (if c.clientShut then c.finishes == 1 && c.closeAfterClientEof else c.finishes == 0)
  }

  lemma StepFinishesOnce(c: State, e: Event)
    requires Inv(c) && FinishedTwice(c) && FinishedOnce(c) && Enabled(c, e)
    requires e.what.ClientWritable? && c.closeClientAfterDrain ==> |c.flow.clientOut| >= RESUME_WATER
    ensures FinishedOnce(Step(c, e))
  {
    if Closing(c) && c.live {
      ReenabledIff(c, e);
    }
  }

  lemma {:induction false} RunFinishesOnce(c: State, es: seq<Event>)
    requires Inv(c) && FinishedTwice(c) && FinishedOnce(c) && IsRun(c, es) && QuietDrain(c, es)
    ensures FinishedOnce(Run(c, es))
    decreases |es|
  {
    if es != [] {
      StepKeepsInv(c, es[0]);
      StepFinishesTwice(c, es[0]);
      StepFinishesOnce(c, es[0]);
      RunFinishesOnce(Step(c, es[0]), es[1..]);
    }
  }

  /** Without such a callback the write side is shut down at most once, and upstream reading stays
      off while the connection closes. */
  lemma HalfClosedOnce(c: State, es: seq<Event>)
    requires IsConnRun(c, es) && QuietDrain(c, es) && Run(c, es).live
    ensures var d := Run(c, es); d.finishes <= 1 && (Closing(d) ==> !d.upstream.read && !d.upstream.write)
  {
    AdoptEstablishes(c.flow.header, c.idleTimeout, c.now);
    RunFinishesOnce(c, es);
  }

  lemma {:induction false} RunOn(c: State, es: seq<Event>, more: seq<Event>)
    requires IsRun(c, es) && IsRun(Run(c, es), more)
    ensures IsRun(c, es + more) && Run(c, es + more) == Run(Run(c, es), more)
    decreases |es|
  {
    if es == [] {
      assert es + more == more;
    } else {
      assert (es + more)[1..] == es[1..] + more;
      RunOn(Step(c, es[0]), es[1..], more);
    }
  }

  lemma RunOne(c: State, e: Event)
    requires Enabled(c, e)
    ensures IsRun(c, [e]) && Run(c, [e]) == Step(c, e)
  {
  }

  lemma RunThree(c: State, e: Event, f: Event, g: Event)
    requires Enabled(c, e) && Enabled(Step(c, e), f) && Enabled(Step(Step(c, e), f), g)
    ensures IsRun(c, [e, f, g]) && Run(c, [e, f, g]) == Step(Step(Step(c, e), f), g)
  {
    RunOne(c, e);
    RunOne(Step(c, e), f);
    RunOne(Step(Step(c, e), f), g);
    RunOn(c, [e], [f]);
    RunOn(c, [e] + [f], [g]);
    assert [e] + [f] + [g] == [e, f, g];
  }

  const EOF := Flags(false, false, false, true)

  /** A connection that drains one byte to its client. */
  ghost predicate DrainsOne(d: State) {
    && d.live && d.now == 0 && d.upstreamConnected && d.closeClientAfterDrain && d.client.write
    && |d.flow.clientOut| == 1 && d.finishes == 0
  }

  lemma DrainStarts() returns (es: seq<Event>)
    ensures IsConnRun(Adopt([], 60, 0), es) && DrainsOne(Run(Adopt([], 60, 0), es))
  {
    var c := Adopt([], 60, 0);
    var e, f := Event(0, UpstreamEvent(Flags(true, false, false, false), true)), Event(0, UpstreamBytes([7]));
    var g := Event(0, UpstreamEvent(EOF, true));
    RunThree(c, e, f, g);
    es := [e, f, g];
  }

  lemma SecondHalfClose(d: State)
    requires DrainsOne(d)
    ensures var es := [Event(0, ClientWritable), Event(0, ClientTakes(1)), Event(0, UpstreamEvent(EOF, true))];
            IsRun(d, es) && Run(d, es).live && Run(d, es).finishes == 2
  {
    RunThree(d, Event(0, ClientWritable), Event(0, ClientTakes(1)), Event(0, UpstreamEvent(EOF, true)));
  }

  /** The bound of two is the best for an environment that makes such a callback: it re-enables
      upstream reading, and the end of file is reported again. */
  lemma HalfCloseCanRepeat() returns (es: seq<Event>)
    ensures IsConnRun(Adopt([], 60, 0), es) && Run(Adopt([], 60, 0), es).live && Run(Adopt([], 60, 0), es).finishes == 2
  {
    var first := DrainStarts();
    SecondHalfClose(Run(Adopt([], 60, 0), first));
    var second := [Event(0, ClientWritable), Event(0, ClientTakes(1)), Event(0, UpstreamEvent(EOF, true))];
    RunOn(Adopt([], 60, 0), first, second);
    es := first + second;
  }

  // ---- Progress --------------------------------------------------------------------------------

  lemma NeverWedged(c: State, es: seq<Event>)
    requires IsConnRun(c, es)
    requires var d := Run(c, es); d.live && d.upstreamConnected && !Closing(d)
    ensures var d := Run(c, es);
            && (!d.client.read ==> d.flow.upstreamOut != [] && d.upstream.write)
            && (!d.upstream.read ==> d.flow.clientOut != [] && d.client.write)
  {
    Reachable(c, es);
  }

  function Portion(out: seq<Byte>): nat {
    if |out| < CHUNK then |out| else CHUNK
  }

  /** The kernel taking all of the client output, one portion after the other. */
  ghost function EmptyClient(d: State): (es: seq<Event>)
    requires Inv(d) && d.live && (d.flow.clientOut != [] ==> d.client.write)
    ensures IsRun(d, es)
    decreases |d.flow.clientOut|
  {
    if d.flow.clientOut == [] then []
    else
      var e := Event(d.now, ClientTakes(Portion(d.flow.clientOut)));
      StepKeepsInv(d, e);
      [e] + EmptyClient(Step(d, e))
  }

  ghost function EmptyUpstream(d: State): (es: seq<Event>)
    requires Inv(d) && d.live && d.upstreamConnected && d.upstream.write
    ensures IsRun(d, es)
    decreases |d.flow.upstreamOut|
  {
    if d.flow.upstreamOut == [] then []
    else
      var e := Event(d.now, UpstreamTakes(Portion(d.flow.upstreamOut)));
      StepKeepsInv(d, e);
      [e] + EmptyUpstream(Step(d, e))
  }

  /** A paused upstream resumes as soon as the kernel has taken the client output; a connection
      that is waiting to close shuts the client's write side down at that point. */
  lemma {:induction false} EmptyClientResumes(d: State)
    requires Inv(d) && d.live && d.flow.clientOut != [] && d.client.write
    ensures var d' := Run(d, EmptyClient(d));
            && d'.live && d'.flow.clientOut == []
            && (d.closeClientAfterDrain ==> d'.clientShut)
            && (!Closing(d) ==> d'.upstream.read)
    decreases |d.flow.clientOut|
  {
    var e := Event(d.now, ClientTakes(Portion(d.flow.clientOut)));
    StepKeepsInv(d, e);
    var d1 := Step(d, e);
    assert Run(d, EmptyClient(d)) == Run(d1, EmptyClient(d1));
    if d1.flow.clientOut != [] {
      EmptyClientResumes(d1);
    }
  }

  lemma {:induction false} EmptyUpstreamResumes(d: State)
    requires Inv(d) && d.live && d.upstreamConnected && d.upstream.write && d.flow.upstreamOut != []
    ensures var d' := Run(d, EmptyUpstream(d)); d'.live && d'.flow.upstreamOut == [] && d'.client.read
    decreases |d.flow.upstreamOut|
  {
    var e := Event(d.now, UpstreamTakes(Portion(d.flow.upstreamOut)));
    StepKeepsInv(d, e);
    var d1 := Step(d, e);
    assert Run(d, EmptyUpstream(d)) == Run(d1, EmptyUpstream(d1));
    if d1.flow.upstreamOut != [] {
      EmptyUpstreamResumes(d1);
    }
  }

  // ---- Half-close ------------------------------------------------------------------------------

  /** Whatever the order of end of file, error and write callbacks: once the client's write side is
      shut down, the client has been handed every byte that was ever read from the upstream side,
      and none will follow. */
  lemma DrainBeforeHalfClose(c: State, es: seq<Event>)
    requires IsConnRun(c, es) && Run(c, es).clientShut
    ensures var d := Run(c, es); d.flow.toClient == d.flow.fromUpstream && d.upstreamEnded
  {
    Reachable(c, es);
  }

  /** An upstream end of file is never forgotten: the connection is still draining, with the
      client's writes on, or the write side is shut down, or the connection is freed. */
  lemma EndIsFollowedByHalfClose(c: State, es: seq<Event>)
    requires IsConnRun(c, es) && Run(c, es).live && Closing(Run(c, es))
    ensures var d := Run(c, es);
            d.clientShut || (d.closeClientAfterDrain && d.flow.clientOut != [] && d.client.write)
  {
    Reachable(c, es);
  }
}
