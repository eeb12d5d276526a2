/**
 conn_t and its callbacks as the code performs them: flags, sequence counters and buffers of one
 object updated in place.  For every kind of event there is a method that lets it happen to the
 object, what libevent and the kernel do first and the callback after it, and that keeps `Valid`;
 `Serve` lets a whole run happen, so what is proved of runs holds of the object's own fields.
 */
module StreamConnection {
  import opened Bytes
  import opened StreamConn
  import opened StreamRuns
  import SniffPeek
  import SniffRuns

  class Connection {
    var live: bool
    var upstreamConnected: bool
    var closeAfterClientEof: bool
    var closeClientAfterDrain: bool
    var clientReads: bool
    var clientWrites: bool
    var upstreamReads: bool
    var upstreamWrites: bool
    var clientInput: seq<Byte>
    var clientOutput: seq<Byte>
    var upstreamInput: seq<Byte>
    var upstreamOutput: seq<Byte>
    var clientShut: bool
    const idleTimeout: int
    const sniSniff: bool
    const sniff: SniffPeek.StreamSniff
    var timerPending: bool
    var timerDue: int
    var activitySeq: nat
    var idleCheckSeq: nat

    ghost var past: State              // carries the history fields

    ghost function View(): State
      reads this
    {
      past.(live := live, upstreamConnected := upstreamConnected,
            closeAfterClientEof := closeAfterClientEof, closeClientAfterDrain := closeClientAfterDrain,
            client := Enables(clientReads, clientWrites), upstream := Enables(upstreamReads, upstreamWrites),
            flow := past.flow.(clientOut := clientOutput, upstreamOut := upstreamOutput),
            clientShut := clientShut, idleTimeout := idleTimeout,
            idle := past.idle.(armed := timerPending, due := timerDue, activitySeq := activitySeq, checkSeq := idleCheckSeq))
    }

    /** What holds between two events: the inputs have been moved on, no byte is lost, duplicated or
        out of order, and bounds, phases, progress and drain conditions hold. */
    ghost predicate Valid()
      reads this
    {
      clientInput == [] && upstreamInput == [] && Exact(View().flow) && Inv(View())
    }

    /** The sniffer has looked, if it is asked to, at the input of each client read callback. */
    ghost predicate Sniffed()
      reads this, sniff, sniff.sni
    {
      && sniff.sni.Length == SniffPeek.SNI_BUFFER
      && SniffPeek.Coherent(SniffPeek.Fresh())
      && sniff.View() == if sniSniff then SniffRuns.SniffOf(View()) else SniffPeek.Fresh()
    }

    /** worker_adopt_client_fd: the header is queued before any client byte can be read. */
    constructor (header: seq<Byte>, idleTimeout: int, sniSniff: bool, ghost now: int)
      ensures View() == Adopt(header, idleTimeout, now) && this.sniSniff == sniSniff
      ensures |header| < HIGH_WATER ==> Valid()
      ensures Sniffed() && fresh(sniff) && fresh(sniff.sni)
    {
      live, upstreamConnected, closeAfterClientEof, closeClientAfterDrain := true, false, false, false;
      activitySeq, idleCheckSeq := 1, 1;
      clientInput, clientOutput, upstreamInput := [], [], [];
      clientWrites, upstreamWrites := true, true;
      clientReads := false;
      upstreamOutput := header;
      upstreamReads := true;
      clientShut, timerPending, timerDue := false, false, 0;
      this.idleTimeout, this.sniSniff := idleTimeout, sniSniff;
      sniff := new SniffPeek.StreamSniff();
      past := Adopt(header, idleTimeout, now);
    }

    method FreeThis()
      modifies this
      ensures View() == FreeConn(old(View()))
      ensures clientInput == old(clientInput) && upstreamInput == old(upstreamInput)
    {
      timerPending := false;
      live := false;
    }

    method TouchThis(ghost now: int)
      modifies this`activitySeq, this`past
      ensures View() == old(View()).(idle := Touch(old(View().idle), now))
    {
      activitySeq := (activitySeq + 1) % SEQ_MODULUS;
      past := past.(idle := past.idle.(touches := past.idle.touches + 1, lastRead := now));
    }

    method PipeClientRead(ghost now: int)
      requires sniff.sni.Length == SniffPeek.SNI_BUFFER
      modifies this, sniff, sniff.sni
      ensures View() == ClientReadCb(old(View()), old(clientInput), now)
      ensures clientInput == [] && upstreamInput == old(upstreamInput)
      ensures sniff.View() == if sniSniff then SniffPeek.Peek(old(sniff.View()), old(clientInput)) else old(sniff.View())
    {
      if sniSniff {
        sniff.PeekClientInput(clientInput);
      }
      MoveClientInput(now);
    }

    method MoveClientInput(ghost now: int)
      modifies this
      ensures View() == ClientReadCb(old(View()), old(clientInput), now)
      ensures clientInput == [] && upstreamInput == old(upstreamInput)
    {
      TouchThis(now);
      upstreamOutput := upstreamOutput + clientInput;
      clientInput := [];
      if |upstreamOutput| >= HIGH_WATER {
        clientReads := false;
      }
    }

    method PipeUpstreamRead(ghost now: int)
      modifies this
      ensures View() == UpstreamReadCb(old(View()), old(upstreamInput), now)
      ensures upstreamInput == [] && clientInput == old(clientInput)
    {
      TouchThis(now);
      clientOutput := clientOutput + upstreamInput;
      upstreamInput := [];
      if |clientOutput| >= HIGH_WATER {
        upstreamReads := false;
      }
    }

    method FinishWrite()
      modifies this
      ensures View() == FinishClientWrite(old(View()))
      ensures clientInput == old(clientInput) && upstreamInput == old(upstreamInput)
    {
      clientShut := true;
      clientWrites := false;
      clientReads := true;
      past := past.(finishes := past.finishes + 1);
    }

    method DrainThenClose()
      modifies this
      ensures View() == DrainClientThenClose(old(View()))
      ensures clientInput == old(clientInput) && upstreamInput == old(upstreamInput)
    {
      closeClientAfterDrain := true;
      upstreamReads, upstreamWrites := false, false;
      if |clientOutput| == 0 {
        FinishWrite();
        closeClientAfterDrain := false;
        closeAfterClientEof := true;
      }
    }

    method PipeClientWrite()
      modifies this
      ensures View() == ClientWriteCb(old(View()))
      ensures clientInput == old(clientInput) && upstreamInput == old(upstreamInput)
    {
      var outputLen := |clientOutput|;
      if closeClientAfterDrain && outputLen == 0 {
        FinishWrite();
        closeClientAfterDrain := false;
        closeAfterClientEof := true;
        return;
      }
      if outputLen < RESUME_WATER {
        upstreamReads := true;
      }
    }

    method PipeUpstreamWrite()
      modifies this
      ensures View() == UpstreamWriteCb(old(View()))
      ensures clientInput == old(clientInput) && upstreamInput == old(upstreamInput)
    {
      if |upstreamOutput| < RESUME_WATER {
        clientReads := true;
      }
    }

    method ScheduleTimer(now: int)
      modifies this`timerPending, this`timerDue, this`past
      ensures View() == old(View()).(idle := Schedule(old(View().idle), idleTimeout, now))
    {
      if idleTimeout <= 0 {
        return;
      }
      timerPending := true;
      timerDue := now + idleTimeout;
      past := past.(idle := past.idle.(armedAt := now, touches := 0));
    }

    /** conn_idle_timeout_cb; libevent has already taken the one-shot timer off its list. */
    method OnIdleTimer(now: int)
      modifies this
      ensures View() == IdleTimeoutCb(old(View()), now)
      ensures clientInput == old(clientInput) && upstreamInput == old(upstreamInput)
    {
      timerPending := false;
      if activitySeq != idleCheckSeq {
        idleCheckSeq := activitySeq;
        ScheduleTimer(now);
        return;
      }
      FreeThis();
    }

    method StartTimer(now: int, timerMade: bool)
      modifies this`activitySeq, this`idleCheckSeq, this`timerPending, this`timerDue, this`past
      ensures View() == old(View()).(idle := StartIdleTimer(old(View().idle), idleTimeout, now, timerMade))
    {
      if idleTimeout <= 0 {
        return;
      }
      activitySeq := 1;
      idleCheckSeq := activitySeq;
      if !timerMade {
        return;
      }
      ScheduleTimer(now);
    }

    method OnClientEvent(flags: Flags)
      modifies this
      ensures View() == ClientEventCb(old(View()), flags)
      ensures clientInput == old(clientInput) && upstreamInput == old(upstreamInput)
    {
      if flags.timeout {
        FreeThis();
      } else if flags.error {
        FreeThis();
      } else if flags.eof {
        FreeThis();
      }
    }

    method OnUpstreamEvent(flags: Flags, now: int, timerMade: bool)
      modifies this
      ensures View() == UpstreamEventCb(old(View()), flags, now, timerMade)
      ensures clientInput == old(clientInput) && upstreamInput == old(upstreamInput)
    {
      if flags.connected {
        upstreamConnected := true;
        StartTimer(now, timerMade);
        clientReads, clientWrites := true, true;
        return;
      }
      if flags.timeout {
        FreeThis();
        return;
      }
      if flags.error {
        if |clientOutput| > 0 {
          DrainThenClose();
          return;
        }
        FreeThis();
        return;
      }
      if flags.eof {
        DrainThenClose();
        return;
      }
      FreeThis();
    }

    // ---- The events ------------------------------------------------------------------------------

    method ClientBytesArrive(data: seq<Byte>, ghost at: int)
      requires Valid() && Sniffed() && Enabled(View(), Event(at, ClientBytes(data)))
      modifies this, sniff, sniff.sni
      ensures Valid() && View() == Step(old(View()), Event(at, ClientBytes(data)))
      ensures Sniffed()
    {
      ghost var v, e := View(), Event(at, ClientBytes(data));
      StepKeepsExact(v, e);
      StepKeepsInv(v, e);
      StepRecords(v, e);
      SniffPeek.PeekAllThenOne(SniffPeek.Fresh(), v.flow.chunks, data);
      clientInput := data;
      past := past.(now := at, flow := past.flow.(fromClient := past.flow.fromClient + data, chunks := past.flow.chunks + [data]));
      PipeClientRead(at);
    }

    method UpstreamBytesArrive(data: seq<Byte>, ghost at: int)
      requires Valid() && Enabled(View(), Event(at, UpstreamBytes(data)))
      modifies this
      ensures Valid() && View() == Step(old(View()), Event(at, UpstreamBytes(data)))
    {
      ghost var v, e := View(), Event(at, UpstreamBytes(data));
      StepKeepsExact(v, e);
      StepKeepsInv(v, e);
      upstreamInput := data;
      past := past.(now := at, flow := past.flow.(fromUpstream := past.flow.fromUpstream + data));
      PipeUpstreamRead(at);
    }

    method ClientTakesBytes(n: nat, ghost at: int)
      requires Valid() && Enabled(View(), Event(at, ClientTakes(n)))
      modifies this
      ensures Valid() && View() == Step(old(View()), Event(at, ClientTakes(n)))
    {
      ghost var v, e := View(), Event(at, ClientTakes(n));
      StepKeepsExact(v, e);
      StepKeepsInv(v, e);
      past := past.(now := at, flow := past.flow.(toClient := past.flow.toClient + clientOutput[..n]));
      clientOutput := clientOutput[n..];
      if |clientOutput| == 0 {
        PipeClientWrite();
      }
    }

    method UpstreamTakesBytes(n: nat, ghost at: int)
      requires Valid() && Enabled(View(), Event(at, UpstreamTakes(n)))
      modifies this
      ensures Valid() && View() == Step(old(View()), Event(at, UpstreamTakes(n)))
    {
      ghost var v, e := View(), Event(at, UpstreamTakes(n));
      StepKeepsExact(v, e);
      StepKeepsInv(v, e);
      past := past.(now := at, flow := past.flow.(toUpstream := past.flow.toUpstream + upstreamOutput[..n]));
      upstreamOutput := upstreamOutput[n..];
      if |upstreamOutput| == 0 {
        PipeUpstreamWrite();
      }
    }

    method ClientIsWritable(ghost at: int)
      requires Valid() && Enabled(View(), Event(at, ClientWritable))
      modifies this
      ensures Valid() && View() == Step(old(View()), Event(at, ClientWritable))
    {
      ghost var v, e := View(), Event(at, ClientWritable);
      StepKeepsExact(v, e);
      StepKeepsInv(v, e);
      past := past.(now := at);
      PipeClientWrite();
    }

    method UpstreamIsWritable(ghost at: int)
      requires Valid() && Enabled(View(), Event(at, UpstreamWritable))
      modifies this
      ensures Valid() && View() == Step(old(View()), Event(at, UpstreamWritable))
    {
      ghost var v, e := View(), Event(at, UpstreamWritable);
      StepKeepsExact(v, e);
      StepKeepsInv(v, e);
      past := past.(now := at);
      PipeUpstreamWrite();
    }

    method ClientReports(flags: Flags, ghost at: int)
      requires Valid() && Enabled(View(), Event(at, ClientEvent(flags)))
      modifies this
      ensures Valid() && View() == Step(old(View()), Event(at, ClientEvent(flags)))
    {
      ghost var v, e := View(), Event(at, ClientEvent(flags));
      StepKeepsExact(v, e);
      StepKeepsInv(v, e);
      past := past.(now := at);
      OnClientEvent(flags);
    }

    method UpstreamReports(flags: Flags, timerMade: bool, at: int)
      requires Valid() && Enabled(View(), Event(at, UpstreamEvent(flags, timerMade)))
      modifies this
      ensures Valid() && View() == Step(old(View()), Event(at, UpstreamEvent(flags, timerMade)))
    {
      ghost var v, e := View(), Event(at, UpstreamEvent(flags, timerMade));
      StepKeepsExact(v, e);
      StepKeepsInv(v, e);
      past := past.(now := at, upstreamEnded := past.upstreamEnded || flags.eof || flags.error);
      OnUpstreamEvent(flags, at, timerMade);
    }

    method TimerFires(at: int)
      requires Valid() && Enabled(View(), Event(at, IdleTimer))
      modifies this
      ensures Valid() && View() == Step(old(View()), Event(at, IdleTimer))
    {
      ghost var v, e := View(), Event(at, IdleTimer);
      StepKeepsExact(v, e);
      StepKeepsInv(v, e);
      past := past.(now := at);
      OnIdleTimer(at);
    }

    method Perform(e: Event)
      requires Valid() && Sniffed() && Enabled(View(), e)
      modifies this, sniff, sniff.sni
      ensures Valid() && View() == Step(old(View()), e)
      ensures Sniffed()
    {
      if e.what.ClientBytes? {
        ClientBytesArrive(e.what.data, e.at);
      } else {
        StepRecords(View(), e);
        PerformOther(e);
      }
    }

    method PerformOther(e: Event)
      requires Valid() && Enabled(View(), e) && !e.what.ClientBytes?
      modifies this
      ensures Valid() && View() == Step(old(View()), e)
    {
      match e.what {
        case UpstreamBytes(d) => UpstreamBytesArrive(d, e.at);
        case ClientTakes(n) => ClientTakesBytes(n, e.at);
        case UpstreamTakes(n) => UpstreamTakesBytes(n, e.at);
        case ClientWritable => ClientIsWritable(e.at);
        case UpstreamWritable => UpstreamIsWritable(e.at);
        case ClientEvent(f) => ClientReports(f, e.at);
        case UpstreamEvent(f, made) => UpstreamReports(f, made, e.at);
        case IdleTimer => TimerFires(e.at);
      }
    }
  }

  /** A connection adopted and driven by the worker's event loop: whatever the events, its own fields
      keep what the run theorems promise. */
  method Serve(header: seq<Byte>, idleTimeout: int, sniSniff: bool, now: int, es: seq<Event>) returns (c: Connection)
    requires |header| < HIGH_WATER && IsRun(Adopt(header, idleTimeout, now), es)
    ensures c.Valid() && c.View() == Run(Adopt(header, idleTimeout, now), es)
    ensures header + Sent(es, true) == c.View().flow.toUpstream + c.upstreamOutput
    ensures Sent(es, false) == c.View().flow.toClient + c.clientOutput
    ensures c.live ==> |c.clientOutput| + |c.upstreamOutput| < 0xC_0000
    ensures c.clientShut ==> c.clientOutput == []
    ensures c.sniSniff == sniSniff && c.Sniffed()
  {
    ghost var start := Adopt(header, idleTimeout, now);
    c := new Connection(header, idleTimeout, sniSniff, now);
    var i := 0;
    while i < |es|
      invariant 0 <= i <= |es| && c.Valid() && c.Sniffed() && fresh(c) && fresh(c.sniff) && fresh(c.sniff.sni)
      invariant IsRun(c.View(), es[i..]) && Run(c.View(), es[i..]) == Run(start, es)
    {
      Unroll(c.View(), es, i);
      c.Perform(es[i]);
      i := i + 1;
    }
    RunPromises(start, es);
  }

  lemma Unroll(c: State, es: seq<Event>, i: nat)
    requires i < |es| && IsRun(c, es[i..])
    ensures Enabled(c, es[i]) && IsRun(Step(c, es[i]), es[i + 1..])
    ensures Run(Step(c, es[i]), es[i + 1..]) == Run(c, es[i..])
  {
    assert es[i..][0] == es[i] && es[i..][1..] == es[i + 1..];
  }

  lemma RunPromises(c: State, es: seq<Event>)
    requires IsConnRun(c, es)
    ensures var d := Run(c, es);
            && c.flow.header + Sent(es, true) == d.flow.toUpstream + d.flow.upstreamOut
            && Sent(es, false) == d.flow.toClient + d.flow.clientOut
            && (d.live ==> |d.flow.clientOut| + |d.flow.upstreamOut| < 0xC_0000)
            && (d.clientShut ==> d.flow.clientOut == [])
  {
    Reachable(c, es);
    RunReceives(c, es);
    assert [] + Sent(es, true) == Sent(es, true) && [] + Sent(es, false) == Sent(es, false);
    if Run(c, es).live {
      MemoryOfAConnection(c, es);
    }
  }
}
