/**
 What each event does to a connection, said of the events and the bytes that wait and not of the
 callbacks: which events free it, half-close it, pause a reader or let it read again.  The high-water
 mark is 256 KiB and the resume mark 128 KiB.
 */
module StreamEvents {
  import opened StreamConn

  predicate CounterUnmoved(c: State) {
    c.idle.activitySeq == c.idle.checkSeq
  }

  /** The events after which the connection is gone. */
  predicate Frees(c: State, e: Event) {
    match e.what
    case ClientEvent(f) => f.timeout || f.error || f.eof
    case UpstreamEvent(f, _) =>
      !f.connected && (f.timeout || (if f.error then c.flow.clientOut == [] else !f.eof))
    case IdleTimer => CounterUnmoved(c)
    case _ => false
  }

  /** The events that shut the client's write side down: the last pending byte goes out, or the
      upstream side ends when nothing is pending. */
  predicate HalfCloses(c: State, e: Event) {
    match e.what
    case ClientTakes(n) => c.closeClientAfterDrain && n == |c.flow.clientOut|
    case ClientWritable => c.closeClientAfterDrain && c.flow.clientOut == []
    case UpstreamEvent(f, _) => !f.connected && !f.timeout && !f.error && f.eof && c.flow.clientOut == []
    case _ => false
  }

  predicate Connects(e: Event) {
    e.what.UpstreamEvent? && e.what.flags.connected
  }

  predicate Ends(e: Event) {
    e.what.UpstreamEvent? && !e.what.flags.connected
  }

  /** The upstream write callback runs at this event and finds output below the resume mark. */
  predicate UpstreamDrained(c: State, e: Event) {
    match e.what
    case UpstreamTakes(n) => n == |c.flow.upstreamOut|
    case UpstreamWritable => |c.flow.upstreamOut| < 0x2_0000
    case _ => false
  }

  /** The client write callback runs at this event and finds output below the resume mark, without a
      half-close being due. */
  predicate ClientDrained(c: State, e: Event) {
    match e.what
    case ClientTakes(n) => n == |c.flow.clientOut| && !c.closeClientAfterDrain
    case ClientWritable => |c.flow.clientOut| < 0x2_0000 && !(c.closeClientAfterDrain && c.flow.clientOut == [])
    case _ => false
  }

  // The callbacks alone, which every event kind below is then read off from.

  lemma EndOfDrain(c: State)
    ensures var r := DrainClientThenClose(c);
            && r.live == c.live && r.upstreamConnected == c.upstreamConnected && Closing(r)
            && !r.upstream.read && !r.upstream.write
            && (r.client.read <==> c.client.read || c.flow.clientOut == [])
            && (r.clientShut <==> c.clientShut || c.flow.clientOut == [])
            && r.finishes == c.finishes + if c.flow.clientOut == [] then 1 else 0
  {
  }

  /** What the event did, field by field. */
  ghost predicate Became(c: State, r: State, live: bool, connected: bool, shuts: bool, clientReads: bool, upstreamReads: bool) {
    && (r.live <==> live) && (r.upstreamConnected <==> connected)
    && (r.clientShut <==> c.clientShut || shuts) && r.finishes == c.finishes + (if shuts then 1 else 0)
    && (r.live ==> (r.client.read <==> clientReads) && (r.upstream.read <==> upstreamReads))
  }

  lemma UpstreamEventBecomes(c: State, f: Flags, now: int, made: bool)
    requires c.live
    ensures var e := Event(now, UpstreamEvent(f, made));
            Became(c, UpstreamEventCb(c, f, now, made), !Frees(c, e), c.upstreamConnected || f.connected, HalfCloses(c, e),
                   c.client.read || f.connected || HalfCloses(c, e), c.upstream.read && f.connected)
  {
    EndOfDrain(c);
  }

  lemma UpstreamStepBecomes(c: State, e: Event)
    requires Enabled(c, e) && e.what.UpstreamEvent?
    ensures Became(c, Step(c, e), !Frees(c, e), c.upstreamConnected || Connects(e), HalfCloses(c, e),
                   c.client.read || Connects(e) || HalfCloses(c, e), c.upstream.read && !Ends(e))
  {
    var a := Arrive(c, e);
    UpstreamEventBecomes(a, e.what.flags, e.at, e.what.timerMade);
    assert Step(c, e) == UpstreamEventCb(a, e.what.flags, e.at, e.what.timerMade);
  }

  lemma ClientWriteBecomes(c: State)
    requires c.live
    ensures var r := ClientWriteCb(c);
            var shuts := c.closeClientAfterDrain && c.flow.clientOut == [];
            Became(c, r, true, c.upstreamConnected, shuts, c.client.read || shuts,
                   c.upstream.read || (!shuts && |c.flow.clientOut| < 0x2_0000))
  {
  }

  lemma UpstreamWriteBecomes(c: State)
    requires c.live
    ensures Became(c, UpstreamWriteCb(c), true, c.upstreamConnected, false,
                   c.client.read || |c.flow.upstreamOut| < 0x2_0000, c.upstream.read)
  {
  }

  lemma ClientTakesBecomes(c: State, e: Event)
    requires Enabled(c, e) && e.what.ClientTakes?
    ensures Became(c, Step(c, e), true, c.upstreamConnected, HalfCloses(c, e), c.client.read || HalfCloses(c, e),
                   c.upstream.read || ClientDrained(c, e))
  {
    var a := Arrive(c, e);
    ClientWriteBecomes(a);
    assert |a.flow.clientOut| == |c.flow.clientOut| - e.what.n;
    assert Step(c, e) == if a.flow.clientOut == [] then ClientWriteCb(a) else a;
  }

  lemma UpstreamTakesBecomes(c: State, e: Event)
    requires Enabled(c, e) && e.what.UpstreamTakes?
    ensures Became(c, Step(c, e), true, c.upstreamConnected, false, c.client.read || UpstreamDrained(c, e), c.upstream.read)
  {
    var a := Arrive(c, e);
    UpstreamWriteBecomes(a);
    assert |a.flow.upstreamOut| == |c.flow.upstreamOut| - e.what.n;
    assert Step(c, e) == if a.flow.upstreamOut == [] then UpstreamWriteCb(a) else a;
  }

  lemma WritableBecomes(c: State, e: Event)
    requires Enabled(c, e) && (e.what.ClientWritable? || e.what.UpstreamWritable?)
    ensures Became(c, Step(c, e), true, c.upstreamConnected, HalfCloses(c, e),
                   c.client.read || UpstreamDrained(c, e) || HalfCloses(c, e), c.upstream.read || ClientDrained(c, e))
  {
    var a := Arrive(c, e);
    ClientWriteBecomes(a);
    UpstreamWriteBecomes(a);
    assert Step(c, e) == if e.what.ClientWritable? then ClientWriteCb(a) else UpstreamWriteCb(a);
  }

  lemma ReadBecomes(c: State, e: Event)
    requires Enabled(c, e) && (e.what.ClientBytes? || e.what.UpstreamBytes?)
    ensures Became(c, Step(c, e), true, c.upstreamConnected, false,
                   if e.what.ClientBytes? then |c.flow.upstreamOut| + |e.what.data| < 0x4_0000 else c.client.read,
                   if e.what.UpstreamBytes? then |c.flow.clientOut| + |e.what.data| < 0x4_0000 else c.upstream.read)
  {
  }

  lemma OtherBecomes(c: State, e: Event)
    requires Enabled(c, e) && (e.what.ClientEvent? || e.what.IdleTimer?)
    ensures Became(c, Step(c, e), !Frees(c, e), c.upstreamConnected, false, c.client.read, c.upstream.read)
  {
  }

  /** What the event does to reading on either side. */
  predicate ClientReadsAfter(c: State, e: Event) {
    || (if e.what.ClientBytes? then |c.flow.upstreamOut| + |e.what.data| < 0x4_0000 else c.client.read)
    || UpstreamDrained(c, e) || Connects(e) || HalfCloses(c, e)
  }

  predicate UpstreamReadsAfter(c: State, e: Event) {
    || (if e.what.UpstreamBytes? then |c.flow.clientOut| + |e.what.data| < 0x4_0000 else c.upstream.read && !Ends(e))
    || ClientDrained(c, e)
  }

  lemma StepBecomes(c: State, e: Event)
    requires Enabled(c, e)
    ensures Became(c, Step(c, e), !Frees(c, e), c.upstreamConnected || Connects(e), HalfCloses(c, e),
                   ClientReadsAfter(c, e), UpstreamReadsAfter(c, e))
  {
    match e.what {
      case UpstreamEvent(_, _) => UpstreamStepBecomes(c, e);
      case ClientTakes(_) => ClientTakesBecomes(c, e);
      case UpstreamTakes(_) => UpstreamTakesBecomes(c, e);
      case ClientWritable => WritableBecomes(c, e);
      case UpstreamWritable => WritableBecomes(c, e);
      case ClientBytes(_) => ReadBecomes(c, e);
      case UpstreamBytes(_) => ReadBecomes(c, e);
      case _ => OtherBecomes(c, e);
    }
  }

  // ---- Each on its own ---------------------------------------------------------------------------

  /** Exactly these events free a connection. */
  lemma FreedIff(c: State, e: Event)
    requires Enabled(c, e)
    ensures !Step(c, e).live <==> Frees(c, e)
  {
    StepBecomes(c, e);
  }

  /** An end of the upstream side that does not free the connection makes it close in order: what is
      pending for the client is kept, and nothing more is read from or written to the upstream side. */
  lemma EndDrains(c: State, e: Event)
    requires Enabled(c, e) && Ends(e) && (e.what.flags.eof || e.what.flags.error) && !Frees(c, e)
    ensures var d := Step(c, e); Closing(d) && d.flow == c.flow && !d.upstream.read && !d.upstream.write
  {
    var a := Arrive(c, e);
    EndOfDrain(a);
    assert Step(c, e) == UpstreamEventCb(a, e.what.flags, e.at, e.what.timerMade);
  }

  /** Exactly these events shut the client's write side down. */
  lemma HalfClosedIff(c: State, e: Event)
    requires Enabled(c, e)
    ensures Step(c, e).clientShut <==> c.clientShut || HalfCloses(c, e)
    ensures Step(c, e).finishes == c.finishes + if HalfCloses(c, e) then 1 else 0
  {
    StepBecomes(c, e);
  }

  /** Client reading: paused by a read that brings the upstream output to the high-water mark, resumed
      by a write callback below the resume mark, by the connect and by the half-close. */
  lemma ClientReadsIff(c: State, e: Event)
    requires Enabled(c, e) && Step(c, e).live
    ensures Step(c, e).client.read <==> ClientReadsAfter(c, e)
  {
    StepBecomes(c, e);
  }

  /** Upstream reading: paused by a read that brings the client output to the high-water mark and
      stopped by the end of the upstream side, resumed by a write callback below the resume mark. */
  lemma UpstreamReadsIff(c: State, e: Event)
    requires Enabled(c, e) && Step(c, e).live
    ensures Step(c, e).upstream.read <==> UpstreamReadsAfter(c, e)
  {
    StepBecomes(c, e);
  }

  /** The upstream side counts as connected from the connect on. */
  lemma ConnectedIff(c: State, e: Event)
    requires Enabled(c, e)
    ensures Step(c, e).upstreamConnected <==> c.upstreamConnected || Connects(e)
  {
    StepBecomes(c, e);
  }
}
