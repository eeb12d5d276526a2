/**
 One proxied stream connection: two libevent bufferevents, their output buffers and read/write
 enables, the connect, drain and half-close phases, and the idle timer.

 The callbacks of stream_pipe.c and stream_conn.c are functions on `State`; class `Connection`
 of module StreamConnection performs them in place.  libevent and the kernel are the environment, and
 `Enabled` is all that is assumed of them:
   - a read delivers 1 to CHUNK bytes, only while reading is enabled, and the read callback runs
     at once, so the input buffer is empty between events;
   - the kernel takes bytes from the front of an output buffer, only while writing is enabled, and
     the write callback runs when the buffer has become empty; it may also run at other times;
   - a bufferevent with neither reading nor writing enabled reports no event;
   - before it is connected the upstream side delivers no bytes and no end of file, and it
     connects once; after an end of file or an error it delivers no more bytes;
   - the timer does not fire before it is due; time does not run backwards.
 */
module StreamConn {
  import opened Bytes

  const CHUNK := 128 * 1024
  const HIGH_WATER := 2 * CHUNK
  const RESUME_WATER := CHUNK

  /** activity_seq and idle_check_seq are uint64_t. */
  const SEQ_MODULUS := 0x1_0000_0000_0000_0000

  datatype Idle = Idle(
    armed: bool,
    due: int,
    activitySeq: nat,
    checkSeq: nat,
    armedAt: int,          // history: when the timer was last scheduled
    touches: nat,          // history: read callbacks since then
    lastRead: int          // history: time of the latest read callback, or of the start
  )

  /** The EV_READ and EV_WRITE enables of a bufferevent. */
  datatype Enables = Enables(read: bool, write: bool)

  /** The two output buffers, and the history of the bytes that passed through them. */
  datatype Flow = Flow(
    clientOut: seq<Byte>,
    upstreamOut: seq<Byte>,
    header: seq<Byte>,                 // history: what adoption queued for the upstream side
    chunks: seq<seq<Byte>>,            // history: the input of each client read callback
    fromClient: seq<Byte>,             // history: bytes read and written on each socket
    fromUpstream: seq<Byte>,
    toClient: seq<Byte>,
    toUpstream: seq<Byte>
  )

  datatype State = State(
    live: bool,                        // free_conn has not run
    upstreamConnected: bool,
    closeAfterClientEof: bool,
    closeClientAfterDrain: bool,
    client: Enables,
    upstream: Enables,
    flow: Flow,
    clientShut: bool,                  // shutdown(SHUT_WR) was called on the client socket
    idleTimeout: int,
    idle: Idle,
    now: int,
    upstreamEnded: bool,               // history: the upstream side reported EOF or an error
    finishes: nat                      // history: calls of finish_client_write
  )

  /** The BEV_EVENT_* bits that the callbacks look at. */
  datatype Flags = Flags(connected: bool, timeout: bool, error: bool, eof: bool)

  datatype What =
    | ClientBytes(data: seq<Byte>)
    | UpstreamBytes(data: seq<Byte>)
    | ClientTakes(n: nat)              // the kernel takes n bytes of the client output
    | UpstreamTakes(n: nat)
    | ClientWritable                   // a further write callback
    | UpstreamWritable
    | ClientEvent(flags: Flags)
    | UpstreamEvent(flags: Flags, timerMade: bool)
    | IdleTimer

  datatype Event = Event(at: int, what: What)

  // ---- The callbacks ---------------------------------------------------------------------------

  /** worker_adopt_client_fd on its success path: client reading stays off until the upstream side
      is connected, so nothing can get in front of the header. */
  function Adopt(header: seq<Byte>, idleTimeout: int, now: int): State {
    State(true, false, false, false, Enables(false, true), Enables(true, true),
          Flow([], header, header, [], [], [], [], []),
          false, idleTimeout, Idle(false, 0, 1, 1, now, 0, now), now, false, 0)
  }

  /** The callback had nothing to do with the timer. */
  ghost predicate SameTimer(c: State, r: State) {
    && r.idle == c.idle && r.live == c.live && r.now == c.now && r.idleTimeout == c.idleTimeout
    && r.upstreamConnected == c.upstreamConnected
  }

  function FreeConn(c: State): (r: State)
    ensures r.flow == c.flow
  {
    c.(live := false, idle := c.idle.(armed := false))
  }

  function Touch(i: Idle, now: int): Idle {
    i.(activitySeq := (i.activitySeq + 1) % SEQ_MODULUS, touches := i.touches + 1, lastRead := now)
  }

  function Schedule(i: Idle, timeout: int, now: int): Idle {
    if timeout <= 0 then i else i.(armed := true, due := now + timeout, armedAt := now, touches := 0)
  }

  function StartIdleTimer(i: Idle, timeout: int, now: int, timerMade: bool): Idle {
    if timeout <= 0 then i
    else
      var i1 := i.(activitySeq := 1, checkSeq := 1);
      if timerMade then Schedule(i1, timeout, now) else i1
  }

  function IdleTimeoutCb(c: State, now: int): (r: State)
    ensures r.flow == c.flow
  {
    if c.idle.activitySeq != c.idle.checkSeq then
      c.(idle := Schedule(c.idle.(armed := false, checkSeq := c.idle.activitySeq), c.idleTimeout, now))
    else
      FreeConn(c)
  }

  function ClientReadCb(c: State, input: seq<Byte>, now: int): State {
    var out := c.flow.upstreamOut + input;
    c.(idle := Touch(c.idle, now),
       flow := c.flow.(upstreamOut := out),
       client := c.client.(read := c.client.read && |out| < HIGH_WATER))
  }

  function UpstreamReadCb(c: State, input: seq<Byte>, now: int): State {
    var out := c.flow.clientOut + input;
    c.(idle := Touch(c.idle, now),
       flow := c.flow.(clientOut := out),
       upstream := c.upstream.(read := c.upstream.read && |out| < HIGH_WATER))
  }

  function FinishClientWrite(c: State): (r: State)
    ensures r.flow == c.flow && SameTimer(c, r)
  {
    c.(clientShut := true,
       client := c.client.(write := false, read := true),
       finishes := c.finishes + 1)
  }

  function FinishDrain(c: State): (r: State)
    ensures r.flow == c.flow && SameTimer(c, r)
  {
    FinishClientWrite(c).(closeClientAfterDrain := false, closeAfterClientEof := true)
  }

  function DrainClientThenClose(c: State): (r: State)
    ensures r.flow == c.flow && SameTimer(c, r)
  {
    var c1 := c.(closeClientAfterDrain := true, upstream := c.upstream.(read := false, write := false));
    if c.flow.clientOut == [] then FinishDrain(c1) else c1
  }

  function ClientWriteCb(c: State): (r: State)
    ensures r.flow == c.flow && SameTimer(c, r)
  {
    if c.closeClientAfterDrain && c.flow.clientOut == [] then FinishDrain(c)
    else if |c.flow.clientOut| < RESUME_WATER then c.(upstream := c.upstream.(read := true))
    else c
  }

  function UpstreamWriteCb(c: State): (r: State)
    ensures r.flow == c.flow && SameTimer(c, r)
  {
    if |c.flow.upstreamOut| < RESUME_WATER then c.(client := c.client.(read := true)) else c
  }

  function ClientEventCb(c: State, f: Flags): (r: State)
    ensures r.flow == c.flow
  {
    if f.timeout || f.error || f.eof then FreeConn(c) else c
  }

  function UpstreamEventCb(c: State, f: Flags, now: int, timerMade: bool): (r: State)
    ensures r.flow == c.flow
  {
    if f.connected then
      c.(upstreamConnected := true,
         client := c.client.(read := true, write := true),
         idle := StartIdleTimer(c.idle, c.idleTimeout, now, timerMade))
    else if f.timeout then FreeConn(c)
    else if f.error then if c.flow.clientOut != [] then DrainClientThenClose(c) else FreeConn(c)
    else if f.eof then DrainClientThenClose(c)
    else FreeConn(c)
  }

  // ---- Runs ------------------------------------------------------------------------------------

  predicate Enabled(c: State, e: Event) {
    && c.live && c.now <= e.at
    && match e.what
       case ClientBytes(d) => c.client.read && 1 <= |d| <= CHUNK
       case UpstreamBytes(d) =>
         c.upstreamConnected && c.upstream.read && !c.upstreamEnded && 1 <= |d| <= CHUNK
       case ClientTakes(n) => c.client.write && 1 <= n <= |c.flow.clientOut| && n <= CHUNK
       case UpstreamTakes(n) =>
         c.upstreamConnected && c.upstream.write && 1 <= n <= |c.flow.upstreamOut| && n <= CHUNK
       case ClientWritable => c.client.write
       case UpstreamWritable => c.upstreamConnected && c.upstream.write
       case ClientEvent(_) => c.client.read || c.client.write
       case UpstreamEvent(f, _) =>
         && (c.upstream.read || c.upstream.write)
         && (f.connected ==> !c.upstreamConnected)
         && (!c.upstreamConnected && !f.connected ==> !f.eof)
       case IdleTimer => c.idle.armed && c.idle.due <= e.at
  }

  /** The event as the environment causes it, before the callback runs. */
  function Arrive(c: State, e: Event): State
    requires Enabled(c, e)
  {
    var c0 := c.(now := e.at);
    match e.what
    case ClientBytes(d) => c0.(flow := c.flow.(fromClient := c.flow.fromClient + d, chunks := c.flow.chunks + [d]))
    case UpstreamBytes(d) => c0.(flow := c.flow.(fromUpstream := c.flow.fromUpstream + d))
    case ClientTakes(n) =>
      c0.(flow := c.flow.(clientOut := c.flow.clientOut[n..], toClient := c.flow.toClient + c.flow.clientOut[..n]))
    case UpstreamTakes(n) =>
      c0.(flow := c.flow.(upstreamOut := c.flow.upstreamOut[n..], toUpstream := c.flow.toUpstream + c.flow.upstreamOut[..n]))
    case UpstreamEvent(f, _) => c0.(upstreamEnded := c.upstreamEnded || f.eof || f.error)
    case _ => c0
  }

  function Step(c: State, e: Event): State
    requires Enabled(c, e)
  {
    var c1 := Arrive(c, e);
    match e.what
    case ClientBytes(d) => ClientReadCb(c1, d, e.at)
    case UpstreamBytes(d) => UpstreamReadCb(c1, d, e.at)
    case ClientTakes(_) => if c1.flow.clientOut == [] then ClientWriteCb(c1) else c1
    case UpstreamTakes(_) => if c1.flow.upstreamOut == [] then UpstreamWriteCb(c1) else c1
    case ClientWritable => ClientWriteCb(c1)
    case UpstreamWritable => UpstreamWriteCb(c1)
    case ClientEvent(f) => ClientEventCb(c1, f)
    case UpstreamEvent(f, made) => UpstreamEventCb(c1, f, e.at, made)
    case IdleTimer => IdleTimeoutCb(c1, e.at)
  }

  ghost predicate IsRun(c: State, es: seq<Event>)
    decreases |es|
  {
    es == [] || (Enabled(c, es[0]) && IsRun(Step(c, es[0]), es[1..]))
  }

  ghost function Run(c: State, es: seq<Event>): State
    requires IsRun(c, es)
    decreases |es|
  {
    if es == [] then c else Run(Step(c, es[0]), es[1..])
  }

  // ---- Invariants ------------------------------------------------------------------------------

  predicate Closing(c: State) {
    c.closeClientAfterDrain || c.closeAfterClientEof
  }

  /** Nothing is lost, duplicated or reordered, and the header comes first. */
  ghost predicate Exact(f: Flow) {
    && f.header + f.fromClient == f.toUpstream + f.upstreamOut
    && f.fromUpstream == f.toClient + f.clientOut
  }

  ghost function Slack(finishes: nat): nat {
    0x2_0000 * finishes
  }

  ghost predicate Bounded(c: State) {
    && |c.flow.clientOut| < HIGH_WATER + CHUNK
    && (c.upstream.read ==> |c.flow.clientOut| < HIGH_WATER)
    && |c.flow.upstreamOut| < HIGH_WATER + CHUNK + Slack(c.finishes)
    && (c.client.read ==> |c.flow.upstreamOut| < HIGH_WATER + Slack(c.finishes))
  }

  /** What holds of the flags in each phase. */
  ghost predicate Phased(c: State) {
    && (!c.upstreamConnected ==>
          !c.client.read && !Closing(c) && |c.flow.upstreamOut| < HIGH_WATER && c.flow.clientOut == [] && c.upstream.read)
    && (!Closing(c) ==> c.client.write && c.upstream.write && c.finishes == 0 && !c.clientShut)
    && (Closing(c) ==> c.upstreamEnded)
    && (c.closeAfterClientEof ==> c.clientShut)
    && (c.closeClientAfterDrain ==> c.flow.clientOut != [] && c.client.write)
    && (c.clientShut ==> !c.client.write)
  }

  /** A paused reader waits for an output buffer that is not empty and is being written. */
  ghost predicate Unwedged(c: State) {
    c.upstreamConnected && !Closing(c) ==>
      && (!c.client.read ==> c.flow.upstreamOut != [] && c.upstream.write)
      && (!c.upstream.read ==> c.flow.clientOut != [] && c.client.write)
  }

  /** The client's write side is shut down only after everything went out. */
  ghost predicate Drained(c: State) {
    c.clientShut ==> c.flow.clientOut == [] && c.upstreamEnded
  }

  ghost predicate Inv(c: State) {
    Drained(c) && (c.live ==> Bounded(c) && Phased(c) && Unwedged(c))
  }

  lemma AdoptEstablishes(header: seq<Byte>, idleTimeout: int, now: int)
    requires |header| < HIGH_WATER
    ensures Exact(Adopt(header, idleTimeout, now).flow) && Inv(Adopt(header, idleTimeout, now))
  {
  }

  lemma ReadsKeepExact(c: State, e: Event)
    requires Exact(c.flow) && Enabled(c, e) && (e.what.ClientBytes? || e.what.UpstreamBytes?)
    ensures Exact(Step(c, e).flow)
  {
    var f, d := c.flow, e.what.data;
    if e.what.ClientBytes? {
      assert f.toUpstream + (f.upstreamOut + d) == (f.toUpstream + f.upstreamOut) + d;
      assert f.header + (f.fromClient + d) == (f.header + f.fromClient) + d;
    } else {
      assert f.toClient + (f.clientOut + d) == (f.toClient + f.clientOut) + d;
    }
  }

  lemma TakesKeepExact(c: State, e: Event)
    requires Exact(c.flow) && Enabled(c, e) && (e.what.ClientTakes? || e.what.UpstreamTakes?)
    ensures Exact(Step(c, e).flow)
  {
    var f, n := c.flow, e.what.n;
    if e.what.ClientTakes? {
      assert f.toClient + f.clientOut[..n] + f.clientOut[n..] == f.toClient + f.clientOut;
    } else {
      assert f.toUpstream + f.upstreamOut[..n] + f.upstreamOut[n..] == f.toUpstream + f.upstreamOut;
    }
  }

  lemma StepKeepsExact(c: State, e: Event)
    requires Exact(c.flow) && Enabled(c, e)
    ensures Exact(Step(c, e).flow) && Step(c, e).flow.header == c.flow.header
  {
    match e.what {
      case ClientBytes(_) => ReadsKeepExact(c, e);
      case UpstreamBytes(_) => ReadsKeepExact(c, e);
      case ClientTakes(_) => TakesKeepExact(c, e);
      case UpstreamTakes(_) => TakesKeepExact(c, e);
      case _ => assert Step(c, e).flow == c.flow;
    }
  }

  lemma ReadsKeepInv(c: State, e: Event)
    requires Inv(c) && Enabled(c, e) && (e.what.ClientBytes? || e.what.UpstreamBytes?)
    ensures Inv(Step(c, e))
  {
  }

  lemma WritesKeepInv(c: State, e: Event)
    requires Inv(c) && Enabled(c, e)
    requires e.what.ClientTakes? || e.what.UpstreamTakes? || e.what.ClientWritable? || e.what.UpstreamWritable?
    ensures Inv(Step(c, e))
  {
  }

  lemma EventsKeepInv(c: State, e: Event)
    requires Inv(c) && Enabled(c, e) && (e.what.ClientEvent? || e.what.UpstreamEvent? || e.what.IdleTimer?)
    ensures Inv(Step(c, e))
  {
  }

  lemma StepKeepsInv(c: State, e: Event)
    requires Inv(c) && Enabled(c, e)
    ensures Inv(Step(c, e))
  {
    match e.what {
      case ClientBytes(_) => ReadsKeepInv(c, e);
      case UpstreamBytes(_) => ReadsKeepInv(c, e);
      case ClientEvent(_) => EventsKeepInv(c, e);
      case UpstreamEvent(_, _) => EventsKeepInv(c, e);
      case IdleTimer => EventsKeepInv(c, e);
      case _ => WritesKeepInv(c, e);
    }
  }

  lemma {:induction false} RunKeepsInv(c: State, es: seq<Event>)
    requires Exact(c.flow) && Inv(c) && IsRun(c, es)
    ensures Exact(Run(c, es).flow) && Inv(Run(c, es)) && Run(c, es).flow.header == c.flow.header
    decreases |es|
  {
    if es != [] {
      StepKeepsExact(c, es[0]);
      StepKeepsInv(c, es[0]);
      RunKeepsInv(Step(c, es[0]), es[1..]);
    }
  }
}
