/**
 The idle timer of a stream connection.  A read callback only bumps a 64-bit counter; the timer
 compares the counter with the value it saw last time and either starts over or frees the
 connection.  Writes do not count as activity.
 */
module IdleTimer {
  import opened StreamConn
  import StreamRuns

  predicate IsRead(w: What) {
    w.ClientBytes? || w.UpstreamBytes?
  }

  /** While the timer is pending, the counters differ by the read callbacks since it was set. */
  ghost predicate Counts(c: State) {
    var i := c.idle;
    && i.lastRead <= c.now
    && (i.armed ==>
          && c.upstreamConnected && c.idleTimeout > 0
          && i.due == i.armedAt + c.idleTimeout && i.armedAt <= c.now
          && i.checkSeq < SEQ_MODULUS
          && i.activitySeq == (i.checkSeq + i.touches) % SEQ_MODULUS
          && (i.touches == 0 ==> i.lastRead <= i.armedAt))
  }

  lemma NextSeq(a: nat)
    ensures (a % 0x1_0000_0000_0000_0000 + 1) % 0x1_0000_0000_0000_0000 == (a + 1) % 0x1_0000_0000_0000_0000
  {
  }

  lemma SeqReturns(a: nat, k: nat)
    requires a < 0x1_0000_0000_0000_0000
    ensures (a + k) % 0x1_0000_0000_0000_0000 == a <==> k % 0x1_0000_0000_0000_0000 == 0
  {
  }

  /** What an event does to the timer. */
  ghost predicate TimerStep(c: State, e: Event, c': State) {
    && c'.now == e.at && c'.idleTimeout == c.idleTimeout && (c.upstreamConnected ==> c'.upstreamConnected)
    && (IsRead(e.what) ==> c'.live && c'.idle == Touch(c.idle, e.at))
    && (e.what.IdleTimer? ==>
          if c.idle.activitySeq == c.idle.checkSeq then !c'.live && c'.idle == c.idle.(armed := false)
          else c'.live && c'.idle == Schedule(c.idle.(armed := false, checkSeq := c.idle.activitySeq), c.idleTimeout, e.at))
    && (!IsRead(e.what) && !e.what.IdleTimer? ==>
          || c'.idle == c.idle
          || (c'.idle == c.idle.(armed := false) && !c'.live)
          || (!c.upstreamConnected && c'.upstreamConnected &&
              exists made :: c'.idle == StartIdleTimer(c.idle, c.idleTimeout, e.at, made)))
  }

  lemma ConnectedOfTimer(c: State, e: Event)
    requires Enabled(c, e) && e.what.UpstreamEvent? && e.what.flags.connected
    ensures TimerStep(c, e, Step(c, e))
  {
    assert Step(c, e).idle == StartIdleTimer(c.idle, c.idleTimeout, e.at, e.what.timerMade);
  }

  lemma EndOfTimer(c: State, e: Event)
    requires Enabled(c, e) && e.what.UpstreamEvent? && !e.what.flags.connected
    ensures TimerStep(c, e, Step(c, e))
  {
    var c' := Step(c, e);
    assert c'.idle == c.idle || (c'.idle == c.idle.(armed := false) && !c'.live);
  }

  lemma WriteOfTimer(c: State, e: Event)
    requires Enabled(c, e)
    requires e.what.ClientTakes? || e.what.UpstreamTakes? || e.what.ClientWritable? || e.what.UpstreamWritable?
    ensures TimerStep(c, e, Step(c, e))
  {
    assert SameTimer(Arrive(c, e), Step(c, e));
  }

  lemma ReadOfTimer(c: State, e: Event)
    requires Enabled(c, e) && (IsRead(e.what) || e.what.IdleTimer? || e.what.ClientEvent?)
    ensures TimerStep(c, e, Step(c, e))
  {
  }

  lemma StepOfTimer(c: State, e: Event)
    requires Enabled(c, e)
    ensures TimerStep(c, e, Step(c, e))
  {
    match e.what {
      case UpstreamEvent(flags, _) =>
        if flags.connected {
          ConnectedOfTimer(c, e);
        } else {
          EndOfTimer(c, e);
        }
      case ClientTakes(_) => WriteOfTimer(c, e);
      case UpstreamTakes(_) => WriteOfTimer(c, e);
      case ClientWritable => WriteOfTimer(c, e);
      case UpstreamWritable => WriteOfTimer(c, e);
      case _ => ReadOfTimer(c, e);
    }
  }

  lemma CountsAfter(c: State, e: Event, c': State)
    requires Counts(c) && c.now <= e.at && TimerStep(c, e, c') && (e.what.IdleTimer? ==> c.idle.armed)
    ensures Counts(c')
  {
    if IsRead(e.what) {
      NextSeq(c.idle.checkSeq + c.idle.touches);
    }
  }

  lemma StepKeepsCounts(c: State, e: Event)
    requires Counts(c) && Enabled(c, e)
    ensures Counts(Step(c, e)) && Step(c, e).idleTimeout == c.idleTimeout
  {
    StepOfTimer(c, e);
    CountsAfter(c, e, Step(c, e));
  }

  lemma {:induction false} RunKeepsCounts(c: State, es: seq<Event>)
    requires Counts(c) && IsRun(c, es)
    ensures Counts(Run(c, es)) && Run(c, es).idleTimeout == c.idleTimeout
    decreases |es|
  {
    if es != [] {
      StepKeepsCounts(c, es[0]);
      RunKeepsCounts(Step(c, es[0]), es[1..]);
    }
  }

  /** The timer frees the connection exactly when the number of read callbacks since it was set is
      a multiple of 2^64. */
  lemma FreesIffCounterUnmoved(c: State, e: Event)
    requires Counts(c) && Enabled(c, e) && e.what.IdleTimer?
    ensures !Step(c, e).live <==> c.idle.touches % SEQ_MODULUS == 0
  {
    StepOfTimer(c, e);
    SeqReturns(c.idle.checkSeq, c.idle.touches);
  }

  lemma LastReadGrows(c: State, e: Event)
    requires Counts(c) && Enabled(c, e)
    ensures c.idle.lastRead <= Step(c, e).idle.lastRead
    ensures IsRead(e.what) ==> Step(c, e).idle.lastRead == e.at
  {
    StepOfTimer(c, e);
  }

  lemma {:induction false} ReadsAreNoLaterThanLast(c: State, es: seq<Event>)
    requires Counts(c) && IsRun(c, es)
    ensures c.idle.lastRead <= Run(c, es).idle.lastRead
    ensures forall i :: 0 <= i < |es| && IsRead(es[i].what) ==> es[i].at <= Run(c, es).idle.lastRead
    decreases |es|
  {
    if es != [] {
      StepKeepsCounts(c, es[0]);
      LastReadGrows(c, es[0]);
      ReadsAreNoLaterThanLast(Step(c, es[0]), es[1..]);
      assert forall i :: 1 <= i < |es| ==> es[i] == es[1..][i - 1];
    }
  }

  /** Never too early: when the timer frees a connection at time f, no read callback of the whole
      run came after f minus the timeout, unless 2^64 of them came since the timer was set. */
  lemma FreesOnlyIdle(c: State, es: seq<Event>, f: int)
    requires StreamRuns.IsConnRun(c, es)
    requires Enabled(Run(c, es), Event(f, IdleTimer)) && !Step(Run(c, es), Event(f, IdleTimer)).live
    requires Run(c, es).idle.touches < SEQ_MODULUS
    ensures forall i :: 0 <= i < |es| && IsRead(es[i].what) ==> es[i].at <= f - c.idleTimeout
  {
    RunKeepsCounts(c, es);
    FreeingMeansIdle(Run(c, es), Event(f, IdleTimer));
    ReadsAreNoLaterThanLast(c, es);
  }

  lemma FreeingMeansIdle(c: State, e: Event)
    requires Counts(c) && Enabled(c, e) && e.what.IdleTimer? && !Step(c, e).live && c.idle.touches < SEQ_MODULUS
    ensures c.idle.lastRead <= e.at - c.idleTimeout
  {
    FreesIffCounterUnmoved(c, e);
  }

  // ---- Never too late --------------------------------------------------------------------------

  /** The event loop runs a pending timer at most `late` after it is due. */
  ghost predicate Punctual(c: State, es: seq<Event>, late: nat)
    requires IsRun(c, es)
    decreases |es|
  {
    es == [] ||
    ((c.idle.armed ==> es[0].at <= c.idle.due + late) && Punctual(Step(c, es[0]), es[1..], late))
  }

  /** After time t nothing was read: the timer is in its last round or in the one before. */
  ghost predicate WindingDown(c: State, t: int, late: nat) {
    && c.idle.armed && c.upstreamConnected
    && c.now <= t + 2 * c.idleTimeout + 2 * late
    && (c.idle.due <= t + c.idleTimeout ||
        (c.idle.activitySeq == c.idle.checkSeq && c.idle.due <= t + 2 * c.idleTimeout + late))
  }

  lemma WindsDownAfter(c: State, e: Event, c': State, t: int, late: nat)
    requires Counts(c) && WindingDown(c, t, late) && !IsRead(e.what) && TimerStep(c, e, c')
    requires e.at <= c.idle.due + late && (e.what.IdleTimer? ==> c.idle.due <= e.at)
    ensures c'.live ==> WindingDown(c', t, late)
  {
  }

  lemma StepWindsDown(c: State, e: Event, t: int, late: nat)
    requires Counts(c) && WindingDown(c, t, late) && Enabled(c, e) && !IsRead(e.what)
    requires e.at <= c.idle.due + late
    ensures Step(c, e).live ==> WindingDown(Step(c, e), t, late)
  {
    StepOfTimer(c, e);
    WindsDownAfter(c, e, Step(c, e), t, late);
  }

  lemma {:induction false} RunWindsDown(c: State, es: seq<Event>, t: int, late: nat)
    requires Counts(c) && WindingDown(c, t, late) && IsRun(c, es) && Punctual(c, es, late)
    requires forall i :: 0 <= i < |es| ==> !IsRead(es[i].what)
    ensures Run(c, es).live ==> WindingDown(Run(c, es), t, late)
    decreases |es|
  {
    if es != [] {
      var c1 := Step(c, es[0]);
      StepKeepsCounts(c, es[0]);
      StepWindsDown(c, es[0], t, late);
      assert forall i :: 0 <= i < |es[1..]| ==> es[1..][i] == es[i + 1];
      if c1.live {
        RunWindsDown(c1, es[1..], t, late);
      } else {
        assert es[1..] == [];
      }
    }
  }

  /** This event connects the upstream side and starts the timer. */
  predicate StartsTimer(e: Event) {
    e.what.UpstreamEvent? && e.what.flags.connected && e.what.timerMade
  }

  lemma StepKeepsArmed(c: State, e: Event)
    requires Counts(c) && Enabled(c, e) && c.idleTimeout > 0 && (c.idle.armed || StartsTimer(e))
    ensures Step(c, e).live ==> Step(c, e).idle.armed
  {
    StepOfTimer(c, e);
    if StartsTimer(e) {
      assert Step(c, e).idle == StartIdleTimer(c.idle, c.idleTimeout, e.at, true);
    }
  }

  /** A freed connection has no further event. */
  lemma {:induction false} DeadStaysDead(c: State, es: seq<Event>)
    requires IsRun(c, es) && !c.live
    ensures es == []
  {
  }

  /** Once started, the timer runs until the connection is freed. */
  lemma {:induction false} RunKeepsArmed(c: State, es: seq<Event>)
    requires Counts(c) && IsRun(c, es) && c.idleTimeout > 0 && Run(c, es).live
    requires c.idle.armed || exists i :: 0 <= i < |es| && StartsTimer(es[i])
    ensures Run(c, es).idle.armed
    decreases |es|
  {
    if es != [] {
      var c1, rest := Step(c, es[0]), es[1..];
      StepKeepsCounts(c, es[0]);
      if c.idle.armed || StartsTimer(es[0]) {
        StepKeepsArmed(c, es[0]);
        if !c1.live {
          DeadStaysDead(c1, rest);
        }
      } else {
        var i :| 0 <= i < |es| && StartsTimer(es[i]);
        assert rest[i - 1] == es[i];
      }
      RunKeepsArmed(c1, rest);
    }
  }

  /** Never too late: a connection that was connected with its timer made, and that reads nothing
      after time t, is freed by t + 2T, or as much later as the event loop is late with the two
      timers. */
  lemma FreesWithinTwoTimeouts(c: State, before: seq<Event>, after: seq<Event>, late: nat)
    requires StreamRuns.IsConnRun(c, before) && IsRun(Run(c, before), after)
    requires c.idleTimeout > 0 && exists i :: 0 <= i < |before| && StartsTimer(before[i])
    requires Punctual(Run(c, before), after, late)
    requires forall i :: 0 <= i < |after| ==> !IsRead(after[i].what)
    ensures var d, d' := Run(c, before), Run(Run(c, before), after);
            d'.live ==> d'.now <= d.now + 2 * c.idleTimeout + 2 * late
  {
    var d := Run(c, before);
    RunKeepsCounts(c, before);
    if d.live {
      RunKeepsArmed(c, before);
      RunWindsDown(d, after, d.now, late);
      RunKeepsCounts(d, after);
    } else {
      DeadStaysDead(d, after);
    }
  }
}
