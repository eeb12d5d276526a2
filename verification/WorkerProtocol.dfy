/**
 The hand-off between the threads that accept work and one worker thread.

 A producer appends a message under the queue's mutex and afterwards, outside the mutex, sends one
 byte on a non-blocking socket.  The worker's callback drains that socket, takes the whole queue
 under the mutex, processes it and then looks at `stopping`.  Every lock section, system call and
 message is one event here, so that a run is an arbitrary interleaving of those events.

 What the environment may do is in `Enabled`: a send that would block finds unread bytes in the
 socket; a receive may return fewer bytes than there are, or fail; the callback is only entered
 when the socket is readable.  A send may also fail for another reason, which the code logs and
 otherwise ignores; `sendFailed` records that it happened, and `missed` that it left the socket
 silent with no later send or take to make up for it.
 */
module WorkerProtocol {
  import opened Bytes

  datatype Msg = StreamClient(fd: nat) | DatagramPacket(data: seq<Byte>)

  /** Where the worker thread is inside worker_notify_cb. */
  datatype Pc = NotStarted | Waiting | Draining | Taking | Processing | Checking | Exited

  /** How far the owner of the worker has come: init, start, join, and the two halves of free. */
  datatype Phase = Created | Started | Joined | Releasing | Freed

  datatype SendOutcome = Sent | WouldBlock | Failed

  const RECV_SIZE := 128

  datatype Worker = Worker(
    pending: seq<Msg>,       // the linked list between pending_head and pending_tail
    stopping: bool,
    bytes: nat,              // unread bytes in the notify socket
    notifying: set<nat>,     // threads between their unlock and their send
    pc: Pc,
    batch: seq<Msg>,         // the list a thread has taken and not yet worked off
    phase: Phase,
    accepted: seq<Msg>,      // history: messages queued, in lock order
    processed: seq<Msg>,     // history: messages processed by the worker thread
    released: seq<Msg>,      // history: messages disposed of by worker_free
    refused: seq<Msg>,       // history: messages disposed of by worker_enqueue_msg
    sendFailed: bool,        // history: some send failed other than by blocking
    missed: bool             // history: such a send found the socket silent, and nothing made up for it
  )

  const INIT := Worker([], false, 0, {}, NotStarted, [], Created, [], [], [], [], false, false)

  datatype Event =
    | Start
    | Enqueue(thread: nat, msg: Msg)
    | Send(thread: nat, outcome: SendOutcome)
    | Dispatch
    | Recv(n: nat)
    | RecvError
    | Take
    | Process
    | BatchDone
    | Check
    | Stop(thread: nat)
    | Join
    | FreeTake
    | Release
    | FreeDone

  predicate Enabled(w: Worker, e: Event) {
    match e
    case Start => w.phase == Created && !w.stopping
    case Enqueue(t, _) => w.phase != Freed && t !in w.notifying
    case Send(t, o) => t in w.notifying && (o == WouldBlock ==> w.bytes > 0)
    case Dispatch => w.pc == Waiting && w.bytes > 0
    case Recv(n) => w.pc == Draining && 1 <= n <= w.bytes && n <= RECV_SIZE
    case RecvError => w.pc == Draining
    case Take => w.pc == Taking
    case Process => w.pc == Processing && w.batch != []
    case BatchDone => w.pc == Processing && w.batch == []
    case Check => w.pc == Checking
    case Stop(t) => w.phase != Freed && t !in w.notifying
    case Join => w.phase == Started && w.pc == Exited
    case FreeTake => (w.phase == Created || w.phase == Joined) && w.stopping
    case Release => w.phase == Releasing && w.batch != []
    case FreeDone => w.phase == Releasing && w.batch == []
  }

  function Step(w: Worker, e: Event): Worker
    requires Enabled(w, e)
  {
    match e
    case Start => w.(phase := Started, pc := Waiting)
    case Enqueue(t, m) =>
      if w.stopping then w.(refused := w.refused + [m])
      else w.(pending := w.pending + [m], accepted := w.accepted + [m], notifying := w.notifying + {t})
    case Send(t, o) =>
      w.(notifying := w.notifying - {t},
         bytes := if o == Sent then w.bytes + 1 else w.bytes,
         sendFailed := w.sendFailed || o == Failed,
         missed := o == Failed && (w.missed || w.bytes == 0))
    case Dispatch => w.(pc := Draining)
    case Recv(n) => w.(bytes := w.bytes - n, pc := if n < RECV_SIZE then Taking else Draining)
    case RecvError => w.(pc := Taking)
    case Take => w.(batch := w.pending, pending := [], pc := Processing, missed := false)
    case Process => w.(processed := w.processed + [w.batch[0]], batch := w.batch[1..])
    case BatchDone => w.(pc := Checking)
    case Check => w.(pc := if w.stopping then Exited else Waiting)
    case Stop(t) => w.(stopping := true,
                       notifying := if w.phase == Started then w.notifying + {t} else w.notifying)
    case Join => w.(phase := Joined)
    case FreeTake => w.(phase := Releasing, batch := w.pending, pending := [])
    case Release => w.(released := w.released + [w.batch[0]], batch := w.batch[1..])
    case FreeDone => w.(phase := Freed)
  }

  ghost predicate IsRun(w: Worker, es: seq<Event>)
    decreases |es|
  {
    es == [] || (Enabled(w, es[0]) && IsRun(Step(w, es[0]), es[1..]))
  }

  ghost function Run(w: Worker, es: seq<Event>): Worker
    requires IsRun(w, es)
    decreases |es|
  {
    if es == [] then w else Run(Step(w, es[0]), es[1..])
  }

  // ---- Invariant -------------------------------------------------------------------------------

  /** Every accepted message is in exactly one place, and the places are in lock order. */
  ghost predicate Conserved(w: Worker) {
    && w.accepted == w.processed + w.released + w.batch + w.pending
    && (w.phase !in {Releasing, Freed} ==> w.released == [])
    && (w.phase == Freed ==> w.batch == [])
  }

  /** The two life cycles are in step: one thread at a time holds a batch. */
  ghost predicate InPhase(w: Worker) {
    && (w.phase == Created ==> w.pc == NotStarted)
    && (w.pc == NotStarted ==> w.phase in {Created, Releasing, Freed})
    && (w.phase in {Joined, Releasing, Freed} ==> w.pc in {NotStarted, Exited})
    && (w.phase == Joined ==> w.pc == Exited)
    && (w.pc == Exited ==> w.stopping)
    && (w.phase in {Releasing, Freed} ==> w.stopping && w.pending == [])
    && (w.batch != [] ==> w.pc == Processing || w.phase == Releasing)
  }

  /** Work that nobody is about to announce has been announced, or will be seen without it. */
  ghost predicate Announced(w: Worker) {
    && (w.pending != [] && w.notifying == {} && w.pc != Exited ==>
          w.bytes > 0 || w.pc == Draining || w.pc == Taking)
    && (w.stopping && w.notifying == {} && w.phase == Started && w.pc != Exited ==>
          w.bytes > 0 || w.pc != Waiting)
  }

  ghost predicate Inv(w: Worker) {
    Conserved(w) && InPhase(w) && (if w.missed then w.bytes == 0 && w.sendFailed else Announced(w))
  }

  lemma StepKeepsInv(w: Worker, e: Event)
    requires Inv(w) && Enabled(w, e)
    ensures Inv(Step(w, e))
  {
    var w' := Step(w, e);
    if e.Send? && e.outcome != Failed {
      assert w'.bytes > 0;
    }
    if e.Enqueue? || e.Stop? {
      assert w'.notifying != w.notifying ==> e.thread in w'.notifying;
    }
  }

  lemma {:induction false} RunKeepsInv(w: Worker, es: seq<Event>)
    requires Inv(w) && IsRun(w, es)
    ensures Inv(Run(w, es))
    decreases |es|
  {
    if es != [] {
      StepKeepsInv(w, es[0]);
      RunKeepsInv(Step(w, es[0]), es[1..]);
    }
  }

  lemma {:induction false} RunHistoryOfFailure(w: Worker, es: seq<Event>)
    requires IsRun(w, es)
    ensures Run(w, es).sendFailed <==>
            w.sendFailed || exists i :: 0 <= i < |es| && es[i].Send? && es[i].outcome == Failed
    decreases |es|
  {
    if es != [] {
      var rest := es[1..];
      RunHistoryOfFailure(Step(w, es[0]), rest);
      assert forall i :: 0 < i < |es| ==> es[i] == rest[i - 1];
      assert forall j :: 0 <= j < |rest| ==> rest[j] == es[j + 1];
    }
  }

  // ---- No lost wake-up -------------------------------------------------------------------------

  ghost predicate NoSendFailed(es: seq<Event>) {
    forall i :: 0 <= i < |es| && es[i].Send? ==> es[i].outcome != Failed
  }

  /** In every interleaving without a failed send, and whatever sends were dropped as would-block,
      queued work or a stop request is seen by the worker without any further event of a producer. */
  lemma NoLostWakeup(es: seq<Event>)
    requires IsRun(INIT, es) && NoSendFailed(es)
    ensures var w := Run(INIT, es);
            w.notifying == {} && w.pc != Exited ==>
              && (w.pending != [] ==> w.bytes > 0 || w.pc == Draining || w.pc == Taking)
              && (w.stopping && w.phase == Started ==>
                    w.bytes > 0 || w.pc in {Draining, Taking, Processing, Checking})
  {
    RunKeepsInv(INIT, es);
    RunHistoryOfFailure(INIT, es);
  }

  /** On every run, failed sends or not: a waiting worker with something to do sleeps through it
      exactly if the last word on the socket was a failed send that found it silent. */
  lemma SleepsThroughIff(es: seq<Event>)
    requires IsRun(INIT, es)
    ensures var w := Run(INIT, es);
            w.pc == Waiting && w.notifying == {} && (w.pending != [] || w.stopping) ==> (w.bytes == 0 <==> w.missed)
  {
    RunKeepsInv(INIT, es);
  }

  /** A worker that sleeps on a silent socket has nothing left to do. */
  lemma SleepingMeansDone(es: seq<Event>)
    requires IsRun(INIT, es)
    requires var w := Run(INIT, es); w.pc == Waiting && w.bytes == 0 && w.notifying == {} && !w.missed
    ensures var w := Run(INIT, es); w.pending == [] && !w.stopping && w.accepted == w.processed
  {
    RunKeepsInv(INIT, es);
  }

  /** The hypothesis on failed sends is needed: one of them strands a message. */
  lemma FailedSendStrandsMessage(m: Msg)
    ensures exists es :: IsRun(INIT, es) &&
              var w := Run(INIT, es);
              w.pc == Waiting && w.bytes == 0 && w.notifying == {} && w.pending == [m]
  {
    var w1 := Step(INIT, Start);
    var w2 := Step(w1, Enqueue(0, m));
    var w3 := Step(w2, Send(0, Failed));
    assert w3.notifying == {};
    var es := [Start, Enqueue(0, m), Send(0, Failed)];
    assert es[1..] == [Enqueue(0, m), Send(0, Failed)];
    assert es[1..][1..] == [Send(0, Failed)];
    assert IsRun(w3, []) && IsRun(w2, [Send(0, Failed)]) && IsRun(w1, es[1..]) && IsRun(INIT, es);
    assert Run(w2, [Send(0, Failed)]) == w3 && Run(w1, es[1..]) == w3;
    assert Run(INIT, es) == w3;
  }

  // ---- First in, first out, exactly once -------------------------------------------------------

  lemma FifoOnEveryRun(es: seq<Event>)
    requires IsRun(INIT, es)
    ensures var w := Run(INIT, es);
            && w.accepted == w.processed + w.released + w.batch + w.pending
            && (w.phase in {Created, Started, Joined} ==> w.accepted == w.processed + w.batch + w.pending)
            && (w.phase == Freed ==> w.accepted == w.processed + w.released)
  {
    RunKeepsInv(INIT, es);
  }

  /** After worker_free the message at any position of the accepted order was disposed of once:
      by the worker thread if it is early enough, by worker_free otherwise. */
  lemma DisposedOfOnce(es: seq<Event>, i: nat)
    requires IsRun(INIT, es) && Run(INIT, es).phase == Freed && i < |Run(INIT, es).accepted|
    ensures var w := Run(INIT, es);
            && |w.accepted| == |w.processed| + |w.released|
            && (i < |w.processed| ==> w.processed[i] == w.accepted[i])
            && (i >= |w.processed| ==> w.released[i - |w.processed|] == w.accepted[i])
  {
    FifoOnEveryRun(es);
  }

  /** The messages handed to worker_enqueue_msg before the first stop, and those after it. */
  ghost function Offered(es: seq<Event>, stopping: bool): (seq<Msg>, seq<Msg>) {
    if es == [] then ([], [])
    else
      var (early, late) := Offered(es[1..], stopping || es[0].Stop?);
      if !es[0].Enqueue? then (early, late)
      else if stopping then (early, [es[0].msg] + late)
      else ([es[0].msg] + early, late)
  }

  lemma {:induction false} OfferedFrom(w: Worker, es: seq<Event>)
    requires IsRun(w, es)
    ensures Run(w, es).accepted == w.accepted + Offered(es, w.stopping).0
    ensures Run(w, es).refused == w.refused + Offered(es, w.stopping).1
    decreases |es|
  {
    if es != [] {
      var w', rest := Step(w, es[0]), es[1..];
      OfferedFrom(w', rest);
      var (early, late) := Offered(rest, w'.stopping);
      if es[0].Enqueue? {
        Glue(w.accepted, es[0].msg, early);
        Glue(w.refused, es[0].msg, late);
      }
    }
  }

  lemma Glue(a: seq<Msg>, m: Msg, b: seq<Msg>)
    ensures (a + [m]) + b == a + ([m] + b)
  {
  }

  /** On every run: the messages queued before the first stop are accepted, in order, and those after
      it are refused and disposed of at once. */
  lemma AcceptedUntilStop(es: seq<Event>)
    requires IsRun(INIT, es)
    ensures Run(INIT, es).accepted == Offered(es, false).0 && Run(INIT, es).refused == Offered(es, false).1
  {
    OfferedFrom(INIT, es);
  }

  /** The drain goes on as long as a receive fills the buffer of 128 bytes. */
  lemma DrainGoesOnIff(w: Worker, e: Event)
    requires w.pc == Draining && Enabled(w, e) && IsWorkerEvent(e)
    ensures Step(w, e).pc == Draining <==> e == Recv(128)
  {
  }

  // ---- Shutdown --------------------------------------------------------------------------------

  predicate IsWorkerEvent(e: Event) {
    e.Dispatch? || e.Recv? || e.RecvError? || e.Take? || e.Process? || e.BatchDone? || e.Check?
  }

  /** An upper bound on the events of the worker thread before it exits, once `stopping` is set. */
  ghost function WorkLeft(w: Worker): nat {
    match w.pc
    case NotStarted => 0
    case Waiting => 5 + w.bytes + |w.pending|
    case Draining => 4 + w.bytes + |w.pending|
    case Taking => 3 + |w.pending|
    case Processing => 2 + |w.batch|
    case Checking => 1
    case Exited => 0
  }

  ghost function WorkerEvents(es: seq<Event>): nat {
    if es == [] then 0 else (if IsWorkerEvent(es[0]) then 1 else 0) + WorkerEvents(es[1..])
  }

  ghost function Sends(es: seq<Event>): nat {
    if es == [] then 0 else (if es[0].Send? then 1 else 0) + Sends(es[1..])
  }

  lemma StepSpendsWork(w: Worker, e: Event)
    requires Inv(w) && w.stopping && Enabled(w, e)
    ensures var w' := Step(w, e);
            && w'.stopping
            && WorkLeft(w') + (if IsWorkerEvent(e) then 1 else 0) <= WorkLeft(w) + (if e.Send? then 1 else 0)
  {
  }

  /** However the run goes on after worker_stop, the worker thread performs a bounded number of
      events: what was left to do at that moment, and one for every send that was still due. */
  lemma {:induction false} StopIsPrompt(w: Worker, es: seq<Event>)
    requires Inv(w) && w.stopping && IsRun(w, es)
    ensures WorkerEvents(es) + WorkLeft(Run(w, es)) <= WorkLeft(w) + Sends(es)
    decreases |es|
  {
    if es != [] {
      StepKeepsInv(w, es[0]);
      StepSpendsWork(w, es[0]);
      StopIsPrompt(Step(w, es[0]), es[1..]);
    }
  }

  /** ... and until it has exited it always has an event to perform, so worker_join returns. */
  lemma StopNeverHangs(es: seq<Event>) returns (e: Event)
    requires IsRun(INIT, es)
    requires var w := Run(INIT, es);
             w.stopping && w.phase == Started && w.notifying == {} && w.pc != Exited && !w.missed
    ensures IsWorkerEvent(e) && Enabled(Run(INIT, es), e)
  {
    RunKeepsInv(INIT, es);
    var w := Run(INIT, es);
    match w.pc {
      case Waiting => e := Dispatch;
      case Draining => e := RecvError;
      case Taking => e := Take;
      case Processing => e := if w.batch == [] then BatchDone else Process;
      case Checking => e := Check;
    }
  }

  // ---- Every queued message is served ----------------------------------------------------------

  /** The worker events that may still pass before the k-th accepted message is processed, while
      the worker is not stopping: the rest of the batch before it, a turn through the event loop
      with the bytes to drain, and the messages queued ahead of it. */
  ghost function ServeLeft(w: Worker, k: nat): nat
    requires Inv(w) && w.phase == Started && k < |w.accepted|
  {
    if k < |w.processed| then 0
    else if k < |w.processed| + |w.batch| then k - |w.processed| + 1
    else
      var ahead := k - |w.processed| - |w.batch|;
      match w.pc
      case Taking => ahead + 2
      case Draining => ahead + 3 + w.bytes
      case Waiting => ahead + 4 + w.bytes
      case Checking => ahead + 5 + w.bytes
      case Processing => ahead + 6 + w.bytes + |w.batch|
      case _ => 0
  }

  lemma StepServes(w: Worker, e: Event, k: nat)
    requires Inv(w) && w.phase == Started && !w.stopping && k < |w.accepted| && Enabled(w, e) && !e.Stop?
    ensures var w' := Step(w, e);
            && Inv(w') && w'.phase == Started && !w'.stopping && k < |w'.accepted|
            && (|w.processed| <= k ==>
                  ServeLeft(w', k) + (if IsWorkerEvent(e) then 1 else 0)
                  <= ServeLeft(w, k) + (if e.Send? then 1 else 0))
            && (k < |w.processed| ==> k < |w'.processed|)
  {
    StepKeepsInv(w, e);
  }

  /** Producers cannot starve a message: however many messages are queued behind it, after as many
      worker events as its place in the protocol asks for, and one more for each byte sent
      meanwhile, the k-th accepted message has been processed. */
  lemma {:induction false} EveryMessageIsServed(w: Worker, es: seq<Event>, k: nat)
    requires Inv(w) && w.phase == Started && !w.stopping && k < |w.accepted| && IsRun(w, es)
    requires forall i :: 0 <= i < |es| ==> !es[i].Stop?
    requires WorkerEvents(es) >= ServeLeft(w, k) + Sends(es)
    ensures var w' := Run(w, es);
            k < |w'.processed| && k < |w'.accepted| && w'.processed[k] == w'.accepted[k]
    decreases |es|
  {
    RunKeepsInv(w, es);
    if es == [] {
      assert ServeLeft(w, k) == 0;
    } else {
      var w1 := Step(w, es[0]);
      StepServes(w, es[0], k);
      assert forall i :: 0 <= i < |es[1..]| ==> es[1..][i] == es[i + 1];
      if k < |w1.processed| {
        ProcessedStays(w1, es[1..], k);
      } else {
        EveryMessageIsServed(w1, es[1..], k);
      }
    }
  }

  lemma {:induction false} ProcessedStays(w: Worker, es: seq<Event>, k: nat)
    requires Inv(w) && k < |w.processed| && IsRun(w, es)
    ensures Inv(Run(w, es)) && k < |Run(w, es).processed|
    decreases |es|
  {
    if es != [] {
      StepKeepsInv(w, es[0]);
      ProcessedStays(Step(w, es[0]), es[1..], k);
    }
  }
}
