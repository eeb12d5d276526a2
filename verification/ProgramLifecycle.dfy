/**
 The whole program around the workers: the main thread accepts clients and hands them to a pool of
 workers, and at exit stops the listeners, stops and joins the workers and frees them.

 The subject is the ownership of accepted client descriptors.  A descriptor stands for one accepted
 connection, not for its reusable number.  It is held by accept_cb, by one queued or taken message,
 by a connection, or it is closed; `closed` counts how often.
 */
module ProgramLifecycle {
  import opened WorkerProtocol

  /** The thread id the main thread uses when it notifies a worker. */
  const MAIN := 0

  datatype MainPc =
    | Serving                       // in the event loop, listeners open
    | Accepting(fd: nat)            // inside accept_cb, before the hand-off
    | Handing(worker: nat)          // queued, about to notify
    | StoppingPool(next: nat)       // listeners closed, worker_pool_stop
    | StopNotify(worker: nat)
    | JoiningPool(next: nat)
    | FreeingPool(next: nat)        // before the worker_stop that worker_free starts with
    | FreeingWorker(worker: nat)    // after it
    | Done

  datatype Program = Program(
    main: MainPc,
    workers: seq<Worker>,
    conns: multiset<nat>,           // descriptors owned by a stream connection
    closed: multiset<nat>,          // closesocket calls
    issued: nat                     // descriptors 0 .. issued-1 have been accepted
  )

  datatype Event =
    | AcceptClient                          // the listener calls accept_cb with a new descriptor
    | AcceptFails                           // bad address, no worker, or no memory for the message
    | HandOff(worker: nat)                  // worker_enqueue_msg's lock section
    | QueuePacket(worker: nat, msg: Msg)    // a datagram listener queues a packet
    | MainSends(outcome: SendOutcome)
    | WorkerActs(worker: nat, event: WorkerProtocol.Event, adopted: bool)
    | ConnFreed(fd: nat)
    | StopListeners
    | StopNext
    | JoinNext
    | FreeNext
    | FreeTakes
    | FreeReleases
    | FreeEnds

  predicate Enabled(p: Program, e: Event) {
    match e
    case AcceptClient => p.main == Serving
    case AcceptFails => p.main.Accepting?
    case HandOff(i) => p.main.Accepting? && i < |p.workers| && WorkerProtocol.Enabled(p.workers[i], Enqueue(MAIN, StreamClient(p.main.fd)))
    case QueuePacket(i, m) => p.main == Serving && m.DatagramPacket? && i < |p.workers| &&
                              WorkerProtocol.Enabled(p.workers[i], Enqueue(MAIN, m))
    case MainSends(o) => (p.main.Handing? || p.main.StopNotify?) && p.main.worker < |p.workers| &&
                         WorkerProtocol.Enabled(p.workers[p.main.worker], Send(MAIN, o))
    case WorkerActs(i, we, _) => i < |p.workers| && IsWorkerEvent(we) && WorkerProtocol.Enabled(p.workers[i], we)
    case ConnFreed(fd) => fd in p.conns
    case StopListeners => p.main == Serving
    case StopNext => p.main.StoppingPool? &&
                     (p.main.next < |p.workers| ==> WorkerProtocol.Enabled(p.workers[p.main.next], Stop(MAIN)))
    case JoinNext => p.main.JoiningPool? &&
                     (p.main.next < |p.workers| && p.workers[p.main.next].phase == Started ==>
                        WorkerProtocol.Enabled(p.workers[p.main.next], Join))
    case FreeNext => p.main.FreeingPool? &&
                     (p.main.next < |p.workers| ==>
                        p.workers[p.main.next].phase != Started && WorkerProtocol.Enabled(p.workers[p.main.next], Stop(MAIN)))
    case FreeTakes => p.main.FreeingWorker? && p.main.worker < |p.workers| &&
                      WorkerProtocol.Enabled(p.workers[p.main.worker], FreeTake)
    case FreeReleases => p.main.FreeingWorker? && p.main.worker < |p.workers| &&
                         WorkerProtocol.Enabled(p.workers[p.main.worker], Release)
    case FreeEnds => p.main.FreeingWorker? && p.main.worker < |p.workers| &&
                     WorkerProtocol.Enabled(p.workers[p.main.worker], FreeDone)
  }

  function FdOf(m: Msg): multiset<nat> {
    if m.StreamClient? then multiset{m.fd} else multiset{}
  }

  function WithWorker(p: Program, i: nat, e: WorkerProtocol.Event): Program
    requires i < |p.workers| && WorkerProtocol.Enabled(p.workers[i], e)
  {
    p.(workers := p.workers[i := WorkerProtocol.Step(p.workers[i], e)])
  }

  function Step(p: Program, e: Event): Program
    requires Enabled(p, e)
  {
    match e
    case AcceptClient => p.(main := Accepting(p.issued), issued := p.issued + 1)
    case AcceptFails => p.(main := Serving, closed := p.closed + multiset{p.main.fd})
    case HandOff(i) =>
      var m := StreamClient(p.main.fd);
      var p' := WithWorker(p, i, Enqueue(MAIN, m));
      if p.workers[i].stopping then
        // free_worker_msg closes the descriptor, and so does accept_cb when it sees the error
        p'.(main := Serving, closed := p.closed + FdOf(m) + multiset{p.main.fd})
      else
        p'.(main := Handing(i))
    case QueuePacket(i, m) =>
      var p' := WithWorker(p, i, Enqueue(MAIN, m));
      if p.workers[i].stopping then p' else p'.(main := Handing(i))
    case MainSends(o) =>
      var p' := WithWorker(p, p.main.worker, Send(MAIN, o));
      p'.(main := if p.main.Handing? then Serving else StoppingPool(p.main.worker + 1))
    case WorkerActs(i, we, adopted) =>
      var p' := WithWorker(p, i, we);
      if !we.Process? then p'
      else
        var fds := FdOf(p.workers[i].batch[0]);
        if adopted then p'.(conns := p.conns + fds) else p'.(closed := p.closed + fds)
    case ConnFreed(fd) => p.(conns := p.conns - multiset{fd}, closed := p.closed + multiset{fd})
    case StopListeners => p.(main := StoppingPool(0))
    case StopNext =>
      var i := p.main.next;
      if i >= |p.workers| then p.(main := JoiningPool(0))
      else
        WithWorker(p, i, Stop(MAIN)).(
          main := if p.workers[i].phase == Started then StopNotify(i) else StoppingPool(i + 1))
    case JoinNext =>
      var i := p.main.next;
      if i >= |p.workers| then p.(main := FreeingPool(0))
      else if p.workers[i].phase != Started then p.(main := JoiningPool(i + 1))
      else WithWorker(p, i, Join).(main := JoiningPool(i + 1))
    case FreeNext =>
      var i := p.main.next;
      if i >= |p.workers| then p.(main := Done)
      else WithWorker(p, i, Stop(MAIN)).(main := FreeingWorker(i))
    case FreeTakes => WithWorker(p, p.main.worker, FreeTake)
    case FreeReleases =>
      WithWorker(p, p.main.worker, Release).(
        closed := p.closed + FdOf(p.workers[p.main.worker].batch[0]))
    case FreeEnds => WithWorker(p, p.main.worker, FreeDone).(main := FreeingPool(p.main.worker + 1))
  }

  const STARTED_WORKER := INIT.(phase := Started, pc := Waiting)

  /** The state in which main enters the event loop: the pool is started and nothing is queued. */
  ghost predicate IsInitial(p: Program) {
    && p.main == Serving && p.conns == multiset{} && p.closed == multiset{} && p.issued == 0
    && forall i :: 0 <= i < |p.workers| ==> p.workers[i] == STARTED_WORKER
  }

  ghost predicate IsRun(p: Program, es: seq<Event>)
    decreases |es|
  {
    es == [] || (Enabled(p, es[0]) && IsRun(Step(p, es[0]), es[1..]))
  }

  ghost function Run(p: Program, es: seq<Event>): Program
    requires IsRun(p, es)
    decreases |es|
  {
    if es == [] then p else Run(Step(p, es[0]), es[1..])
  }

  // ---- Ownership -------------------------------------------------------------------------------

  /** How many of these messages carry the descriptor. */
  ghost function InMessages(ms: seq<Msg>, fd: nat): nat {
    if ms == [] then 0 else FdOf(ms[0])[fd] + InMessages(ms[1..], fd)
  }

  ghost function InWorker(w: Worker, fd: nat): nat {
    InMessages(w.batch, fd) + InMessages(w.pending, fd)
  }

  ghost function InPool(ws: seq<Worker>, fd: nat): nat {
    if ws == [] then 0 else InWorker(ws[0], fd) + InPool(ws[1..], fd)
  }

  /** How many holders the descriptor has, a closesocket call counting as one. */
  ghost function Holders(p: Program, fd: nat): nat {
    (if p.main == Accepting(fd) then 1 else 0) + InPool(p.workers, fd) + p.conns[fd] + p.closed[fd]
  }

  lemma {:induction false} InMessagesConcat(a: seq<Msg>, b: seq<Msg>, fd: nat)
    ensures InMessages(a + b, fd) == InMessages(a, fd) + InMessages(b, fd)
  {
    if a == [] {
      assert a + b == b;
    } else {
      assert (a + b)[0] == a[0] && (a + b)[1..] == a[1..] + b;
      InMessagesConcat(a[1..], b, fd);
    }
  }

  lemma {:induction false} InPoolUpdate(ws: seq<Worker>, i: nat, w: Worker, fd: nat)
    requires i < |ws|
    ensures InPool(ws[i := w], fd) + InWorker(ws[i], fd) == InPool(ws, fd) + InWorker(w, fd)
  {
    var us := ws[i := w];
    if i == 0 {
      assert us[1..] == ws[1..];
    } else {
      assert us[1..] == ws[1..][i - 1 := w] && us[0] == ws[0];
      InPoolUpdate(ws[1..], i - 1, w, fd);
    }
  }

  /** What a worker event does to the descriptors the worker holds. */
  lemma InWorkerStep(w: Worker, e: WorkerProtocol.Event, fd: nat)
    requires WorkerProtocol.Inv(w) && WorkerProtocol.Enabled(w, e)
    ensures var n := InWorker(WorkerProtocol.Step(w, e), fd);
            match e
            case Enqueue(_, m) => n == InWorker(w, fd) + if w.stopping then 0 else FdOf(m)[fd]
            case Process => n + FdOf(w.batch[0])[fd] == InWorker(w, fd)
            case Release => n + FdOf(w.batch[0])[fd] == InWorker(w, fd)
            case _ => n == InWorker(w, fd)
  {
    if e.Enqueue? {
      InMessagesConcat(w.pending, [e.msg], fd);
      assert InMessages([e.msg], fd) == FdOf(e.msg)[fd];
    }
  }

  /** The worker event, if any, that an event of the program consists of. */
  ghost function Inner(p: Program, e: Event): (r: (bool, nat, WorkerProtocol.Event))
    requires Enabled(p, e)
    ensures r.0 ==> r.1 < |p.workers| && WorkerProtocol.Enabled(p.workers[r.1], r.2)
    ensures !r.0 ==> Step(p, e).workers == p.workers
    ensures r.0 ==> Step(p, e).workers == p.workers[r.1 := WorkerProtocol.Step(p.workers[r.1], r.2)]
  {
    match e
    case HandOff(i) => (true, i, Enqueue(MAIN, StreamClient(p.main.fd)))
    case QueuePacket(i, m) => (true, i, Enqueue(MAIN, m))
    case MainSends(o) => (true, p.main.worker, Send(MAIN, o))
    case WorkerActs(i, we, _) => (true, i, we)
    case StopNext => (p.main.next < |p.workers|, p.main.next, Stop(MAIN))
    case JoinNext => (p.main.next < |p.workers| && p.workers[p.main.next].phase == Started, p.main.next, Join)
    case FreeNext => (p.main.next < |p.workers|, p.main.next, Stop(MAIN))
    case FreeTakes => (true, p.main.worker, FreeTake)
    case FreeReleases => (true, p.main.worker, Release)
    case FreeEnds => (true, p.main.worker, FreeDone)
    case _ => (false, 0, Start)
  }

  ghost predicate WorkersInv(ws: seq<Worker>) {
    forall i :: 0 <= i < |ws| ==> WorkerProtocol.Inv(ws[i])
  }

  /** Until the listeners are closed, no worker is stopping. */
  ghost predicate ListenersFirst(p: Program) {
    p.main.Serving? || p.main.Accepting? || p.main.Handing? ==>
      forall i :: 0 <= i < |p.workers| ==> !p.workers[i].stopping
  }

  lemma StepKeepsWorkers(p: Program, e: Event)
    requires Enabled(p, e) && WorkersInv(p.workers)
    ensures WorkersInv(Step(p, e).workers)
  {
    var inner := Inner(p, e);
    if inner.0 {
      StepKeepsInv(p.workers[inner.1], inner.2);
    }
  }

  lemma StepKeepsListenersFirst(p: Program, e: Event)
    requires Enabled(p, e) && ListenersFirst(p)
    ensures ListenersFirst(Step(p, e))
  {
    if e.WorkerActs? {
      forall i: nat | i < |p.workers| ensures !Step(p, e).workers[i].stopping || p.workers[i].stopping {
        WorkerFrame(p, e, i);
      }
    }
  }

  /** What the pool as a whole gains by a queued message and loses by a finished one. */
  lemma StepOfPool(p: Program, i: nat, e: WorkerProtocol.Event, fd: nat)
    requires WorkersInv(p.workers) && i < |p.workers| && WorkerProtocol.Enabled(p.workers[i], e)
    ensures var w := p.workers[i];
            InPool(p.workers[i := WorkerProtocol.Step(w, e)], fd) ==
            InPool(p.workers, fd) +
            (if e.Enqueue? && !w.stopping then FdOf(e.msg)[fd]
             else if e.Process? || e.Release? then 0 - FdOf(w.batch[0])[fd] as int
             else 0)
  {
    InWorkerStep(p.workers[i], e, fd);
    InPoolUpdate(p.workers, i, WorkerProtocol.Step(p.workers[i], e), fd);
  }

  predicate MovesDescriptor(e: Event) {
    e.AcceptClient? || e.AcceptFails? || e.HandOff? || e.ConnFreed? || e.FreeReleases? ||
    (e.WorkerActs? && e.event.Process?)
  }

  lemma OthersKeepHolders(p: Program, e: Event, fd: nat)
    requires Enabled(p, e) && WorkersInv(p.workers) && !MovesDescriptor(e)
    ensures Holders(Step(p, e), fd) == Holders(p, fd)
  {
    var inner := Inner(p, e);
    if inner.0 {
      StepOfPool(p, inner.1, inner.2, fd);
    }
  }

  /** The balance of a step: what one holder loses, another gains. */
  lemma StepKeepsHolders(p: Program, e: Event, fd: nat)
    requires Enabled(p, e) && WorkersInv(p.workers) && ListenersFirst(p)
    ensures Holders(Step(p, e), fd) == Holders(p, fd) + if e.AcceptClient? && fd == p.issued then 1 else 0
  {
    if !MovesDescriptor(e) {
      OthersKeepHolders(p, e, fd);
    } else if e.HandOff? {
      StepOfPool(p, e.worker, Enqueue(MAIN, StreamClient(p.main.fd)), fd);
    } else if e.WorkerActs? {
      StepOfPool(p, e.worker, e.event, fd);
    } else if e.FreeReleases? {
      StepOfPool(p, p.main.worker, Release, fd);
    }
  }

  lemma {:induction false} RunKeepsHolders(p: Program, es: seq<Event>, fd: nat)
    requires WorkersInv(p.workers) && ListenersFirst(p) && IsRun(p, es)
    requires Holders(p, fd) == if fd < p.issued then 1 else 0
    ensures var q := Run(p, es);
            WorkersInv(q.workers) && ListenersFirst(q) && Holders(q, fd) == if fd < q.issued then 1 else 0
    decreases |es|
  {
    if es != [] {
      StepKeepsHolders(p, es[0], fd);
      StepKeepsWorkers(p, es[0]);
      StepKeepsListenersFirst(p, es[0]);
      RunKeepsHolders(Step(p, es[0]), es[1..], fd);
    }
  }

  lemma {:induction false} NothingHeldInitially(ws: seq<Worker>, fd: nat)
    requires forall i :: 0 <= i < |ws| ==> ws[i] == STARTED_WORKER
    ensures InPool(ws, fd) == 0 && WorkersInv(ws)
  {
    assert WorkerProtocol.Inv(STARTED_WORKER);
    if ws != [] {
      NothingHeldInitially(ws[1..], fd);
    }
  }

  /** On every run of the program every accepted descriptor has exactly one holder, counting each
      closesocket call as one: it is never dropped, never shared and never closed twice. */
  lemma OneOwnerOnEveryRun(p: Program, es: seq<Event>, fd: nat)
    requires IsInitial(p) && IsRun(p, es) && fd < Run(p, es).issued
    ensures Holders(Run(p, es), fd) == 1 && Run(p, es).closed[fd] <= 1
  {
    NothingHeldInitially(p.workers, fd);
    RunKeepsHolders(p, es, fd);
  }

  /** The order of the teardown is what this rests on.  Handing a descriptor to a worker closes it
      twice exactly when that worker is already stopping. */
  lemma HandOffClosesTwiceIffStopping(p: Program, i: nat)
    requires Enabled(p, HandOff(i))
    ensures var fd := p.main.fd;
            var q := Step(p, HandOff(i));
            && (p.workers[i].stopping <==> q.closed[fd] == p.closed[fd] + 2)
            && (!p.workers[i].stopping <==> q.closed == p.closed)
  {
    if !p.workers[i].stopping {
      assert Step(p, HandOff(i)).closed == p.closed;
    }
  }

  // ---- Exit ------------------------------------------------------------------------------------

  /** What main knows about worker i at each point of its life. */
  ghost predicate InSync(p: Program, i: nat)
    requires i < |p.workers|
  {
    var w := p.workers[i];
    && w.notifying == (if p.main == Handing(i) || p.main == StopNotify(i) then {MAIN} else {})
    && match p.main
       case StoppingPool(n) => w.phase == Started && (i < n ==> w.stopping)
       case StopNotify(n) => w.phase == Started && (i <= n ==> w.stopping)
       case JoiningPool(n) => w.stopping && w.phase == if i < n then Joined else Started
       case FreeingPool(n) => w.stopping && w.phase == if i < n then Freed else Joined
       case FreeingWorker(n) => w.stopping && (w.phase == (if i < n then Freed else Joined) || (i == n && w.phase == Releasing))
       case Done => w.phase == Freed
       case _ => w.phase == Started
  }

  ghost predicate AllInSync(p: Program) {
    && (p.main.Handing? || p.main.StopNotify? || p.main.FreeingWorker? ==> p.main.worker < |p.workers|)
    && forall i :: 0 <= i < |p.workers| ==> InSync(p, i)
  }

  /** The part of a worker that main relies on changes only by main's own events. */
  lemma SyncFrame(p: Program, e: Event, i: nat)
    requires Enabled(p, e) && i < |p.workers| && (e.WorkerActs? || Inner(p, e).1 != i || !Inner(p, e).0)
    ensures var q := Step(p, e);
            && |q.workers| == |p.workers|
            && q.workers[i].phase == p.workers[i].phase
            && q.workers[i].stopping == p.workers[i].stopping
            && q.workers[i].notifying == p.workers[i].notifying
            && (e.WorkerActs? ==> q.main == p.main)
  {
    if e.WorkerActs? {
      WorkerFrame(p, e, i);
    }
  }

  lemma WorkerFrame(p: Program, e: Event, i: nat)
    requires Enabled(p, e) && i < |p.workers| && e.WorkerActs?
    ensures var q := Step(p, e);
            && |q.workers| == |p.workers|
            && q.workers[i].phase == p.workers[i].phase
            && q.workers[i].stopping == p.workers[i].stopping
            && q.workers[i].notifying == p.workers[i].notifying
            && q.main == p.main
  {
  }

  lemma ServeKeepsSync(p: Program, e: Event)
    requires AllInSync(p) && ListenersFirst(p) && Enabled(p, e) && (e.HandOff? || e.QueuePacket? || e.MainSends?)
    ensures |Step(p, e).workers| == |p.workers| && InSync(Step(p, e), Inner(p, e).1)
  {
    assert InSync(p, Inner(p, e).1);
  }

  lemma TeardownKeepsSync(p: Program, e: Event)
    requires AllInSync(p) && Enabled(p, e) && Inner(p, e).0
    requires e.StopNext? || e.JoinNext? || e.FreeNext? || e.FreeTakes? || e.FreeReleases? || e.FreeEnds?
    ensures |Step(p, e).workers| == |p.workers| && InSync(Step(p, e), Inner(p, e).1)
  {
    assert InSync(p, Inner(p, e).1);
  }

  lemma StepKeepsSyncInner(p: Program, e: Event)
    requires AllInSync(p) && ListenersFirst(p) && Enabled(p, e) && !e.WorkerActs? && Inner(p, e).0
    ensures |Step(p, e).workers| == |p.workers| && InSync(Step(p, e), Inner(p, e).1)
  {
    if e.HandOff? || e.QueuePacket? || e.MainSends? {
      ServeKeepsSync(p, e);
    } else {
      TeardownKeepsSync(p, e);
    }
  }

  lemma StepKeepsSync(p: Program, e: Event, i: nat)
    requires AllInSync(p) && ListenersFirst(p) && Enabled(p, e) && i < |p.workers|
    ensures |Step(p, e).workers| == |p.workers| && InSync(Step(p, e), i)
  {
    assert InSync(p, i);
    if !e.WorkerActs? && Inner(p, e).0 && Inner(p, e).1 == i {
      StepKeepsSyncInner(p, e);
    } else {
      SyncFrame(p, e, i);
    }
  }

  lemma StepKeepsAllInSync(p: Program, e: Event)
    requires AllInSync(p) && ListenersFirst(p) && Enabled(p, e)
    ensures AllInSync(Step(p, e))
  {
    forall i: nat | i < |p.workers| ensures |Step(p, e).workers| == |p.workers| && InSync(Step(p, e), i) {
      StepKeepsSync(p, e, i);
    }
  }

  lemma {:induction false} RunKeepsSync(p: Program, es: seq<Event>)
    requires AllInSync(p) && ListenersFirst(p) && WorkersInv(p.workers) && IsRun(p, es)
    ensures AllInSync(Run(p, es)) && WorkersInv(Run(p, es).workers) && ListenersFirst(Run(p, es))
    decreases |es|
  {
    if es != [] {
      StepKeepsAllInSync(p, es[0]);
      StepKeepsWorkers(p, es[0]);
      StepKeepsListenersFirst(p, es[0]);
      RunKeepsSync(Step(p, es[0]), es[1..]);
    }
  }

  lemma InitialIsInSync(p: Program)
    requires IsInitial(p)
    ensures AllInSync(p) && ListenersFirst(p) && WorkersInv(p.workers)
  {
    forall i | 0 <= i < |p.workers| ensures InSync(p, i) {
      assert p.workers[i] == STARTED_WORKER;
    }
    NothingHeldInitially(p.workers, 0);
  }

  lemma ReachableIsInSync(p: Program, es: seq<Event>)
    requires IsInitial(p) && IsRun(p, es)
    ensures AllInSync(Run(p, es)) && WorkersInv(Run(p, es).workers) && ListenersFirst(Run(p, es))
  {
    InitialIsInSync(p);
    RunKeepsSync(p, es);
  }

  lemma {:induction false} FreedPoolHoldsNothing(ws: seq<Worker>, fd: nat)
    requires WorkersInv(ws) && forall i :: 0 <= i < |ws| ==> ws[i].phase == Freed
    ensures InPool(ws, fd) == 0
  {
    if ws != [] {
      assert ws[0].batch == [] && ws[0].pending == [];
      FreedPoolHoldsNothing(ws[1..], fd);
    }
  }

  /** When main returns no queue holds a descriptor: each was closed once, or still belongs to the
      one connection that adopted it. */
  lemma NothingQueuedAtExit(p: Program, es: seq<Event>, fd: nat)
    requires IsInitial(p) && IsRun(p, es) && Run(p, es).main == Done && fd < Run(p, es).issued
    ensures Run(p, es).conns[fd] + Run(p, es).closed[fd] == 1
  {
    NothingHeldInitially(p.workers, fd);
    RunKeepsHolders(p, es, fd);
    ReachableIsInSync(p, es);
    var q := Run(p, es);
    forall i | 0 <= i < |q.workers| ensures q.workers[i].phase == Freed {
      assert InSync(q, i);
    }
    FreedPoolHoldsNothing(q.workers, fd);
  }

  /** The event a started worker that must stop performs next. */
  ghost function NextOf(w: Worker): (e: WorkerProtocol.Event)
    requires WorkerProtocol.Inv(w) && !w.missed
    requires w.stopping && w.phase == Started && w.notifying == {} && w.pc != Exited
    ensures IsWorkerEvent(e) && WorkerProtocol.Enabled(w, e)
  {
    match w.pc
    case Waiting => Dispatch
    case Draining => RecvError
    case Taking => Take
    case Processing => if w.batch == [] then BatchDone else Process
    case _ => Check
  }

  /** An event that main performs on its own, or, while it joins, one of the worker it waits for. */
  predicate IsForced(q: Program, e: Event) {
    && !e.AcceptClient? && !e.ConnFreed? && !e.QueuePacket?
    && (e.WorkerActs? ==> q.main.JoiningPool? && e.worker == q.main.next)
  }

  lemma JoinNeverHangs(q: Program) returns (e: Event)
    requires AllInSync(q) && WorkersInv(q.workers) && q.main.JoiningPool?
    requires q.main.next < |q.workers| ==> !q.workers[q.main.next].missed
    ensures Enabled(q, e) && IsForced(q, e)
  {
    var i := q.main.next;
    e := JoinNext;
    if i < |q.workers| {
      assert InSync(q, i) && WorkerProtocol.Inv(q.workers[i]);
      if q.workers[i].pc != Exited {
        e := WorkerActs(i, NextOf(q.workers[i]), true);
      }
    }
  }

  lemma FreeNeverHangs(q: Program) returns (e: Event)
    requires AllInSync(q) && (q.main.FreeingPool? || q.main.FreeingWorker?)
    ensures Enabled(q, e) && IsForced(q, e)
  {
    if q.main.FreeingPool? {
      assert q.main.next < |q.workers| ==> InSync(q, q.main.next);
      e := FreeNext;
    } else {
      assert InSync(q, q.main.worker);
      var w := q.workers[q.main.worker];
      e := if w.phase == Joined then FreeTakes else if w.batch == [] then FreeEnds else FreeReleases;
    }
  }

  lemma ServingNeverHangs(q: Program) returns (e: Event)
    requires AllInSync(q)
    requires q.main.Serving? || q.main.Accepting? || q.main.Handing? || q.main.StopNotify? || q.main.StoppingPool?
    ensures Enabled(q, e) && IsForced(q, e)
  {
    match q.main {
      case Serving => e := StopListeners;
      case Accepting(_) => e := AcceptFails;
      case StoppingPool(i) => assert i < |q.workers| ==> InSync(q, i); e := StopNext;
      case Handing(i) => assert InSync(q, i); e := MainSends(Sent);
      case StopNotify(i) => assert InSync(q, i); e := MainSends(Sent);
    }
  }

  lemma NeverHangs(q: Program) returns (e: Event)
    requires AllInSync(q) && WorkersInv(q.workers) && q.main != Done
    requires forall i :: 0 <= i < |q.workers| ==> !q.workers[i].missed
    ensures Enabled(q, e) && IsForced(q, e)
  {
    match q.main {
      case JoiningPool(_) => e := JoinNeverHangs(q);
      case FreeingPool(_) => e := FreeNeverHangs(q);
      case FreeingWorker(_) => e := FreeNeverHangs(q);
      case _ => e := ServingNeverHangs(q);
    }
  }

  /** The teardown cannot hang: in every reachable state before Done main can go on, or it is
      joining a worker and that worker can go on itself. */
  lemma TeardownNeverHangs(p: Program, es: seq<Event>) returns (e: Event)
    requires IsInitial(p) && IsRun(p, es) && Run(p, es).main != Done
    requires forall i :: 0 <= i < |Run(p, es).workers| ==> !Run(p, es).workers[i].missed
    ensures Enabled(Run(p, es), e) && IsForced(Run(p, es), e)
  {
    ReachableIsInSync(p, es);
    e := NeverHangs(Run(p, es));
  }
}
