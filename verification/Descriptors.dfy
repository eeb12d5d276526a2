/**
 Where an accepted descriptor goes: which events give it to a connection, which close it, and what
 that means over whole runs of the program.
 */
module Descriptors {
  import opened ProgramLifecycle
  import WorkerProtocol

  /** A worker processes the message that carries this descriptor. */
  ghost predicate Processes(p: Program, e: Event, fd: nat)
    requires Enabled(p, e)
  {
    e.WorkerActs? && e.event.Process? && p.workers[e.worker].batch[0] == WorkerProtocol.StreamClient(fd)
  }

  ghost predicate Adopts(p: Program, e: Event, fd: nat)
    requires Enabled(p, e)
  {
    Processes(p, e, fd) && e.adopted
  }

  /** How often an event closes the descriptor: a failed accept, an adoption that fails, the end of
      the connection and the release of the message by worker_free close it once; a hand-off to a
      worker that is stopping closes it in free_worker_msg and again in accept_cb. */
  ghost function Closes(p: Program, e: Event, fd: nat): nat
    requires Enabled(p, e)
  {
    match e
    case AcceptFails => if p.main.fd == fd then 1 else 0
    case HandOff(i) => if p.main.fd == fd && p.workers[i].stopping then 2 else 0
    case WorkerActs(_, _, adopted) => if Processes(p, e, fd) && !adopted then 1 else 0
    case ConnFreed(f) => if f == fd then 1 else 0
    case FreeReleases => if p.workers[p.main.worker].batch[0] == WorkerProtocol.StreamClient(fd) then 1 else 0
    case _ => 0
  }

  /** A connection gets the descriptor exactly by adopting it, and loses it exactly by being freed. */
  lemma ConnectionsStep(p: Program, e: Event, fd: nat)
    requires Enabled(p, e)
    ensures Step(p, e).conns[fd] + (if e == ConnFreed(fd) then 1 else 0) == p.conns[fd] + if Adopts(p, e, fd) then 1 else 0
  {
  }

  lemma HandOffCloses(p: Program, e: Event, fd: nat)
    requires Enabled(p, e) && e.HandOff?
    ensures Step(p, e).closed[fd] == p.closed[fd] + Closes(p, e, fd)
  {
  }

  lemma MessageCloses(p: Program, e: Event, fd: nat)
    requires Enabled(p, e) && (e.WorkerActs? || e.FreeReleases?)
    ensures Step(p, e).closed[fd] == p.closed[fd] + Closes(p, e, fd)
  {
  }

  /** closesocket is called on the descriptor exactly by these events. */
  lemma ClosesStep(p: Program, e: Event, fd: nat)
    requires Enabled(p, e)
    ensures Step(p, e).closed[fd] == p.closed[fd] + Closes(p, e, fd)
  {
    if e.HandOff? {
      HandOffCloses(p, e, fd);
    } else if e.WorkerActs? || e.FreeReleases? {
      MessageCloses(p, e, fd);
    }
  }

  // ---- Runs --------------------------------------------------------------------------------------

  ghost function Adoptions(p: Program, es: seq<Event>, fd: nat): nat
    requires IsRun(p, es)
    decreases |es|
  {
    if es == [] then 0 else (if Adopts(p, es[0], fd) then 1 else 0) + Adoptions(Step(p, es[0]), es[1..], fd)
  }

  ghost function Frees(es: seq<Event>, fd: nat): nat {
    if es == [] then 0 else (if es[0] == ConnFreed(fd) then 1 else 0) + Frees(es[1..], fd)
  }

  ghost function Closings(p: Program, es: seq<Event>, fd: nat): nat
    requires IsRun(p, es)
    decreases |es|
  {
    if es == [] then 0 else Closes(p, es[0], fd) + Closings(Step(p, es[0]), es[1..], fd)
  }

  lemma {:induction false} RunCounts(p: Program, es: seq<Event>, fd: nat)
    requires IsRun(p, es)
    ensures Run(p, es).conns[fd] + Frees(es, fd) == p.conns[fd] + Adoptions(p, es, fd)
    ensures Run(p, es).closed[fd] == p.closed[fd] + Closings(p, es, fd) && Frees(es, fd) <= Closings(p, es, fd)
    decreases |es|
  {
    if es != [] {
      ConnectionsStep(p, es[0], fd);
      ClosesStep(p, es[0], fd);
      RunCounts(Step(p, es[0]), es[1..], fd);
    }
  }

  /** On every run: an accepted descriptor is adopted at most once and closed at most once; it is with
      a connection exactly if it was adopted and that connection has not been freed since. */
  lemma AdoptedOnEveryRun(p: Program, es: seq<Event>, fd: nat)
    requires IsInitial(p) && IsRun(p, es) && fd < Run(p, es).issued
    ensures Adoptions(p, es, fd) <= 1 && Closings(p, es, fd) <= 1
    ensures Run(p, es).conns[fd] == if Adoptions(p, es, fd) == 1 && Frees(es, fd) == 0 then 1 else 0
    ensures Run(p, es).closed[fd] == Closings(p, es, fd)
  {
    OneOwnerOnEveryRun(p, es, fd);
    RunCounts(p, es, fd);
  }

  /** At exit: every accepted descriptor was closed by one of these events, or is with the connection
      that adopted it. */
  lemma AtExit(p: Program, es: seq<Event>, fd: nat)
    requires IsInitial(p) && IsRun(p, es) && Run(p, es).main == Done && fd < Run(p, es).issued
    ensures Closings(p, es, fd) == if Adoptions(p, es, fd) == 1 && Frees(es, fd) == 0 then 0 else 1
  {
    NothingQueuedAtExit(p, es, fd);
    AdoptedOnEveryRun(p, es, fd);
  }
}
