/**
 The teardown ends.  A measure over main and the whole pool goes down with every event of main, and
 with every event of the worker that main is joining, and nothing makes it go up, whatever the
 other workers and connections do meanwhile.
 */
module Teardown {
  import opened ProgramLifecycle
  import WorkerProtocol

  type Worker = WorkerProtocol.Worker

  /** main has closed the listeners. */
  predicate TearingDown(p: Program) {
    !p.main.Serving? && !p.main.Accepting? && !p.main.Handing?
  }

  // ---- The measure -------------------------------------------------------------------------------

  /** What a worker may still do once it is told to stop, and the messages left for whoever takes
      them.  A worker that is not yet told may turn round its loop, which changes nothing here. */
  ghost function Weight(w: Worker): nat {
    (if w.stopping then WorkerProtocol.WorkLeft(w) else 8 + w.bytes + |w.pending| + |w.batch|)
    + |w.pending| + |w.batch|
  }

  ghost function PoolWeight(ws: seq<Worker>): nat {
    if ws == [] then 0 else Weight(ws[0]) + PoolWeight(ws[1..])
  }

  function Rest(k: nat, n: nat): nat {
    if k < n then n - k else 0
  }

  /** main's own steps: three for stopping a worker, the byte it sends included, one for joining it
      and three for freeing it, and one to leave each loop. */
  ghost function MainLeft(p: Program): nat {
    var n := |p.workers|;
    match p.main
    case StoppingPool(k) => 3 * Rest(k, n) + 4 * n + 3
    case StopNotify(i) => 2 + 3 * Rest(i + 1, n) + 4 * n + 3
    case JoiningPool(k) => Rest(k, n) + 3 * n + 2
    case FreeingPool(k) => 3 * Rest(k, n) + 1
    case FreeingWorker(i) =>
      3 * Rest(i + 1, n) + 1 + if i < n && p.workers[i].phase == WorkerProtocol.Joined then 2 else 1
    case _ => 0
  }

  ghost function Measure(p: Program): nat {
    MainLeft(p) + PoolWeight(p.workers)
  }

  lemma {:induction false} PoolWeightUpdate(ws: seq<Worker>, i: nat, w: Worker)
    requires i < |ws|
    ensures PoolWeight(ws[i := w]) + Weight(ws[i]) == PoolWeight(ws) + Weight(w)
  {
    var us := ws[i := w];
    if i == 0 {
      assert us[1..] == ws[1..];
    } else {
      assert us[1..] == ws[1..][i - 1 := w] && us[0] == ws[0];
      PoolWeightUpdate(ws[1..], i - 1, w);
    }
  }

  /** What each event that happens during the teardown does to a worker's weight. */
  lemma WeightStep(w: Worker, e: WorkerProtocol.Event)
    requires WorkerProtocol.Inv(w) && WorkerProtocol.Enabled(w, e) && !e.Enqueue? && !e.Start?
    ensures var w' := WorkerProtocol.Step(w, e);
            && Weight(w') <= Weight(w) + (if e.Send? then 1 else 0)
            && (WorkerProtocol.IsWorkerEvent(e) && w.stopping ==> Weight(w') < Weight(w))
            && (e.Release? ==> Weight(w') < Weight(w))
  {
    if w.stopping {
      WorkerProtocol.StepSpendsWork(w, e);
    }
  }

  // ---- Every event -------------------------------------------------------------------------------

  lemma WorkerActSpends(p: Program, e: Event)
    requires TearingDown(p) && AllInSync(p) && WorkersInv(p.workers) && Enabled(p, e) && e.WorkerActs?
    ensures Measure(Step(p, e)) + (if IsForced(p, e) then 1 else 0) <= Measure(p)
  {
    var i := e.worker;
    WeightStep(p.workers[i], e.event);
    PoolWeightUpdate(p.workers, i, WorkerProtocol.Step(p.workers[i], e.event));
    WorkerFrame(p, e, i);
    if p.main.FreeingWorker? {
      WorkerFrame(p, e, p.main.worker);
    }
    if p.main.JoiningPool? {
      assert InSync(p, i);
    }
  }

  predicate IsMains(e: Event) {
    e.StopNext? || e.MainSends? || e.JoinNext? || e.FreeNext? || e.FreeTakes? || e.FreeReleases? || e.FreeEnds?
  }

  lemma PoolSpends(p: Program, e: Event)
    requires WorkersInv(p.workers) && Enabled(p, e) && IsMains(e)
    ensures PoolWeight(Step(p, e).workers) <= PoolWeight(p.workers) + if e.MainSends? then 1 else 0
    ensures e.FreeReleases? ==> PoolWeight(Step(p, e).workers) < PoolWeight(p.workers)
  {
    var inner := Inner(p, e);
    if inner.0 {
      WeightStep(p.workers[inner.1], inner.2);
      PoolWeightUpdate(p.workers, inner.1, WorkerProtocol.Step(p.workers[inner.1], inner.2));
    }
  }

  lemma MainStepsOn(p: Program, e: Event)
    requires TearingDown(p) && AllInSync(p) && Enabled(p, e) && IsMains(e)
    ensures MainLeft(Step(p, e)) + (if e.MainSends? then 2 else if e.FreeReleases? then 0 else 1) <= MainLeft(p)
  {
    if e.StopNext? || e.MainSends? {
      StopStepsOn(p, e);
    } else {
      FreeStepsOn(p, e);
    }
  }

  lemma StopStepsOn(p: Program, e: Event)
    requires TearingDown(p) && AllInSync(p) && Enabled(p, e) && (e.StopNext? || e.MainSends?)
    ensures MainLeft(Step(p, e)) + (if e.MainSends? then 2 else 1) <= MainLeft(p)
  {
  }

  lemma FreeStepsOn(p: Program, e: Event)
    requires TearingDown(p) && AllInSync(p) && Enabled(p, e) && IsMains(e) && !e.StopNext? && !e.MainSends?
    ensures MainLeft(Step(p, e)) + (if e.FreeReleases? then 0 else 1) <= MainLeft(p)
  {
    if e.FreeNext? && p.main.next < |p.workers| {
      assert InSync(p, p.main.next);
    } else if e.FreeTakes? || e.FreeReleases? {
      assert InSync(p, p.main.worker);
    }
  }

  lemma MainSpends(p: Program, e: Event)
    requires TearingDown(p) && AllInSync(p) && WorkersInv(p.workers) && Enabled(p, e) && IsMains(e)
    ensures Measure(Step(p, e)) < Measure(p)
  {
    PoolSpends(p, e);
    MainStepsOn(p, e);
  }

  lemma StepSpends(p: Program, e: Event)
    requires TearingDown(p) && AllInSync(p) && WorkersInv(p.workers) && Enabled(p, e)
    ensures TearingDown(Step(p, e))
    ensures Measure(Step(p, e)) + (if IsForced(p, e) then 1 else 0) <= Measure(p)
  {
    if e.WorkerActs? {
      WorkerActSpends(p, e);
    } else if !e.ConnFreed? {
      MainSpends(p, e);
    }
  }

  // ---- Every run ---------------------------------------------------------------------------------

  ghost function Forced(p: Program, es: seq<Event>): nat
    requires IsRun(p, es)
    decreases |es|
  {
    if es == [] then 0 else (if IsForced(p, es[0]) then 1 else 0) + Forced(Step(p, es[0]), es[1..])
  }

  lemma {:induction false} RunSpends(p: Program, es: seq<Event>)
    requires TearingDown(p) && AllInSync(p) && ListenersFirst(p) && WorkersInv(p.workers) && IsRun(p, es)
    ensures Forced(p, es) + Measure(Run(p, es)) <= Measure(p)
    decreases |es|
  {
    if es != [] {
      StepSpends(p, es[0]);
      StepKeepsAllInSync(p, es[0]);
      StepKeepsWorkers(p, es[0]);
      StepKeepsListenersFirst(p, es[0]);
      RunSpends(Step(p, es[0]), es[1..]);
    }
  }

  /** On every run of the program, from the moment the listeners are closed, main and the workers it
      joins perform at most as many events as the measure of that moment says; by
      TeardownNeverHangs one of these is always possible until main is done. */
  lemma TeardownEnds(p: Program, before: seq<Event>, after: seq<Event>)
    requires IsInitial(p) && IsRun(p, before) && IsRun(Run(p, before), after)
    requires TearingDown(Run(p, before))
    ensures Forced(Run(p, before), after) <= Measure(Run(p, before))
  {
    ReachableIsInSync(p, before);
    RunSpends(Run(p, before), after);
  }
}
