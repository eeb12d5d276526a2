/**
 The linked list behind the hand-off, as worker.c builds it: messages chained through `next`, with
 pending_head and pending_tail, and the batch that a thread detaches and walks.

 Each method is one lock section, or one turn of a walk over a detached list, so any interleaving
 of threads is a sequence of these calls.  The ghost sequences say what the pointers denote.  Every
 method takes the protocol state that the list shows before the call and promises that the list
 shows the protocol's next state afterwards: the list refines the protocol, event by event.
 */
module WorkerQueue {
  import opened WorkerProtocol

  class Message {
    var next: Message?
    const payload: Msg
    var freed: bool

    constructor (payload: Msg)
      ensures this.payload == payload && next == null && !freed
    {
      this.payload := payload;
      next, freed := null, false;
    }
  }

  /** The messages are distinct, alive, and each points to its successor, the last one to null. */
  ghost predicate IsChain(head: Message?, ms: seq<Message>)
    reads ms
  {
    && head == (if ms == [] then null else ms[0])
    && (forall i {:trigger ms[i].next} :: 0 <= i < |ms| ==> ms[i].next == if i + 1 < |ms| then ms[i + 1] else null)
    && (forall i, j :: 0 <= i < j < |ms| ==> ms[i] != ms[j])
    && (forall i :: 0 <= i < |ms| ==> !ms[i].freed)
  }

  ghost function Payloads(ms: seq<Message>): (ps: seq<Msg>)
    ensures |ps| == |ms|
  {
    seq(|ms|, i requires 0 <= i < |ms| => ms[i].payload)
  }

  datatype Errno = Ok | Canceled

  class Queue {
    var pendingHead: Message?
    var pendingTail: Message?
    var stopping: bool
    var cursor: Message?                 // the list a thread is walking

    ghost var pending: seq<Message>
    ghost var batch: seq<Message>
    ghost var processed: seq<Msg>        // handed to worker_process_msg
    ghost var released: seq<Msg>         // released by worker_free
    ghost var refused: seq<Msg>          // released by worker_enqueue_msg

    ghost predicate Valid()
      reads this, pending, batch
    {
      && IsChain(pendingHead, pending)
      && pendingTail == (if pending == [] then null else pending[|pending| - 1])
      && IsChain(cursor, batch)
      && (forall i, j :: 0 <= i < |pending| && 0 <= j < |batch| ==> pending[i] != batch[j])
    }

    /** The list and its history show this state of the protocol. */
    ghost predicate Shows(w: Worker)
      reads this
    {
      && w.pending == Payloads(pending) && w.batch == Payloads(batch) && w.stopping == stopping
      && w.processed == processed && w.released == released && w.refused == refused
    }

    constructor ()
      ensures Valid() && Shows(INIT)
    {
      pendingHead, pendingTail, cursor, stopping := null, null, null, false;
      pending, batch, processed, released, refused := [], [], [], [], [];
    }

    /** worker_enqueue_msg up to its unlock. */
    method EnqueueMsg(msg: Message, ghost w: Worker, ghost thread: nat) returns (rc: Errno)
      requires Valid() && msg !in pending && msg !in batch && !msg.freed
      requires Shows(w) && Enabled(w, Enqueue(thread, msg.payload))
      modifies this`pendingHead, this`pendingTail, this`pending, this`refused, pending, msg
      ensures Valid() && Shows(Step(w, Enqueue(thread, msg.payload)))
      ensures rc == Canceled <==> stopping
      ensures pending == if stopping then old(pending) else old(pending) + [msg]
      ensures msg.freed <==> stopping
    {
      if stopping {
        FreeMsg(msg);
        refused := refused + [msg.payload];
        return Canceled;
      }
      msg.next := null;
      if pendingTail != null {
        pendingTail.next := msg;
      } else {
        pendingHead := msg;
      }
      pendingTail := msg;
      pending := pending + [msg];
      return Ok;
    }

    /** worker_stop's lock section. */
    method SetStopping(ghost w: Worker, ghost thread: nat)
      requires Valid() && Shows(w) && Enabled(w, Stop(thread))
      modifies this`stopping
      ensures Valid() && Shows(Step(w, Stop(thread)))
    {
      stopping := true;
    }

    /** free_worker_msg and free_processed_worker_msg: no message is freed twice. */
    method FreeMsg(msg: Message)
      requires !msg.freed
      modifies msg`freed
      ensures msg.freed
    {
      msg.freed := true;
    }

    /** worker_take_pending by a thread that is not walking a list already. */
    method TakePending(ghost w: Worker, ghost e: Event)
      requires Valid() && batch == []
      requires Shows(w) && (e == Take || e == FreeTake) && Enabled(w, e)
      modifies this`pendingHead, this`pendingTail, this`pending, this`cursor, this`batch
      ensures Valid() && Shows(Step(w, e))
      ensures pending == [] && batch == old(pending)
    {
      cursor := pendingHead;
      pendingHead := null;
      pendingTail := null;
      pending, batch := [], pending;
    }

    /** One turn of the loop of worker_process_pending; `next` is read before the message is freed. */
    method ProcessNext(ghost w: Worker)
      requires Valid() && cursor != null
      requires Shows(w) && w.pc == Processing
      modifies this`cursor, this`batch, this`processed, cursor`freed
      ensures Valid() && Enabled(w, Process) && Shows(Step(w, Process))
      ensures pending == old(pending) && batch == old(batch)[1..]
      ensures old(batch)[0] == old(cursor) && old(cursor).freed
    {
      assert batch[0] == cursor;
      assert Payloads(batch)[1..] == Payloads(batch[1..]);
      var next := cursor.next;
      processed := processed + [cursor.payload];
      FreeMsg(cursor);
      cursor := next;
      batch := batch[1..];
      assert IsChain(pendingHead, pending);
    }

    /** One turn of the loop of worker_free. */
    method ReleaseNext(ghost w: Worker)
      requires Valid() && cursor != null
      requires Shows(w) && w.phase == Releasing
      modifies this`cursor, this`batch, this`released, cursor`freed
      ensures Valid() && Enabled(w, Release) && Shows(Step(w, Release))
      ensures pending == old(pending) && batch == old(batch)[1..]
      ensures old(batch)[0] == old(cursor) && old(cursor).freed
    {
      assert batch[0] == cursor;
      assert Payloads(batch)[1..] == Payloads(batch[1..]);
      var next := cursor.next;
      FreeMsg(cursor);
      released := released + [cursor.payload];
      cursor := next;
      batch := batch[1..];
      assert IsChain(pendingHead, pending);
    }

    /** A producer queues a message while a batch is walked: the batch is not touched. */
    method EnqueueMeanwhile(msg: Message, ghost w: Worker, ghost thread: nat, ghost arriving: set<Message>) returns (ghost w': Worker)
      requires Valid() && msg !in pending && msg !in batch && !msg.freed
      requires Shows(w) && IsWalk(w) && thread !in w.notifying
      requires msg in arriving && forall i :: 0 <= i < |pending| ==> pending[i] in arriving
      modifies this`pendingHead, this`pendingTail, this`pending, this`refused, arriving
      ensures Valid() && Shows(w') && IsWalk(w') && w'.notifying == w.notifying && Given(w') == Given(w)
      ensures pending == if stopping then old(pending) else old(pending) + [msg]
      ensures forall m :: m in arriving && m != msg && m !in old(pending) ==> m.freed == old(m.freed)
    {
      ghost var w1 := Step(w, Enqueue(thread, msg.payload));
      var rc := EnqueueMsg(msg, w, thread);
      w' := if stopping then w1 else Step(w1, Send(thread, Sent));
    }

    /** The walk over the taken list `all` has come to its place `done`, after k moves. */
    ghost predicate Walking(all: seq<Message>, done: nat, schedule: seq<Move>, k: nat, arriving: set<Message>)
      reads this, pending, batch, all, arriving
    {
      && k <= |schedule| && done <= |all| && done == Min(|all|, Turns(schedule, k)) && batch == all[done..]
      && (forall i :: 0 <= i < done ==> all[i].freed)
      && (forall i :: 0 <= i < |all| ==> all[i] !in arriving)
      && pending == (if stopping then [] else Arrivals(schedule, k))
      && (forall i :: 0 <= i < |pending| ==> pending[i] in arriving)
      && AreFresh(schedule, k, arriving)
      && (forall j :: k <= j < |schedule| && schedule[j].Arrives? ==> schedule[j].msg !in pending)
    }

    method ArriveAmid(ghost all: seq<Message>, ghost done: nat, schedule: seq<Move>, k: nat, ghost arriving: set<Message>,
                      ghost v: Worker, ghost thread: nat)
      returns (ghost v': Worker)
      requires Valid() && Walking(all, done, schedule, k, arriving) && k < |schedule| && schedule[k].Arrives?
      requires Shows(v) && IsWalk(v) && thread !in v.notifying
      modifies this`pendingHead, this`pendingTail, this`pending, this`refused, arriving
      ensures Valid() && Walking(all, done, schedule, k + 1, arriving)
      ensures Shows(v') && IsWalk(v') && v'.notifying == v.notifying && Given(v') == Given(v)
    {
      var m := schedule[k].msg;
      assert m !in batch by {
        assert forall i :: 0 <= i < |batch| ==> batch[i] == all[done + i];
      }
      v' := EnqueueMeanwhile(m, v, thread, arriving);
    }

    method TurnAmid(ghost all: seq<Message>, ghost done: nat, schedule: seq<Move>, k: nat, ghost arriving: set<Message>,
                    ghost v: Worker)
      returns (ghost v': Worker, ghost done': nat)
      requires Valid() && Walking(all, done, schedule, k, arriving) && k < |schedule| && schedule[k].Turn?
      requires Shows(v) && IsWalk(v)
      modifies this`cursor, this`batch, this`processed, all`freed
      ensures Valid() && Walking(all, done', schedule, k + 1, arriving)
      ensures Shows(v') && IsWalk(v') && v'.notifying == v.notifying && Given(v') == Given(v)
    {
      v', done' := v, done;
      if cursor != null {
        ProcessKeepsGiven(v);
        Drop(all, done);
        ProcessNext(v);
        v', done' := Step(v, Process), done + 1;
      }
    }

    method MoveOn(ghost all: seq<Message>, ghost done: nat, schedule: seq<Move>, k: nat, ghost arriving: set<Message>,
                  ghost v: Worker, ghost thread: nat)
      returns (ghost v': Worker, ghost done': nat)
      requires Valid() && Walking(all, done, schedule, k, arriving) && k < |schedule|
      requires Shows(v) && IsWalk(v) && thread !in v.notifying
      modifies this`pendingHead, this`pendingTail, this`pending, this`cursor, this`batch, this`processed, this`refused
      modifies all`freed, arriving
      ensures Valid() && Walking(all, done', schedule, k + 1, arriving)
      ensures Shows(v') && IsWalk(v') && v'.notifying == v.notifying && Given(v') == Given(v)
    {
      v', done' := v, done;
      if schedule[k].Turn? {
        v', done' := TurnAmid(all, done, schedule, k, arriving, v);
      } else {
        v' := ArriveAmid(all, done, schedule, k, arriving, v, thread);
      }
    }

    /** The walk from move k on, with what producers do between its turns. */
    method Walk(ghost all: seq<Message>, ghost done: nat, schedule: seq<Move>, k: nat, ghost arriving: set<Message>,
                ghost v: Worker, ghost thread: nat)
      returns (ghost v': Worker, ghost done': nat)
      requires Valid() && Walking(all, done, schedule, k, arriving)
      requires Shows(v) && IsWalk(v) && thread !in v.notifying
      modifies this`pendingHead, this`pendingTail, this`pending, this`cursor, this`batch, this`processed, this`refused
      modifies all`freed, arriving
      ensures Valid() && Walking(all, done', schedule, |schedule|, arriving)
      ensures Shows(v') && Given(v') == Given(v)
      decreases |schedule| - k
    {
      v', done' := v, done;
      if k < |schedule| {
        v', done' := MoveOn(all, done, schedule, k, arriving, v, thread);
        v', done' := Walk(all, done', schedule, k + 1, arriving, v', thread);
      }
    }

    /** worker_process_pending while producers go on queueing, in any order of their lock sections and
        the turns of the walk: the taken messages are processed in order and freed once, what is
        queued meanwhile waits, in order, for the next take. */
    method ProcessPending(schedule: seq<Move>, ghost w: Worker, ghost thread: nat, ghost arriving: set<Message>)
      requires Valid() && batch == [] && Shows(w) && w.pc == Taking && w.phase == Started && thread !in w.notifying
      requires forall i :: 0 <= i < |pending| ==> pending[i] !in arriving
      requires AreFresh(schedule, 0, arriving)
      modifies this`pendingHead, this`pendingTail, this`pending, this`cursor, this`batch, this`processed, this`refused
      modifies pending`freed, arriving
      ensures Valid() && pending == if stopping then [] else Arrivals(schedule, |schedule|)
      ensures |batch| == |old(pending)| - Min(|old(pending)|, Turns(schedule, |schedule|))
      ensures batch == old(pending)[|old(pending)| - |batch|..]
      ensures processed + Payloads(batch) == old(processed) + Payloads(old(pending))
      ensures forall i :: 0 <= i < |old(pending)| - |batch| ==> old(pending)[i].freed
    {
      ghost var all := pending;
      TakePending(w, Take);
      ghost var v, done := Walk(all, 0, schedule, 0, arriving, Step(w, Take), thread);
    }
  }

  /** The worker thread is inside worker_process_pending. */
  predicate IsWalk(w: Worker) {
    w.pc == Processing && w.phase == Started
  }

  /** What happens next: a producer's lock section, or a turn of the walk. */
  datatype Move = Arrives(msg: Message) | Turn

  /** The messages that the first k moves bring, and how many of these moves are turns. */
  ghost function Arrivals(ms: seq<Move>, k: nat): seq<Message>
    requires k <= |ms|
  {
    if k == 0 then [] else Arrivals(ms, k - 1) + if ms[k - 1].Arrives? then [ms[k - 1].msg] else []
  }

  ghost function Turns(ms: seq<Move>, k: nat): nat
    requires k <= |ms|
  {
    if k == 0 then 0 else Turns(ms, k - 1) + if ms[k - 1].Turn? then 1 else 0
  }

  function Min(a: nat, b: nat): nat {
    if a < b then a else b
  }

  /** The messages that arrive from move k on are distinct and not freed. */
  ghost predicate AreFresh(ms: seq<Move>, k: nat, arriving: set<Message>)
    reads arriving
  {
    && (forall i :: k <= i < |ms| && ms[i].Arrives? ==> ms[i].msg in arriving && !ms[i].msg.freed)
    && (forall i, j :: k <= i < j < |ms| && ms[i].Arrives? && ms[j].Arrives? ==> ms[i].msg != ms[j].msg)
  }

  /** What the worker has processed and is about to process. */
  ghost function Given(w: Worker): seq<Msg> {
    w.processed + w.batch
  }

  lemma Drop(all: seq<Message>, done: nat)
    requires done < |all|
    ensures all[done..][1..] == all[done + 1..] && all[done..][0] == all[done]
  {
  }

  lemma ProcessKeepsGiven(w: Worker)
    requires w.pc == Processing && w.batch != []
    ensures Given(Step(w, Process)) == Given(w)
  {
    assert w.batch == [w.batch[0]] + w.batch[1..];
  }
}
