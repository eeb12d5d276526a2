/**
 Whole runs of a datagram route: packets from clients, expiry, replies from the upstream side and
 the final teardown, in any order.
 */
module DatagramRoute {
  import opened DatagramTable
  import opened Options

  /** A datagram that went out on, or came in on, a client's socket. */
  datatype Transfer = Transfer(fd: nat, client: Address)

  datatype Route = Route(
    clients: seq<Client>,
    issued: nat,                       // sockets 0 .. issued-1 have been opened
    closed: multiset<nat>,             // history: closesocket calls
    forwarded: seq<Transfer>,          // history: packets sent upstream, with their sender
    replied: seq<Transfer>             // history: replies sent back, with their destination
  )

  datatype Event =
    | Packet(from: Address, now: int, creation: Creation)
    | Cleanup(now: int, timeout: int)
    | Reply(fd: nat)                   // a datagram arrives on the socket of a live client
    | FreeRoute

  predicate HasSocket(t: seq<Client>, fd: nat) {
    exists i :: 0 <= i < |t| && t[i].fd == fd
  }

  /** The client that upstream_read_cb was registered with for this socket. */
  function ClientOf(t: seq<Client>, fd: nat): (c: Client)
    requires HasSocket(t, fd)
    ensures c in t && c.fd == fd
  {
    if t[0].fd == fd then t[0]
    else
      assert HasSocket(t[1..], fd) by {
        var i :| 0 <= i < |t| && t[i].fd == fd;
        assert t[1..][i - 1].fd == fd;
      }
      ClientOf(t[1..], fd)
  }

  predicate Enabled(r: Route, e: Event) {
    match e
    case Packet(a, _, _) => IsAddress(a)
    case Cleanup(_, _) => true
    case Reply(fd) => HasSocket(r.clients, fd)
    case FreeRoute => true
  }

  function Fds(t: seq<Client>): multiset<nat> {
    if t == [] then multiset{} else multiset{t[0].fd} + Fds(t[1..])
  }

  function Step(r: Route, e: Event): (q: Route)
    requires AreClients(r.clients) && Enabled(r, e)
    ensures AreClients(q.clients)
  {
    match e
    case Packet(a, now, creation) =>
      var (t, place) := GetOrCreate(r.clients, a, now, r.issued, creation);
      var opens := Find(r.clients, a).None? && creation != NoSocket;
      var r1 := r.(clients := t,
                   issued := if opens then r.issued + 1 else r.issued,
                   closed := if opens && creation == SocketClosed then r.closed + multiset{r.issued} else r.closed);
      if place.None? then r1 else r1.(forwarded := r.forwarded + [Transfer(t[place.value].fd, a)])
    case Cleanup(now, timeout) =>
      r.(clients := Expire(r.clients, now, timeout), closed := r.closed + Fds(Expired(r.clients, now, timeout)))
    case Reply(fd) => r.(replied := r.replied + [Transfer(fd, ClientOf(r.clients, fd).addr)])
    case FreeRoute => r.(clients := [], closed := r.closed + Fds(r.clients))
  }

  const STARTED := Route([], 0, multiset{}, [], [])

  ghost predicate IsRun(r: Route, es: seq<Event>)
    requires AreClients(r.clients)
    decreases |es|
  {
    es == [] || (Enabled(r, es[0]) && IsRun(Step(r, es[0]), es[1..]))
  }

  ghost function Run(r: Route, es: seq<Event>): (q: Route)
    requires AreClients(r.clients) && IsRun(r, es)
    ensures AreClients(q.clients)
    decreases |es|
  {
    if es == [] then r else Run(Step(r, es[0]), es[1..])
  }

  // ---- Invariant -------------------------------------------------------------------------------

  ghost function Count(t: seq<Client>, fd: nat): nat {
    if t == [] then 0 else (if t[0].fd == fd then 1 else 0) + Count(t[1..], fd)
  }

  /** A socket is with one live client or was closed, once. */
  ghost predicate OneHolder(r: Route, fd: nat) {
    Count(r.clients, fd) + r.closed[fd] == if fd < r.issued then 1 else 0
  }

  /** All traffic on one socket belongs to one client address. */
  ghost predicate Agrees(r: Route, fd: nat, k: Key)
    requires AreClients(r.clients)
  {
    && (forall i :: 0 <= i < |r.clients| && r.clients[i].fd == fd ==> KeyOf(r.clients[i].addr) == k)
    && (forall i :: 0 <= i < |r.forwarded| && r.forwarded[i].fd == fd ==>
          IsAddress(r.forwarded[i].client) && KeyOf(r.forwarded[i].client) == k)
    && (forall i :: 0 <= i < |r.replied| && r.replied[i].fd == fd ==>
          IsAddress(r.replied[i].client) && KeyOf(r.replied[i].client) == k)
  }

  ghost predicate Unused(r: Route, fd: nat) {
    && (forall i :: 0 <= i < |r.clients| ==> r.clients[i].fd != fd)
    && (forall i :: 0 <= i < |r.forwarded| ==> r.forwarded[i].fd != fd)
    && (forall i :: 0 <= i < |r.replied| ==> r.replied[i].fd != fd)
  }

  ghost predicate Inv(r: Route) {
    && AreClients(r.clients) && Distinct(r.clients)
    && (forall fd: nat :: fd >= r.issued ==> Unused(r, fd))
    && (forall fd: nat :: OneHolder(r, fd))
  }

  lemma {:induction false} CountFds(t: seq<Client>, fd: nat)
    ensures Fds(t)[fd] == Count(t, fd)
  {
    if t != [] {
      CountFds(t[1..], fd);
    }
  }

  lemma {:induction false} ExpirySplitsSockets(t: seq<Client>, now: int, timeout: int, fd: nat)
    ensures Count(t, fd) == Count(Expire(t, now, timeout), fd) + Count(Expired(t, now, timeout), fd)
  {
    if t != [] {
      ExpirySplitsSockets(t[1..], now, timeout, fd);
      var e, x := Expire(t[1..], now, timeout), Expired(t[1..], now, timeout);
      if IsRecent(t[0], now, timeout) {
        assert ([t[0]] + e)[1..] == e && [] + x == x;
      } else {
        assert ([t[0]] + x)[1..] == x;
      }
    }
  }

  lemma {:induction false} CountAfterTouch(t: seq<Client>, i: nat, now: int, fd: nat)
    requires i < |t|
    ensures Count(Touch(t, i, now), fd) == Count(t, fd)
  {
    if i == 0 {
      assert Touch(t, i, now)[1..] == t[1..];
    } else {
      assert Touch(t, i, now)[1..] == Touch(t[1..], i - 1, now);
      CountAfterTouch(t[1..], i - 1, now, fd);
    }
  }

  lemma StepKeepsHolder(r: Route, e: Event, fd: nat)
    requires AreClients(r.clients) && Enabled(r, e) && OneHolder(r, fd)
    ensures OneHolder(Step(r, e), fd)
  {
    match e {
      case Packet(a, now, creation) =>
        var f := Find(r.clients, a);
        if f.Some? {
          CountAfterTouch(r.clients, f.value, now, fd);
        } else if creation == Created {
          assert ([Client(a, r.issued, now)] + r.clients)[1..] == r.clients;
        }
      case Cleanup(now, timeout) =>
        ExpirySplitsSockets(r.clients, now, timeout, fd);
        CountFds(Expired(r.clients, now, timeout), fd);
      case Reply(_) =>
      case FreeRoute => CountFds(r.clients, fd);
    }
  }

  lemma StepKeepsDistinct(r: Route, e: Event)
    requires Inv(r) && Enabled(r, e)
    ensures Distinct(Step(r, e).clients)
  {
    match e {
      case Packet(a, now, creation) => GetOrCreateKeepsDistinct(r.clients, a, now, r.issued, creation);
      case Cleanup(now, timeout) => ExpireKeepsDistinct(r.clients, now, timeout);
      case _ =>
    }
  }

  lemma StepKeepsUnused(r: Route, e: Event, fd: nat)
    requires Inv(r) && Enabled(r, e) && fd >= Step(r, e).issued
    ensures Unused(Step(r, e), fd)
  {
    assert Unused(r, fd);
    if e.Cleanup? {
      var t := Expire(r.clients, e.now, e.timeout);
      forall i | 0 <= i < |t| ensures t[i].fd != fd {
        assert t[i] in r.clients;
      }
    }
  }

  lemma StepKeepsInv(r: Route, e: Event)
    requires Inv(r) && Enabled(r, e)
    ensures Inv(Step(r, e))
  {
    StepKeepsDistinct(r, e);
    forall fd: nat ensures OneHolder(Step(r, e), fd) {
      StepKeepsHolder(r, e, fd);
    }
    forall fd: nat | fd >= Step(r, e).issued ensures Unused(Step(r, e), fd) {
      StepKeepsUnused(r, e, fd);
    }
  }

  lemma {:induction false} RunKeepsInv(r: Route, es: seq<Event>)
    requires Inv(r) && IsRun(r, es)
    ensures Inv(Run(r, es))
    decreases |es|
  {
    if es != [] {
      StepKeepsInv(r, es[0]);
      RunKeepsInv(Step(r, es[0]), es[1..]);
    }
  }

  /** At every lock release of every run no two live clients share an address, and every socket is
      with exactly one live client or has been closed exactly once. */
  lemma TableOnEveryRun(es: seq<Event>, fd: nat)
    requires IsRun(STARTED, es)
    ensures var r := Run(STARTED, es);
            && Distinct(r.clients)
            && Count(r.clients, fd) + r.closed[fd] == if fd < r.issued then 1 else 0
  {
    RunKeepsInv(STARTED, es);
    assert OneHolder(Run(STARTED, es), fd);
  }

  /** After the route is freed nothing is left open. */
  lemma NothingOpenAfterFree(es: seq<Event>, fd: nat)
    requires IsRun(STARTED, es) && fd < Run(STARTED, es).issued
    ensures var r := Step(Run(STARTED, es), FreeRoute); r.clients == [] && r.closed[fd] == 1
  {
    TableOnEveryRun(es, fd);
    StepKeepsHolder(Run(STARTED, es), FreeRoute, fd);
  }

  // ---- Replies ---------------------------------------------------------------------------------

  lemma StepKeepsAgreement(r: Route, e: Event, fd: nat, k: Key)
    requires Inv(r) && Enabled(r, e) && Agrees(r, fd, k) && fd < r.issued
    ensures Agrees(Step(r, e), fd, k) && fd < Step(r, e).issued
  {
    StepKeepsDistinct(r, e);
    var r' := Step(r, e);
    match e {
      case Packet(a, now, creation) =>
      case Cleanup(now, timeout) =>
        forall i | 0 <= i < |r'.clients| && r'.clients[i].fd == fd ensures KeyOf(r'.clients[i].addr) == k {
          assert r'.clients[i] in r.clients;
        }
      case Reply(_) =>
      case FreeRoute =>
    }
  }

  lemma {:induction false} RunAgrees(r: Route, es: seq<Event>, fd: nat) returns (k: Key)
    requires Inv(r) && IsRun(r, es) && fd < Run(r, es).issued
    requires fd < r.issued ==> exists k0 :: Agrees(r, fd, k0)
    ensures Inv(Run(r, es)) && Agrees(Run(r, es), fd, k)
    decreases |es|
  {
    if es == [] {
      k :| Agrees(r, fd, k);
    } else {
      var r' := Step(r, es[0]);
      StepKeepsInv(r, es[0]);
      if fd < r.issued {
        var k0 :| Agrees(r, fd, k0);
        StepKeepsAgreement(r, es[0], fd, k0);
      } else if fd < r'.issued {
        assert Unused(r, fd);
        assert Agrees(r', fd, KeyOf(es[0].from));
      }
      k := RunAgrees(r', es[1..], fd);
    }
  }

  /** No cross-talk: on every run, a reply that arrived on a socket was sent to the address from
      which all packets forwarded on that socket came, whatever expired or was created between. */
  lemma RepliesReachTheSender(es: seq<Event>, i: nat, j: nat)
    requires IsRun(STARTED, es)
    requires var r := Run(STARTED, es); i < |r.forwarded| && j < |r.replied| && r.forwarded[i].fd == r.replied[j].fd
    ensures var r := Run(STARTED, es);
            && IsAddress(r.forwarded[i].client) && IsAddress(r.replied[j].client)
            && SockaddrEqual(r.forwarded[i].client, r.replied[j].client)
  {
    var r := Run(STARTED, es);
    var fd := r.forwarded[i].fd;
    RunKeepsInv(STARTED, es);
    assert fd < r.issued by {
      assert fd >= r.issued ==> Unused(r, fd);
    }
    var k := RunAgrees(STARTED, es, fd);
  }

  // ---- Every packet and every reply --------------------------------------------------------------

  /** The sockets on which replies arrived, in order. */
  ghost function RepliesOf(es: seq<Event>): seq<nat> {
    if es == [] then [] else (if es[0].Reply? then [es[0].fd] else []) + RepliesOf(es[1..])
  }

  ghost function FdsOf(ts: seq<Transfer>): (fds: seq<nat>)
    ensures |fds| == |ts| && forall i :: 0 <= i < |ts| ==> fds[i] == ts[i].fd
  {
    seq(|ts|, i requires 0 <= i < |ts| => ts[i].fd)
  }

  lemma {:induction false} RunReplies(r: Route, es: seq<Event>)
    requires AreClients(r.clients) && IsRun(r, es)
    ensures FdsOf(Run(r, es).replied) == FdsOf(r.replied) + RepliesOf(es)
    decreases |es|
  {
    if es != [] {
      var r1 := Step(r, es[0]);
      RunReplies(r1, es[1..]);
      if es[0].Reply? {
        assert FdsOf(r1.replied) == FdsOf(r.replied) + [es[0].fd];
      }
      Reassociate(FdsOf(r.replied), if es[0].Reply? then [es[0].fd] else [], RepliesOf(es[1..]));
    }
  }

  lemma Reassociate<T>(a: seq<T>, b: seq<T>, c: seq<T>)
    ensures (a + b) + c == a + (b + c) && a + [] == a
  {
  }

  /** What a packet sends upstream: if its sender has a client afterwards, one datagram on that
      client's socket. */
  ghost function ForwardOf(r: Route, e: Event): seq<Transfer>
    requires AreClients(r.clients) && Enabled(r, e)
  {
    if e.Packet? && KeyOf(e.from) in AsMap(Step(r, e).clients)
    then [Transfer(AsMap(Step(r, e).clients)[KeyOf(e.from)].fd, e.from)]
    else []
  }

  ghost function ForwardsOf(r: Route, es: seq<Event>): seq<Transfer>
    requires AreClients(r.clients) && IsRun(r, es)
    decreases |es|
  {
    if es == [] then [] else ForwardOf(r, es[0]) + ForwardsOf(Step(r, es[0]), es[1..])
  }

  lemma StepForwards(r: Route, e: Event)
    requires Inv(r) && Enabled(r, e)
    ensures Step(r, e).forwarded == r.forwarded + ForwardOf(r, e)
  {
    if e.Packet? {
      GetOrCreateIsUpdate(r.clients, e.from, e.now, r.issued, e.creation, KeyOf(e.from));
    }
    assert r.forwarded + [] == r.forwarded;
  }

  /** On every run: one datagram was forwarded for each packet whose sender had a client after it, in
      order, with that sender and that client's socket; and nothing else was. */
  lemma {:induction false} EveryPacketIsForwarded(r: Route, es: seq<Event>)
    requires Inv(r) && IsRun(r, es)
    ensures Run(r, es).forwarded == r.forwarded + ForwardsOf(r, es)
    decreases |es|
  {
    if es != [] {
      StepKeepsInv(r, es[0]);
      StepForwards(r, es[0]);
      EveryPacketIsForwarded(Step(r, es[0]), es[1..]);
      Reassociate(r.forwarded, ForwardOf(r, es[0]), ForwardsOf(Step(r, es[0]), es[1..]));
    }
  }

  /** A packet's sender has a client afterwards exactly if it had one or one could be created; the
      other senders keep theirs, and an existing client keeps its socket. */
  lemma PacketUpdatesTable(r: Route, e: Event, k: Key)
    requires Inv(r) && Enabled(r, e) && e.Packet?
    ensures var before, after := AsMap(r.clients), AsMap(Step(r, e).clients);
            && (KeyOf(e.from) in after <==> KeyOf(e.from) in before || e.creation == Created)
            && (KeyOf(e.from) in after ==>
                  && after[KeyOf(e.from)].lastSeen == e.now
                  && after[KeyOf(e.from)].fd == if KeyOf(e.from) in before then before[KeyOf(e.from)].fd else r.issued)
            && (k != KeyOf(e.from) ==> (k in after <==> k in before) && (k in before ==> after[k] == before[k]))
  {
    GetOrCreateIsUpdate(r.clients, e.from, e.now, r.issued, e.creation, k);
  }

  /** A clean-up keeps exactly the clients seen at most `timeout` before. */
  lemma CleanupUpdatesTable(r: Route, e: Event, k: Key)
    requires Inv(r) && Enabled(r, e) && e.Cleanup?
    ensures var before, after := AsMap(r.clients), AsMap(Step(r, e).clients);
            && (k in after <==> k in before && e.now <= before[k].lastSeen + e.timeout)
            && (k in after ==> after[k] == before[k])
  {
    ExpireIsRestriction(r.clients, e.now, e.timeout, k);
  }

  /** Each live client's socket carried a packet from that client. */
  ghost predicate Used(r: Route, fd: nat) {
    exists i :: 0 <= i < |r.forwarded| && r.forwarded[i].fd == fd
  }

  ghost predicate AllUsed(r: Route) {
    && (forall j :: 0 <= j < |r.clients| ==> Used(r, r.clients[j].fd))
    && (forall j :: 0 <= j < |r.replied| ==> Used(r, r.replied[j].fd))
  }

  lemma StepKeepsUsed(r: Route, e: Event, fd: nat)
    requires Inv(r) && Enabled(r, e) && Used(r, fd)
    ensures Used(Step(r, e), fd)
  {
    StepForwards(r, e);
    var i :| 0 <= i < |r.forwarded| && r.forwarded[i].fd == fd;
    assert Step(r, e).forwarded[i] == r.forwarded[i];
  }

  lemma ClientsAreUsed(r: Route, e: Event, j: nat)
    requires Inv(r) && Enabled(r, e) && AllUsed(r) && j < |Step(r, e).clients|
    ensures Used(Step(r, e), Step(r, e).clients[j].fd)
  {
    var r' := Step(r, e);
    match e {
      case Packet(a, now, creation) =>
        var (t, place) := GetOrCreate(r.clients, a, now, r.issued, creation);
        if place == Some(j) {
          assert r'.forwarded[|r.forwarded|].fd == r'.clients[j].fd;
        } else {
          var i := if |t| == |r.clients| then j else j - 1;
          assert r'.clients[j].fd == r.clients[i].fd;
          StepKeepsUsed(r, e, r.clients[i].fd);
        }
      case Cleanup(now, timeout) =>
        assert r'.clients[j] in r.clients;
        StepKeepsUsed(r, e, r'.clients[j].fd);
      case Reply(_) => StepKeepsUsed(r, e, r.clients[j].fd);
      case FreeRoute =>
    }
  }

  lemma StepKeepsAllUsed(r: Route, e: Event)
    requires Inv(r) && Enabled(r, e) && AllUsed(r)
    ensures AllUsed(Step(r, e))
  {
    var r' := Step(r, e);
    forall j | 0 <= j < |r'.clients| ensures Used(r', r'.clients[j].fd) {
      ClientsAreUsed(r, e, j);
    }
    forall j | 0 <= j < |r'.replied| ensures Used(r', r'.replied[j].fd) {
      StepKeepsUsed(r, e, r'.replied[j].fd);
    }
  }

  lemma {:induction false} RunKeepsAllUsed(r: Route, es: seq<Event>)
    requires Inv(r) && AllUsed(r) && IsRun(r, es)
    ensures AllUsed(Run(r, es))
    decreases |es|
  {
    if es != [] {
      StepKeepsInv(r, es[0]);
      StepKeepsAllUsed(r, es[0]);
      RunKeepsAllUsed(Step(r, es[0]), es[1..]);
    }
  }

  /** On every run: one reply was sent for each datagram that arrived, in order; the j-th of them
      belongs to the socket of the j-th arrival, and goes to the address from which a packet was
      forwarded on that socket, and from which all of them came. */
  lemma EveryReplyIsReturned(es: seq<Event>, j: nat)
    requires IsRun(STARTED, es) && j < |RepliesOf(es)|
    ensures var r := Run(STARTED, es);
            && |r.replied| == |RepliesOf(es)| && r.replied[j].fd == RepliesOf(es)[j] && Used(r, r.replied[j].fd)
            && forall i :: 0 <= i < |r.forwarded| && r.forwarded[i].fd == r.replied[j].fd ==>
                 && IsAddress(r.forwarded[i].client) && IsAddress(r.replied[j].client)
                 && SockaddrEqual(r.forwarded[i].client, r.replied[j].client)
  {
    var r := Run(STARTED, es);
    RunReplies(STARTED, es);
    RunKeepsAllUsed(STARTED, es);
    assert FdsOf([]) + RepliesOf(es) == RepliesOf(es);
    assert r.replied[j].fd == FdsOf(r.replied)[j];
    forall i | 0 <= i < |r.forwarded| && r.forwarded[i].fd == r.replied[j].fd
      ensures && IsAddress(r.forwarded[i].client) && IsAddress(r.replied[j].client)
              && SockaddrEqual(r.forwarded[i].client, r.replied[j].client)
    {
      RepliesReachTheSender(es, i, j);
    }
  }
}
