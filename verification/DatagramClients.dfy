/**
 The UDP client list as datagram_client.c keeps it: clients chained through `next`, unlinked in
 place by a pointer to the link that leads to them.  The pointer-to-pointer is modelled by the
 client that holds the link, null standing for the route's own head.
 */
module DatagramClients {
  import opened DatagramTable
  import opened Options

  class DatagramClient {
    const addr: Address
    const fd: nat
    var lastSeen: int
    var next: DatagramClient?
    var freed: bool

    constructor (addr: Address, fd: nat, now: int)
      ensures this.addr == addr && this.fd == fd && lastSeen == now && next == null && !freed
    {
      this.addr, this.fd := addr, fd;
      lastSeen, next, freed := now, null, false;
    }
  }

  ghost predicate IsList(head: DatagramClient?, ns: seq<DatagramClient>)
    reads ns
  {
    && head == (if ns == [] then null else ns[0])
    && (forall i {:trigger ns[i].next} :: 0 <= i < |ns| ==> ns[i].next == if i + 1 < |ns| then ns[i + 1] else null)
    && (forall i, j :: 0 <= i < j < |ns| ==> ns[i] != ns[j])
    && (forall i :: 0 <= i < |ns| ==> !ns[i].freed && IsAddress(ns[i].addr))
  }

  ghost function Rows(ns: seq<DatagramClient>): (t: seq<Client>)
    reads ns`lastSeen
    ensures |t| == |ns|
    ensures forall i :: 0 <= i < |ns| ==> t[i] == Client(ns[i].addr, ns[i].fd, ns[i].lastSeen)
  {
    if ns == [] then [] else [Client(ns[0].addr, ns[0].fd, ns[0].lastSeen)] + Rows(ns[1..])
  }

  class RouteClients {
    var clients: DatagramClient?
    ghost var nodes: seq<DatagramClient>
    ghost var repr: set<DatagramClient>      // every client this list has held
    ghost var closed: seq<Client>            // history: clients given to free_datagram_client

    ghost predicate Valid()
      reads this, nodes
    {
      IsList(clients, nodes) && forall i :: 0 <= i < |nodes| ==> nodes[i] in repr
    }

    constructor ()
      ensures Valid() && nodes == [] && repr == {} && closed == []
    {
      clients, nodes, repr, closed := null, [], {}, [];
    }

    method FindClient(a: Address) returns (c: DatagramClient?)
      requires Valid() && IsAddress(a)
      ensures AreClients(Rows(nodes))
      ensures match Find(Rows(nodes), a) case None => c == null case Some(i) => c == nodes[i]
    {
      c := clients;
      ghost var i: nat := 0;
      while c != null
        invariant i <= |nodes| && c == (if i < |nodes| then nodes[i] else null)
        invariant forall j :: 0 <= j < i ==> !SockaddrEqual(nodes[j].addr, a)
        decreases |nodes| - i
      {
        if SockaddrEqual(c.addr, a) {
          return;
        }
        c := c.next;
        i := i + 1;
      }
    }

    /** The list part of create_datagram_client: the new client goes to the front. */
    method PushFront(c: DatagramClient)
      requires Valid() && c !in nodes && !c.freed && IsAddress(c.addr)
      modifies this`clients, this`nodes, this`repr, c`next
      ensures Valid() && nodes == [c] + old(nodes) && repr == old(repr) + {c}
      ensures Rows(nodes) == [Client(c.addr, c.fd, c.lastSeen)] + old(Rows(nodes))
    {
      c.next := clients;
      clients := c;
      nodes, repr := [c] + nodes, repr + {c};
      assert nodes[1..] == old(nodes);
    }

    method Create(a: Address, now: int, fd: nat) returns (c: DatagramClient)
      requires Valid() && IsAddress(a)
      modifies this`clients, this`nodes, this`repr
      ensures Valid() && fresh(c) && nodes == [c] + old(nodes) && repr == old(repr) + {c}
      ensures Rows(nodes) == [Client(a, fd, now)] + old(Rows(nodes))
    {
      c := new DatagramClient(a, fd, now);
      PushFront(c);
    }

    method TouchClient(c: DatagramClient, now: int, ghost k: nat)
      requires Valid() && k < |nodes| && c == nodes[k]
      modifies c`lastSeen
      ensures Valid() && Rows(nodes) == Touch(old(Rows(nodes)), k, now)
    {
      c.lastSeen := now;
    }

    /** datagram_route_get_or_create_client; `fd` is the socket of a creation that succeeds. */
    method GetOrCreateClient(a: Address, now: int, fd: nat, creation: Creation) returns (c: DatagramClient?)
      requires Valid() && IsAddress(a)
      modifies this`clients, this`nodes, this`repr, repr`lastSeen
      ensures Valid() && AreClients(old(Rows(nodes)))
      ensures var (t, place) := GetOrCreate(old(Rows(nodes)), a, now, fd, creation);
              Rows(nodes) == t && c == match place case None => null case Some(i) => nodes[i]
    {
      ghost var rows := Rows(nodes);
      c := FindClient(a);
      if c == null {
        if creation != Created {
          return;
        }
        c := Create(a, now, fd);
        TouchClient(c, now, 0);
      } else {
        TouchClient(c, now, Find(rows, a).value);
      }
    }

    /** Unlinks and frees the client at place k, through the link that leads to it. */
    method Unlink(c: DatagramClient, holder: DatagramClient?, ghost k: nat) returns (next: DatagramClient?)
      requires Valid() && k < |nodes| && c == nodes[k] && holder == (if k == 0 then null else nodes[k - 1])
      modifies this`clients, this`nodes, this`closed, repr`next, repr`freed
      ensures Valid() && nodes == old(nodes[..k] + nodes[k + 1..]) && c.freed
      ensures next == (if k < |nodes| then nodes[k] else null)
      ensures closed == old(closed) + [Client(c.addr, c.fd, c.lastSeen)]
    {
      next := c.next;
      if holder == null {
        clients := next;
      } else {
        holder.next := next;
      }
      c.next := null;
      c.freed := true;
      closed := closed + [Client(c.addr, c.fd, c.lastSeen)];
      ghost var was := nodes;
      nodes := nodes[..k] + nodes[k + 1..];
      assert forall i :: 0 <= i < |nodes| ==> nodes[i] == if i < k then was[i] else was[i + 1];
    }

    /** The same, said of the rows. */
    method Drop(c: DatagramClient, holder: DatagramClient?, ghost k: nat) returns (next: DatagramClient?)
      requires Valid() && k < |nodes| && c == nodes[k] && holder == (if k == 0 then null else nodes[k - 1])
      modifies this`clients, this`nodes, this`closed, repr`next, repr`freed
      ensures Valid() && |nodes| == |old(nodes)| - 1
      ensures next == (if k < |nodes| then nodes[k] else null)
      ensures k > 0 ==> holder == nodes[k - 1]
      ensures Rows(nodes) == old(Rows(nodes))[..k] + old(Rows(nodes))[k + 1..]
      ensures closed == old(closed) + [old(Rows(nodes))[k]]
    {
      RowsWithout(nodes, k);
      next := Unlink(c, holder, k);
    }

    /** One turn of the loop of cleanup_idle_datagram_clients. */
    method Visit(c: DatagramClient, holder: DatagramClient?, ghost k: nat, now: int, timeout: int)
      returns (c': DatagramClient?, holder': DatagramClient?, ghost k': nat)
      requires Valid() && k < |nodes| && c == nodes[k] && holder == (if k == 0 then null else nodes[k - 1])
      modifies this`clients, this`nodes, this`closed, repr`next, repr`freed
      ensures Valid() && k' <= |nodes| && |nodes| - k' == |old(nodes)| - k - 1
      ensures c' == (if k' < |nodes| then nodes[k'] else null)
      ensures holder' == (if k' == 0 then null else nodes[k' - 1])
      ensures Outcome(Rows(nodes), k', closed, now, timeout) == Outcome(old(Rows(nodes)), k, old(closed), now, timeout)
    {
      OutcomeAdvances(Rows(nodes), k, closed, now, timeout);
      if now - c.lastSeen <= timeout {
        holder' := c;
        c' := c.next;
        k' := k + 1;
      } else {
        c' := Drop(c, holder, k);
        holder', k' := holder, k;
      }
    }

    /** cleanup_idle_datagram_clients: exactly the clients that are too old are unlinked and freed,
        each once. */
    method CleanupIdle(now: int, timeout: int)
      requires Valid()
      modifies this`clients, this`nodes, this`closed, repr`next, repr`freed
      ensures Valid() && Rows(nodes) == Expire(old(Rows(nodes)), now, timeout)
      ensures closed == old(closed) + Expired(old(Rows(nodes)), now, timeout)
    {
      ghost var goal := Outcome(Rows(nodes), 0, closed, now, timeout);
      ghost var k: nat := 0;
      var holder: DatagramClient? := null;
      var c := clients;
      while c != null
        invariant Valid() && k <= |nodes|
        invariant c == (if k < |nodes| then nodes[k] else null)
        invariant holder == (if k == 0 then null else nodes[k - 1])
        invariant Outcome(Rows(nodes), k, closed, now, timeout) == goal
        decreases |nodes| - k
      {
        c, holder, k := Visit(c, holder, k, now, timeout);
      }
      OutcomeEnds(Rows(nodes), k, closed, now, timeout);
      OutcomeStarts(old(Rows(nodes)), old(closed), now, timeout);
    }

    /** One turn of the loop of free_datagram_route: the first client is unlinked and freed. */
    method DropFirst()
      requires Valid() && clients != null
      modifies this`clients, this`nodes, this`closed, repr`next, repr`freed
      ensures Valid() && |nodes| == |old(nodes)| - 1
      ensures Rows(nodes) == old(Rows(nodes))[1..] && closed == old(closed) + [old(Rows(nodes))[0]]
    {
      ghost var rows := Rows(nodes);
      var next := Drop(clients, null, 0);
      assert rows[..0] + rows[1..] == rows[1..];
    }

    /** The loop of free_datagram_route: every client is freed once, in the order of the list. */
    method FreeAll()
      requires Valid()
      modifies this`clients, this`nodes, this`closed, repr`next, repr`freed
      ensures Valid() && nodes == [] && clients == null
      ensures closed == old(closed) + old(Rows(nodes))
    {
      while clients != null
        invariant Valid()
        invariant closed + Rows(nodes) == old(closed) + old(Rows(nodes))
        decreases |nodes|
      {
        FirstMoves(closed, Rows(nodes));
        DropFirst();
      }
      assert closed + Rows(nodes) == closed;
    }
  }

  lemma {:induction false} RowsWithout(ns: seq<DatagramClient>, k: nat)
    requires k < |ns|
    ensures Rows(ns[..k] + ns[k + 1..]) == Rows(ns)[..k] + Rows(ns)[k + 1..]
  {
    var less := ns[..k] + ns[k + 1..];
    forall i | 0 <= i < |less| ensures Rows(less)[i] == (Rows(ns)[..k] + Rows(ns)[k + 1..])[i] {
      assert less[i] == if i < k then ns[i] else ns[i + 1];
    }
  }

  /** What the scan ends with if its first k rows are final and the others still to be looked at. */
  ghost function Outcome(rows: seq<Client>, k: nat, closed: seq<Client>, now: int, timeout: int): (seq<Client>, seq<Client>)
    requires k <= |rows|
  {
    (rows[..k] + Expire(rows[k..], now, timeout), closed + Expired(rows[k..], now, timeout))
  }

  lemma OutcomeStarts(rows: seq<Client>, closed: seq<Client>, now: int, timeout: int)
    ensures Outcome(rows, 0, closed, now, timeout) == (Expire(rows, now, timeout), closed + Expired(rows, now, timeout))
  {
    assert rows[0..] == rows;
    assert rows[..0] + Expire(rows, now, timeout) == Expire(rows, now, timeout);
  }

  lemma OutcomeAdvances(rows: seq<Client>, k: nat, closed: seq<Client>, now: int, timeout: int)
    requires k < |rows|
    ensures Outcome(rows, k, closed, now, timeout) ==
            if IsRecent(rows[k], now, timeout) then Outcome(rows, k + 1, closed, now, timeout)
            else Outcome(rows[..k] + rows[k + 1..], k, closed + [rows[k]], now, timeout)
  {
    var later := rows[k + 1..];
    assert rows[k..][1..] == later && rows[k..][0] == rows[k];
    if IsRecent(rows[k], now, timeout) {
      Bring(rows[..k], rows[k], Expire(later, now, timeout));
      assert rows[..k + 1] == rows[..k] + [rows[k]];
      assert [] + Expired(later, now, timeout) == Expired(later, now, timeout);
    } else {
      Bring(closed, rows[k], Expired(later, now, timeout));
      var less := rows[..k] + later;
      assert less[..k] == rows[..k] && less[k..] == later;
    }
  }

  lemma FirstMoves(closed: seq<Client>, rows: seq<Client>)
    requires rows != []
    ensures (closed + [rows[0]]) + rows[1..] == closed + rows
  {
  }

  lemma Bring(s: seq<Client>, c: Client, t: seq<Client>)
    ensures s + ([c] + t) == (s + [c]) + t
  {
  }

  lemma OutcomeEnds(rows: seq<Client>, k: nat, closed: seq<Client>, now: int, timeout: int)
    requires k == |rows|
    ensures Outcome(rows, k, closed, now, timeout) == (rows, closed)
  {
    assert rows[..k] + Expire(rows[k..], now, timeout) == rows;
    assert closed + Expired(rows[k..], now, timeout) == closed;
  }
}
