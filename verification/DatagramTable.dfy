/**
 The table of UDP clients of a route: a list with the newest client first, searched by address,
 expired by age.  It behaves as a map from client address to client; sockets are opened and closed
 once, and a reply that arrives on a client's socket goes to the address whose packets were sent
 on it.

 Every operation runs under the route's mutex, so a run is a sequence of whole operations.  A
 socket number stands for one opened socket.
 */
module DatagramTable {
  import opened Bytes
  import opened Options

  const SOCKADDR_STORAGE := 128

  /** A struct sockaddr_storage, whose first two bytes are ss_family, and the length in use. */
  datatype Address = Address(storage: seq<Byte>, len: nat)

  predicate IsAddress(a: Address) {
    |a.storage| == SOCKADDR_STORAGE && a.len <= SOCKADDR_STORAGE
  }

  predicate SockaddrEqual(a: Address, b: Address)
    requires IsAddress(a) && IsAddress(b)
  {
    a.len == b.len && a.storage[..2] == b.storage[..2] && a.storage[..a.len] == b.storage[..a.len]
  }

  /** The part of an address that the comparison sees. */
  type Key = (nat, seq<Byte>, seq<Byte>)

  function KeyOf(a: Address): Key
    requires IsAddress(a)
  {
    (a.len, a.storage[..2], a.storage[..a.len])
  }

  datatype Client = Client(addr: Address, fd: nat, lastSeen: int)

  predicate AreClients(t: seq<Client>) {
    forall i :: 0 <= i < |t| ==> IsAddress(t[i].addr)
  }

  // ---- Operations on the list ------------------------------------------------------------------

  function Find(t: seq<Client>, a: Address): (r: Option<nat>)
    requires AreClients(t) && IsAddress(a)
    ensures r.Some? ==> r.value < |t| && SockaddrEqual(t[r.value].addr, a) &&
                        forall i :: 0 <= i < r.value ==> !SockaddrEqual(t[i].addr, a)
    ensures r.None? ==> forall i :: 0 <= i < |t| ==> !SockaddrEqual(t[i].addr, a)
  {
    if t == [] then None
    else if SockaddrEqual(t[0].addr, a) then Some(0)
    else
      var r := Find(t[1..], a);
      if r.None? then None else Some(r.value + 1)
  }

  predicate IsRecent(c: Client, now: int, timeout: int) {
    now - c.lastSeen <= timeout
  }

  function Expire(t: seq<Client>, now: int, timeout: int): (r: seq<Client>)
    ensures AreClients(t) ==> AreClients(r)
    ensures forall c :: c in r <==> c in t && IsRecent(c, now, timeout)
  {
    if t == [] then []
    else if IsRecent(t[0], now, timeout) then [t[0]] + Expire(t[1..], now, timeout)
    else Expire(t[1..], now, timeout)
  }

  /** The others, which are freed. */
  function Expired(t: seq<Client>, now: int, timeout: int): seq<Client> {
    if t == [] then []
    else (if IsRecent(t[0], now, timeout) then [] else [t[0]]) + Expired(t[1..], now, timeout)
  }

  /** How the creation of a client can end: a socket and a client; no socket or no memory; or a
      socket that was closed again because a later step failed. */
  datatype Creation = Created | NoSocket | SocketClosed

  function Touch(t: seq<Client>, i: nat, now: int): seq<Client>
    requires i < |t|
  {
    t[i := t[i].(lastSeen := now)]
  }

  /** datagram_route_get_or_create_client: the table afterwards, and the client's place if any. */
  function GetOrCreate(t: seq<Client>, a: Address, now: int, fd: nat, creation: Creation): (r: (seq<Client>, Option<nat>))
    requires AreClients(t) && IsAddress(a)
    ensures AreClients(r.0) && (r.1.Some? ==> r.1.value < |r.0|)
  {
    match Find(t, a)
    case Some(i) => (Touch(t, i, now), Some(i))
    case None => if creation == Created then ([Client(a, fd, now)] + t, Some(0)) else (t, None)
  }

  // ---- The table as a map ----------------------------------------------------------------------

  ghost predicate Distinct(t: seq<Client>)
    requires AreClients(t)
  {
    forall i, j :: 0 <= i < j < |t| ==> KeyOf(t[i].addr) != KeyOf(t[j].addr)
  }

  ghost function AsMap(t: seq<Client>): map<Key, Client>
    requires AreClients(t)
  {
    if t == [] then map[] else AsMap(t[1..])[KeyOf(t[0].addr) := t[0]]
  }

  lemma {:induction false} MapHasExactlyTheClients(t: seq<Client>, k: Key)
    requires AreClients(t) && Distinct(t)
    ensures k in AsMap(t) ==> AsMap(t)[k] in t && KeyOf(AsMap(t)[k].addr) == k
    ensures forall i :: 0 <= i < |t| && KeyOf(t[i].addr) == k ==> k in AsMap(t) && AsMap(t)[k] == t[i]
  {
    if t != [] {
      var rest := t[1..];
      assert forall i :: 1 <= i < |t| ==> t[i] == rest[i - 1];
      MapHasExactlyTheClients(rest, k);
    }
  }

  /** find_datagram_client is the map's lookup. */
  lemma FindIsLookup(t: seq<Client>, a: Address)
    requires AreClients(t) && Distinct(t) && IsAddress(a)
    ensures Find(t, a).Some? <==> KeyOf(a) in AsMap(t)
    ensures Find(t, a).Some? ==> t[Find(t, a).value] == AsMap(t)[KeyOf(a)]
  {
    MapHasExactlyTheClients(t, KeyOf(a));
    var r := Find(t, a);
    if r.Some? {
      assert KeyOf(t[r.value].addr) == KeyOf(a);
    }
  }

  /** What stays is exactly what was seen at most `timeout` ago, and what is freed is the rest. */
  lemma {:induction false} ExpireByAge(t: seq<Client>, now: int, timeout: int, c: Client)
    ensures c in Expire(t, now, timeout) <==> c in t && now <= c.lastSeen + timeout
    ensures c in Expired(t, now, timeout) <==> c in t && now > c.lastSeen + timeout
    ensures |Expire(t, now, timeout)| + |Expired(t, now, timeout)| == |t|
  {
    if t != [] {
      ExpireByAge(t[1..], now, timeout, c);
    }
  }

  lemma {:induction false} ExpireKeepsDistinct(t: seq<Client>, now: int, timeout: int)
    requires AreClients(t) && Distinct(t)
    ensures Distinct(Expire(t, now, timeout))
  {
    if t != [] {
      var rest := t[1..];
      ExpireKeepsDistinct(rest, now, timeout);
      var r := Expire(rest, now, timeout);
      forall i | 0 <= i < |r| ensures KeyOf(r[i].addr) != KeyOf(t[0].addr) {
        assert r[i] in rest;
        var j :| 0 <= j < |rest| && rest[j] == r[i];
        assert t[j + 1] == rest[j];
      }
    }
  }

  /** Expiry removes exactly the entries that are too old from the map. */
  lemma ExpireIsRestriction(t: seq<Client>, now: int, timeout: int, k: Key)
    requires AreClients(t) && Distinct(t)
    ensures Distinct(Expire(t, now, timeout))
    ensures k in AsMap(Expire(t, now, timeout)) <==> k in AsMap(t) && IsRecent(AsMap(t)[k], now, timeout)
    ensures k in AsMap(Expire(t, now, timeout)) ==> AsMap(Expire(t, now, timeout))[k] == AsMap(t)[k]
  {
    var r := Expire(t, now, timeout);
    ExpireKeepsDistinct(t, now, timeout);
    MapHasExactlyTheClients(t, k);
    MapHasExactlyTheClients(r, k);
    if k in AsMap(r) {
      var c := AsMap(r)[k];
      assert c in t;
      var i :| 0 <= i < |t| && t[i] == c;
    }
    if k in AsMap(t) && IsRecent(AsMap(t)[k], now, timeout) {
      var c := AsMap(t)[k];
      assert c in r;
      var i :| 0 <= i < |r| && r[i] == c;
    }
  }

  /** ... and keeps the order of the others. */
  lemma {:induction false} ExpireKeepsOrder(s: seq<Client>, t: seq<Client>, now: int, timeout: int)
    ensures Expire(s + t, now, timeout) == Expire(s, now, timeout) + Expire(t, now, timeout)
  {
    if s == [] {
      assert s + t == t;
    } else {
      assert (s + t)[0] == s[0] && (s + t)[1..] == s[1..] + t;
      ExpireKeepsOrder(s[1..], t, now, timeout);
    }
  }

  /** Get-or-create updates the map at the packet's address, or, if that client does not exist and
      cannot be created, changes nothing. */
  lemma GetOrCreateIsUpdate(t: seq<Client>, a: Address, now: int, fd: nat, creation: Creation, k: Key)
    requires AreClients(t) && Distinct(t) && IsAddress(a)
    ensures var (t', place) := GetOrCreate(t, a, now, fd, creation);
            && Distinct(t')
            && (place.None? <==> KeyOf(a) !in AsMap(t) && creation != Created)
            && (place.None? ==> t' == t)
            && (place.Some? ==>
                  && KeyOf(a) in AsMap(t') && t'[place.value] == AsMap(t')[KeyOf(a)] && t'[place.value].lastSeen == now
                  && (KeyOf(a) in AsMap(t) ==> t'[place.value].fd == AsMap(t)[KeyOf(a)].fd)
                  && (KeyOf(a) !in AsMap(t) ==> t'[place.value] == Client(a, fd, now))
                  && (k != KeyOf(a) ==> (k in AsMap(t') <==> k in AsMap(t)) &&
                                        (k in AsMap(t) ==> AsMap(t')[k] == AsMap(t)[k])))
  {
    FindIsLookup(t, a);
    var (t', place) := GetOrCreate(t, a, now, fd, creation);
    GetOrCreateKeepsDistinct(t, a, now, fd, creation);
    if place.Some? {
      MapHasExactlyTheClients(t', KeyOf(a));
      MapHasExactlyTheClients(t, k);
      MapHasExactlyTheClients(t', k);
      assert KeyOf(t'[place.value].addr) == KeyOf(a);
      if k != KeyOf(a) {
        OthersStay(t, a, now, fd, creation, k);
      }
    }
  }

  lemma GetOrCreateKeepsDistinct(t: seq<Client>, a: Address, now: int, fd: nat, creation: Creation)
    requires AreClients(t) && Distinct(t) && IsAddress(a)
    ensures Distinct(GetOrCreate(t, a, now, fd, creation).0)
  {
  }

  lemma OthersStay(t: seq<Client>, a: Address, now: int, fd: nat, creation: Creation, k: Key)
    requires AreClients(t) && Distinct(t) && IsAddress(a) && k != KeyOf(a)
    ensures var (t', place) := GetOrCreate(t, a, now, fd, creation);
            && Distinct(t')
            && (k in AsMap(t') <==> k in AsMap(t)) && (k in AsMap(t) ==> AsMap(t')[k] == AsMap(t)[k])
  {
    var (t', place) := GetOrCreate(t, a, now, fd, creation);
    var shift := |t'| - |t|;
    GetOrCreateKeepsDistinct(t, a, now, fd, creation);
    MapHasExactlyTheClients(t, k);
    MapHasExactlyTheClients(t', k);
    if k in AsMap(t) {
      var i :| 0 <= i < |t| && t[i] == AsMap(t)[k];
      assert t'[i + shift] == t[i];
    }
    if k in AsMap(t') {
      var j :| 0 <= j < |t'| && t'[j] == AsMap(t')[k];
      assert j >= shift && t[j - shift] == t'[j];
    }
  }
}
