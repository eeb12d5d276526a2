/** The header and the stream together: what the upstream server of a proxy_v2 route can rely on. */
module EndToEnd {
  import opened Bytes
  import opened StreamConn
  import opened StreamRuns
  import opened Options
  import ProxyV2

  /** The header that worker_adopt_client_fd queues: none, or, for IPv4 peers, the PROXY header. */
  function AdoptionHeader(proxyV2: bool, peer: ProxyV2.SockAddr, local: ProxyV2.SockAddr): Option<seq<Byte>>
    requires ProxyV2.IsSockAddr(peer) && ProxyV2.IsSockAddr(local)
  {
    if !proxyV2 then Some([])
    else if !peer.Inet? || !local.Inet? then None
    else Some(ProxyV2.Header(peer, local, ProxyV2.Stream))
  }

  /** In every state of every run, a server that decodes what it has received so far either still
      waits for the rest of the header, or knows the client's address and port and holds a prefix
      of exactly the bytes the client sent. */
  lemma ServerSeesClient(peer: ProxyV2.SockAddr, local: ProxyV2.SockAddr, c: State, es: seq<Event>)
    requires ProxyV2.IsPair(peer, local) && peer.Inet?
    requires AdoptionHeader(true, peer, local) == Some(c.flow.header) && IsConnRun(c, es)
    ensures var seen := Run(c, es).flow.toUpstream;
            if |seen| < 28 then ProxyV2.Decode(seen) == ProxyV2.Incomplete
            else
              && ProxyV2.Decode(seen) == ProxyV2.Proxied(peer, local, ProxyV2.Stream, seen[28..])
              && seen[28..] <= Sent(es, true)
  {
    var h := c.flow.header;
    var seen := Run(c, es).flow.toUpstream;
    PeersSeePrefixes(c, es);
    var all := h + Sent(es, true);
    if |seen| < 28 {
      assert seen == h[..|seen|] by {
        assert seen == all[..|seen|];
      }
      ProxyV2.ProperPrefixIsIncomplete(peer, local, ProxyV2.Stream, |seen|);
    } else {
      assert seen == all[..|seen|];
      assert seen == h + seen[28..];
      assert seen[28..] == Sent(es, true)[..|seen| - 28];
      ProxyV2.DecodeInvertsBuild(peer, local, ProxyV2.Stream, seen[28..]);
    }
  }
}
