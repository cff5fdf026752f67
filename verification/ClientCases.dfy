/** Where the resolved address comes from, case by case. */
module ClientCases {
  import opened Text
  import opened IpText
  import opened ClientIp
  import opened ClientIpLaws
  import opened Cidr
  import opened ClientResolution

  /** An address in one of the configured networks: of its family, with its leading bits. */
  ghost predicate InSome(networks: seq<TrustedProxyNetwork>, a: Address)
    requires AllValid(networks)
  {
    exists n :: n in networks && HasPrefix(n, a)
  }

  lemma TrustedIsInSome(a: Address, networks: seq<TrustedProxyNetwork>)
    requires AllValid(networks) && a.Valid()
    ensures Trusted(a.Text(), networks) <==> InSome(networks, a)
  {
    TextIsNormal(a);
    TrustedExactly(a.Text(), networks);
  }

  /** A request without a valid peer address has no client. */
  lemma UnknownPeer(request: Request)
    requires request.peerAddress.None? || NormalizeIp(request.peerAddress).None?
    ensures Resolve(request) == "unknown"
  {}

  /** The address of a peer outside the configured networks is the client's, whatever headers it sends. */
  lemma UntrustedPeerIsClient(request: Request, peer: Address, forwardedFor: Option<string>, realIp: Option<string>)
    requires AllValid(request.networks) && peer.Valid() && !InSome(request.networks, peer)
    requires NormalizeIp(request.peerAddress) == Some(peer.Text())
    ensures Resolve(request.(forwardedFor := forwardedFor, realIp := realIp)) == peer.Text()
  {
    TrustedIsInSome(peer, request.networks);
  }

  /** Without a forwarding header, or with one of more than 4096 characters, a trusted peer is believed about
      the real address, if it names one. */
  lemma TrustedPeerNamesClient(request: Request, peer: Address)
    requires AllValid(request.networks) && peer.Valid() && InSome(request.networks, peer)
    requires NormalizeIp(request.peerAddress) == Some(peer.Text())
    requires request.forwardedFor.None? || request.forwardedFor == Some("") || |request.forwardedFor.value| > 4096
    ensures Resolve(request) ==
            if NormalizeIp(request.realIp).Some? then NormalizeIp(request.realIp).value else peer.Text()
  {
    TrustedIsInSome(peer, request.networks);
  }

  function Normal(address: string): Option<string> {
    NormalizeIp(Some(address))
  }

  /** `hop` keeps what `normal` makes of an address. */
  ghost predicate Keeps(hop: string -> Option<seq<string>>, normal: string -> Option<string>) {
    forall s :: hop(s) == if normal(s).None? then None else Some([normal(s).value])
  }

  predicate AllNormal(normal: string -> Option<string>, parts: seq<string>) {
    forall i :: 0 <= i < |parts| ==> normal(parts[i]).Some?
  }

  lemma {:induction false} CollectNormal(hop: string -> Option<seq<string>>, normal: string -> Option<string>,
                                         parts: seq<string>)
    requires Keeps(hop, normal)
    ensures Collect(hop, parts).Some? <==> AllNormal(normal, parts)
    ensures Collect(hop, parts).Some? ==>
              && |Collect(hop, parts).value| == |parts|
              && forall i :: 0 <= i < |parts| ==> Some(Collect(hop, parts).value[i]) == normal(parts[i])
  {
    if parts != [] {
      var rest := parts[1..];
      CollectNormal(hop, normal, rest);
      assert forall i :: 1 <= i < |parts| ==> parts[i] == rest[i - 1];
      assert forall i :: 0 <= i < |rest| ==> rest[i] == parts[i + 1];
    }
  }

  lemma HopsKeep()
    ensures Keeps(Hop, Normal)
  {}

  /** A header that a trusted peer sends and that has more than 20 hops, or one that is no address, is dropped:
      the client is the peer, whatever the real-ip header says. */
  lemma MalformedHeaderYieldsPeer(request: Request, peer: Address)
    requires AllValid(request.networks) && peer.Valid() && InSome(request.networks, peer)
    requires NormalizeIp(request.peerAddress) == Some(peer.Text())
    requires request.forwardedFor.Some? && 0 < |request.forwardedFor.value| <= 4096
    requires var parts := Split(request.forwardedFor.value, ','); |parts| > 20 || !AllNormal(Normal, parts)
    ensures Resolve(request) == peer.Text()
  {
    TrustedIsInSome(peer, request.networks);
    HopsKeep();
    CollectNormal(Hop, Normal, Split(request.forwardedFor.value, ','));
  }

  /** The chain of a well-formed header: its hops, normalised, and the peer. */
  predicate IsChain(chain: seq<string>, normal: string -> Option<string>, parts: seq<string>, peer: string) {
    && |chain| == |parts| + 1 && chain[|parts|] == peer
    && forall i :: 0 <= i < |parts| ==> normal(parts[i]) == Some(chain[i])
  }

  lemma SameHops(hops: seq<string>, chain: seq<string>, normal: string -> Option<string>, parts: seq<string>,
                 peer: string)
    requires IsChain(chain, normal, parts, peer) && |hops| == |parts|
    requires forall i :: 0 <= i < |parts| ==> Some(hops[i]) == normal(parts[i])
    ensures hops == chain[..|parts|]
  {
    forall i | 0 <= i < |parts|
      ensures hops[i] == chain[i]
    {
      assert Some(hops[i]) == normal(parts[i]) == Some(chain[i]);
    }
  }

  lemma ChainOfHops(chain: seq<string>, hop: string -> Option<seq<string>>, normal: string -> Option<string>,
                    parts: seq<string>, peer: string)
    requires Keeps(hop, normal) && IsChain(chain, normal, parts, peer)
    ensures Collect(hop, parts) == Some(chain[..|parts|]) && chain == chain[..|parts|] + [peer]
  {
    CollectNormal(hop, normal, parts);
    SameHops(Collect(hop, parts).value, chain, normal, parts, peer);
  }

  lemma WalkFromTrusted(chain: seq<string>, trusted: string -> bool) returns (k: nat)
    requires |chain| > 1 && trusted(chain[|chain| - 1])
    ensures k < |chain| - 1 && Walk(chain, trusted) == chain[k] && StopsAt(chain, trusted, k)
  {
    k := WalkStops(chain, trusted);
  }

  lemma ResolveWalks(request: Request, peer: string, hops: seq<string>)
    requires NormalizeIp(request.peerAddress) == Some(peer) && Trusted(peer, request.networks)
    requires request.forwardedFor.Some? && 0 < |request.forwardedFor.value| <= 4096
    requires |Split(request.forwardedFor.value, ',')| <= 20
    requires Collect(Hop, Split(request.forwardedFor.value, ',')) == Some(hops)
    ensures Resolve(request) == Walk(hops + [peer], Trust(request.networks))
  {}

  /** Of a well-formed header that a trusted peer sends, the client is the hop with only trusted addresses to
      its right that is not trusted itself, or the first one if all are. */
  lemma WellFormedHeaderNamesClient(request: Request, peer: Address, chain: seq<string>) returns (k: nat)
    requires AllValid(request.networks) && peer.Valid() && InSome(request.networks, peer)
    requires NormalizeIp(request.peerAddress) == Some(peer.Text())
    requires request.forwardedFor.Some? && 0 < |request.forwardedFor.value| <= 4096
    requires |Split(request.forwardedFor.value, ',')| <= 20
    requires IsChain(chain, Normal, Split(request.forwardedFor.value, ','), peer.Text())
    ensures k < |chain| - 1 && Resolve(request) == chain[k] && StopsAt(chain, Trust(request.networks), k)
  {
    var parts := Split(request.forwardedFor.value, ',');
    TrustedIsInSome(peer, request.networks);
    HopsKeep();
    ChainOfHops(chain, Hop, Normal, parts, peer.Text());
    ResolveWalks(request, peer.Text(), chain[..|parts|]);
    k := WalkFromTrusted(chain, Trust(request.networks));
  }
}
