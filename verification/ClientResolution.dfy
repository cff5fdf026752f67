/** The walk over the proxy hops of a request, from the socket peer towards the client. */
module ClientResolution {
  import opened Text
  import opened ClientIp
  import opened ClientIpLaws
  import opened Cidr

  const MAX_FORWARDED_FOR_LENGTH := 4096
  const MAX_PROXY_HOPS := 20

  datatype Request = Request(
    peerAddress: Option<string>,
    forwardedFor: Option<string>,
    realIp: Option<string>,
    networks: seq<TrustedProxyNetwork>)

  /** One hop of a header, normalised. */
  function Hop(address: string): Option<seq<string>> {
    var normalized := NormalizeIp(Some(address));
    if normalized.None? then None else Some([normalized.value])
  }

  /** The hops a forwarding header names; None if there are too many or one is malformed. */
  function Hops(header: string): Option<seq<string>> {
    var addresses := Split(header, ',');
    if |addresses| > MAX_PROXY_HOPS then None else Collect(Hop, addresses)
  }

  function Trust(networks: seq<TrustedProxyNetwork>): string -> bool {
    address => Trusted(address, networks)
  }

  /** From the right end of the chain, step over trusted addresses. */
  function Walk(chain: seq<string>, trusted: string -> bool): string
    requires chain != []
  {
    var last := chain[|chain| - 1];
    if |chain| == 1 || !trusted(last) then last else Walk(chain[..|chain| - 1], trusted)
  }

  function Resolve(request: Request): string {
    var peer := NormalizeIp(request.peerAddress);
    if peer.None? then "unknown"
    else if !Trusted(peer.value, request.networks) then peer.value
    else if request.forwardedFor.Some? && 0 < |request.forwardedFor.value| <= MAX_FORWARDED_FOR_LENGTH then
      var hops := Hops(request.forwardedFor.value);
      if hops.None? then peer.value else Walk(hops.value + [peer.value], Trust(request.networks))
    else
      var direct := NormalizeIp(request.realIp);
      if direct.Some? then direct.value else peer.value
  }

  method IsTrusted(address: string, networks: seq<TrustedProxyNetwork>) returns (trusted: bool)
    ensures trusted == Trust(networks)(address)
  {
    trusted := IsTrustedProxy(address, networks);
  }

  /** One step of the walk, as an equation. */
  lemma WalkStep(chain: seq<string>, trusted: string -> bool, n: nat)
    requires 0 < n < |chain|
    ensures Walk(chain[..n + 1], trusted) == if trusted(chain[n]) then Walk(chain[..n], trusted) else chain[n]
  {
    assert chain[..n + 1][..n] == chain[..n];
  }

  /** The loop over the hops. */
  method WalkHops(normalized: seq<string>, peer: string, networks: seq<TrustedProxyNetwork>) returns (current: string)
    ensures current == Walk(normalized + [peer], Trust(networks))
  {
    current := peer;
    ghost var chain := normalized + [peer];
    var index := |normalized| - 1;
    assert chain[..|normalized| + 1] == chain;
    while index >= 0
      invariant -1 <= index < |normalized|
      invariant current == chain[index + 1]
      invariant Walk(chain[..index + 2], Trust(networks)) == Walk(chain, Trust(networks))
    {
      var trusted := IsTrusted(current, networks);
      WalkStep(chain, Trust(networks), index + 1);
      if !trusted { break; }
      current := normalized[index];
      index := index - 1;
    }
  }

  /** `resolveClientIp` */
  method ResolveClientIp(request: Request) returns (client: string)
    ensures client == Resolve(request)
  {
    var peer := NormalizeIp(request.peerAddress);
    if peer.None? { return "unknown"; }
    var trusted := IsTrustedProxy(peer.value, request.networks);
    if !trusted { return peer.value; }
    if request.forwardedFor.Some? && 0 < |request.forwardedFor.value| <= MAX_FORWARDED_FOR_LENGTH {
      var hops := Hops(request.forwardedFor.value);
      if hops.Some? {
        client := WalkHops(hops.value, peer.value, request.networks);
        return;
      }
      return peer.value;
    }
    var direct := NormalizeIp(request.realIp);
    return if direct.Some? then direct.value else peer.value;
  }

  // ----- What the walk finds

  /** Position `k` is where a walk stops: everything to its right is trusted, and it is the left end of
      the chain or not trusted itself. */
  predicate StopsAt(chain: seq<string>, trusted: string -> bool, k: nat) {
    && k < |chain|
    && (forall j :: k < j < |chain| ==> trusted(chain[j]))
    && (k == 0 || !trusted(chain[k]))
  }

  /** The walk finds the only such position. */
  lemma {:induction false} WalkStops(chain: seq<string>, trusted: string -> bool) returns (k: nat)
    requires chain != []
    ensures StopsAt(chain, trusted, k) && Walk(chain, trusted) == chain[k]
    ensures forall i: nat :: StopsAt(chain, trusted, i) ==> i == k
  {
    k := |chain| - 1;
    if k > 0 && trusted(chain[k]) {
      k := WalkStops(chain[..k], trusted);
    }
  }

  /** What stands left of an untrusted address has no influence. */
  lemma {:induction false} WalkIgnoresLeft(left: seq<string>, right: seq<string>, trusted: string -> bool)
    requires exists h :: h in right && !trusted(h)
    ensures Walk(left + right, trusted) == Walk(right, trusted)
  {
    var chain, n := left + right, |right| - 1;
    if trusted(right[n]) {
      assert right == right[..n] + [right[n]];
      WalkIgnoresLeft(left, right[..n], trusted);
      assert chain[..|chain| - 1] == left + right[..n];
    }
  }

  /** The hops of a header are those of its left part followed by those of its right part. */
  lemma HopsOfParts(left: string, right: string)
    requires Hops(left + "," + right).Some?
    ensures Hops(left).Some? && Hops(right).Some?
    ensures Hops(left + "," + right).value == Hops(left).value + Hops(right).value
  {
    SplitAt(left, right, ',');
    CollectAppend(Hop, Split(left, ','), Split(right, ','));
  }

  /** A client that can only write hops to the left of an address outside the trusted networks cannot
      change the outcome. */
  lemma ForgedHopsIgnored(request: Request, forged: string, genuine: string)
    requires genuine != "" && |forged + "," + genuine| <= MAX_FORWARDED_FOR_LENGTH
    requires Hops(forged + "," + genuine).Some? && Hops(genuine).Some?
    requires exists h :: h in Hops(genuine).value && !Trust(request.networks)(h)
    ensures Resolve(request.(forwardedFor := Some(forged + "," + genuine)))
            == Resolve(request.(forwardedFor := Some(genuine)))
  {
    HopsOfParts(forged, genuine);
    var peer := NormalizeIp(request.peerAddress);
    if peer.Some? {
      var left, hops := Hops(forged).value, Hops(genuine).value;
      WalkIgnoresLeft(left, hops + [peer.value], Trust(request.networks));
      assert left + (hops + [peer.value]) == (left + hops) + [peer.value];
    }
  }

  /** An oversized header is answered with the real-ip header, not with the peer, unless that header is
      missing, malformed or names the peer. */
  lemma OversizedHeaderYieldsRealIp(request: Request)
    requires NormalizeIp(request.peerAddress).Some?
    requires Trusted(NormalizeIp(request.peerAddress).value, request.networks)
    requires request.forwardedFor.Some? && |request.forwardedFor.value| > MAX_FORWARDED_FOR_LENGTH
    ensures Resolve(request) == NormalizeIp(request.peerAddress).value <==>
              NormalizeIp(request.realIp).None? || NormalizeIp(request.realIp) == NormalizeIp(request.peerAddress)
  {}

  lemma TrustsItself(a: Address, prefixLength: nat)
    requires a.Valid() && prefixLength <= a.family.Bits()
    ensures Trusted(a.Text(), [TrustedProxyNetwork(a.family, a.Text(), prefixLength)])
  {
    TextIsNormal(a);
    var network := TrustedProxyNetwork(a.family, a.Text(), prefixLength);
    assert Contains(network, a);
    assert network in [network];
  }

  /** Behind any trusted proxy, an oversized header and the real-ip header of any other client. */
  lemma OversizedHeaderMisses(proxy: Address, client: Address, header: string)
    requires proxy.Valid() && client.Valid() && proxy != client && |header| > MAX_FORWARDED_FOR_LENGTH
    ensures var network := TrustedProxyNetwork(proxy.family, proxy.Text(), proxy.family.Bits());
            var request := Request(Some(proxy.Text()), Some(header), Some(client.Text()), [network]);
            Resolve(request) == client.Text() != proxy.Text()
  {
    TextIsNormal(proxy);
    TextIsNormal(client);
    TrustsItself(proxy, proxy.family.Bits());
  }
}
