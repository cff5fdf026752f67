/** Membership of an address in a CIDR block: group by group in the program, by the leading bits here. */
module Cidr {
  import opened Text
  import opened Numerals
  import opened IpText
  import opened ClientIp
  import opened ClientIpLaws

  function Pow2(n: nat): (r: nat)
    ensures r > 0
  {
    if n == 0 then 1 else 2 * Pow2(n - 1)
  }

  /** Drop the lowest `k` bits. */
  function Shr(v: nat, k: nat): nat {
    if k == 0 then v else Shr(v / 2, k - 1)
  }

  /** Append `k` zero bits. */
  function Shl(v: nat, k: nat): nat
    decreases k
  {
    if k == 0 then v else Shl(2 * v, k - 1)
  }

  /** Bitwise conjunction, which JavaScript's `&` computes on numbers below 2^31. */
  function BitAnd(a: nat, b: nat): nat {
    if a == 0 || b == 0 then 0
    else 2 * BitAnd(a / 2, b / 2) + if a % 2 == 1 && b % 2 == 1 then 1 else 0
  }

  /** The address as one integer, most significant group first. */
  function ToInteger(groups: seq<nat>, width: nat): nat {
    if groups == [] then 0
    else Shl(ToInteger(groups[..|groups| - 1], width), width) + groups[|groups| - 1]
  }

  datatype TrustedProxyNetwork = TrustedProxyNetwork(family: Family, address: string, prefixLength: nat) {
    /** What `parseTrustedProxyCidrs` makes: a normalised address of the family, a prefix within its bits. */
    predicate Valid() {
      && prefixLength <= family.Bits()
      && var a := IpToGroups(address);
         a.Some? && a.value.Valid() && a.value.family == family
    }
  }

  /** The leading `prefixLength` bits of two addresses of a family agree. */
  predicate SameLeadingBits(family: Family, a: seq<nat>, b: seq<nat>, prefixLength: nat)
    requires prefixLength <= family.Bits()
  {
    var drop := family.Bits() - prefixLength;
    Shr(ToInteger(a, family.BitsPerGroup()), drop) == Shr(ToInteger(b, family.BitsPerGroup()), drop)
  }

  /** A group of an address, as an array access finds it. */
  function GroupAt(groups: seq<nat>, i: nat): Option<nat> {
    if i < |groups| then Some(groups[i]) else None
  }

  /** The comparison group by group, for groups of any number and size and any prefix length. */
  predicate SameByGroup(width: nat, a: seq<nat>, b: seq<nat>, prefixLength: nat)
    requires width > 0
  {
    var complete, remainder := prefixLength / width, prefixLength % width;
    && (forall i :: 0 <= i < complete ==> GroupAt(a, i) == GroupAt(b, i))
    && (remainder == 0 || SameMasked(GroupAt(a, complete), GroupAt(b, complete), width, width - remainder))
  }

  predicate SameMasked(a: Option<nat>, b: Option<nat>, width: nat, k: nat) {
    var mask := Shl(Pow2(width) - 1, k);
    a.Some? && b.Some? && BitAnd(a.value, mask) == BitAnd(b.value, mask)
  }

  /** A network whose address does not parse contains nothing; a valid one contains the addresses of its
      family with its leading bits. A network that is neither, which no configuration yields, is compared
      group by group. */
  predicate Contains(network: TrustedProxyNetwork, address: Address) {
    var own := IpToGroups(network.address);
    && network.family == address.family
    && own.Some?
    && if network.Valid() && address.Valid() then
         SameLeadingBits(network.family, address.groups, own.value.groups, network.prefixLength)
       else
         SameByGroup(network.family.BitsPerGroup(), address.groups, own.value.groups, network.prefixLength)
  }

  predicate AllValid(networks: seq<TrustedProxyNetwork>) {
    forall n :: n in networks ==> n.Valid()
  }

  predicate ContainedInAny(networks: seq<TrustedProxyNetwork>, address: Address) {
    exists n :: n in networks && Contains(n, address)
  }

  predicate Trusted(address: string, networks: seq<TrustedProxyNetwork>) {
    var parsed := IpToGroups(address);
    parsed.Some? && ContainedInAny(networks, parsed.value)
  }

  // ----- Shifts

  /** Shifting is multiplication and division by a power of two. */
  lemma {:induction false} ShiftsScale(v: nat, k: nat)
    ensures Shl(v, k) == v * Pow2(k)
    ensures Shr(v, k) == v / Pow2(k)
    decreases k
  {
    if k > 0 {
      ShiftsScale(2 * v, k - 1);
      ShiftsScale(v / 2, k - 1);
      ScaleTwice(v, Pow2(k - 1));
      DivideTwice(v, Pow2(k - 1));
    }
  }

  lemma ScaleTwice(v: nat, m: nat)
    ensures (2 * v) * m == v * (2 * m)
  {}

  lemma DivideTwice(v: nat, m: nat)
    requires m > 0
    ensures v / (2 * m) == (v / 2) / m
  {
    var half := v / 2;
    var q, r := half / m, half % m;
    var product := q * m;
    assert half == product + r;
    assert q * (2 * m) == 2 * product;
    QuotientUnique(v, 2 * m, q, 2 * r + v % 2);
  }

  lemma QuotientUnique(v: nat, m: nat, q: nat, r: nat)
    requires m > 0 && r < m && v == q * m + r
    ensures v / m == q
  {
    var p, s := v / m, v % m;
    assert v == p * m + s;
    assert (p - q) * m == p * m - q * m;
    MultipleBelow(p - q, m);
    MultipleBelow(q - p, m);
    assert (q - p) * m == q * m - p * m;
  }

  lemma MultipleBelow(d: int, m: nat)
    requires m > 0
    ensures d >= 1 ==> d * m >= m
  {}

  lemma {:induction false} ShrAdds(v: nat, j: nat, k: nat)
    ensures Shr(v, j + k) == Shr(Shr(v, j), k)
  {
    if j > 0 {
      ShrAdds(v / 2, j - 1, k);
    }
  }

  lemma {:induction false} ShlLast(v: nat, k: nat)
    requires k > 0
    ensures Shl(v, k) == 2 * Shl(v, k - 1)
    decreases k
  {
    if k > 1 {
      ShlLast(2 * v, k - 1);
    }
  }

  /** Shifting a group with `high` above it. */
  lemma {:induction false} ShrGroup(high: nat, low: nat, width: nat, k: nat)
    requires k <= width && low < Pow2(width)
    ensures Shr(Shl(high, width) + low, k) == Shl(high, width - k) + Shr(low, k)
    ensures Shr(low, k) < Pow2(width - k)
  {
    if k > 0 {
      ShlLast(high, width);
      assert (Shl(high, width) + low) / 2 == Shl(high, width - 1) + low / 2;
      ShrGroup(high, low / 2, width - 1, k - 1);
    }
  }

  /** A pair of numbers packed into one can be told apart. */
  lemma Unpack(x: nat, u: nat, y: nat, v: nat, width: nat)
    requires u < Pow2(width) && v < Pow2(width)
    ensures Shl(x, width) + u == Shl(y, width) + v <==> x == y && u == v
  {
    ShrGroup(x, u, width, width);
    ShrGroup(y, v, width, width);
    assert Pow2(0) == 1;
  }

  // ----- Leading bits, group by group

  /** The bits of `count` groups. */
  function GroupBits(width: nat, count: nat): nat {
    if count == 0 then 0 else width + GroupBits(width, count - 1)
  }

  lemma {:induction false} LeadingGroups(groups: seq<nat>, width: nat, count: nat)
    requires count <= |groups| && Below(groups, Pow2(width))
    ensures Shr(ToInteger(groups, width), GroupBits(width, |groups| - count)) == ToInteger(groups[..count], width)
  {
    if count < |groups| {
      var front := groups[..|groups| - 1];
      var v := ToInteger(groups, width);
      ShrGroup(ToInteger(front, width), groups[|groups| - 1], width, width);
      assert Pow2(0) == 1;
      assert Shr(v, width) == ToInteger(front, width);
      ShrAdds(v, width, GroupBits(width, |front| - count));
      LeadingGroups(front, width, count);
      assert front[..count] == groups[..count];
    } else {
      assert groups[..count] == groups;
    }
  }

  lemma {:induction false} ToIntegerInjective(a: seq<nat>, b: seq<nat>, width: nat)
    requires |a| == |b| && Below(a, Pow2(width)) && Below(b, Pow2(width))
    ensures ToInteger(a, width) == ToInteger(b, width) <==> a == b
  {
    if a != [] {
      var n := |a| - 1;
      ToIntegerInjective(a[..n], b[..n], width);
      Unpack(ToInteger(a[..n], width), a[n], ToInteger(b[..n], width), b[n], width);
      assert a == a[..n] + [a[n]] && b == b[..n] + [b[n]];
    }
  }

  /** Leading bits that end at a group boundary agree exactly when the complete groups do. */
  lemma LeadingBitsComplete(a: seq<nat>, b: seq<nat>, width: nat, complete: nat)
    requires |a| == |b| && Below(a, Pow2(width)) && Below(b, Pow2(width)) && complete <= |a|
    ensures var drop := GroupBits(width, |a| - complete);
            Shr(ToInteger(a, width), drop) == Shr(ToInteger(b, width), drop) <==> a[..complete] == b[..complete]
  {
    LeadingGroups(a, width, complete);
    LeadingGroups(b, width, complete);
    ToIntegerInjective(a[..complete], b[..complete], width);
  }

  /** Leading bits that end inside a group agree exactly when the complete groups do and so do the leading
      bits of the group they end in. */
  lemma LeadingBitsPartial(a: seq<nat>, b: seq<nat>, width: nat, complete: nat, remainder: nat)
    requires |a| == |b| && Below(a, Pow2(width)) && Below(b, Pow2(width))
    requires 0 < remainder < width && complete < |a|
    ensures var drop := GroupBits(width, |a| - complete - 1) + (width - remainder);
            Shr(ToInteger(a, width), drop) == Shr(ToInteger(b, width), drop) <==>
            a[..complete] == b[..complete] && Shr(a[complete], width - remainder) == Shr(b[complete], width - remainder)
  {
    PartialGroup(a, width, complete, remainder);
    PartialGroup(b, width, complete, remainder);
    ToIntegerInjective(a[..complete], b[..complete], width);
    ShrGroup(0, a[complete], width, width - remainder);
    ShrGroup(0, b[complete], width, width - remainder);
    Unpack(ToInteger(a[..complete], width), Shr(a[complete], width - remainder),
           ToInteger(b[..complete], width), Shr(b[complete], width - remainder), remainder);
  }

  lemma PartialGroup(groups: seq<nat>, width: nat, complete: nat, remainder: nat)
    requires Below(groups, Pow2(width)) && 0 < remainder < width && complete < |groups|
    ensures Shr(ToInteger(groups, width), GroupBits(width, |groups| - complete - 1) + (width - remainder))
            == Shl(ToInteger(groups[..complete], width), remainder) + Shr(groups[complete], width - remainder)
  {
    var head := groups[..complete + 1];
    LeadingGroups(groups, width, complete + 1);
    ShrAdds(ToInteger(groups, width), GroupBits(width, |groups| - complete - 1), width - remainder);
    assert head[..complete] == groups[..complete];
    ShrGroup(ToInteger(groups[..complete], width), groups[complete], width, width - remainder);
  }

  // ----- The mask

  lemma {:induction false} AndShifted(a: nat, m: nat, k: nat)
    ensures BitAnd(a, Shl(m, k)) == Shl(BitAnd(Shr(a, k), m), k)
  {
    if k > 0 {
      var b := Shl(m, k - 1);
      ShlLast(m, k);
      AndShifted(a / 2, m, k - 1);
      ShlLast(BitAnd(Shr(a, k), m), k);
      AndEven(a, b);
    }
  }

  lemma AndEven(a: nat, b: nat)
    ensures BitAnd(a, 2 * b) == 2 * BitAnd(a / 2, b)
  {}

  lemma {:induction false} AndOnes(a: nat, width: nat)
    requires a < Pow2(width)
    ensures BitAnd(a, Pow2(width) - 1) == a
  {
    if width > 0 {
      AndOnes(a / 2, width - 1);
    }
  }

  /** Masked with the ones of a group shifted left, a group keeps its leading bits. */
  lemma MaskKeepsLeadingBits(a: nat, b: nat, width: nat, k: nat)
    requires a < Pow2(width) && b < Pow2(width) && k <= width
    ensures var mask := Shl(Pow2(width) - 1, k);
            BitAnd(a, mask) == BitAnd(b, mask) <==> Shr(a, k) == Shr(b, k)
  {
    AndShifted(a, Pow2(width) - 1, k);
    AndShifted(b, Pow2(width) - 1, k);
    ShrGroup(0, a, width, k);
    ShrGroup(0, b, width, k);
    Pow2Monotone(width - k, width);
    AndOnes(Shr(a, k), width);
    AndOnes(Shr(b, k), width);
    Unpack(Shr(a, k), 0, Shr(b, k), 0, k);
  }

  lemma {:induction false} Pow2Monotone(j: nat, k: nat)
    requires j <= k
    ensures Pow2(j) <= Pow2(k)
  {
    if j < k {
      Pow2Monotone(j, k - 1);
    }
  }

  // ----- The program

  lemma GroupsFit(a: Address)
    requires a.Valid()
    ensures Below(a.groups, Pow2(a.family.BitsPerGroup())) && |a.groups| == a.family.GroupCount()
  {
    assert Pow2(8) == 0x100;
    assert Pow2(16) == 0x100 * Pow2(8);
  }

  lemma {:induction false} GroupBitsProduct(width: nat, count: nat)
    ensures GroupBits(width, count) == width * count
  {
    if count > 0 {
      GroupBitsProduct(width, count - 1);
    }
  }

  /** How the prefix of a network divides into complete groups and a rest. */
  lemma PrefixGroups(family: Family, prefixLength: nat)
    requires prefixLength <= family.Bits()
    ensures var w := family.BitsPerGroup();
            var c, r := prefixLength / w, prefixLength % w;
            && c <= family.GroupCount() && (r > 0 ==> c < family.GroupCount())
            && family.Bits() - prefixLength
               == if r == 0 then GroupBits(w, family.GroupCount() - c)
                  else GroupBits(w, family.GroupCount() - c - 1) + (w - r)
  {
    var w, n := family.BitsPerGroup(), family.GroupCount();
    var c, r := prefixLength / w, prefixLength % w;
    if family.V4? {
      GroupBitsProduct(8, n - c);
      if r > 0 { GroupBitsProduct(8, n - c - 1); }
    } else {
      GroupBitsProduct(16, n - c);
      if r > 0 { GroupBitsProduct(16, n - c - 1); }
    }
  }

  /** The comparison of the program, as a condition on the groups. */
  lemma ContainsByGroup(family: Family, a: seq<nat>, b: seq<nat>, prefixLength: nat)
    requires prefixLength <= family.Bits() && |a| == |b| == family.GroupCount()
    requires Below(a, Pow2(family.BitsPerGroup())) && Below(b, Pow2(family.BitsPerGroup()))
    ensures var w := family.BitsPerGroup();
            var c, r := prefixLength / w, prefixLength % w;
            && c <= |a| && (r > 0 ==> c < |a|)
            && (SameLeadingBits(family, a, b, prefixLength) <==>
                a[..c] == b[..c] && (r > 0 ==> Shr(a[c], w - r) == Shr(b[c], w - r)))
  {
    var w := family.BitsPerGroup();
    var c, r := prefixLength / w, prefixLength % w;
    PrefixGroups(family, prefixLength);
    if r == 0 {
      LeadingBitsComplete(a, b, w, c);
    } else {
      LeadingBitsPartial(a, b, w, c, r);
    }
  }

  /** Within the bits of a family, the comparison group by group is the comparison of the leading bits. */
  lemma ByGroupIsByBits(family: Family, a: seq<nat>, b: seq<nat>, prefixLength: nat)
    requires prefixLength <= family.Bits() && |a| == |b| == family.GroupCount()
    requires Below(a, Pow2(family.BitsPerGroup())) && Below(b, Pow2(family.BitsPerGroup()))
    ensures SameByGroup(family.BitsPerGroup(), a, b, prefixLength) <==> SameLeadingBits(family, a, b, prefixLength)
  {
    var w := family.BitsPerGroup();
    var c, r := prefixLength / w, prefixLength % w;
    ContainsByGroup(family, a, b, prefixLength);
    SameGroups(a, b, c);
    if r > 0 {
      MaskKeepsLeadingBits(a[c], b[c], w, w - r);
    }
  }

  lemma SameGroups(a: seq<nat>, b: seq<nat>, c: nat)
    requires c <= |a| == |b|
    ensures a[..c] == b[..c] <==> forall i :: 0 <= i < c ==> GroupAt(a, i) == GroupAt(b, i)
  {
    if a[..c] == b[..c] {
      forall i | 0 <= i < c
        ensures GroupAt(a, i) == GroupAt(b, i)
      {
        assert a[..c][i] == b[..c][i];
      }
    } else {
      var i :| 0 <= i < c && a[i] != b[i];
      assert GroupAt(a, i) != GroupAt(b, i);
    }
  }

  /** The loop of `isTrustedProxy` over complete groups, and its masked comparison of the partial one. */
  method SamePrefix(family: Family, parsedGroups: seq<nat>, networkGroups: seq<nat>, prefixLength: nat)
    returns (same: bool)
    ensures same == SameByGroup(family.BitsPerGroup(), parsedGroups, networkGroups, prefixLength)
    ensures && prefixLength <= family.Bits() && |parsedGroups| == |networkGroups| == family.GroupCount()
            && Below(parsedGroups, Pow2(family.BitsPerGroup())) && Below(networkGroups, Pow2(family.BitsPerGroup()))
            ==> same == SameLeadingBits(family, parsedGroups, networkGroups, prefixLength)
  {
    var bitsPerGroup := family.BitsPerGroup();
    var completeGroups := prefixLength / bitsPerGroup;
    var remainder := prefixLength % bitsPerGroup;
    if && prefixLength <= family.Bits() && |parsedGroups| == |networkGroups| == family.GroupCount()
       && Below(parsedGroups, Pow2(bitsPerGroup)) && Below(networkGroups, Pow2(bitsPerGroup)) {
      ByGroupIsByBits(family, parsedGroups, networkGroups, prefixLength);
    }
    for index := 0 to completeGroups
      invariant forall i :: 0 <= i < index ==> GroupAt(parsedGroups, i) == GroupAt(networkGroups, i)
    {
      if GroupAt(parsedGroups, index) != GroupAt(networkGroups, index) { return false; }
    }
    if remainder == 0 { return true; }
    var mask := Shl(Pow2(bitsPerGroup) - 1, bitsPerGroup - remainder);
    var parsedGroup := GroupAt(parsedGroups, completeGroups);
    var networkGroup := GroupAt(networkGroups, completeGroups);
    return parsedGroup.Some? && networkGroup.Some?
           && BitAnd(parsedGroup.value, mask) == BitAnd(networkGroup.value, mask);
  }

  method MatchesNetwork(network: TrustedProxyNetwork, parsed: Address) returns (matches: bool)
    ensures matches == Contains(network, parsed)
  {
    if network.family != parsed.family { return false; }
    var networkAddress := IpToGroups(network.address);
    if networkAddress.None? { return false; }
    if network.Valid() && parsed.Valid() {
      GroupsFit(parsed);
      GroupsFit(networkAddress.value);
    }
    matches := SamePrefix(parsed.family, parsed.groups, networkAddress.value.groups, network.prefixLength);
  }

  lemma ParsedIsValid(address: string)
    ensures IpToGroups(address).Some? ==> IpToGroups(address).value.Valid()
  {
    if IpToGroups(address).Some? {
      SameNormalFormSameAddress(address, address);
    }
  }

  /** The address is of the family of the network and begins with its leading bits. */
  predicate HasPrefix(network: TrustedProxyNetwork, address: Address)
    requires network.Valid()
  {
    && network.family == address.family
    && SameLeadingBits(network.family, address.groups, IpToGroups(network.address).value.groups, network.prefixLength)
  }

  /** What trusting an address means for configured networks: its leading bits are those of one of them. */
  lemma TrustedExactly(address: string, networks: seq<TrustedProxyNetwork>)
    requires AllValid(networks)
    ensures var a := IpToGroups(address);
            Trusted(address, networks) <==>
              a.Some? && exists n :: n in networks && HasPrefix(n, a.value)
  {
    ParsedIsValid(address);
    var a := IpToGroups(address);
    if a.Some? {
      forall n | n in networks
        ensures Contains(n, a.value) <==> HasPrefix(n, a.value)
      {
        assert n.Valid();
      }
    }
  }

  /** `networks.some(...)` */
  method MatchesSome(networks: seq<TrustedProxyNetwork>, parsed: Address) returns (matches: bool)
    ensures matches == ContainedInAny(networks, parsed)
  {
    if networks == [] { return false; }
    matches := MatchesNetwork(networks[0], parsed);
    if !matches {
      matches := MatchesSome(networks[1..], parsed);
    }
  }

  /** `isTrustedProxy` */
  method IsTrustedProxy(address: string, networks: seq<TrustedProxyNetwork>) returns (trusted: bool)
    ensures trusted == Trusted(address, networks)
  {
    var parsed := IpToGroups(address);
    if parsed.None? { return false; }
    trusted := MatchesSome(networks, parsed.value);
  }

  // ----- Parsing the configured networks

  function ParseCidr(item: string): Option<TrustedProxyNetwork> {
    var parts := Split(item, '/');
    var address := if parts[0] != "" then NormalizeIp(Some(parts[0])) else None;
    var prefixText := if |parts| > 1 then parts[1] else "";
    if address.None? || |parts| > 2 || (prefixText != "" && !IsNumeral(prefixText, Decimal)) then None
    else
      var family := if IsIp(address.value) == 4 then V4 else V6;
      var prefixLength := if prefixText != "" then Parse(prefixText, Decimal) else family.Bits();
      if prefixLength > family.Bits() then None
      else Some(TrustedProxyNetwork(family, address.value, prefixLength))
  }

  /** One item of the list, trimmed: no network if it is blank. */
  function ItemNetworks(item: string): Option<seq<TrustedProxyNetwork>> {
    if Trim(item) == "" then Some([])
    else
      var network := ParseCidr(Trim(item));
      if network.None? then None else Some([network.value])
  }

  /** `parseTrustedProxyCidrs`; None where it throws. */
  function ParseTrustedProxyCidrs(value: Option<string>): Option<seq<TrustedProxyNetwork>> {
    Collect(ItemNetworks, Split(if value.Some? then value.value else "", ','))
  }

  lemma ParsedCidrIsValid(item: string)
    ensures ParseCidr(item).Some? ==> ParseCidr(item).value.Valid()
  {
    if ParseCidr(item).Some? {
      var a := NormalFormsAreTexts(Some(Split(item, '/')[0]));
      TextIsNormal(a);
    }
  }

  lemma {:induction false} CollectedAreValid(read: string -> Option<seq<TrustedProxyNetwork>>, items: seq<string>)
    requires forall item :: read(item).Some? ==> AllValid(read(item).value)
    requires Collect(read, items).Some?
    ensures AllValid(Collect(read, items).value)
  {
    if items != [] {
      CollectedAreValid(read, items[1..]);
    }
  }

  /** Every configured network satisfies what the matcher relies on. */
  lemma ParsedNetworksAreValid(value: Option<string>)
    requires ParseTrustedProxyCidrs(value).Some?
    ensures AllValid(ParseTrustedProxyCidrs(value).value)
  {
    forall item | ItemNetworks(item).Some?
      ensures AllValid(ItemNetworks(item).value)
    {
      ParsedCidrIsValid(Trim(item));
    }
    CollectedAreValid(ItemNetworks, Split(if value.Some? then value.value else "", ','));
  }
}
