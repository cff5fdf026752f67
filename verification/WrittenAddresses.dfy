/** Addresses as people write them: digits of either case, leading zeros, a dotted quad at the end. */
module WrittenAddresses {
  import opened Text
  import opened Numerals
  import opened IpText
  import opened IpTextLaws
  import opened ClientIp
  import opened ClientIpLaws

  // ----- IPv4

  predicate AreNumerals(parts: seq<string>) {
    forall i :: 0 <= i < |parts| ==> IsNumeral(parts[i], Decimal)
  }

  /** A text of digits and dots is no other form and has no port. */
  lemma StripKeepsDigits(s: string)
    requires forall c :: c in s ==> '0' <= c <= '9' || c == '.'
    ensures StripAddressPort(s) == s
  {
    if s != "" {
      assert s[0] in s && s[|s| - 1] in s;
    }
    assert Trim(s) == s;
    assert ':' !in s;
    StripPlain(s);
  }

  lemma StripPlain(s: string)
    requires Trim(s) == s && (s != "" ==> s[0] != '[') && ':' !in s
    ensures StripAddressPort(s) == s
  {}

  lemma QuadText(parts: seq<string>)
    requires |parts| == 4 && AreNumerals(parts)
    ensures var s := Join(parts, "."); s != "" && StripAddressPort(s) == s && Split(s, '.') == parts
  {
    var s := Join(parts, ".");
    forall p, c | p in parts && c in p
      ensures '0' <= c <= '9'
    {
      assert DigitValue(c, Decimal) < 10;
    }
    SplitJoinParts(parts, '.');
    forall c | c in s
      ensures '0' <= c <= '9' || c == '.'
    {
      JoinCharacters(parts, ".", c);
    }
    StripKeepsDigits(s);
  }

  /** Four decimal numbers of at most three digits, leading zeros included, none above 255, are an address,
      and no others are. */
  lemma QuadNormalizes(parts: seq<string>)
    requires |parts| == 4 && AreNumerals(parts)
    ensures NormalizeIp(Some(Join(parts, "."))) ==
            if forall i :: 0 <= i < 4 ==> |parts[i]| <= 3 && Parse(parts[i], Decimal) <= 255
            then Some(PrintOctets(Numbers(parts))) else None
  {
    QuadText(parts);
  }

  // ----- IPv6

  /** The groups on one side of `::`, or of a whole address. */
  datatype Side = Side(hextets: seq<string>, quad: Option<seq<nat>>) {
    /** Hextets of one to four digits; octets below 256. */
    predicate Valid() {
      && (forall i :: 0 <= i < |hextets| ==> IsHextet(hextets[i]))
      && (quad.Some? ==> AreOctets(quad.value))
    }

    function Parts(): seq<string> {
      hextets + if quad.None? then [] else [PrintOctets(quad.value)]
    }

    function Text(): string {
      Join(Parts(), ":")
    }

    function Groups(): seq<nat>
      requires Valid()
    {
      HexValues(hextets) +
      if quad.None? then []
      else [quad.value[0] * 0x100 + quad.value[1], quad.value[2] * 0x100 + quad.value[3]]
    }
  }

  function HexValues(hextets: seq<string>): seq<nat> {
    seq(|hextets|, i requires 0 <= i < |hextets| => Parse(hextets[i], Hex))
  }

  predicate AreParts(parts: seq<string>) {
    forall i :: 0 <= i < |parts| ==> parts[i] != "" && ':' !in parts[i]
  }

  lemma {:induction false} PartsPlain(parts: seq<string>)
    requires AreParts(parts)
    ensures Plain(Join(parts, ":"))
    ensures Join(parts, ":") == "" <==> parts == []
  {
    if parts != [] {
      var part := parts[0];
      assert part[0] in part && part[|part| - 1] in part;
      if |parts| > 1 {
        PartsPlain(parts[1..]);
        PlainAppend(part, Join(parts[1..], ":"));
      } else {
        forall i: nat
          ensures !OccursAt(part, "::", i)
        {
          PairAt(part, i);
          assert i < |part| ==> part[i] in part;
        }
      }
    }
  }

  lemma PartsSplit(parts: seq<string>)
    requires AreParts(parts) && parts != []
    ensures Split(Join(parts, ":"), ':') == parts
  {
    SplitJoinParts(parts, ':');
  }

  lemma HextetPart(part: string)
    requires IsHextet(part)
    ensures part != "" && ':' !in part && '.' !in part && !IsStrictIpv4(part)
    ensures GroupsOf(part) == Some([Parse(part, Hex)])
  {
    assert '.' !in part && ':' !in part;
    NoDotNoQuad(part);
  }

  lemma QuadCharacters(octets: seq<nat>)
    requires AreOctets(octets)
    ensures var part := PrintOctets(octets);
            part != "" && ':' !in part && '.' in part && !IsHextet(part) && IsStrictIpv4(part)
  {
    var part := PrintOctets(octets);
    OctetsText(octets);
    OctetsCharacters(octets);
    if '.' !in part {
      NoDotNoQuad(part);
    }
    assert DigitValue('.', Hex) == 16;
  }

  /** A dotted quad stands for its first two octets and its last two. */
  lemma QuadPart(octets: seq<nat>)
    requires AreOctets(octets)
    ensures GroupsOf(PrintOctets(octets))
            == Some([octets[0] * 0x100 + octets[1], octets[2] * 0x100 + octets[3]])
  {
    QuadCharacters(octets);
    OctetsText(octets);
  }

  lemma {:induction false} HextetsCollect(hextets: seq<string>)
    requires forall i :: 0 <= i < |hextets| ==> IsHextet(hextets[i])
    ensures Collect(GroupsOf, hextets) == Some(HexValues(hextets))
  {
    if hextets != [] {
      HextetPart(hextets[0]);
      HextetsCollect(hextets[1..]);
      assert [Parse(hextets[0], Hex)] + HexValues(hextets[1..]) == HexValues(hextets);
    }
  }

  lemma SideParts(side: Side)
    requires side.Valid()
    ensures AreParts(side.Parts())
  {
    forall i | 0 <= i < |side.hextets|
      ensures side.hextets[i] != "" && ':' !in side.hextets[i]
    {
      HextetPart(side.hextets[i]);
    }
    if side.quad.Some? {
      QuadCharacters(side.quad.value);
    }
  }

  lemma SideCollects(side: Side)
    requires side.Valid()
    ensures AllGroups(side.Parts()) == Some(side.Groups())
  {
    HextetsCollect(side.hextets);
    if side.quad.Some? {
      QuadPart(side.quad.value);
      CollectSnoc(GroupsOf, side.hextets, PrintOctets(side.quad.value));
    } else {
      assert side.Parts() == side.hextets;
      assert side.Groups() == HexValues(side.hextets);
    }
  }

  lemma SideParses(side: Side)
    requires side.Valid()
    ensures Plain(side.Text()) && SideGroups(side.Text()) == Some(side.Groups())
  {
    SideParts(side);
    SideCollects(side);
    PartsPlain(side.Parts());
    if side.Parts() != [] {
      PartsSplit(side.Parts());
    }
  }

  /** A whole text parses to its groups if they are eight, and otherwise not at all. */
  lemma WholeParses(side: Side)
    requires side.Valid()
    ensures ParseIpv6Groups(side.Text()) == if |side.Groups()| == 8 then Some(side.Groups()) else None
  {
    SideParses(side);
    PlainHasNoPair(side.Text());
  }

  /** A compressed text parses to its groups with zeros between them if these are fewer than eight, and
      otherwise not at all. */
  lemma CompressedParses(left: Side, right: Side)
    requires left.Valid() && right.Valid()
    ensures ParseIpv6Groups(left.Text() + "::" + right.Text()) ==
            if |left.Groups()| + |right.Groups()| >= 8 then None
            else Some(left.Groups() + Zeros(8 - |left.Groups()| - |right.Groups()|) + right.Groups())
  {
    SideParses(left);
    SideParses(right);
    PairSplits(left.Text(), right.Text());
  }

  // ----- The forms that `isIP` knows

  lemma {:induction false} HextetsThenQuad(hextets: seq<string>, quad: seq<string>, mayEndInIpv4: bool)
    requires forall i :: 0 <= i < |hextets| ==> IsHextet(hextets[i])
    requires quad == [] || (|quad| == 1 && mayEndInIpv4 && IsStrictIpv4(quad[0]))
    ensures Units(hextets + quad, mayEndInIpv4) == Some(|hextets| + 2 * |quad|)
  {
    if hextets != [] {
      HextetPart(hextets[0]);
      HextetsThenQuad(hextets[1..], quad, mayEndInIpv4);
      assert (hextets + quad)[1..] == hextets[1..] + quad;
    } else {
      assert hextets + quad == quad;
    }
  }

  lemma UnitsOfSide(side: Side, mayEndInIpv4: bool)
    requires side.Valid() && (side.quad.Some? ==> mayEndInIpv4)
    ensures SideUnits(side.Text(), mayEndInIpv4) == Some(|side.Groups()|)
  {
    SideParts(side);
    PartsPlain(side.Parts());
    var quad := if side.quad.None? then [] else [PrintOctets(side.quad.value)];
    if side.quad.Some? {
      QuadCharacters(side.quad.value);
    }
    HextetsThenQuad(side.hextets, quad, mayEndInIpv4);
    if side.Parts() != [] {
      PartsSplit(side.Parts());
    }
  }

  predicate IsAddressCharacter(c: char) {
    '0' <= c <= '9' || 'a' <= c <= 'f' || 'A' <= c <= 'F' || c == ':' || c == '.'
  }

  lemma SideCharacters(side: Side)
    requires side.Valid()
    ensures forall c :: c in side.Text() ==> IsAddressCharacter(c)
  {
    forall c | c in side.Text()
      ensures IsAddressCharacter(c)
    {
      JoinCharacters(side.Parts(), ":", c);
      if p :| p in side.Parts() && c in p {
        if side.quad.Some? && p == PrintOctets(side.quad.value) {
          OctetsCharacters(side.quad.value);
        } else {
          assert DigitValue(c, Hex) < 16;
        }
      }
    }
  }

  lemma ColonNoQuad(s: string)
    requires ':' in s
    ensures !IsStrictIpv4(s) && !IsDottedQuad(s)
  {
    JoinSplit(s, '.');
    JoinCharacters(Split(s, '.'), ".", ':');
    assert DigitValue(':', Decimal) == 10;
  }

  lemma AddressForm(s: string)
    requires ':' in s && IsUnscopedIpv6(s) && forall c :: c in s ==> IsAddressCharacter(c)
    ensures s != "" && StripAddressPort(s) == s && !IsDottedQuad(s) && IsIp(s) == 6 && '%' !in s
  {
    ColonNoQuad(s);
    assert '%' !in s;
    SplitWithout(s, '%');
    assert IsIpv6(s);
    StripKeeps(s);
  }

  // ----- Case

  function Lower(side: Side): Side {
    Side(seq(|side.hextets|, i requires 0 <= i < |side.hextets| => ToLower(side.hextets[i])), side.quad)
  }

  lemma {:induction false} LowerHextet(s: string)
    requires forall c :: c in s ==> DigitValue(c, Hex) < 16
    ensures Parse(ToLower(s), Hex) == Parse(s, Hex)
    ensures forall c :: c in ToLower(s) ==> DigitValue(c, Hex) < 16
  {
    if s != "" {
      var n := |s| - 1;
      LowerHextet(s[..n]);
      assert s[n] in s;
      assert ToLower(s)[..n] == ToLower(s[..n]);
      assert DigitValue(ToLower(s)[n], Hex) == DigitValue(s[n], Hex);
      assert ToLower(s) == ToLower(s[..n]) + [ToLower(s)[n]];
    }
  }

  lemma LowerAppend(a: string, b: string)
    ensures ToLower(a + b) == ToLower(a) + ToLower(b)
  {}

  lemma {:induction false} LowerJoin(parts: seq<string>, lowered: seq<string>)
    requires |lowered| == |parts| && forall i :: 0 <= i < |parts| ==> lowered[i] == ToLower(parts[i])
    ensures ToLower(Join(parts, ":")) == Join(lowered, ":")
  {
    if |parts| > 1 {
      LowerJoin(parts[1..], lowered[1..]);
      LowerAppend(parts[0] + ":", Join(parts[1..], ":"));
      LowerAppend(parts[0], ":");
    }
  }

  lemma LowerOctets(octets: seq<nat>)
    requires AreOctets(octets)
    ensures ToLower(PrintOctets(octets)) == PrintOctets(octets)
  {
    var s := PrintOctets(octets);
    OctetsCharacters(octets);
    forall i | 0 <= i < |s|
      ensures ToLower(s)[i] == s[i]
    {
      assert s[i] in s;
    }
  }

  lemma LowerSide(side: Side)
    requires side.Valid()
    ensures Lower(side).Valid() && Lower(side).Groups() == side.Groups()
    ensures ToLower(side.Text()) == Lower(side).Text()
  {
    forall i | 0 <= i < |side.hextets|
      ensures IsHextet(ToLower(side.hextets[i]))
      ensures Parse(ToLower(side.hextets[i]), Hex) == Parse(side.hextets[i], Hex)
    {
      LowerHextet(side.hextets[i]);
    }
    assert HexValues(Lower(side).hextets) == HexValues(side.hextets);
    if side.quad.Some? {
      LowerOctets(side.quad.value);
    }
    LowerJoin(side.Parts(), Lower(side).Parts());
  }

  // ----- Normal forms

  /** The text of an address of eight groups. */
  function TextOf(groups: seq<nat>): string
    requires |groups| == 8
  {
    if IsMapped(groups) then
      PrintOctets([groups[6] / 0x100, groups[6] % 0x100, groups[7] / 0x100, groups[7] % 0x100])
    else PrintGroups(groups)
  }

  lemma WholeForms(side: Side)
    requires side.Valid() && |side.Groups()| == 8
    ensures IsUnscopedIpv6(side.Text()) && ':' in side.Text()
  {
    SideParses(side);
    PlainHasNoPair(side.Text());
    UnitsOfSide(side, true);
    assert side.Text()[|side.Parts()[0]|] == ':';
  }

  /** Every whole address of eight groups has a normal form, whatever the case and the zeros of its digits. */
  lemma WholeNormalizes(side: Side)
    requires side.Valid() && |side.Groups()| == 8
    ensures NormalizeIp(Some(side.Text())) == Some(TextOf(side.Groups()))
  {
    WholeForms(side);
    SideCharacters(side);
    AddressForm(side.Text());
    LowerSide(side);
    WholeParses(Lower(side));
    Ipv6Branch(side.Text(), side.Groups());
  }

  lemma CompressedForms(left: Side, right: Side)
    requires left.Valid() && left.quad.None? && right.Valid() && |left.Groups()| + |right.Groups()| < 8
    ensures IsUnscopedIpv6(left.Text() + "::" + right.Text())
  {
    SideParses(left);
    SideParses(right);
    PairSplits(left.Text(), right.Text());
    UnitsOfSide(left, false);
    UnitsOfSide(right, true);
    TwoSidesForm(left.Text() + "::" + right.Text(), left.Text(), right.Text(), |left.Groups()|, |right.Groups()|);
  }

  lemma CompressedLower(left: Side, right: Side)
    requires left.Valid() && right.Valid()
    ensures ToLower(left.Text() + "::" + right.Text()) == Lower(left).Text() + "::" + Lower(right).Text()
  {
    LowerSide(left);
    LowerSide(right);
    LowerAppend(left.Text() + "::", right.Text());
    LowerAppend(left.Text(), "::");
  }

  lemma CompressedIsIpv6(left: Side, right: Side)
    requires left.Valid() && left.quad.None? && right.Valid() && |left.Groups()| + |right.Groups()| < 8
    ensures var s := left.Text() + "::" + right.Text();
            s != "" && StripAddressPort(s) == s && !IsDottedQuad(s) && IsIp(s) == 6 && '%' !in s
  {
    CompressedForms(left, right);
    SideCharacters(left);
    SideCharacters(right);
    assert ':' in "::";
    AddressForm(left.Text() + "::" + right.Text());
  }

  lemma CompressedLowerParses(left: Side, right: Side, groups: seq<nat>)
    requires left.Valid() && right.Valid() && |left.Groups()| + |right.Groups()| < 8
    requires groups == left.Groups() + Zeros(8 - |left.Groups()| - |right.Groups()|) + right.Groups()
    ensures ParseIpv6Groups(ToLower(left.Text() + "::" + right.Text())) == Some(groups)
  {
    LowerSide(left);
    LowerSide(right);
    CompressedLower(left, right);
    CompressedParses(Lower(left), Lower(right));
  }

  /** So has every compressed one of fewer than eight groups, with zeros for those left out. */
  lemma CompressedNormalizes(left: Side, right: Side)
    requires left.Valid() && left.quad.None? && right.Valid() && |left.Groups()| + |right.Groups()| < 8
    ensures NormalizeIp(Some(left.Text() + "::" + right.Text()))
            == Some(TextOf(left.Groups() + Zeros(8 - |left.Groups()| - |right.Groups()|) + right.Groups()))
  {
    var groups := left.Groups() + Zeros(8 - |left.Groups()| - |right.Groups()|) + right.Groups();
    CompressedIsIpv6(left, right);
    CompressedLowerParses(left, right, groups);
    Ipv6Branch(left.Text() + "::" + right.Text(), groups);
  }

  lemma MappedGroups(octets: seq<nat>)
    requires AreOctets(octets)
    ensures [] + Zeros(5) + [0xffff, octets[0] * 0x100 + octets[1], octets[2] * 0x100 + octets[3]] == Mapped(octets)
    ensures TextOf(Mapped(octets)) == PrintOctets(octets)
  {}

  lemma TwoParts(a: string, b: string)
    ensures Join([a, b], ":") == a + ":" + b
  {
    assert [a, b][1..] == [b];
  }

  /** The peer address of an IPv4 client on a dual-stack socket is read as its IPv4 address. */
  lemma DualStackPeer(octets: seq<nat>)
    requires AreOctets(octets)
    ensures NormalizeIp(Some("::ffff:" + PrintOctets(octets))) == Some(PrintOctets(octets))
  {
    var left, right := Side([], None), Side(["ffff"], Some(octets));
    assert Parse("ffff", Hex) == 0xffff by {
      assert "ffff"[..3] == "fff" && "fff"[..2] == "ff" && "ff"[..1] == "f" && "f"[..0] == "";
    }
    assert right.Groups() == [0xffff, octets[0] * 0x100 + octets[1], octets[2] * 0x100 + octets[3]];
    TwoParts("ffff", PrintOctets(octets));
    assert right.Parts() == ["ffff", PrintOctets(octets)];
    assert left.Text() + "::" + right.Text() == "::ffff:" + PrintOctets(octets);
    MappedGroups(octets);
    CompressedNormalizes(left, right);
  }
}
