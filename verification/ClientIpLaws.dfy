/** Normal forms are the texts of addresses, each address has one, and normalising again changes nothing. */
module ClientIpLaws {
  import opened Text
  import opened Numerals
  import opened IpText
  import opened IpTextLaws
  import opened ClientIp

  // ----- The text of an IPv4 address

  lemma OctetText(n: nat)
    requires n < 0x100
    ensures var p := Print(n, Decimal);
            && IsOctet(p) && Parse(p, Decimal) == n && '.' !in p
            && (|p| == 1 || p[0] != '0')
            && forall c :: c in p ==> '0' <= c <= '9'
  {
    ParsePrint(n, Decimal);
    assert Values(Decimal, 3) == 1000;
    PrintWidth(n, Decimal, 3);
    forall c | c in Print(n, Decimal)
      ensures '0' <= c <= '9'
    {
      assert DigitValue(c, Decimal) < 10;
    }
  }

  lemma OctetsText(octets: seq<nat>)
    requires AreOctets(octets)
    ensures Split(PrintOctets(octets), '.') == Printed(octets, Decimal)
    ensures Numbers(Printed(octets, Decimal)) == octets
    ensures IsStrictIpv4(PrintOctets(octets)) && IsDottedQuad(PrintOctets(octets))
    ensures NormalizeIpv4(PrintOctets(octets)) == Some(PrintOctets(octets))
  {
    var parts := Printed(octets, Decimal);
    forall i | 0 <= i < 4
      ensures var p := parts[i];
              IsOctet(p) && Parse(p, Decimal) == octets[i] && '.' !in p && (|p| == 1 || p[0] != '0')
    {
      OctetText(octets[i]);
    }
    forall p | p in parts
      ensures '.' !in p
    {
      var i :| 0 <= i < |parts| && parts[i] == p;
    }
    SplitJoinParts(parts, '.');
  }

  lemma OctetsCharacters(octets: seq<nat>)
    requires AreOctets(octets)
    ensures PrintOctets(octets) != ""
    ensures forall c :: c in PrintOctets(octets) ==> '0' <= c <= '9' || c == '.'
  {
    OctetsText(octets);
    forall c | c in PrintOctets(octets)
      ensures '0' <= c <= '9' || c == '.'
    {
      JoinCharacters(Printed(octets, Decimal), ".", c);
      if p :| p in Printed(octets, Decimal) && c in p {
        var i :| 0 <= i < 4 && Printed(octets, Decimal)[i] == p;
        OctetText(octets[i]);
      }
    }
  }

  lemma NormalizeIpv4Octets(value: string)
    ensures NormalizeIpv4(value).Some? ==>
              var octets := Numbers(Split(value, '.'));
              AreOctets(octets) && NormalizeIpv4(value).value == PrintOctets(octets)
  {}

  // ----- The text of an IPv6 address

  lemma {:induction false} HextetUnits(groups: seq<nat>, mayEndInIpv4: bool)
    requires Below(groups, 0x10000)
    ensures Units(Printed(groups, Hex), mayEndInIpv4) == Some(|groups|)
  {
    if groups != [] {
      var parts := Printed(groups, Hex);
      HextetText(groups[0]);
      SplitWithout(parts[0], '.');
      HextetUnits(groups[1..], mayEndInIpv4);
      assert parts[1..] == Printed(groups[1..], Hex);
    }
  }

  lemma HextetsUnits(groups: seq<nat>, mayEndInIpv4: bool)
    requires Below(groups, 0x10000)
    ensures SideUnits(PrintHextets(groups), mayEndInIpv4) == Some(|groups|)
  {
    HextetsText(groups);
    if groups != [] {
      var parts := Printed(groups, Hex);
      forall p | p in parts
        ensures ':' !in p
      {
        var i :| 0 <= i < |parts| && parts[i] == p;
        HextetText(groups[i]);
      }
      SplitJoinParts(parts, ':');
      HextetUnits(groups, mayEndInIpv4);
    }
  }

  lemma TwoSidesForm(value: string, a: string, b: string, m: nat, n: nat)
    requires SplitPairs(value) == [a, b]
             && SideUnits(a, false) == Some(m) && SideUnits(b, true) == Some(n) && m + n <= 7
    ensures IsUnscopedIpv6(value)
  {}

  lemma WholeForm(groups: seq<nat>)
    requires AreGroups(groups)
    ensures IsUnscopedIpv6(PrintHextets(groups))
    ensures HexOrColon(PrintHextets(groups)) && PrintHextets(groups) != ""
  {
    HextetsText(groups);
    PlainHasNoPair(PrintHextets(groups));
    HextetsUnits(groups, true);
  }

  lemma CompressedForm(left: seq<nat>, right: seq<nat>)
    requires Below(left, 0x10000) && Below(right, 0x10000) && |left| + |right| <= 7
    ensures IsUnscopedIpv6(PrintHextets(left) + "::" + PrintHextets(right))
    ensures HexOrColon(PrintHextets(left) + "::" + PrintHextets(right))
  {
    HextetsText(left);
    HextetsText(right);
    HextetsUnits(left, false);
    HextetsUnits(right, true);
    var a, b := PrintHextets(left), PrintHextets(right);
    PairSplits(a, b);
    TwoSidesForm(a + "::" + b, a, b, |left|, |right|);
  }

  lemma GroupsForm(groups: seq<nat>)
    requires AreGroups(groups)
    ensures IsUnscopedIpv6(PrintGroups(groups))
    ensures HexOrColon(PrintGroups(groups)) && PrintGroups(groups) != ""
  {
    var start := LongestBefore(groups, 8);
    var length := ZerosAt(groups, start);
    if length < 2 {
      WholeForm(groups);
    } else {
      assert Below(groups[..start], 0x10000) && Below(groups[start + length..], 0x10000);
      CompressedForm(groups[..start], groups[start + length..]);
    }
  }

  lemma NoDotNoQuad(s: string)
    requires '.' !in s
    ensures !IsStrictIpv4(s) && !IsDottedQuad(s)
  {
    SplitWithout(s, '.');
  }

  /** An unadorned address is left as it is by the stripping of ports and brackets. */
  lemma StripKeeps(s: string)
    requires s != "" && IsIp(s) != 0
    requires forall c :: c in s ==> '0' <= c <= '9' || 'a' <= c <= 'f' || 'A' <= c <= 'F' || c == ':' || c == '.'
    ensures StripAddressPort(s) == s
  {
    assert s[0] in s && s[|s| - 1] in s;
    assert Trim(s) == s;
  }

  lemma LowerKeeps(s: string)
    requires HexOrColon(s)
    ensures ToLower(s) == s
  {
    forall i | 0 <= i < |s|
      ensures ToLower(s)[i] == s[i]
    {
      assert s[i] in s;
    }
  }

  // ----- Normal forms

  lemma Ipv6Branch(s: string, groups: seq<nat>)
    requires s != "" && StripAddressPort(s) == s && !IsDottedQuad(s) && IsIp(s) == 6
    requires '%' !in s && ParseIpv6Groups(ToLower(s)) == Some(groups)
    ensures NormalizeIp(Some(s)) ==
            if IsMapped(groups) then
              Some(PrintOctets([groups[6] / 0x100, groups[6] % 0x100, groups[7] / 0x100, groups[7] % 0x100]))
            else Some(PrintGroups(groups))
  {}

  lemma PrintedGroupsAreIpv6(groups: seq<nat>)
    requires AreGroups(groups)
    ensures var s := PrintGroups(groups);
            && s != "" && StripAddressPort(s) == s && !IsDottedQuad(s) && IsIp(s) == 6
            && '%' !in s && ToLower(s) == s
  {
    var s := PrintGroups(groups);
    GroupsForm(groups);
    NoDotNoQuad(s);
    assert '%' !in s;
    SplitWithout(s, '%');
    assert IsIpv6(s);
    StripKeeps(s);
    LowerKeeps(s);
  }

  lemma PrintedGroupsNormalize(groups: seq<nat>)
    requires AreGroups(groups)
    ensures NormalizeIp(Some(PrintGroups(groups))) ==
            if IsMapped(groups) then
              Some(PrintOctets([groups[6] / 0x100, groups[6] % 0x100, groups[7] / 0x100, groups[7] % 0x100]))
            else Some(PrintGroups(groups))
  {
    PrintedGroupsAreIpv6(groups);
    ParsePrintGroups(groups);
    Ipv6Branch(PrintGroups(groups), groups);
  }

  lemma PrintedOctetsNormalize(octets: seq<nat>)
    requires AreOctets(octets)
    ensures NormalizeIp(Some(PrintOctets(octets))) == Some(PrintOctets(octets))
    ensures IsIp(PrintOctets(octets)) == 4
  {
    OctetsText(octets);
    OctetsCharacters(octets);
    StripKeeps(PrintOctets(octets));
  }

  lemma Denotes(s: string)
    requires NormalizeIp(Some(s)) == Some(s)
    ensures IsIp(s) == 4 ==> IpToGroups(s) == Some(Address(V4, Numbers(Split(s, '.'))))
    ensures IsIp(s) == 6 && ParseIpv6Groups(s).Some? ==> IpToGroups(s) == Some(Address(V6, ParseIpv6Groups(s).value))
  {}

  lemma OctetsDenoted(octets: seq<nat>)
    requires AreOctets(octets)
    ensures IpToGroups(PrintOctets(octets)) == Some(Address(V4, octets))
  {
    var s := PrintOctets(octets);
    PrintedOctetsNormalize(octets);
    Denotes(s);
    assert Numbers(Split(s, '.')) == octets by { OctetsText(octets); }
  }

  lemma GroupsDenoted(groups: seq<nat>)
    requires AreGroups(groups) && !IsMapped(groups)
    ensures var s := PrintGroups(groups);
            NormalizeIp(Some(s)) == Some(s) && IpToGroups(s) == Some(Address(V6, groups)) && IsIp(s) == 6
  {
    var s := PrintGroups(groups);
    assert NormalizeIp(Some(s)) == Some(s) by { PrintedGroupsNormalize(groups); }
    assert IsIp(s) == 6 by { PrintedGroupsAreIpv6(groups); }
    assert ParseIpv6Groups(s) == Some(groups) by { ParsePrintGroups(groups); }
    Denotes(s);
  }

  /** The text of a valid address is its own normal form and denotes that address. */
  lemma TextIsNormal(a: Address)
    requires a.Valid()
    ensures NormalizeIp(Some(a.Text())) == Some(a.Text())
    ensures IpToGroups(a.Text()) == Some(a)
    ensures IsIp(a.Text()) == if a.family.V4? then 4 else 6
  {
    match a
    case Address(V4, octets) =>
      PrintedOctetsNormalize(octets);
      OctetsDenoted(octets);
    case Address(V6, groups) =>
      GroupsDenoted(groups);
  }

  lemma OctetHalves(n: nat)
    requires n < 0x10000
    ensures n / 0x100 < 0x100 && n % 0x100 < 0x100
  {}

  lemma GroupOfBelow(part: string)
    ensures GroupsOf(part).Some? ==> Below(GroupsOf(part).value, 0x10000)
  {
    if part != "" {
      if '.' in part {
        if NormalizeIpv4(part).Some? {
          NormalizeIpv4Octets(part);
          OctetsText(Numbers(Split(part, '.')));
        }
      } else if IsHextet(part) {
        ParseBelow(part, Hex, 4);
      }
    }
  }

  /** A numeral of at most `width` digits stays below the number of values of that width. */
  lemma {:induction false} ParseBelow(s: string, base: Base, width: nat)
    requires |s| <= width && forall c :: c in s ==> DigitValue(c, base) < base.Radix()
    ensures Parse(s, base) < Values(base, width)
    ensures width == 4 && base == Hex ==> Values(base, width) == 0x10000
  {
    if s != "" {
      ParseBelow(s[..|s| - 1], base, width - 1);
      assert s[|s| - 1] in s;
    } else if width > 0 {
      ParseBelow(s, base, width - 1);
    }
  }

  lemma {:induction false} AllGroupsBelow(parts: seq<string>)
    ensures AllGroups(parts).Some? ==> Below(AllGroups(parts).value, 0x10000)
  {
    if parts != [] {
      GroupOfBelow(parts[0]);
      AllGroupsBelow(parts[1..]);
    }
  }

  lemma ParsedGroupsFit(value: string)
    ensures ParseIpv6Groups(value).Some? ==> AreGroups(ParseIpv6Groups(value).value)
  {
    var sides := SplitPairs(value);
    AllGroupsBelow(Split(sides[0], ':'));
    if |sides| == 2 {
      AllGroupsBelow(Split(sides[1], ':'));
    }
  }

  /** The address that an IPv6 text is normalised to. */
  lemma Ipv6Denotes(groups: seq<nat>) returns (a: Address)
    requires AreGroups(groups)
    ensures a.Valid()
    ensures a.Text() ==
            if IsMapped(groups) then
              PrintOctets([groups[6] / 0x100, groups[6] % 0x100, groups[7] / 0x100, groups[7] % 0x100])
            else PrintGroups(groups)
  {
    if IsMapped(groups) {
      OctetHalves(groups[6]);
      OctetHalves(groups[7]);
      a := Address(V4, [groups[6] / 0x100, groups[6] % 0x100, groups[7] / 0x100, groups[7] % 0x100]);
    } else {
      a := Address(V6, groups);
    }
  }

  /** Every normal form is the text of a valid address. */
  lemma NormalFormsAreTexts(value: Option<string>) returns (a: Address)
    requires NormalizeIp(value).Some?
    ensures a.Valid() && NormalizeIp(value) == Some(a.Text())
  {
    var candidate := StripAddressPort(value.value);
    if IsDottedQuad(candidate) || IsIp(candidate) == 4 {
      NormalizeIpv4Octets(candidate);
      a := Address(V4, Numbers(Split(candidate, '.')));
    } else {
      ParsedGroupsFit(ToLower(candidate));
      a := Ipv6Denotes(ParseIpv6Groups(ToLower(candidate)).value);
    }
  }

  /** Normalising a normal form changes nothing. */
  lemma NormalizeIdempotent(value: Option<string>)
    requires NormalizeIp(value).Some?
    ensures NormalizeIp(NormalizeIp(value)) == NormalizeIp(value)
  {
    var a := NormalFormsAreTexts(value);
    TextIsNormal(a);
  }

  /** Two texts have the same normal form exactly when they denote the same address. */
  lemma SameNormalFormSameAddress(x: string, y: string)
    requires x != "" && y != "" && NormalizeIp(Some(x)).Some? && NormalizeIp(Some(y)).Some?
    ensures IpToGroups(x).Some? && IpToGroups(x).value.Valid()
    ensures NormalizeIp(Some(x)) == NormalizeIp(Some(y)) <==> IpToGroups(x) == IpToGroups(y)
  {
    var a := NormalFormsAreTexts(Some(x));
    var b := NormalFormsAreTexts(Some(y));
    TextIsNormal(a);
    TextIsNormal(b);
  }

  lemma PackedOctets(a: nat, b: nat)
    requires a < 0x100 && b < 0x100
    ensures var n := a * 0x100 + b; n < 0x10000 && n / 0x100 == a && n % 0x100 == b
  {}

  lemma MappedGroupsNormalize(groups: seq<nat>, octets: seq<nat>)
    requires AreGroups(groups) && IsMapped(groups)
    requires octets == [groups[6] / 0x100, groups[6] % 0x100, groups[7] / 0x100, groups[7] % 0x100]
    ensures NormalizeIp(Some(PrintGroups(groups))) == Some(PrintOctets(octets))
  {
    PrintedGroupsNormalize(groups);
  }

  function Mapped(octets: seq<nat>): (groups: seq<nat>)
    requires AreOctets(octets)
    ensures AreGroups(groups) && IsMapped(groups)
    ensures octets == [groups[6] / 0x100, groups[6] % 0x100, groups[7] / 0x100, groups[7] % 0x100]
  {
    PackedOctets(octets[0], octets[1]);
    PackedOctets(octets[2], octets[3]);
    [0, 0, 0, 0, 0, 0xffff, octets[0] * 0x100 + octets[1], octets[2] * 0x100 + octets[3]]
  }

  /** An IPv4-mapped IPv6 address has the normal form of the IPv4 address it maps. */
  lemma MappedNormalizesToIpv4(octets: seq<nat>)
    requires AreOctets(octets)
    ensures NormalizeIp(Some(PrintGroups(Mapped(octets)))) == Some(PrintOctets(octets))
  {
    MappedGroupsNormalize(Mapped(octets), octets);
  }
}
