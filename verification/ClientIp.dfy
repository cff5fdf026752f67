/** Normalising client addresses: ports, brackets, IPv4-mapped IPv6 addresses. */
module ClientIp {
  import opened Text
  import opened Numerals
  import opened IpText

  // ----- `isIP` of node:net, by the text forms of RFC 4291, section 2.2

  predicate IsStrictIpv4(s: string) {
    var parts := Split(s, '.');
    && |parts| == 4
    && forall i :: 0 <= i < 4 ==> IsOctet(parts[i]) && (|parts[i]| == 1 || parts[i][0] != '0')
  }

  /** How many 16-bit units a side of an IPv6 address holds; a dotted quad may only come last. */
  function Units(segments: seq<string>, mayEndInIpv4: bool): Option<nat> {
    if segments == [] then Some(0)
    else if |segments| == 1 && mayEndInIpv4 && IsStrictIpv4(segments[0]) then Some(2)
    else
      var rest := Units(segments[1..], mayEndInIpv4);
      if IsHextet(segments[0]) && rest.Some? then Some(1 + rest.value) else None
  }

  function SideUnits(side: string, mayEndInIpv4: bool): Option<nat> {
    if side == "" then Some(0) else Units(Split(side, ':'), mayEndInIpv4)
  }

  predicate IsUnscopedIpv6(s: string) {
    var sides := SplitPairs(s);
    if |sides| == 1 then SideUnits(sides[0], true) == Some(8)
    else
      var left, right := SideUnits(sides[0], false), SideUnits(sides[1], true);
      |sides| == 2 && left.Some? && right.Some? && left.value + right.value <= 7
  }

  /** A zone identifier may follow a percent sign. */
  predicate IsIpv6(s: string) {
    var pieces := Split(s, '%');
    && IsUnscopedIpv6(pieces[0])
    && |pieces| <= 2
    && (|pieces| == 2 ==> pieces[1] != "" && forall c :: c in pieces[1] ==> IsZoneCharacter(c))
  }

  predicate IsZoneCharacter(c: char) {
    '0' <= c <= '9' || 'a' <= c <= 'z' || 'A' <= c <= 'Z' || c == '-' || c == '.' || c == ':'
  }

  function IsIp(s: string): nat {
    if IsStrictIpv4(s) then 4 else if IsIpv6(s) then 6 else 0
  }

  // ----- Normalisation

  function LastIndexOf(s: string, c: char): (r: Option<nat>)
    ensures r.Some? ==> r.value < |s| && s[r.value] == c && c !in s[r.value + 1..]
    ensures r.None? ==> c !in s
  {
    if s == "" then None
    else if s[|s| - 1] == c then Some(|s| - 1)
    else LastIndexOf(s[..|s| - 1], c)
  }

  function StripAddressPort(value: string): string {
    var trimmed := Trim(value);
    var closingBracket := IndexOf(trimmed, "]", 0);
    if trimmed != "" && trimmed[0] == '[' && closingBracket.Some? && closingBracket.value > 0 then
      trimmed[1..closingBracket.value]
    else if IsIp(trimmed) != 0 then trimmed
    else
      var separator := LastIndexOf(trimmed, ':');
      if separator.Some? && separator.value > 0 && IsNumeral(trimmed[separator.value + 1..], Decimal) then
        trimmed[..separator.value]
      else trimmed
  }

  /** `^\d+(?:\.\d+){3}$` */
  predicate IsDottedQuad(s: string) {
    var parts := Split(s, '.');
    |parts| == 4 && forall i :: 0 <= i < 4 ==> IsNumeral(parts[i], Decimal)
  }

  predicate IsMapped(groups: seq<nat>) {
    |groups| == 8 && groups[0] == 0 && groups[1] == 0 && groups[2] == 0 && groups[3] == 0 && groups[4] == 0
    && groups[5] == 0xffff
  }

  function NormalizeIp(value: Option<string>): Option<string> {
    if value.None? || value.value == "" then None
    else
      var candidate := StripAddressPort(value.value);
      if IsDottedQuad(candidate) then NormalizeIpv4(candidate)
      else
        var version := IsIp(candidate);
        if version == 4 then NormalizeIpv4(candidate)
        else if version != 6 || '%' in candidate then None
        else
          var groups := ParseIpv6Groups(ToLower(candidate));
          if groups.None? then None
          else if IsMapped(groups.value) then
            var high, low := groups.value[6], groups.value[7];
            Some(PrintOctets([high / 0x100, high % 0x100, low / 0x100, low % 0x100]))
          else Some(PrintGroups(groups.value))
  }

  // ----- Addresses as numbers

  datatype Family = V4 | V6 {
    function BitsPerGroup(): nat { if V4? then 8 else 16 }
    function GroupCount(): nat { if V4? then 4 else 8 }
    function Bits(): nat { if V4? then 32 else 128 }
  }

  datatype Address = Address(family: Family, groups: seq<nat>) {
    /** The groups are as many and as large as the family says; a mapped IPv4 address is one of family V4. */
    predicate Valid() {
      if family.V4? then AreOctets(groups) else AreGroups(groups) && !IsMapped(groups)
    }

    function Text(): string {
      if family.V4? then PrintOctets(groups) else PrintGroups(groups)
    }
  }

  function IpToGroups(ip: string): Option<Address> {
    var normalized := NormalizeIp(Some(ip));
    if normalized.None? then None
    else if IsIp(normalized.value) == 4 then
      Some(Address(V4, Numbers(Split(normalized.value, '.'))))
    else
      var groups := ParseIpv6Groups(normalized.value);
      if groups.None? then None else Some(Address(V6, groups.value))
  }
}
