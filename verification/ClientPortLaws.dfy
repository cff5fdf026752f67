/** The port behind a client address, and the brackets around one, do not change what it is normalised to. */
module ClientPortLaws {
  import opened Text
  import opened Numerals
  import opened IpText
  import opened IpTextLaws
  import opened ClientIp
  import opened ClientIpLaws

  /** The characters of normal forms. */
  predicate AddressText(t: string) {
    t != "" && forall c :: c in t ==> '0' <= c <= '9' || 'a' <= c <= 'f' || c == ':' || c == '.'
  }

  lemma TextOfAddress(a: Address)
    requires a.Valid()
    ensures AddressText(a.Text()) && IsIp(a.Text()) != 0
    ensures a.family.V4? ==> ':' !in a.Text() && '.' in a.Text()
  {
    TextIsNormal(a);
    if a.family.V4? {
      OctetsCharacters(a.groups);
      OctetsText(a.groups);
      if '.' !in a.Text() {
        SplitWithout(a.Text(), '.');
      }
    } else {
      GroupsForm(a.groups);
    }
  }

  lemma EndsInDigit(s: string, front: string, port: string)
    requires IsNumeral(port, Decimal) && front != "" && s == front + port && !IsSpace(front[0])
    ensures Trim(s) == s
  {
    assert port[|port| - 1] in port;
    assert s[|s| - 1] == port[|port| - 1];
  }

  lemma StripBracketed(t: string, port: string)
    requires AddressText(t) && IsNumeral(port, Decimal)
    ensures StripAddressPort("[" + t + "]:" + port) == t
  {
    var s := "[" + t + "]:" + port;
    EndsInDigit(s, "[" + t + "]:", port);
    forall i: nat | i < |t| + 1
      ensures !OccursAt(s, "]", i)
    {
      if i > 0 {
        assert t[i - 1] in t && s[i] == t[i - 1];
      }
    }
    assert OccursAt(s, "]", |t| + 1);
    assert IndexOf(s, "]", 0) == Some(|t| + 1);
  }

  lemma OneColon(t: string, port: string, i: nat)
    requires ':' !in t && IsNumeral(port, Decimal) && i < |t + ":" + port|
    ensures (t + ":" + port)[i] == ':' <==> i == |t|
  {
    var s := t + ":" + port;
    if i < |t| {
      assert s[i] == t[i] && t[i] in t;
    } else if i > |t| {
      assert s[i] == port[i - |t| - 1] && port[i - |t| - 1] in port;
    }
  }

  lemma NumeralHoldsNo(port: string, c: char)
    requires IsNumeral(port, Decimal) && !('0' <= c <= '9')
    ensures c !in port
  {}

  lemma ColonIsNoNumeral(p: string)
    requires ':' in p
    ensures !IsNumeral(p, Decimal)
  {
    assert DigitValue(':', Decimal) == 10;
  }

  lemma WithPortIsNoIpv4(s: string)
    requires ':' in s
    ensures !IsStrictIpv4(s)
  {
    var parts := Split(s, '.');
    JoinSplit(s, '.');
    JoinCharacters(parts, ".", ':');
    var p :| p in parts && ':' in p;
    var i :| 0 <= i < |parts| && parts[i] == p;
    ColonIsNoNumeral(parts[i]);
  }

  lemma WithPortIsNoIpv6(t: string, port: string)
    requires AddressText(t) && ':' !in t && '.' in t && IsNumeral(port, Decimal)
    ensures !IsIpv6(t + ":" + port)
  {
    var s := t + ":" + port;
    NumeralHoldsNo(port, '%');
    SplitWithout(s, '%');
    forall i: nat
      ensures !OccursAt(s, "::", i)
    {
      PairAt(s, i);
      if i + 1 < |s| {
        OneColon(t, port, i);
        OneColon(t, port, i + 1);
      }
    }
    assert SplitPairs(s) == [s];
    NumeralHoldsNo(port, ':');
    SplitAt(t, port, ':');
    SplitWithout(t, ':');
    SplitWithout(port, ':');
    assert Split(s, ':') == [t] + [port];
    assert !IsHextet(t);
  }

  lemma StripPort(t: string, port: string)
    requires AddressText(t) && ':' !in t && '.' in t && IsNumeral(port, Decimal)
    ensures StripAddressPort(t + ":" + port) == t
  {
    var s := t + ":" + port;
    assert s[0] == t[0] && t[0] in t;
    EndsInDigit(s, t + ":", port);
    OneColon(t, port, |t|);
    WithPortIsNoIpv4(s);
    WithPortIsNoIpv6(t, port);
    var separator := LastIndexOf(s, ':');
    OneColon(t, port, separator.value);
    assert s[|t| + 1..] == port && s[..|t|] == t;
  }

  lemma SameCandidate(x: string, y: string)
    requires x != "" && y != "" && StripAddressPort(x) == StripAddressPort(y)
    ensures NormalizeIp(Some(x)) == NormalizeIp(Some(y))
  {}

  /** An address in brackets with a port, and an IPv4 address with a port, have the normal form of the
      address, whatever the port. */
  lemma PortsAreIgnored(a: Address, port: string)
    requires a.Valid() && IsNumeral(port, Decimal)
    ensures NormalizeIp(Some("[" + a.Text() + "]:" + port)) == Some(a.Text())
    ensures a.family.V4? ==> NormalizeIp(Some(a.Text() + ":" + port)) == Some(a.Text())
  {
    var t := a.Text();
    TextIsNormal(a);
    TextOfAddress(a);
    StripKeeps(t);
    StripBracketed(t, port);
    SameCandidate("[" + t + "]:" + port, t);
    if a.family.V4? {
      StripPort(t, port);
      SameCandidate(t + ":" + port, t);
    }
  }
}
