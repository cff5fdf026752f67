/** Which texts are addresses, and which are not. */
module AcceptedAddresses {
  import opened Text
  import opened Numerals
  import opened IpText
  import opened IpTextLaws
  import opened ClientIp
  import opened ClientIpLaws
  import opened WrittenAddresses

  // ----- Numbers without leading zeros

  lemma DigitOfValue(c: char)
    requires DigitValue(c, Decimal) < 10
    ensures DIGITS[DigitValue(c, Decimal)] == c
  {}

  lemma TensAndOnes(n: nat, d: nat)
    requires d < 10
    ensures (n * 10 + d) / 10 == n && (n * 10 + d) % 10 == d
  {}

  lemma PrintUnfolds(m: nat)
    requires m >= 10
    ensures Print(m, Decimal) == Print(m / 10, Decimal) + [DIGITS[m % 10]]
  {}

  lemma AppendDigit(n: nat, s: string, d: nat, c: char, m: nat)
    requires n > 0 && d < 10 && m == n * 10 + d && DIGITS[d] == c && Print(n, Decimal) == s
    ensures Print(m, Decimal) == s + [c]
  {
    TensAndOnes(n, d);
    PrintDivides(m, n, d, s, c);
  }

  lemma PrintDivides(m: nat, n: nat, d: nat, s: string, c: char)
    requires m >= 10 && m / 10 == n && m % 10 == d < 10 && DIGITS[d] == c && Print(n, Decimal) == s
    ensures Print(m, Decimal) == s + [c]
  {
    PrintUnfolds(m);
  }

  lemma ParseAppends(front: string, c: char, n: nat, d: nat)
    requires Parse(front, Decimal) == n && DigitValue(c, Decimal) == d
    ensures Parse(front + [c], Decimal) == n * 10 + d
  {
    ParseSnoc(front, c);
  }

  lemma ParseSnoc(front: string, c: char)
    ensures Parse(front + [c], Decimal) == Parse(front, Decimal) * 10 + DigitValue(c, Decimal)
  {
    assert (front + [c])[..|front|] == front;
  }

  lemma OneDigit(c: char)
    requires DigitValue(c, Decimal) < 10
    ensures Parse([c], Decimal) == DigitValue(c, Decimal)
    ensures Print(DigitValue(c, Decimal), Decimal) == [c]
    ensures c != '0' ==> DigitValue(c, Decimal) > 0
  {
    ParseSnoc("", c);
    assert "" + [c] == [c];
    DigitOfValue(c);
  }

  predicate AreDigits(s: string) {
    forall i :: 0 <= i < |s| ==> DigitValue(s[i], Decimal) < 10
  }

  /** Digits that do not begin with a zero are the text of their value. */
  lemma {:induction false} PrintDigits(s: string) returns (n: nat)
    requires AreDigits(s) && s != "" && s[0] != '0'
    ensures n == Parse(s, Decimal) && Print(n, Decimal) == s && n > 0
  {
    var front, c := s[..|s| - 1], s[|s| - 1];
    assert s == front + [c];
    if front == "" {
      OneDigit(c);
      n := DigitValue(c, Decimal);
    } else {
      var tens := PrintDigits(front);
      n := AppendToDigits(front, c, tens);
    }
  }

  lemma AppendToDigits(front: string, c: char, tens: nat) returns (n: nat)
    requires DigitValue(c, Decimal) < 10
    requires tens == Parse(front, Decimal) && Print(tens, Decimal) == front && tens > 0
    ensures n == Parse(front + [c], Decimal) && Print(n, Decimal) == front + [c] && n > 0
  {
    var d := DigitValue(c, Decimal);
    DigitOfValue(c);
    n := tens * 10 + d;
    ParseAppends(front, c, tens, d);
    AppendDigit(tens, front, d, c, n);
  }

  /** A decimal numeral without a leading zero is the text of its value. */
  lemma PrintParse(s: string)
    requires IsNumeral(s, Decimal) && (|s| == 1 || s[0] != '0')
    ensures Print(Parse(s, Decimal), Decimal) == s
  {
    assert forall i :: 0 <= i < |s| ==> s[i] in s;
    if s[0] != '0' {
      var n := PrintDigits(s);
    } else {
      assert s == [s[0]];
      OneDigit(s[0]);
    }
  }

  /** What `isIP` takes for an IPv4 address is the text of one. */
  lemma StrictIsPrinted(s: string) returns (octets: seq<nat>)
    requires IsStrictIpv4(s)
    ensures AreOctets(octets) && s == PrintOctets(octets)
  {
    var parts := Split(s, '.');
    octets := Numbers(parts);
    forall i | 0 <= i < 4
      ensures Print(octets[i], Decimal) == parts[i]
    {
      PrintParse(parts[i]);
    }
    JoinSplit(s, '.');
    assert Printed(octets, Decimal) == parts;
  }

  // ----- IPv6

  lemma {:induction false} SegmentsAreSide(segments: seq<string>, mayEndInIpv4: bool) returns (side: Side)
    requires Units(segments, mayEndInIpv4).Some?
    ensures side.Valid() && (side.quad.Some? ==> mayEndInIpv4) && side.Parts() == segments
    ensures Units(segments, mayEndInIpv4) == Some(|side.Groups()|)
  {
    if segments == [] {
      side := Side([], None);
    } else if |segments| == 1 && mayEndInIpv4 && IsStrictIpv4(segments[0]) {
      var octets := StrictIsPrinted(segments[0]);
      side := Side([], Some(octets));
    } else {
      var rest := SegmentsAreSide(segments[1..], mayEndInIpv4);
      side := Side([segments[0]] + rest.hextets, rest.quad);
      assert side.Parts() == [segments[0]] + rest.Parts();
    }
  }

  lemma TextIsSide(text: string, mayEndInIpv4: bool) returns (side: Side)
    requires SideUnits(text, mayEndInIpv4).Some?
    ensures side.Valid() && (side.quad.Some? ==> mayEndInIpv4) && side.Text() == text
    ensures SideUnits(text, mayEndInIpv4) == Some(|side.Groups()|)
  {
    if text == "" {
      side := Side([], None);
    } else {
      side := SegmentsAreSide(Split(text, ':'), mayEndInIpv4);
      JoinSplit(text, ':');
    }
  }

  /** Groups of one to four hexadecimal digits, the last two perhaps as a dotted quad: eight of them, or
      fewer and a `::` between them or at an end. */
  ghost predicate IsWritten(s: string) {
    || (exists side: Side :: Fits(side) && |side.Groups()| == 8 && s == side.Text())
    || (exists left: Side, right: Side ::
          && Fits(left) && left.quad.None? && Fits(right) && |left.Groups()| + |right.Groups()| < 8
          && s == left.Text() + "::" + right.Text())
  }

  predicate IsHexDigit(c: char) {
    '0' <= c <= '9' || 'a' <= c <= 'f' || 'A' <= c <= 'F'
  }

  predicate Fits(side: Side)
    ensures Fits(side) ==> side.Valid()
  {
    && (forall i :: 0 <= i < |side.hextets| ==>
          1 <= |side.hextets[i]| <= 4 && forall c :: c in side.hextets[i] ==> IsHexDigit(c))
    && (side.quad.Some? ==> |side.quad.value| == 4 && forall i :: 0 <= i < 4 ==> side.quad.value[i] < 256)
  }

  lemma ValidFits(side: Side)
    requires side.Valid()
    ensures Fits(side)
  {
    forall i | 0 <= i < |side.hextets|
      ensures forall c :: c in side.hextets[i] ==> IsHexDigit(c)
    {
      forall c | c in side.hextets[i]
        ensures IsHexDigit(c)
      {
        assert DigitValue(c, Hex) < 16;
      }
    }
  }

  lemma PairJoins(s: string)
    requires |SplitPairs(s)| == 2
    ensures s == SplitPairs(s)[0] + "::" + SplitPairs(s)[1]
  {
    var at := IndexOf(s, "::", 0).value;
    assert s == s[..at] + s[at..at + 2] + s[at + 2..];
  }

  lemma UnscopedIsWritten(s: string)
    requires IsUnscopedIpv6(s)
    ensures IsWritten(s)
  {
    var sides := SplitPairs(s);
    if |sides| == 1 {
      var side := TextIsSide(s, true);
      ValidFits(side);
    } else {
      var left := TextIsSide(sides[0], false);
      var right := TextIsSide(sides[1], true);
      PairJoins(s);
      ValidFits(left);
      ValidFits(right);
      assert Fits(left) && left.quad.None? && Fits(right) && |left.Groups()| + |right.Groups()| < 8
          && s == left.Text() + "::" + right.Text();
    }
  }

  /** Four decimal numbers of one to three digits, none above 255. */
  ghost predicate IsQuad(s: string) {
    exists parts: seq<string> ::
      && |parts| == 4 && AreNumerals(parts)
      && (forall i :: 0 <= i < 4 ==> |parts[i]| <= 3 && Parse(parts[i], Decimal) <= 255)
      && s == Join(parts, ".")
  }

  lemma WrittenNormalizes(s: string)
    requires IsWritten(s)
    ensures NormalizeIp(Some(s)).Some?
  {
    if side: Side :| Fits(side) && |side.Groups()| == 8 && s == side.Text() {
      WholeNormalizes(side);
    } else {
      var left: Side, right: Side :|
        && Fits(left) && left.quad.None? && Fits(right) && |left.Groups()| + |right.Groups()| < 8
        && s == left.Text() + "::" + right.Text();
      CompressedNormalizes(left, right);
    }
  }

  lemma QuadIsRead(s: string)
    requires NormalizeIpv4(s).Some?
    ensures IsQuad(s)
  {
    var parts := Split(s, '.');
    JoinSplit(s, '.');
    assert forall i :: 0 <= i < 4 ==> IsOctet(parts[i]);
  }

  lemma NormalizedForms(s: string)
    requires s != "" && StripAddressPort(s) == s && NormalizeIp(Some(s)).Some?
    ensures NormalizeIpv4(s).Some? || (IsIpv6(s) && '%' !in s)
  {}

  /** A text without a port, brackets or space around it is accepted exactly if it is a dotted quad or is
      written as IPv6. */
  lemma AcceptedExactly(s: string)
    requires s != "" && StripAddressPort(s) == s
    ensures NormalizeIp(Some(s)).Some? <==> IsQuad(s) || IsWritten(s)
  {
    if NormalizeIp(Some(s)).Some? {
      NormalizedForms(s);
      if NormalizeIpv4(s).Some? {
        QuadIsRead(s);
      } else {
        SplitWithout(s, '%');
        UnscopedIsWritten(s);
      }
    }
    if IsWritten(s) {
      WrittenNormalizes(s);
    }
    if IsQuad(s) {
      var parts: seq<string> :| |parts| == 4 && AreNumerals(parts)
        && (forall i :: 0 <= i < 4 ==> |parts[i]| <= 3 && Parse(parts[i], Decimal) <= 255) && s == Join(parts, ".");
      QuadNormalizes(parts);
    }
  }

  // ----- Space around an address

  predicate IsBlank(s: string) {
    forall c :: c in s ==> IsSpace(c)
  }

  lemma {:induction false} TrimStartSkips(blank: string, s: string)
    requires IsBlank(blank)
    ensures TrimStart(blank + s) == TrimStart(s)
  {
    if blank == "" {
      assert blank + s == s;
    } else {
      assert blank[0] in blank;
      TrimStartSkips(blank[1..], s);
      assert (blank + s)[1..] == blank[1..] + s;
    }
  }

  lemma {:induction false} TrimEndSkips(s: string, blank: string)
    requires IsBlank(blank)
    ensures TrimEnd(s + blank) == TrimEnd(s)
  {
    if blank == "" {
      assert s + blank == s;
    } else {
      var n := |blank| - 1;
      assert blank[n] in blank;
      TrimEndSkips(s, blank[..n]);
      assert (s + blank)[..|s| + n] == s + blank[..n];
    }
  }

  lemma {:induction false} TrimStartKeepsEnd(s: string, blank: string)
    requires IsBlank(blank)
    ensures TrimStart(s + blank) == TrimStart(s) + blank || (TrimStart(s) == "" && IsBlank(TrimStart(s + blank)))
  {
    if s == "" {
      assert s + blank == blank;
      TrimStartBlank(blank);
    } else if IsSpace(s[0]) {
      TrimStartKeepsEnd(s[1..], blank);
      assert (s + blank)[1..] == s[1..] + blank;
    }
  }

  lemma {:induction false} TrimStartBlank(blank: string)
    requires IsBlank(blank)
    ensures TrimStart(blank) == ""
  {
    if blank != "" {
      assert blank[0] in blank;
      TrimStartBlank(blank[1..]);
    }
  }

  lemma SpaceIsTrimmed(before: string, s: string, after: string)
    requires IsBlank(before) && IsBlank(after)
    ensures Trim(before + s + after) == Trim(s)
  {
    assert before + s + after == before + (s + after);
    TrimStartSkips(before, s + after);
    TrimStartKeepsEnd(s, after);
    TrimEndSkips(TrimStart(s), after);
    if TrimStart(s) == "" {
      assert "" + TrimStart(s + after) == TrimStart(s + after);
      TrimEndSkips("", TrimStart(s + after));
    }
  }

  lemma StripTrims(x: string, y: string)
    requires Trim(x) == Trim(y)
    ensures StripAddressPort(x) == StripAddressPort(y)
  {}

  lemma BlankIsNone(s: string)
    requires Trim(s) == ""
    ensures NormalizeIp(Some(s)) == None
  {
    assert !IsDottedQuad("") && !IsUnscopedIpv6("") by { SplitWithout("", '.'); }
    SplitWithout("", '%');
    assert IsIp("") == 0;
  }

  lemma SameStripped(x: string, y: string)
    requires x != "" && y != "" && StripAddressPort(x) == StripAddressPort(y)
    ensures NormalizeIp(Some(x)) == NormalizeIp(Some(y))
  {}

  /** Space around a text is not looked at. */
  lemma SpaceIsIgnored(before: string, s: string, after: string)
    requires IsBlank(before) && IsBlank(after)
    ensures NormalizeIp(Some(before + s + after)) == NormalizeIp(Some(s))
  {
    SpaceIsTrimmed(before, s, after);
    if s == "" {
      BlankIsNone(before + s + after);
      BlankIsNone(s);
    } else {
      StripTrims(before + s + after, s);
      SameStripped(before + s + after, s);
    }
  }
}
