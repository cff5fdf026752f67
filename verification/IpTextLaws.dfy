/** Printing and parsing IPv6 addresses are inverse; the printed form is the canonical one. */
module IpTextLaws {
  import opened Text
  import opened Numerals
  import opened IpText

  // ----- Texts of hextets

  /** No colon at either end, no two in a row. */
  ghost predicate Plain(s: string) {
    && (s != "" ==> s[0] != ':' && s[|s| - 1] != ':')
    && forall i: nat :: !OccursAt(s, "::", i)
  }

  predicate HexOrColon(s: string) {
    forall c :: c in s ==> '0' <= c <= '9' || 'a' <= c <= 'f' || c == ':'
  }

  lemma PairAt(s: string, i: nat)
    ensures OccursAt(s, "::", i) <==> i + 1 < |s| && s[i] == ':' && s[i + 1] == ':'
  {
    if i + 1 < |s| {
      assert s[i..i + 2] == [s[i], s[i + 1]];
    }
  }

  lemma HextetText(n: nat)
    requires n < 0x10000
    ensures var p := Print(n, Hex);
            IsHextet(p) && ':' !in p && '.' !in p && HexOrColon(p) && GroupsOf(p) == Some([n])
  {
    ParsePrint(n, Hex);
    assert Values(Hex, 4) == 0x10000;
    PrintWidth(n, Hex, 4);
  }

  lemma {:induction false} HextetsText(groups: seq<nat>)
    requires Below(groups, 0x10000)
    ensures Plain(PrintHextets(groups)) && HexOrColon(PrintHextets(groups))
    ensures groups == [] <==> PrintHextets(groups) == ""
    ensures SideGroups(PrintHextets(groups)) == Some(groups)
  {
    var parts := Printed(groups, Hex);
    forall p | p in parts
      ensures ':' !in p
    {
      var i :| 0 <= i < |parts| && parts[i] == p;
      HextetText(groups[i]);
    }
    HextetsPlain(groups);
    if groups != [] {
      SplitJoinParts(parts, ':');
      PartsParse(groups);
    }
  }

  lemma PlainAppend(part: string, rest: string)
    requires part != "" && rest != "" && ':' !in part && Plain(rest)
    ensures Plain(part + ":" + rest)
  {
    var s := part + ":" + rest;
    assert part[0] in part;
    forall i: nat
      ensures !OccursAt(s, "::", i)
    {
      PairAt(s, i);
      if i < |part| {
        assert s[i] == part[i] && part[i] in part;
      } else if |part| < i {
        PairAt(rest, i - |part| - 1);
      }
    }
  }

  lemma {:induction false} HextetsPlain(groups: seq<nat>)
    requires Below(groups, 0x10000)
    ensures Plain(PrintHextets(groups)) && HexOrColon(PrintHextets(groups))
    ensures groups != [] ==> PrintHextets(groups) != ""
  {
    var parts := Printed(groups, Hex);
    if groups != [] {
      HextetText(groups[0]);
      assert parts[0][0] in parts[0] && parts[0][|parts[0]| - 1] in parts[0];
      forall i | 0 <= i < |parts[0]|
        ensures parts[0][i] != ':'
      {
        assert parts[0][i] in parts[0];
      }
      if |groups| > 1 {
        HextetsPlain(groups[1..]);
        assert parts[1..] == Printed(groups[1..], Hex);
        PlainAppend(parts[0], PrintHextets(groups[1..]));
      } else {
        forall i: nat
          ensures !OccursAt(parts[0], "::", i)
        {
          PairAt(parts[0], i);
        }
      }
    }
  }

  lemma {:induction false} PartsParse(groups: seq<nat>)
    requires Below(groups, 0x10000)
    ensures AllGroups(Printed(groups, Hex)) == Some(groups)
  {
    if groups != [] {
      HextetText(groups[0]);
      PartsParse(groups[1..]);
      assert Printed(groups, Hex)[1..] == Printed(groups[1..], Hex);
      assert [groups[0]] + groups[1..] == groups;
    }
  }

  // ----- The compressed form

  lemma PlainHasNoPair(s: string)
    requires Plain(s)
    ensures SplitPairs(s) == [s]
  {
  }

  lemma PairSplits(left: string, right: string)
    requires Plain(left) && Plain(right)
    ensures SplitPairs(left + "::" + right) == [left, right]
  {
    var s := left + "::" + right;
    PairAt(s, |left|);
    forall i: nat | i < |left|
      ensures !OccursAt(s, "::", i)
    {
      PairAt(s, i);
      PairAt(left, i);
    }
    assert IndexOf(s, "::", 0) == Some(|left|);
    assert s[..|left|] == left && s[|left| + 2..] == right;
    PlainHasNoPair(right);
  }

  lemma ParseTwoSides(value: string, a: string, b: string, left: seq<nat>, right: seq<nat>)
    requires SplitPairs(value) == [a, b]
    requires SideGroups(a) == Some(left) && SideGroups(b) == Some(right) && |left| + |right| < 8
    ensures ParseIpv6Groups(value) == Some(left + Zeros(8 - |left| - |right|) + right)
  {}

  lemma ParseOneSide(value: string, groups: seq<nat>)
    requires SplitPairs(value) == [value] && SideGroups(value) == Some(groups) && |groups| == 8
    ensures ParseIpv6Groups(value) == Some(groups)
  {}

  lemma ParseCompressed(left: seq<nat>, right: seq<nat>)
    requires Below(left, 0x10000) && Below(right, 0x10000) && |left| + |right| < 8
    ensures ParseIpv6Groups(PrintHextets(left) + "::" + PrintHextets(right))
            == Some(left + Zeros(8 - |left| - |right|) + right)
  {
    HextetsText(left);
    HextetsText(right);
    var a, b := PrintHextets(left), PrintHextets(right);
    PairSplits(a, b);
    ParseTwoSides(a + "::" + b, a, b, left, right);
  }

  lemma RestoreRun(groups: seq<nat>, start: nat)
    requires start <= |groups|
    ensures var length := ZerosAt(groups, start);
            groups[..start] + Zeros(length) + groups[start + length..] == groups
  {
    CountedIsRun(groups, start);
  }

  lemma ParseWhole(groups: seq<nat>)
    requires AreGroups(groups)
    ensures ParseIpv6Groups(PrintHextets(groups)) == Some(groups)
  {
    HextetsText(groups);
    PlainHasNoPair(PrintHextets(groups));
    ParseOneSide(PrintHextets(groups), groups);
  }

  lemma ParseAroundRun(groups: seq<nat>, start: nat)
    requires AreGroups(groups) && start <= 8 && ZerosAt(groups, start) > 0
    ensures ParseIpv6Groups(PrintHextets(groups[..start]) + "::"
                            + PrintHextets(groups[start + ZerosAt(groups, start)..]))
            == Some(groups)
  {
    var left, right := groups[..start], groups[start + ZerosAt(groups, start)..];
    assert Below(left, 0x10000) && Below(right, 0x10000);
    ParseCompressed(left, right);
    RestoreRun(groups, start);
  }

  /** Parsing a printed address gives its groups back. */
  lemma ParsePrintGroups(groups: seq<nat>)
    requires AreGroups(groups)
    ensures ParseIpv6Groups(PrintGroups(groups)) == Some(groups)
  {
    var start := LongestBefore(groups, 8);
    if ZerosAt(groups, start) < 2 {
      ParseWhole(groups);
    } else {
      ParseAroundRun(groups, start);
    }
  }

  /** Different addresses have different texts. */
  lemma PrintGroupsInjective(a: seq<nat>, b: seq<nat>)
    requires AreGroups(a) && AreGroups(b) && PrintGroups(a) == PrintGroups(b)
    ensures a == b
  {
    ParsePrintGroups(a);
    ParsePrintGroups(b);
  }

  predicate IsRun(groups: seq<nat>, start: nat, length: nat) {
    start + length <= |groups| && forall k :: start <= k < start + length ==> groups[k] == 0
  }

  /** No run of zeros is longer, and no earlier one is as long. */
  ghost predicate IsFirstLongestRun(groups: seq<nat>, start: nat, length: nat) {
    && IsRun(groups, start, length)
    && forall i: nat, n: nat :: IsRun(groups, i, n) ==> n <= length && (i < start ==> n < length)
  }

  lemma {:induction false} RunsAreCounted(groups: seq<nat>, i: nat, n: nat)
    requires IsRun(groups, i, n)
    ensures n <= ZerosAt(groups, i)
    decreases n
  {
    if n > 0 {
      RunsAreCounted(groups, i + 1, n - 1);
    }
  }

  lemma {:induction false} CountedIsRun(groups: seq<nat>, i: nat)
    requires i <= |groups|
    ensures IsRun(groups, i, ZerosAt(groups, i))
    decreases |groups| - i
  {
    if i < |groups| && groups[i] == 0 {
      CountedIsRun(groups, i + 1);
    }
  }

  lemma {:induction false} LongestIsFirst(groups: seq<nat>, n: nat)
    requires n <= |groups|
    ensures var r := LongestBefore(groups, n);
            && (forall i :: 0 <= i < n ==> ZerosAt(groups, i) <= ZerosAt(groups, r))
            && (forall i :: 0 <= i < r ==> ZerosAt(groups, i) < ZerosAt(groups, r))
  {
    if n > 1 {
      LongestIsFirst(groups, n - 1);
    }
  }

  /** Every address has a first longest run, the one the printer chooses. */
  lemma ChosenRunIsFirstLongest(groups: seq<nat>)
    ensures var start := LongestBefore(groups, |groups|);
            IsFirstLongestRun(groups, start, ZerosAt(groups, start))
  {
    var start := LongestBefore(groups, |groups|);
    CountedIsRun(groups, start);
    LongestIsFirst(groups, |groups|);
    forall i: nat, n: nat | IsRun(groups, i, n)
      ensures n <= ZerosAt(groups, start) && (i < start ==> n < ZerosAt(groups, start))
    {
      RunsAreCounted(groups, i, n);
    }
  }

  /** There is one first longest run, unless all are empty. */
  lemma FirstLongestIsUnique(groups: seq<nat>, a: nat, m: nat, b: nat, n: nat)
    requires IsFirstLongestRun(groups, a, m) && IsFirstLongestRun(groups, b, n)
    ensures m == n && (n > 0 ==> a == b)
  {
    assert IsRun(groups, a, m) && IsRun(groups, b, n);
  }

  /** RFC 5952, sections 4.2.2 and 4.2.3: the text leaves out the first of the longest runs if that has
      at least two zeros, and nothing otherwise. */
  lemma PrintCompressesFirstLongestRun(groups: seq<nat>, start: nat, length: nat)
    requires groups != [] && IsFirstLongestRun(groups, start, length)
    ensures PrintGroups(groups) ==
            if length < 2 then PrintHextets(groups)
            else PrintHextets(groups[..start]) + "::" + PrintHextets(groups[start + length..])
  {
    var s := LongestBefore(groups, |groups|);
    ChosenRunIsFirstLongest(groups);
    FirstLongestIsUnique(groups, s, ZerosAt(groups, s), start, length);
  }
}
