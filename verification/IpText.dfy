/** Textual IPv4 and IPv6 addresses: what is accepted, how it is read and how it is printed. */
module IpText {
  import opened Text
  import opened Numerals

  function Printed(numbers: seq<nat>, base: Base): seq<string> {
    seq(|numbers|, i requires 0 <= i < |numbers| => Print(numbers[i], base))
  }

  function Numbers(parts: seq<string>): seq<nat> {
    seq(|parts|, i requires 0 <= i < |parts| => Parse(parts[i], Decimal))
  }

  predicate Below(numbers: seq<nat>, bound: nat) {
    forall i :: 0 <= i < |numbers| ==> numbers[i] < bound
  }

  // ----- IPv4

  predicate IsOctet(part: string) {
    |part| <= 3 && IsNumeral(part, Decimal) && Parse(part, Decimal) <= 255
  }

  function NormalizeIpv4(value: string): Option<string> {
    var parts := Split(value, '.');
    if |parts| != 4 || exists i :: 0 <= i < |parts| && !IsOctet(parts[i]) then None
    else Some(PrintOctets(Numbers(parts)))
  }

  function PrintOctets(octets: seq<nat>): string {
    Join(Printed(octets, Decimal), ".")
  }

  predicate AreOctets(octets: seq<nat>) {
    |octets| == 4 && Below(octets, 0x100)
  }

  // ----- IPv6

  predicate AreGroups(groups: seq<nat>) {
    |groups| == 8 && Below(groups, 0x10000)
  }

  predicate IsHextet(part: string) {
    |part| <= 4 && IsNumeral(part, Hex)
  }

  /** One colon-separated group: a hextet, or a dotted quad that stands for two. */
  function GroupsOf(group: string): Option<seq<nat>> {
    if group == "" then None
    else if '.' in group then
      var ipv4 := NormalizeIpv4(group);
      if ipv4.None? then None
      else
        var octets := Numbers(Split(ipv4.value, '.'));
        if |octets| < 4 then None
        else Some([octets[0] * 0x100 + octets[1], octets[2] * 0x100 + octets[3]])
    else if IsHextet(group) then Some([Parse(group, Hex)])
    else None
  }

  function AllGroups(parts: seq<string>): Option<seq<nat>> {
    Collect(GroupsOf, parts)
  }

  /** The groups on one side of `::`. */
  function SideGroups(side: string): Option<seq<nat>> {
    if side == "" then Some([]) else AllGroups(Split(side, ':'))
  }

  /** `value.split("::")` */
  function SplitPairs(value: string): (parts: seq<string>)
    ensures |parts| > 0
    decreases |value|
  {
    var at := IndexOf(value, "::", 0);
    if at.None? then [value] else [value[..at.value]] + SplitPairs(value[at.value + 2..])
  }

  function Zeros(n: nat): seq<nat> {
    seq(n, _ => 0)
  }

  function ParseIpv6Groups(value: string): Option<seq<nat>> {
    var sides := SplitPairs(value);
    if |sides| > 2 then None
    else
      var left := SideGroups(sides[0]);
      var right := if |sides| == 2 then SideGroups(sides[1]) else Some([]);
      if left.None? || right.None? then None
      else if |sides| == 2 then
        if |left.value| + |right.value| >= 8 then None
        else Some(left.value + Zeros(8 - |left.value| - |right.value|) + right.value)
      else if |left.value| == 8 then left else None
  }

  /** `parseSide`: the loop over the groups of one side. */
  method ParseSide(side: string) returns (r: Option<seq<nat>>)
    ensures r == SideGroups(side)
  {
    if side == "" { return Some([]); }
    var groups := Split(side, ':');
    var result: seq<nat> := [];
    for i := 0 to |groups|
      invariant Collect(GroupsOf, groups[..i]) == Some(result)
    {
      CollectSnoc(GroupsOf, groups[..i], groups[i]);
      assert groups[..i] + [groups[i]] == groups[..i + 1];
      var group := GroupsOf(groups[i]);
      if group.None? {
        CollectAppend(GroupsOf, groups[..i + 1], groups[i + 1..]);
        assert groups[..i + 1] + groups[i + 1..] == groups;
        return None;
      }
      result := result + group.value;
    }
    assert groups[..|groups|] == groups;
    return Some(result);
  }

  /** The length of the run of zero groups that starts at `i`. */
  function ZerosAt(groups: seq<nat>, i: nat): (r: nat)
    requires i <= |groups|
    ensures i + r <= |groups|
    decreases |groups| - i
  {
    if i < |groups| && groups[i] == 0 then 1 + ZerosAt(groups, i + 1) else 0
  }

  /** The first of the longest runs of zeros that start before `n`. */
  function LongestBefore(groups: seq<nat>, n: nat): (r: nat)
    requires n <= |groups|
    ensures r <= n && (n > 0 ==> r < n)
  {
    if n <= 1 then 0
    else
      var best := LongestBefore(groups, n - 1);
      if ZerosAt(groups, n - 1) > ZerosAt(groups, best) then n - 1 else best
  }

  function PrintHextets(groups: seq<nat>): string {
    Join(Printed(groups, Hex), ":")
  }

  /** The text form that RFC 5952, section 4.2, recommends. */
  function PrintGroups(groups: seq<nat>): string {
    var start := LongestBefore(groups, |groups|);
    var length := ZerosAt(groups, start);
    if length < 2 then PrintHextets(groups)
    else PrintHextets(groups[..start]) + "::" + PrintHextets(groups[start + length..])
  }

  /** Inside a run of zeros, later starts are shorter. */
  lemma {:induction false} ZerosInside(groups: seq<nat>, i: nat, k: nat)
    requires i <= k <= |groups| && k <= i + ZerosAt(groups, i)
    ensures ZerosAt(groups, k) == i + ZerosAt(groups, i) - k
    decreases k - i
  {
    if i < k {
      ZerosInside(groups, i + 1, k);
    }
  }

  /** Of a whole run only its start can be the first longest one. */
  lemma {:induction false} SkipRun(groups: seq<nat>, i: nat, k: nat)
    requires i < k <= |groups| && k <= i + ZerosAt(groups, i)
    ensures LongestBefore(groups, k) ==
            if i > 0 && ZerosAt(groups, i) <= ZerosAt(groups, LongestBefore(groups, i)) then LongestBefore(groups, i)
            else i
    decreases k
  {
    if i + 1 < k {
      SkipRun(groups, i, k - 1);
      ZerosInside(groups, i, k - 1);
    }
  }

  /** The scan of `ipv6GroupsToString`, which skips from run to run. */
  method FindBestRun(groups: seq<nat>) returns (bestStart: int, bestLength: nat)
    ensures bestLength == ZerosAt(groups, LongestBefore(groups, |groups|))
    ensures bestLength > 0 ==> bestStart == LongestBefore(groups, |groups|)
  {
    bestStart := -1;
    bestLength := 0;
    var index := 0;
    while index < |groups|
      invariant 0 <= index <= |groups|
      invariant index == 0 ==> bestLength == 0
      invariant index > 0 ==> bestLength == ZerosAt(groups, LongestBefore(groups, index))
      invariant bestLength > 0 ==> bestStart == LongestBefore(groups, index)
    {
      if groups[index] != 0 {
        index := index + 1;
        continue;
      }
      var end := RunEnd(groups, index);
      SkipRun(groups, index, end);
      if end - index > bestLength {
        bestStart := index;
        bestLength := end - index;
      }
      index := end;
    }
  }

  /** `ipv6GroupsToString` */
  method Ipv6GroupsToString(groups: seq<nat>) returns (text: string)
    ensures text == PrintGroups(groups)
  {
    var bestStart, bestLength := FindBestRun(groups);
    if bestLength < 2 {
      return PrintHextets(groups);
    }
    text := AroundGap(PrintHextets(groups[..bestStart]), PrintHextets(groups[bestStart + bestLength..]));
  }

  method AroundGap(left: string, right: string) returns (text: string)
    ensures text == left + "::" + right
  {
    if left != "" && right != "" { return left + "::" + right; }
    if left != "" { return left + "::"; }
    return "::" + right;
  }

  /** The inner loop: one past the last zero of the run at `index`. */
  method RunEnd(groups: seq<nat>, index: nat) returns (end: nat)
    requires index < |groups|
    ensures end == index + ZerosAt(groups, index)
  {
    end := index;
    while end < |groups| && groups[end] == 0
      invariant index <= end <= |groups|
      invariant end + ZerosAt(groups, end) == index + ZerosAt(groups, index)
    {
      end := end + 1;
    }
  }
}
