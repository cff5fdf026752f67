/** The configured list of trusted networks: every network can be written in it, and is read back as it is. */
module CidrConfig {
  import opened Text
  import opened Numerals
  import opened ClientIp
  import opened ClientIpLaws
  import opened ClientPortLaws
  import opened Cidr

  function Written(n: TrustedProxyNetwork): string {
    n.address + "/" + Print(n.prefixLength, Decimal)
  }

  function AllWritten(networks: seq<TrustedProxyNetwork>): seq<string> {
    if networks == [] then [] else [Written(networks[0])] + AllWritten(networks[1..])
  }

  /** The address is written in its normal form. */
  ghost predicate Canonical(n: TrustedProxyNetwork) {
    && n.prefixLength <= n.family.Bits()
    && exists a: Address :: a.Valid() && a.family == n.family && n.address == a.Text()
  }

  /** What configuration parsing makes is canonical, so that all of it can be written down. */
  lemma ParsedCidrIsCanonical(item: string)
    ensures ParseCidr(item).Some? ==> Canonical(ParseCidr(item).value)
  {
    if ParseCidr(item).Some? {
      var a := NormalFormsAreTexts(Some(Split(item, '/')[0]));
      TextIsNormal(a);
    }
  }

  lemma PrintedPrefix(n: nat)
    ensures var p := Print(n, Decimal);
            p != "" && IsNumeral(p, Decimal) && Parse(p, Decimal) == n && '/' !in p && ',' !in p
  {
    ParsePrint(n, Decimal);
    NumeralHoldsNo(Print(n, Decimal), '/');
    NumeralHoldsNo(Print(n, Decimal), ',');
  }

  lemma ParseParts(item: string, address: string, prefix: string, family: Family)
    requires Split(item, '/') == [address, prefix] && address != "" && NormalizeIp(Some(address)) == Some(address)
    requires IsIp(address) == if family.V4? then 4 else 6
    requires prefix != "" && IsNumeral(prefix, Decimal)
    ensures ParseCidr(item) ==
            if Parse(prefix, Decimal) > family.Bits() then None
            else Some(TrustedProxyNetwork(family, address, Parse(prefix, Decimal)))
  {}

  /** A canonical address with a prefix: what it is read as. */
  lemma ReadAddressAndPrefix(a: Address, prefixLength: nat)
    requires a.Valid()
    ensures ParseCidr(a.Text() + "/" + Print(prefixLength, Decimal)) ==
            if prefixLength > a.family.Bits() then None
            else Some(TrustedProxyNetwork(a.family, a.Text(), prefixLength))
  {
    var address, prefix := a.Text(), Print(prefixLength, Decimal);
    TextIsNormal(a);
    TextOfAddress(a);
    PrintedPrefix(prefixLength);
    SplitAt(address, prefix, '/');
    SplitWithout(address, '/');
    SplitWithout(prefix, '/');
    assert address + ['/'] + prefix == address + "/" + prefix;
    assert [address] + [prefix] == [address, prefix];
    ParseParts(address + "/" + prefix, address, prefix, a.family);
  }

  lemma WrittenIsTrimmed(address: string, prefixLength: nat)
    requires AddressText(address)
    ensures var s := address + "/" + Print(prefixLength, Decimal); s != "" && ',' !in s && Trim(s) == s
  {
    var prefix := Print(prefixLength, Decimal);
    PrintedPrefix(prefixLength);
    assert address[0] in address;
    EndsInDigit(address + "/" + prefix, address + "/", prefix);
  }

  lemma ReadWritten(n: TrustedProxyNetwork)
    requires Canonical(n)
    ensures ParseCidr(Written(n)) == Some(n)
    ensures Written(n) != "" && ',' !in Written(n) && Trim(Written(n)) == Written(n)
  {
    var a: Address :| a.Valid() && a.family == n.family && n.address == a.Text();
    TextOfAddress(a);
    ReadAddressAndPrefix(a, n.prefixLength);
    WrittenIsTrimmed(n.address, n.prefixLength);
  }

  ghost predicate AllCanonical(networks: seq<TrustedProxyNetwork>) {
    forall n :: n in networks ==> Canonical(n)
  }

  lemma ItemRead(item: string, n: TrustedProxyNetwork)
    requires item != "" && Trim(item) == item && ParseCidr(item) == Some(n)
    ensures ItemNetworks(item) == Some([n])
  {}

  lemma {:induction false} CollectSingles(read: string -> Option<seq<TrustedProxyNetwork>>, items: seq<string>,
                                          networks: seq<TrustedProxyNetwork>)
    requires |items| == |networks| && forall i :: 0 <= i < |items| ==> read(items[i]) == Some([networks[i]])
    ensures Collect(read, items) == Some(networks)
  {
    if items != [] {
      CollectSingles(read, items[1..], networks[1..]);
      assert [networks[0]] + networks[1..] == networks;
    }
  }

  lemma {:induction false} WrittenItems(networks: seq<TrustedProxyNetwork>)
    ensures |AllWritten(networks)| == |networks|
    ensures forall i :: 0 <= i < |networks| ==> AllWritten(networks)[i] == Written(networks[i])
  {
    if networks != [] {
      WrittenItems(networks[1..]);
    }
  }

  /** Reading a written list gives exactly its networks back, in order; the empty text is the empty list. */
  lemma ReadWrittenNetworks(networks: seq<TrustedProxyNetwork>)
    requires AllCanonical(networks)
    ensures ParseTrustedProxyCidrs(Some(Join(AllWritten(networks), ","))) == Some(networks)
  {
    var items := AllWritten(networks);
    WrittenItems(networks);
    forall i | 0 <= i < |networks|
      ensures ',' !in items[i] && ItemNetworks(items[i]) == Some([networks[i]])
    {
      ReadWritten(networks[i]);
      ItemRead(items[i], networks[i]);
    }
    if networks == [] {
      ReadSingle("");
    } else {
      SplitJoinParts(items, ',');
      CollectSingles(ItemNetworks, items, networks);
    }
  }

  // ----- Items as people write them

  lemma SplitOnce(x: string, prefix: string)
    requires '/' !in x
    ensures Split(x, '/') == [x]
    ensures var parts := Split(x + "/" + prefix, '/');
            && parts[0] == x && |parts| >= 2
            && (|parts| == 2 <==> '/' !in prefix) && ('/' !in prefix ==> parts[1] == prefix)
  {
    SplitWithout(x, '/');
    SplitAt(x, prefix, '/');
    assert x + ['/'] + prefix == x + "/" + prefix;
    if '/' !in prefix {
      SplitWithout(prefix, '/');
    } else if |Split(prefix, '/')| == 1 {
      NoSeparator(prefix);
    }
  }

  lemma {:induction false} NoSeparator(s: string)
    requires |Split(s, '/')| == 1
    ensures '/' !in s
  {
    if s != "" {
      NoSeparator(s[1..]);
      assert s == [s[0]] + s[1..];
    }
  }

  /** An address alone, or with nothing behind its slash, is read with all bits of its family; with a decimal
      number of at most as many bits, it is read with that prefix; with anything else, not at all. */
  lemma ReadItem(x: string, a: Address, prefix: string)
    requires '/' !in x && x != "" && a.Valid() && NormalizeIp(Some(x)) == Some(a.Text())
    ensures var bits := if a.family.V4? then 32 else 128;
            && ParseCidr(x) == Some(TrustedProxyNetwork(a.family, a.Text(), bits))
            && ParseCidr(x + "/" + prefix) ==
               if prefix == "" then Some(TrustedProxyNetwork(a.family, a.Text(), bits))
               else if IsNumeral(prefix, Decimal) && Parse(prefix, Decimal) <= bits then
                 Some(TrustedProxyNetwork(a.family, a.Text(), Parse(prefix, Decimal)))
               else None
  {
    TextIsNormal(a);
    SplitOnce(x, prefix);
    if '/' in prefix {
      assert DigitValue('/', Decimal) == 10;
    }
  }

  /** What stands in front of the slash must be an address. */
  lemma UnreadableItem(x: string, prefix: string)
    requires '/' !in x && (x == "" || NormalizeIp(Some(x)).None?)
    ensures ParseCidr(x).None? && ParseCidr(x + "/" + prefix).None?
  {
    SplitOnce(x, prefix);
  }

  /** The networks of a list are those of its items in order, blank ones left out, and one that cannot be read
      makes the whole list unreadable. */
  lemma ReadList(left: string, right: string)
    ensures var a, b := ParseTrustedProxyCidrs(Some(left)), ParseTrustedProxyCidrs(Some(right));
            ParseTrustedProxyCidrs(Some(left + "," + right)) ==
            if a.None? || b.None? then None else Some(a.value + b.value)
  {
    SplitAt(left, right, ',');
    assert left + [','] + right == left + "," + right;
    CollectAppend(ItemNetworks, Split(left, ','), Split(right, ','));
  }

  /** A list of one item: nothing if it is blank, and otherwise the network it is read as. */
  lemma ReadSingle(item: string)
    requires ',' !in item
    ensures ParseTrustedProxyCidrs(Some(item)) ==
            if Trim(item) == "" then Some([])
            else if ParseCidr(Trim(item)).None? then None
            else Some([ParseCidr(Trim(item)).value])
  {
    SplitWithout(item, ',');
    CollectOne(ItemNetworks, item);
  }

  lemma CollectOne(read: string -> Option<seq<TrustedProxyNetwork>>, item: string)
    ensures Collect(read, [item]) == read(item)
  {
    assert [item][1..] == [];
    if read(item).Some? {
      assert read(item).value + [] == read(item).value;
    }
  }
}
