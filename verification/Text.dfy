/** String operations of JavaScript and Go that several components rely on. */
module Text {

  datatype Option<+T> = None | Some(value: T)

  /** The WhiteSpace and LineTerminator characters of ECMAScript, which String.prototype.trim removes. */
  predicate IsSpace(c: char) {
    || '\t' <= c <= '\r' || c == ' ' || c == '\U{A0}' || c == '\U{1680}'
    || '\U{2000}' <= c <= '\U{200A}' || c == '\U{2028}' || c == '\U{2029}'
    || c == '\U{202F}' || c == '\U{205F}' || c == '\U{3000}' || c == '\U{FEFF}'
  }

  function TrimStart(s: string): string {
    if |s| > 0 && IsSpace(s[0]) then TrimStart(s[1..]) else s
  }

  function TrimEnd(s: string): string {
    if |s| > 0 && IsSpace(s[|s| - 1]) then TrimEnd(s[..|s| - 1]) else s
  }

  function Trim(s: string): string {
    TrimEnd(TrimStart(s))
  }

  /** Lower case, for ASCII letters. */
  function ToLower(s: string): string {
    seq(|s|, i requires 0 <= i < |s| =>
      if 'A' <= s[i] <= 'Z' then (s[i] as int - 'A' as int + 'a' as int) as char else s[i])
  }

  /** Nothing is left to trim at either end. */
  predicate Trimmed(s: string) {
    |s| > 0 ==> !IsSpace(s[0]) && !IsSpace(s[|s| - 1])
  }

  lemma {:induction false} TrimEndKeeps(s: string)
    ensures var t := TrimEnd(s);
            && t <= s
            && (forall i :: |t| <= i < |s| ==> IsSpace(s[i]))
            && (|t| > 0 ==> !IsSpace(t[|t| - 1]))
  {
    if |s| > 0 && IsSpace(s[|s| - 1]) {
      TrimEndKeeps(s[..|s| - 1]);
    }
  }

  lemma {:induction false} TrimIsTrimmed(s: string)
    ensures Trimmed(Trim(s))
  {
    if |s| > 0 && IsSpace(s[0]) {
      TrimIsTrimmed(s[1..]);
    } else {
      TrimEndKeeps(s);
    }
  }

  predicate OccursAt(s: string, pattern: string, i: nat) {
    i + |pattern| <= |s| && s[i..i + |pattern|] == pattern
  }

  /** The first position at or after `from` where `pattern` occurs, as String.prototype.indexOf finds it. */
  function IndexOf(s: string, pattern: string, from: nat): (r: Option<nat>)
    decreases |s| - from
    ensures r.None? ==> forall i: nat :: from <= i ==> !OccursAt(s, pattern, i)
    ensures r.Some? ==> from <= r.value && OccursAt(s, pattern, r.value)
    ensures r.Some? ==> forall i: nat :: from <= i < r.value ==> !OccursAt(s, pattern, i)
  {
    if from + |pattern| > |s| then None
    else if OccursAt(s, pattern, from) then Some(from)
    else IndexOf(s, pattern, from + 1)
  }

  function Concat(parts: seq<string>): string {
    if parts == [] then "" else parts[0] + Concat(parts[1..])
  }

  lemma {:induction false} ConcatAppend(a: seq<string>, b: seq<string>)
    ensures Concat(a + b) == Concat(a) + Concat(b)
  {
    if a == [] {
      assert a + b == b;
    } else {
      assert (a + b)[1..] == a[1..] + b;
      ConcatAppend(a[1..], b);
    }
  }

  // ----- split and join on a separator character

  function Split(s: string, c: char): (parts: seq<string>)
    ensures |parts| > 0
  {
    if s == "" then [""]
    else
      var rest := Split(s[1..], c);
      if s[0] == c then [""] + rest else Prepend(s[0], rest)
  }

  /** Put a character before the first part. */
  function Prepend(ch: char, parts: seq<string>): seq<string>
    requires parts != []
  {
    [[ch] + parts[0]] + parts[1..]
  }

  function Join(parts: seq<string>, sep: string): string {
    if parts == [] then ""
    else if |parts| == 1 then parts[0]
    else parts[0] + sep + Join(parts[1..], sep)
  }

  /** Joining undoes splitting. */
  lemma {:induction false} JoinSplit(s: string, c: char)
    ensures Join(Split(s, c), [c]) == s
  {
    if s != "" {
      var rest := Split(s[1..], c);
      JoinSplit(s[1..], c);
      if s[0] == c {
        assert ([""] + rest)[1..] == rest;
      } else {
        assert Prepend(s[0], rest)[1..] == rest[1..];
        assert s == [s[0]] + s[1..];
      }
    }
  }

  lemma {:induction false} SplitWithout(s: string, c: char)
    requires c !in s
    ensures Split(s, c) == [s]
  {
    if s != "" {
      SplitWithout(s[1..], c);
      assert [s[0]] + s[1..] == s;
    }
  }

  lemma SplitCons(ch: char, s: string, c: char)
    ensures Split([ch] + s, c) == if ch == c then [""] + Split(s, c) else Prepend(ch, Split(s, c))
  {
    assert ([ch] + s)[0] == ch && ([ch] + s)[1..] == s;
  }

  lemma PrependAppend(ch: char, a: seq<string>, b: seq<string>)
    requires a != []
    ensures Prepend(ch, a + b) == Prepend(ch, a) + b
  {
    assert (a + b)[0] == a[0] && (a + b)[1..] == a[1..] + b;
  }

  lemma SplitConsAt(ch: char, front: string, left: seq<string>, right: seq<string>, c: char)
    requires left != [] && Split(front, c) == left + right
    ensures Split([ch] + front, c) == (if ch == c then [""] + left else Prepend(ch, left)) + right
  {
    SplitCons(ch, front, c);
    if ch == c {
      assert [""] + (left + right) == ([""] + left) + right;
    } else {
      PrependAppend(ch, left, right);
    }
  }

  /** A separator between two texts splits them apart. */
  lemma {:induction false} SplitAt(a: string, b: string, c: char)
    ensures Split(a + [c] + b, c) == Split(a, c) + Split(b, c)
  {
    if a == "" {
      assert a + [c] + b == [c] + b;
      SplitCons(c, b, c);
    } else {
      var front := a[1..] + [c] + b;
      SplitAt(a[1..], b, c);
      assert a + [c] + b == [a[0]] + front && a == [a[0]] + a[1..];
      SplitConsAt(a[0], front, Split(a[1..], c), Split(b, c), c);
      SplitCons(a[0], a[1..], c);
    }
  }

  lemma {:induction false} JoinCharacters(parts: seq<string>, sep: string, c: char)
    requires c in Join(parts, sep)
    ensures c in sep || exists p :: p in parts && c in p
  {
    if |parts| > 1 && c !in parts[0] && c !in sep {
      JoinCharacters(parts[1..], sep, c);
    }
  }

  /** The parts of each part, in order. */
  function SplitEach(parts: seq<string>, c: char): seq<string> {
    if parts == [] then [] else Split(parts[0], c) + SplitEach(parts[1..], c)
  }

  /** Splitting a join splits every part on its own. */
  lemma {:induction false} SplitJoin(parts: seq<string>, c: char)
    requires parts != []
    ensures Split(Join(parts, [c]), c) == SplitEach(parts, c)
  {
    if |parts| > 1 {
      SplitJoin(parts[1..], c);
      SplitAt(parts[0], Join(parts[1..], [c]), c);
    }
  }

  lemma {:induction false} SplitEachWithout(parts: seq<string>, c: char)
    requires forall p :: p in parts ==> c !in p
    ensures SplitEach(parts, c) == parts
  {
    if parts != [] {
      SplitWithout(parts[0], c);
      SplitEachWithout(parts[1..], c);
      assert [parts[0]] + parts[1..] == parts;
    }
  }

  /** Splitting undoes joining when no part holds the separator. */
  lemma SplitJoinParts(parts: seq<string>, c: char)
    requires parts != [] && forall p :: p in parts ==> c !in p
    ensures Split(Join(parts, [c]), c) == parts
  {
    SplitJoin(parts, c);
    SplitEachWithout(parts, c);
  }

  /** What `f` makes of every part, in order; None if it fails on one. */
  function Collect<T>(f: string -> Option<seq<T>>, parts: seq<string>): Option<seq<T>> {
    if parts == [] then Some([])
    else
      var head, tail := f(parts[0]), Collect(f, parts[1..]);
      if head.None? || tail.None? then None else Some(head.value + tail.value)
  }

  lemma {:induction false} CollectAppend<T>(f: string -> Option<seq<T>>, a: seq<string>, b: seq<string>)
    ensures Collect(f, a + b) ==
            if Collect(f, a).None? || Collect(f, b).None? then None
            else Some(Collect(f, a).value + Collect(f, b).value)
  {
    if a == [] {
      assert a + b == b;
      if Collect(f, b).Some? { assert [] + Collect(f, b).value == Collect(f, b).value; }
    } else {
      assert (a + b)[1..] == a[1..] + b;
      CollectAppend(f, a[1..], b);
      if Collect(f, a + b).Some? {
        assert Collect(f, a).value + Collect(f, b).value
            == f(a[0]).value + (Collect(f, a[1..]).value + Collect(f, b).value);
      }
    }
  }

  lemma CollectSnoc<T>(f: string -> Option<seq<T>>, parts: seq<string>, last: string)
    requires Collect(f, parts).Some?
    ensures Collect(f, parts + [last]) ==
            if f(last).None? then None else Some(Collect(f, parts).value + f(last).value)
  {
    CollectAppend(f, parts, [last]);
    assert [last][1..] == [];
    if f(last).Some? { assert f(last).value + [] == f(last).value; }
  }
}
