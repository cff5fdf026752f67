/** What splitting keeps: every character, every top-level boundary, and its own results. */
module SqlSplitterLaws {
  import opened Text
  import opened SqlSplitter

  // ----- Conservation

  lemma {:induction false} SlicesCover(s: string, n: nat)
    requires n <= |s|
    ensures Concat(Cutting(s, n).slices) == s[..Cutting(s, n).start]
  {
    if n > 0 {
      SlicesCover(s, n - 1);
      var p := Cutting(s, n - 1);
      if IsCut(s, n - 1) {
        ConcatAppend(p.slices, [s[p.start..n]]);
        assert Concat([s[p.start..n]]) == s[p.start..n];
        assert s[..p.start] + s[p.start..n] == s[..n];
      }
    }
  }

  /** The raw slices are the source, cut in pieces. */
  lemma RawSlicesConcatenate(s: string)
    ensures Concat(RawSlices(s)) == s
  {
    var p := Cutting(s, |s|);
    SlicesCover(s, |s|);
    ConcatAppend(p.slices, [s[p.start..]]);
    assert Concat([s[p.start..]]) == s[p.start..];
    assert s[..p.start] + s[p.start..] == s;
  }

  /** The text without its whitespace. */
  function Ink(s: string): string {
    if s == "" then "" else (if IsSpace(s[0]) then "" else [s[0]]) + Ink(s[1..])
  }

  lemma {:induction false} InkAppend(a: string, b: string)
    ensures Ink(a + b) == Ink(a) + Ink(b)
  {
    if a == "" {
      assert a + b == b;
    } else {
      assert (a + b)[1..] == a[1..] + b;
      InkAppend(a[1..], b);
    }
  }

  lemma {:induction false} TrimEndKeepsInk(s: string)
    ensures Ink(TrimEnd(s)) == Ink(s)
  {
    if |s| > 0 && IsSpace(s[|s| - 1]) {
      TrimEndKeepsInk(s[..|s| - 1]);
      InkAppend(s[..|s| - 1], [s[|s| - 1]]);
      assert s == s[..|s| - 1] + [s[|s| - 1]];
    }
  }

  lemma {:induction false} TrimKeepsInk(s: string)
    ensures Ink(Trim(s)) == Ink(s)
  {
    if |s| > 0 && IsSpace(s[0]) {
      TrimKeepsInk(s[1..]);
    } else {
      TrimEndKeepsInk(s);
    }
  }

  lemma {:induction false} KeptKeepsInk(slices: seq<string>)
    ensures Ink(Concat(Kept(slices))) == Ink(Concat(slices))
  {
    if slices != [] {
      TrimKeepsInk(slices[0]);
      KeptKeepsInk(slices[1..]);
      InkAppend(slices[0], Concat(slices[1..]));
      var head := Trim(slices[0]);
      InkAppend(head, Concat(Kept(slices[1..])));
      if head == "" {
        assert Kept(slices) == Kept(slices[1..]);
      } else {
        assert Kept(slices)[0] == head && Kept(slices)[1..] == Kept(slices[1..]);
      }
    }
  }

  /** Only whitespace is lost: the statements carry every other character of the source, in order. */
  lemma SplitLosesOnlyWhitespace(s: string)
    ensures Ink(Concat(SplitStatements(s))) == Ink(s)
  {
    KeptKeepsInk(RawSlices(s));
    RawSlicesConcatenate(s);
  }

  // ----- Boundaries

  /** A slice without a cut before its last character. */
  predicate Unbroken(r: string) {
    forall i: nat :: i + 1 < |r| ==> !IsCut(r, i)
  }

  /** Reading from a position the reader reaches in the top context is like reading afresh. */
  lemma {:induction false} ReadAfresh(s: string, b: nat, e: nat, k: nat)
    requires b + k <= e <= |s| && ContextAt(s, b) == Top
    ensures ContextAt(s[b..e], k) == ContextAt(s, b + k)
  {
    if k > 0 {
      ReadAfresh(s, b, e, k - 1);
    }
  }

  lemma ReadAfreshCuts(s: string, b: nat, e: nat)
    requires b <= e <= |s| && ContextAt(s, b) == Top
    ensures forall k: nat :: k < e - b ==> (IsCut(s[b..e], k) <==> IsCut(s, b + k))
  {
    forall k: nat | k < e - b
      ensures IsCut(s[b..e], k) <==> IsCut(s, b + k)
    {
      ReadAfresh(s, b, e, k);
    }
  }

  /** Where each slice ends in the text that the slices make up. */
  function Ends(slices: seq<string>): seq<nat> {
    if slices == [] then [] else Ends(slices[..|slices| - 1]) + [|Concat(slices)|]
  }

  lemma EndsAppend(slices: seq<string>, r: string)
    ensures Ends(slices + [r]) == Ends(slices) + [|Concat(slices)| + |r|]
  {
    var all := slices + [r];
    assert all[..|all| - 1] == slices;
    assert |Concat(all)| == |Concat(slices)| + |r| by {
      ConcatAppend(slices, [r]);
      assert Concat([r]) == r + Concat([]);
    }
  }

  lemma {:induction false} CuttingEnds(s: string, n: nat)
    requires n <= |s|
    ensures forall e :: e in Ends(Cutting(s, n).slices) <==> 0 < e <= n && IsCut(s, e - 1)
  {
    if n > 0 {
      CuttingEnds(s, n - 1);
      var p := Cutting(s, n - 1);
      if IsCut(s, n - 1) {
        assert |Concat(p.slices)| == p.start by { SlicesCover(s, n - 1); }
        EndsAppend(p.slices, s[p.start..n]);
      }
    }
  }

  /** The raw slices end exactly behind the top-level semicolons, and at the end of the source. */
  lemma SlicesEndAtCuts(s: string)
    ensures forall e :: e in Ends(RawSlices(s)) <==> e == |s| || (0 < e <= |s| && IsCut(s, e - 1))
  {
    var p := Cutting(s, |s|);
    CuttingEnds(s, |s|);
    assert |Concat(p.slices)| == p.start by { SlicesCover(s, |s|); }
    EndsAppend(p.slices, s[p.start..]);
  }

  // ----- Stability

  lemma {:induction false} OpenSliceStartsAtTop(s: string, n: nat)
    requires n <= |s|
    ensures var b := Cutting(s, n).start;
            ContextAt(s, b) == Top && forall i: nat :: b <= i < n ==> !IsCut(s, i)
  {
    if n > 0 {
      OpenSliceStartsAtTop(s, n - 1);
    }
  }

  lemma {:induction false} CutSlicesUnbroken(s: string, n: nat)
    requires n <= |s|
    ensures forall r :: r in Cutting(s, n).slices ==> Unbroken(r)
  {
    if n > 0 {
      CutSlicesUnbroken(s, n - 1);
      var b := Cutting(s, n - 1).start;
      OpenSliceStartsAtTop(s, n - 1);
      ReadAfreshCuts(s, b, n);
    }
  }

  lemma RawSlicesUnbroken(s: string)
    ensures forall r :: r in RawSlices(s) ==> Unbroken(r)
  {
    var b := Cutting(s, |s|).start;
    CutSlicesUnbroken(s, |s|);
    OpenSliceStartsAtTop(s, |s|);
    ReadAfreshCuts(s, b, |s|);
    assert s[b..] == s[b..|s|];
  }

  lemma PrefixUnbroken(r: string, t: string)
    requires Unbroken(r) && t <= r
    ensures Unbroken(t)
  {
    forall i: nat | i + 1 < |t|
      ensures !IsCut(t, i)
    {
      ReadAfresh(r, 0, |t|, i);
      assert r[0..|t|] == t;
      assert !IsCut(r, i);
    }
  }

  /** Trimming does not uncover a cut: leading whitespace leaves the reader in the top context. */
  lemma {:induction false} TrimUnbroken(r: string)
    requires Unbroken(r)
    ensures Unbroken(Trim(r))
  {
    if |r| > 0 && IsSpace(r[0]) {
      assert ContextAt(r, 1) == Enter(r[0]) == Top;
      ReadAfreshCuts(r, 1, |r|);
      assert r[1..|r|] == r[1..];
      forall i: nat | i + 1 < |r[1..]|
        ensures !IsCut(r[1..], i)
      {
        assert !IsCut(r, 1 + i);
      }
      TrimUnbroken(r[1..]);
    } else {
      TrimEndKeeps(r);
      PrefixUnbroken(r, TrimEnd(r));
    }
  }

  lemma TrimmedStays(t: string)
    requires Trimmed(t)
    ensures Trim(t) == t
  {}

  /** A trimmed statement without an inner cut is its own and only statement. */
  lemma UnbrokenSplitsAlone(t: string)
    requires t != "" && Trimmed(t) && Unbroken(t)
    ensures SplitStatements(t) == [t]
  {
    var n := |t| - 1;
    NoCutBetween(t, 0, n);
    TrimmedStays(t);
    assert t[0..|t|] == t && t[|t|..] == "";
    KeptOne(t);
    KeptOne("");
    assert Cutting(t, n) == Progress([], 0);
    if IsCut(t, n) {
      assert RawSlices(t) == [t] + [""];
      KeptAppend([t], [""]);
    } else {
      assert RawSlices(t) == [t];
    }
  }

  lemma {:induction false} KeptComesFrom(slices: seq<string>, t: string)
    requires t in Kept(slices)
    ensures t != "" && exists r :: r in slices && t == Trim(r)
  {
    if t in Kept(slices[1..]) {
      KeptComesFrom(slices[1..], t);
    }
  }

  /** Re-splitting any returned statement yields that single statement. */
  lemma ResplitIsSingleton(s: string, t: string)
    requires t in SplitStatements(s)
    ensures SplitStatements(t) == [t]
  {
    KeptComesFrom(RawSlices(s), t);
    var r :| r in RawSlices(s) && t == Trim(r);
    RawSlicesUnbroken(s);
    TrimUnbroken(r);
    TrimIsTrimmed(r);
    UnbrokenSplitsAlone(t);
  }

  /** `migration.sql.flatMap(splitSqlStatements)`, as `migratePglite` applies it. */
  function SplitAll(sources: seq<string>): seq<string> {
    if sources == [] then [] else SplitStatements(sources[0]) + SplitAll(sources[1..])
  }

  lemma {:induction false} SplitAllKeepsStatements(ts: seq<string>)
    requires forall t :: t in ts ==> SplitStatements(t) == [t]
    ensures SplitAll(ts) == ts
  {
    if ts != [] {
      assert ts[0] in ts;
      SplitAllKeepsStatements(ts[1..]);
      assert [ts[0]] + ts[1..] == ts;
    }
  }

  lemma {:induction false} SplitAllYieldsStatements(sources: seq<string>, t: string)
    requires t in SplitAll(sources)
    ensures SplitStatements(t) == [t]
  {
    if t in SplitStatements(sources[0]) {
      ResplitIsSingleton(sources[0], t);
    } else {
      SplitAllYieldsStatements(sources[1..], t);
    }
  }

  /** A migration that has been split once is not changed by a second pass. */
  lemma SplitAllIdempotent(sources: seq<string>)
    ensures SplitAll(SplitAll(sources)) == SplitAll(sources)
  {
    forall t | t in SplitAll(sources)
      ensures SplitStatements(t) == [t]
    {
      SplitAllYieldsStatements(sources, t);
    }
    SplitAllKeepsStatements(SplitAll(sources));
  }

  // ----- Composition

  lemma {:induction false} CuttingPrefix(s: string, n: nat, k: nat)
    requires k <= n <= |s|
    ensures ContextAt(s[..n], k) == ContextAt(s, k)
    ensures Cutting(s[..n], k) == Cutting(s, k)
  {
    if k > 0 {
      CuttingPrefix(s, n, k - 1);
      var p := Cutting(s, k - 1);
      assert s[..n][p.start..k] == s[p.start..k];
    }
  }

  lemma {:induction false} CuttingSuffix(s: string, n: nat, k: nat)
    requires n + k <= |s| && ContextAt(s, n) == Top && Cutting(s, n).start == n
    ensures ContextAt(s[n..], k) == ContextAt(s, n + k)
    ensures Cutting(s, n + k)
            == Progress(Cutting(s, n).slices + Cutting(s[n..], k).slices, n + Cutting(s[n..], k).start)
  {
    if k > 0 {
      CuttingSuffix(s, n, k - 1);
      var p := Cutting(s[n..], k - 1);
      assert s[n..][p.start..k] == s[n + p.start..n + k];
    }
  }

  lemma SplitFromCutting(s: string, p: Progress)
    requires Cutting(s, |s|) == p
    ensures SplitStatements(s) == Kept(p.slices) + Kept([s[p.start..]])
  {
    KeptAppend(p.slices, [s[p.start..]]);
  }

  lemma SplitFront(s: string, n: nat)
    requires n <= |s| && Cutting(s, n).start == n
    ensures SplitStatements(s[..n]) == Kept(Cutting(s, n).slices)
  {
    CuttingPrefix(s, n, n);
    SplitFromCutting(s[..n], Cutting(s, n));
    assert s[..n][n..] == "";
    KeptOne("");
  }

  lemma SplitBack(s: string, n: nat)
    requires n <= |s|
    ensures var q := Cutting(s[n..], |s| - n);
            SplitStatements(s[n..]) == Kept(q.slices) + Kept([s[n + q.start..]])
  {
    var q := Cutting(s[n..], |s| - n);
    SplitFromCutting(s[n..], q);
    assert s[n..][q.start..] == s[n + q.start..];
  }

  lemma KeptWhole(p: Progress, q: Progress, last: string)
    ensures Kept(p.slices + q.slices) + Kept([last]) == Kept(p.slices) + (Kept(q.slices) + Kept([last]))
  {
    KeptAppend(p.slices, q.slices);
  }

  lemma SplitWhole(s: string, n: nat)
    requires n <= |s| && ContextAt(s, n) == Top && Cutting(s, n).start == n
    ensures var p, q := Cutting(s, n), Cutting(s[n..], |s| - n);
            SplitStatements(s) == Kept(p.slices) + (Kept(q.slices) + Kept([s[n + q.start..]]))
  {
    var k := |s| - n;
    var p, q := Cutting(s, n), Cutting(s[n..], k);
    CuttingSuffix(s, n, k);
    assert n + k == |s|;
    SplitFromCutting(s, Progress(p.slices + q.slices, n + q.start));
    KeptWhole(p, q, s[n + q.start..]);
  }

  /** Where a slice starts the source can be split in two parts, each on its own. */
  lemma SplitBehindCut(s: string, n: nat)
    requires n <= |s| && ContextAt(s, n) == Top && Cutting(s, n).start == n
    ensures SplitStatements(s) == SplitStatements(s[..n]) + SplitStatements(s[n..])
  {
    SplitFront(s, n);
    SplitBack(s, n);
    SplitWhole(s, n);
  }

  lemma CutEndsSlice(a: string, b: string)
    requires |a| > 0 && IsCut(a, |a| - 1)
    ensures ContextAt(a + b, |a|) == Top && Cutting(a + b, |a|).start == |a|
  {
    assert (a + b)[..|a|] == a;
    CuttingPrefix(a + b, |a|, |a|);
  }

  /** Splitting distributes over concatenation behind a top-level semicolon. */
  lemma SplitConcatenation(a: string, b: string)
    requires |a| > 0 && IsCut(a, |a| - 1)
    ensures SplitStatements(a + b) == SplitStatements(a) + SplitStatements(b)
  {
    CutEndsSlice(a, b);
    SplitBehindCut(a + b, |a|);
    assert (a + b)[..|a|] == a && (a + b)[|a|..] == b;
  }
}
