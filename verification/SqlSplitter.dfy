/** The statement splitter that runs over legacy multi-command migrations before they reach PGlite. */
module SqlSplitter {
  import opened Text

  /** What a reader that takes one character at a time remembers: the context it is in, and whether
      the character before may be the first half of a two-character token. */
  datatype Context =
    | Top | Dash | Slash | Dollar | ClosedSingle | ClosedDouble
    | Single | SingleEscape | Double | Body | BodyDollar | Line | Block | BlockStar

  /** Outside every quote and comment, as far as the characters read so far tell. */
  predicate Outside(c: Context) {
    c.Top? || c.Dash? || c.Slash? || c.Dollar? || c.ClosedSingle? || c.ClosedDouble?
  }

  function Enter(ch: char): Context {
    match ch
    case '-' => Dash
    case '/' => Slash
    case '$' => Dollar
    case '\'' => Single
    case '"' => Double
    case _ => Top
  }

  /** One character of the reference reader. */
  function Step(c: Context, ch: char): Context {
    match c
    case Top => Enter(ch)
    case Dash => if ch == '-' then Line else Enter(ch)
    case Slash => if ch == '*' then Block else Enter(ch)
    case Dollar => if ch == '$' then Body else Enter(ch)
    case ClosedSingle => if ch == '\'' then Single else Enter(ch)
    case ClosedDouble => if ch == '"' then Double else Enter(ch)
    case Single => if ch == '\\' then SingleEscape else if ch == '\'' then ClosedSingle else Single
    case SingleEscape => Single
    case Double => if ch == '"' then ClosedDouble else Double
    case Body => if ch == '$' then BodyDollar else Body
    case BodyDollar => if ch == '$' then Top else Body
    case Line => if ch == '\n' then Top else Line
    case Block => if ch == '*' then BlockStar else Block
    case BlockStar => if ch == '/' then Top else if ch == '*' then BlockStar else Block
  }

  function ContextAt(s: string, n: nat): Context
    requires n <= |s|
  {
    if n == 0 then Top else Step(ContextAt(s, n - 1), s[n - 1])
  }

  /** Position `i` holds a semicolon outside every quote and comment. */
  predicate IsCut(s: string, i: nat)
    requires i < |s|
  {
    s[i] == ';' && Outside(ContextAt(s, i))
  }

  /** The slices completed by the cuts before position `n`, and where the open slice starts. */
  datatype Progress = Progress(slices: seq<string>, start: nat)

  function Cutting(s: string, n: nat): (p: Progress)
    requires n <= |s|
    ensures p.start <= n
  {
    if n == 0 then Progress([], 0)
    else
      var p := Cutting(s, n - 1);
      if IsCut(s, n - 1) then Progress(p.slices + [s[p.start..n]], n) else p
  }

  /** The source cut behind every top-level semicolon; the last slice is what remains. */
  function RawSlices(s: string): seq<string> {
    var p := Cutting(s, |s|);
    p.slices + [s[p.start..]]
  }

  /** The non-blank slices, without the whitespace around them. */
  function Kept(slices: seq<string>): seq<string> {
    if slices == [] then []
    else (if Trim(slices[0]) == "" then [] else [Trim(slices[0])]) + Kept(slices[1..])
  }

  function SplitStatements(s: string): seq<string> {
    Kept(RawSlices(s))
  }

  lemma {:induction false} KeptAppend(a: seq<string>, b: seq<string>)
    ensures Kept(a + b) == Kept(a) + Kept(b)
  {
    if a == [] {
      assert a + b == b;
    } else {
      assert (a + b)[1..] == a[1..] + b;
      KeptAppend(a[1..], b);
    }
  }

  lemma KeptOne(r: string)
    ensures Kept([r]) == if Trim(r) == "" then [] else [Trim(r)]
  {
    assert [r][1..] == [];
  }

  /** What one more cut adds to the statements. */
  lemma KeptCut(s: string, i: nat)
    requires i < |s| && IsCut(s, i)
    ensures var p := Cutting(s, i);
            var statement := Trim(s[p.start..i + 1]);
            && Cutting(s, i + 1).start == i + 1
            && Kept(Cutting(s, i + 1).slices) == Kept(p.slices) + if statement == "" then [] else [statement]
  {
    var p := Cutting(s, i);
    KeptAppend(p.slices, [s[p.start..i + 1]]);
    KeptOne(s[p.start..i + 1]);
  }

  /** The quote the jumping loop is in. */
  datatype Quote = NoQuote | SingleQuote | DoubleQuote | DollarQuote

  /** The reference reader at `i` agrees with the loop: same context, and the character before `i`
      is not the first half of a token that continues at `i`. */
  predicate InStep(s: string, i: nat, quote: Quote)
    requires i <= |s|
  {
    var c := ContextAt(s, i);
    match quote
    case NoQuote => Outside(c) && (i < |s| ==> Step(c, s[i]) == Enter(s[i]))
    case SingleQuote => c == Single
    case DoubleQuote => c == Double
    case DollarQuote => (c == Body || c == BodyDollar) && (i < |s| ==> Step(c, s[i]) == Step(Body, s[i]))
  }

  /** Between `i` and `j` the reader makes no cut. */
  lemma {:induction false} NoCutBetween(s: string, i: nat, j: nat)
    requires i <= j <= |s|
    requires forall k :: i <= k < j ==> !IsCut(s, k)
    ensures Cutting(s, j) == Cutting(s, i)
  {
    if i < j {
      NoCutBetween(s, i, j - 1);
    }
  }

  function Within(s: string, i: nat): (r: nat)
    ensures r <= |s|
  {
    if i < |s| then i else |s|
  }

  /** The loop may jump from `i` to `j` into `quote`: the reference reader makes no cut on the way and
      arrives in the same context. A jump may end one past the end of the source. */
  predicate Jump(s: string, i: nat, j: nat, quote: Quote) {
    && i < j <= |s| + 1
    && Cutting(s, Within(s, j)) == Cutting(s, Within(s, i))
    && (j < |s| ==> InStep(s, j, quote))
  }

  lemma JumpInSingle(s: string, i: nat)
    requires i < |s| && InStep(s, i, SingleQuote)
    ensures s[i] == '\\' ==> Jump(s, i, i + 2, SingleQuote)
    ensures OccursAt(s, "''", i) ==> Jump(s, i, i + 2, SingleQuote)
    ensures s[i] == '\'' && !OccursAt(s, "''", i) ==> Jump(s, i, i + 1, NoQuote)
    ensures s[i] != '\\' && s[i] != '\'' ==> Jump(s, i, i + 1, SingleQuote)
  {
    if i + 1 < |s| {
      assert s[i..i + 2] == [s[i], s[i + 1]];
      assert ContextAt(s, i + 2) == Step(Step(Single, s[i]), s[i + 1]);
    }
  }

  lemma JumpInDouble(s: string, i: nat)
    requires i < |s| && InStep(s, i, DoubleQuote)
    ensures OccursAt(s, "\"\"", i) ==> Jump(s, i, i + 2, DoubleQuote)
    ensures s[i] == '"' && !OccursAt(s, "\"\"", i) ==> Jump(s, i, i + 1, NoQuote)
    ensures s[i] != '"' ==> Jump(s, i, i + 1, DoubleQuote)
  {
    if i + 1 < |s| {
      assert s[i..i + 2] == [s[i], s[i + 1]];
      assert ContextAt(s, i + 2) == Step(Step(Double, s[i]), s[i + 1]);
    }
  }

  lemma JumpInDollar(s: string, i: nat)
    requires i < |s| && InStep(s, i, DollarQuote)
    ensures OccursAt(s, "$$", i) ==> Jump(s, i, i + 2, NoQuote)
    ensures !OccursAt(s, "$$", i) ==> Jump(s, i, i + 1, DollarQuote)
  {
    if i + 1 < |s| {
      assert s[i..i + 2] == [s[i], s[i + 1]];
      assert ContextAt(s, i + 2) == Step(Step(Body, s[i]), s[i + 1]);
    }
  }

  /** Outside, a character that opens no two-character token is read on its own. */
  lemma JumpOutside(s: string, i: nat)
    requires i < |s| && InStep(s, i, NoQuote)
    ensures OccursAt(s, "$$", i) ==> Jump(s, i, i + 2, DollarQuote)
    ensures s[i] == '\'' ==> Jump(s, i, i + 1, SingleQuote)
    ensures s[i] == '"' ==> Jump(s, i, i + 1, DoubleQuote)
    ensures s[i] != '\'' && s[i] != '"' && i + 1 < |s|
            && !OccursAt(s, "--", i) && !OccursAt(s, "/*", i) && !OccursAt(s, "$$", i)
            ==> InStep(s, i + 1, NoQuote)
    ensures IsCut(s, i) <==> s[i] == ';'
  {
    assert ContextAt(s, i + 1) == Enter(s[i]);
    if i + 1 < |s| {
      assert s[i..i + 2] == [s[i], s[i + 1]];
      assert ContextAt(s, i + 2) == Step(Enter(s[i]), s[i + 1]);
    }
  }

  lemma {:induction false} LineRuns(s: string, i: nat, j: nat)
    requires i <= j <= |s| && ContextAt(s, i) == Line
    requires forall k :: i <= k < j ==> !OccursAt(s, "\n", k)
    ensures ContextAt(s, j) == Line
    ensures Cutting(s, j) == Cutting(s, i)
  {
    if i < j {
      LineRuns(s, i, j - 1);
      assert !OccursAt(s, "\n", j - 1);
    }
  }

  /** The terminator of a block comment may not share its star with the opener. */
  lemma {:induction false} BlockRuns(s: string, i: nat, j: nat)
    requires i <= j <= |s| && ContextAt(s, i) == Block
    requires forall k :: i <= k < j ==> !OccursAt(s, "*/", k)
    ensures ContextAt(s, j) == Block || (i < j && ContextAt(s, j) == BlockStar && s[j - 1] == '*')
    ensures Cutting(s, j) == Cutting(s, i)
  {
    if i < j {
      BlockRuns(s, i, j - 1);
      if ContextAt(s, j - 1) == BlockStar {
        assert !OccursAt(s, "*/", j - 2);
        assert s[j - 2..j] == [s[j - 2], s[j - 1]];
      }
    }
  }

  lemma JumpLineComment(s: string, i: nat, end: Option<nat>)
    requires i < |s| && InStep(s, i, NoQuote) && OccursAt(s, "--", i)
    requires end == IndexOf(s, "\n", i + 2)
    ensures Jump(s, i, if end.None? then |s| else end.value + 1, NoQuote)
  {
    assert s[i..i + 2] == [s[i], s[i + 1]];
    assert ContextAt(s, i + 1) == Dash;
    assert ContextAt(s, i + 2) == Line;
    var stop := if end.None? then |s| else end.value;
    LineRuns(s, i + 2, stop);
    if end.Some? {
      assert s[stop] == s[stop..stop + 1][0];
      assert ContextAt(s, stop + 1) == Top;
    }
  }

  lemma JumpBlockComment(s: string, i: nat, end: Option<nat>)
    requires i < |s| && InStep(s, i, NoQuote) && OccursAt(s, "/*", i)
    requires end == IndexOf(s, "*/", i + 2)
    ensures Jump(s, i, if end.None? then |s| else end.value + 2, NoQuote)
  {
    assert s[i..i + 2] == [s[i], s[i + 1]];
    assert ContextAt(s, i + 1) == Slash;
    assert ContextAt(s, i + 2) == Block;
    var stop := if end.None? then |s| else end.value;
    BlockRuns(s, i + 2, stop);
    assert Cutting(s, i + 2) == Cutting(s, i);
    if end.Some? {
      CloseBlock(s, i + 2, stop);
    }
  }

  lemma CloseBlock(s: string, i: nat, stop: nat)
    requires i <= stop <= |s| && OccursAt(s, "*/", stop)
    requires ContextAt(s, stop) == Block || (i < stop && ContextAt(s, stop) == BlockStar && s[stop - 1] == '*')
    ensures ContextAt(s, stop + 2) == Top && Cutting(s, stop + 2) == Cutting(s, stop)
  {
    assert s[stop..stop + 2] == [s[stop], s[stop + 1]];
    assert ContextAt(s, stop + 1) == BlockStar;
  }

  /** The branches of the loop inside a quote. */
  method ReadQuoted(source: string, index: nat, quote: Quote) returns (next: nat, after: Quote)
    requires index < |source| && InStep(source, index, quote) && quote != NoQuote
    ensures Jump(source, index, next, after)
  {
    var character := source[index];
    next, after := index, quote;
    if quote == SingleQuote {
      JumpInSingle(source, index);
      if character == '\\' {
        next := index + 2;
      } else if OccursAt(source, "''", index) {
        next := index + 2;
      } else {
        if character == '\'' { after := NoQuote; }
        next := index + 1;
      }
    } else if quote == DoubleQuote {
      JumpInDouble(source, index);
      if OccursAt(source, "\"\"", index) {
        next := index + 2;
      } else {
        if character == '"' { after := NoQuote; }
        next := index + 1;
      }
    } else {
      JumpInDollar(source, index);
      if OccursAt(source, "$$", index) {
        after := NoQuote;
        next := index + 2;
      } else {
        next := index + 1;
      }
    }
  }

  /** `splitSqlStatements`: the loop that jumps over two-character tokens and whole comments. */
  method SplitSqlStatements(source: string) returns (statements: seq<string>)
    ensures statements == SplitStatements(source)
  {
    statements := [];
    var start: nat := 0;
    var quote := NoQuote;
    var index: nat := 0;
    while index < |source|
      invariant start <= |source| && index <= |source| + 1
      invariant index < |source| ==> InStep(source, index, quote)
      invariant statements == Kept(Cutting(source, Within(source, index)).slices)
      invariant start == Cutting(source, Within(source, index)).start
      decreases |source| + 1 - index
    {
      var character := source[index];
      if quote != NoQuote {
        index, quote := ReadQuoted(source, index, quote);
        continue;
      }
      if OccursAt(source, "--", index) {
        var end := IndexOf(source, "\n", index + 2);
        JumpLineComment(source, index, end);
        index := if end.None? then |source| else end.value + 1;
        continue;
      }
      if OccursAt(source, "/*", index) {
        var end := IndexOf(source, "*/", index + 2);
        JumpBlockComment(source, index, end);
        index := if end.None? then |source| else end.value + 2;
        continue;
      }
      JumpOutside(source, index);
      if character == '\'' {
        quote := SingleQuote;
      } else if character == '"' {
        quote := DoubleQuote;
      } else if OccursAt(source, "$$", index) {
        quote := DollarQuote;
        index := index + 2;
        continue;
      } else if character == ';' {
        var statement := Trim(source[start..index + 1]);
        KeptCut(source, index);
        if statement != "" { statements := statements + [statement]; }
        start := index + 1;
      }
      index := index + 1;
    }
    var trailing := Trim(source[start..]);
    KeptAppend(Cutting(source, |source|).slices, [source[start..]]);
    KeptOne(source[start..]);
    if trailing != "" { statements := statements + [trailing]; }
  }
}
