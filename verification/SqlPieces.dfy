/** What a statement is made of: plain characters, quoted texts and comments, and a semicolon behind them. */
module SqlPieces {
  import opened Text
  import opened SqlSplitter
  import opened SqlSplitterLaws

  datatype Piece =
    | Plain(c: char)
    | Lone(mark: char, c: char)
    | InSingle(text: string)
    | InDouble(text: string)
    | InDollars(text: string)
    | LineComment(text: string)
    | BlockComment(text: string)
  {
    /** Plain characters begin no token, and a lone dash, slash or dollar sign stands in front of one; a quoted
        text or comment does not hold what ends it. */
    ghost predicate Valid() {
      match this
      case Plain(c) => IsPlain(c)
      case Lone(mark, c) => (mark in "-$" || (mark == '/' && c != '*')) && IsPlain(c)
      case InSingle(text) => IsEscaped(text)
      case InDouble(text) => '"' !in text
      case InDollars(text) => Lacks(text, "$$") && (text != "" ==> text[|text| - 1] != '$')
      case LineComment(text) => '\n' !in text
      case BlockComment(text) => Lacks(text, "*/")
    }

    function Text(): string {
      match this
      case Plain(c) => [c]
      case Lone(mark, c) => [mark, c]
      case InSingle(text) => "'" + text + "'"
      case InDouble(text) => "\"" + text + "\""
      case InDollars(text) => "$$" + text + "$$"
      case LineComment(text) => "--" + text + "\n"
      case BlockComment(text) => "/*" + text + "*/"
    }
  }

  predicate IsPlain(c: char) {
    c !in "-/$'\";"
  }

  /** Every quote in the text stands behind a backslash, and every backslash in front of a character. */
  predicate IsEscaped(text: string) {
    || text == ""
    || (text[0] != '\\' && text[0] != '\'' && IsEscaped(text[1..]))
    || (|text| >= 2 && text[0] == '\\' && IsEscaped(text[2..]))
  }

  ghost predicate Lacks(text: string, token: string) {
    forall i: nat :: !OccursAt(text, token, i)
  }

  ghost predicate AllValid(pieces: seq<Piece>) {
    forall i :: 0 <= i < |pieces| ==> pieces[i].Valid()
  }

  function Texts(pieces: seq<Piece>): string {
    if pieces == [] then "" else Texts(pieces[..|pieces| - 1]) + pieces[|pieces| - 1].Text()
  }

  // ----- Reading one piece

  /** Where a piece may begin: outside, with no half of a token in front. */
  predicate Rests(c: Context) {
    c.Top? || c.ClosedSingle? || c.ClosedDouble?
  }

  /** From `i` to `j` the reader makes no cut and comes to rest. */
  predicate Passes(s: string, i: nat, j: nat) {
    && i <= j <= |s|
    && Cutting(s, j) == Cutting(s, i)
    && Rests(ContextAt(s, j))
  }

  /** A text stands at a position. */
  predicate StandsAt(s: string, i: nat, text: string) {
    i + |text| <= |s| && forall k :: 0 <= k < |text| ==> s[i + k] == text[k]
  }

  lemma ReadPlain(s: string, i: nat, c: char)
    requires StandsAt(s, i, [c]) && Rests(ContextAt(s, i)) && IsPlain(c)
    ensures Passes(s, i, i + 1)
  {
    assert s[i + 0] == [c][0];
  }

  lemma ReadLone(s: string, i: nat, mark: char, c: char)
    requires StandsAt(s, i, [mark, c]) && Rests(ContextAt(s, i)) && Lone(mark, c).Valid()
    ensures Passes(s, i, i + 2)
  {
    assert s[i + 0] == [mark, c][0] && s[i + 1] == [mark, c][1];
    assert ContextAt(s, i + 2) == Step(ContextAt(s, i + 1), s[i + 1]);
  }

  lemma {:induction false} SingleRuns(s: string, i: nat, text: string)
    requires StandsAt(s, i, text) && ContextAt(s, i) == Single && IsEscaped(text)
    ensures ContextAt(s, i + |text|) == Single && Cutting(s, i + |text|) == Cutting(s, i)
    decreases |text|
  {
    if text != "" {
      assert s[i] == text[0];
      if text[0] == '\\' {
        assert ContextAt(s, i + 2) == Step(ContextAt(s, i + 1), s[i + 1]);
        assert Cutting(s, i + 2) == Cutting(s, i + 1) == Cutting(s, i);
        SingleRuns(s, i + 2, text[2..]);
      } else {
        assert ContextAt(s, i + 1) == Single;
        SingleRuns(s, i + 1, text[1..]);
      }
    }
  }

  lemma {:induction false} DoubleRuns(s: string, i: nat, j: nat)
    requires i <= j <= |s| && ContextAt(s, i) == Double && forall k :: i <= k < j ==> s[k] != '"'
    ensures ContextAt(s, j) == Double && Cutting(s, j) == Cutting(s, i)
  {
    if i < j {
      DoubleRuns(s, i, j - 1);
    }
  }

  lemma {:induction false} BodyRuns(s: string, i: nat, j: nat)
    requires i <= j <= |s| && ContextAt(s, i) == Body
    requires forall k :: i <= k && k + 1 < j ==> !(s[k] == '$' && s[k + 1] == '$')
    ensures ContextAt(s, j) == if i < j && s[j - 1] == '$' then BodyDollar else Body
    ensures Cutting(s, j) == Cutting(s, i)
  {
    if i < j {
      BodyRuns(s, i, j - 1);
    }
  }

  lemma OccursIs(s: string, a: char, b: char, i: nat)
    ensures OccursAt(s, [a, b], i) <==> i + 1 < |s| && s[i] == a && s[i + 1] == b
  {
    if i + 1 < |s| {
      assert s[i..i + 2] == [s[i], s[i + 1]];
    }
  }

  lemma Opened(s: string, i: nat)
    requires i < |s| && Rests(ContextAt(s, i))
    ensures Step(ContextAt(s, i), s[i]) == Enter(s[i]) || s[i] in "'\""
    ensures s[i] == '\'' ==> ContextAt(s, i + 1) == Single
    ensures s[i] == '"' ==> ContextAt(s, i + 1) == Double
    ensures s[i] != ';' ==> Cutting(s, i + 1) == Cutting(s, i)
    ensures i + 1 < |s| && s[i + 1] != ';' ==> Cutting(s, i + 2) == Cutting(s, i + 1)
    ensures i + 1 < |s| && s[i] == '$' == s[i + 1] ==> ContextAt(s, i + 2) == Body
    ensures i + 1 < |s| && s[i] == '-' == s[i + 1] ==> ContextAt(s, i + 2) == Line
    ensures i + 1 < |s| && s[i] == '/' && s[i + 1] == '*' ==> ContextAt(s, i + 2) == Block
  {
    if i + 1 < |s| {
      assert ContextAt(s, i + 2) == Step(ContextAt(s, i + 1), s[i + 1]);
    }
  }

  lemma ReadSingle(s: string, i: nat, text: string)
    requires IsEscaped(text) && StandsAt(s, i, "'" + text + "'") && Rests(ContextAt(s, i))
    ensures Passes(s, i, i + |text| + 2)
  {
    var whole := "'" + text + "'";
    assert s[i] == whole[0] && s[i + |text| + 1] == whole[|text| + 1];
    forall k | 0 <= k < |text|
      ensures s[i + 1 + k] == text[k]
    {
      assert s[i + (k + 1)] == whole[k + 1];
    }
    Opened(s, i);
    SingleRuns(s, i + 1, text);
  }

  lemma ReadDouble(s: string, i: nat, text: string)
    requires '"' !in text && StandsAt(s, i, "\"" + text + "\"") && Rests(ContextAt(s, i))
    ensures Passes(s, i, i + |text| + 2)
  {
    var whole := "\"" + text + "\"";
    assert s[i] == whole[0] && s[i + |text| + 1] == whole[|text| + 1];
    forall k | i + 1 <= k < i + 1 + |text|
      ensures s[k] != '"'
    {
      assert s[i + (k - i)] == whole[k - i] == text[k - i - 1] && text[k - i - 1] in text;
    }
    Opened(s, i);
    DoubleRuns(s, i + 1, i + 1 + |text|);
  }

  lemma MiddleStands(s: string, i: nat, open: string, text: string, close: string)
    requires StandsAt(s, i, open + text + close)
    ensures StandsAt(s, i, open) && StandsAt(s, i + |open|, text) && StandsAt(s, i + |open| + |text|, close)
  {
    var whole := open + text + close;
    forall k | 0 <= k < |open|
      ensures s[i + k] == open[k]
    {
      assert s[i + k] == whole[k];
    }
    forall k | 0 <= k < |text|
      ensures s[i + |open| + k] == text[k]
    {
      assert s[i + (|open| + k)] == whole[|open| + k];
    }
    forall k | 0 <= k < |close|
      ensures s[i + |open| + |text| + k] == close[k]
    {
      assert s[i + (|open| + |text| + k)] == whole[|open| + |text| + k];
    }
  }

  lemma DollarsInside(s: string, from: nat, text: string)
    requires Lacks(text, "$$") && StandsAt(s, from, text)
    ensures forall k :: from <= k && k + 1 < from + |text| ==> !(s[k] == '$' && s[k + 1] == '$')
  {
    forall k | from <= k && k + 1 < from + |text|
      ensures !(s[k] == '$' && s[k + 1] == '$')
    {
      OccursIs(text, '$', '$', k - from);
      assert s[from + (k - from)] == text[k - from] && s[from + (k - from + 1)] == text[k - from + 1];
    }
  }

  lemma ReadDollars(s: string, i: nat, text: string)
    requires InDollars(text).Valid() && StandsAt(s, i, "$$" + text + "$$") && Rests(ContextAt(s, i))
    ensures Passes(s, i, i + |text| + 4)
  {
    var end := i + 2 + |text|;
    MiddleStands(s, i, "$$", text, "$$");
    assert s[i + 0] == "$$"[0] && s[i + 1] == "$$"[1] && s[end + 0] == "$$"[0] && s[end + 1] == "$$"[1];
    DollarsInside(s, i + 2, text);
    Opened(s, i);
    BodyRuns(s, i + 2, end);
    assert text != "" ==> s[i + 2 + (|text| - 1)] == text[|text| - 1];
    CloseBody(s, end);
  }

  lemma CloseBody(s: string, end: nat)
    requires end + 2 <= |s| && ContextAt(s, end) == Body && s[end] == '$' == s[end + 1]
    ensures ContextAt(s, end + 2) == Top && Cutting(s, end + 2) == Cutting(s, end)
  {
    assert ContextAt(s, end + 1) == BodyDollar;
  }

  lemma ReadLine(s: string, i: nat, text: string)
    requires '\n' !in text && StandsAt(s, i, "--" + text + "\n") && Rests(ContextAt(s, i))
    ensures Passes(s, i, i + |text| + 3)
  {
    var whole := "--" + text + "\n";
    var end := i + 2 + |text|;
    assert s[i] == whole[0] && s[i + 1] == whole[1] && s[end] == whole[|text| + 2];
    forall k | i + 2 <= k < end
      ensures !OccursAt(s, "\n", k)
    {
      assert s[i + (k - i)] == whole[k - i] == text[k - i - 2] && text[k - i - 2] in text;
      assert s[k..k + 1] == [s[k]];
    }
    Opened(s, i);
    LineRuns(s, i + 2, end);
  }

  lemma ReadBlock(s: string, i: nat, text: string)
    requires Lacks(text, "*/") && StandsAt(s, i, "/*" + text + "*/") && Rests(ContextAt(s, i))
    ensures Passes(s, i, i + |text| + 4)
  {
    var whole := "/*" + text + "*/";
    var end := i + 2 + |text|;
    assert s[i] == whole[0] && s[i + 1] == whole[1];
    assert s[end] == whole[|text| + 2] && s[end + 1] == whole[|text| + 3];
    forall k | 0 <= k < |text|
      ensures s[i + 2 + k] == text[k]
    {
      assert s[i + (k + 2)] == whole[k + 2];
    }
    forall k | i + 2 <= k < end
      ensures !OccursAt(s, "*/", k)
    {
      OccursIs(s, '*', '/', k);
      OccursIs(text, '*', '/', k - i - 2);
      if k + 1 < end {
        assert s[i + 2 + (k - i - 2)] == text[k - i - 2] && s[i + 2 + (k - i - 1)] == text[k - i - 1];
      }
    }
    Opened(s, i);
    BlockRuns(s, i + 2, end);
    OccursIs(s, '*', '/', end);
    CloseBlock(s, i + 2, end);
  }

  lemma ReadPiece(s: string, i: nat, piece: Piece)
    requires piece.Valid() && StandsAt(s, i, piece.Text()) && Rests(ContextAt(s, i))
    ensures Passes(s, i, i + |piece.Text()|)
  {
    match piece
    case Plain(c) => ReadPlain(s, i, c);
    case Lone(mark, c) => ReadLone(s, i, mark, c);
    case InSingle(text) => ReadSingle(s, i, text);
    case InDouble(text) => ReadDouble(s, i, text);
    case InDollars(text) => ReadDollars(s, i, text);
    case LineComment(text) => ReadLine(s, i, text);
    case BlockComment(text) => ReadBlock(s, i, text);
  }

  // ----- Statements

  lemma PrefixStands(s: string, front: string, last: string)
    requires front + last <= s
    ensures front <= s && StandsAt(s, |front|, last)
  {
    forall k | 0 <= k < |last|
      ensures s[|front| + k] == last[k]
    {
      assert s[|front| + k] == (front + last)[|front| + k];
    }
    assert front == s[..|front|];
  }

  lemma ReadNext(s: string, front: string, piece: Piece, whole: string)
    requires piece.Valid() && whole == front + piece.Text() && whole <= s && Passes(s, 0, |front|)
    ensures Passes(s, 0, |whole|)
  {
    PrefixStands(s, front, piece.Text());
    ReadPiece(s, |front|, piece);
  }

  lemma FrontStands(s: string, front: string, last: string, whole: string)
    requires whole == front + last && whole <= s
    ensures front <= s
  {
    PrefixStands(s, front, last);
  }

  lemma {:induction false} ReadPieces(s: string, pieces: seq<Piece>, texts: string)
    requires AllValid(pieces) && texts == Texts(pieces) && texts <= s
    ensures Passes(s, 0, |texts|)
  {
    if pieces != [] {
      var n := |pieces| - 1;
      var front := Texts(pieces[..n]);
      FrontStands(s, front, pieces[n].Text(), texts);
      ReadPieces(s, pieces[..n], front);
      ReadNext(s, front, pieces[n], texts);
    }
  }

  lemma HoldsInk(text: string)
    ensures Trim(text + ";") != ""
  {
    var s := text + ";";
    TrimKeepsInk(s);
    InkAppend(text, ";");
    assert Ink(";") == ";" by { assert Ink(""[..]) == ""; }
  }

  lemma OneStatement(text: string)
    requires Passes(text + ";", 0, |text|)
    ensures IsCut(text + ";", |text|)
    ensures SplitStatements(text + ";") == [Trim(text + ";")]
  {
    var s := text + ";";
    assert s[0..|s|] == s;
    assert Cutting(s, |s|) == Progress([] + [s], |s|);
    HoldsInk(text);
    SplitFromCutting(s, Progress([s], |s|));
    KeptOne(s);
    KeptOne(s[|s|..]);
  }

  /** A semicolon behind plain characters, quoted texts and comments ends a statement, and none inside them
      does. */
  lemma PiecesEndInSemicolon(pieces: seq<Piece>, rest: string)
    requires AllValid(pieces)
    ensures SplitStatements(Texts(pieces) + ";" + rest)
            == [Trim(Texts(pieces) + ";")] + SplitStatements(rest)
  {
    var text := Texts(pieces);
    ReadPieces(text + ";", pieces, text);
    OneStatement(text);
    SplitConcatenation(text + ";", rest);
  }

  /** Without a semicolon behind them they are one statement, unless they are blank. */
  lemma PiecesAlone(pieces: seq<Piece>)
    requires AllValid(pieces)
    ensures var text := Texts(pieces);
            SplitStatements(text) == if Trim(text) == "" then [] else [Trim(text)]
  {
    var text := Texts(pieces);
    ReadPieces(text, pieces, text);
    SplitFromCutting(text, Progress([], 0));
    assert text[0..] == text;
    KeptOne(text);
  }

  // ----- A quote or comment that is not closed

  /** The rest does not hold what ends a quoted text or comment that opens so. */
  ghost predicate StaysOpen(opening: string, rest: string) {
    || (opening == "'" && IsEscaped(rest))
    || (opening == "\"" && '"' !in rest)
    || (opening == "$$" && Lacks(rest, "$$"))
    || (opening == "--" && '\n' !in rest)
    || (opening == "/*" && Lacks(rest, "*/"))
  }

  lemma BlockInside(s: string, from: nat, text: string)
    requires Lacks(text, "*/") && StandsAt(s, from, text) && from + |text| == |s|
    ensures forall k :: from <= k < |s| ==> !OccursAt(s, "*/", k)
  {
    forall k | from <= k < |s|
      ensures !OccursAt(s, "*/", k)
    {
      OccursIs(s, '*', '/', k);
      OccursIs(text, '*', '/', k - from);
      if k + 1 < |s| {
        assert s[from + (k - from)] == text[k - from] && s[from + (k - from + 1)] == text[k - from + 1];
      }
    }
  }

  lemma CharactersInside(s: string, from: nat, text: string, c: char)
    requires c !in text && StandsAt(s, from, text)
    ensures forall k :: from <= k < from + |text| ==> s[k] != c
  {
    forall k | from <= k < from + |text|
      ensures s[k] != c
    {
      assert s[from + (k - from)] == text[k - from] && text[k - from] in text;
    }
  }

  lemma LineInside(s: string, from: nat, text: string)
    requires '\n' !in text && StandsAt(s, from, text) && from + |text| == |s|
    ensures forall k :: from <= k < |s| ==> !OccursAt(s, "\n", k)
  {
    CharactersInside(s, from, text, '\n');
    forall k | from <= k < |s|
      ensures !OccursAt(s, "\n", k)
    {
      assert s[k..k + 1] == [s[k]];
    }
  }

  lemma ReadUnclosed(s: string, i: nat, opening: string, rest: string)
    requires StaysOpen(opening, rest) && i + |opening| + |rest| == |s|
    requires StandsAt(s, i, opening) && StandsAt(s, i + |opening|, rest) && Rests(ContextAt(s, i))
    ensures Cutting(s, |s|) == Cutting(s, i)
  {
    var from := i + |opening|;
    assert s[i + 0] == opening[0] && (|opening| == 2 ==> s[i + 1] == opening[1]);
    Opened(s, i);
    match opening[0]
    case '\'' => SingleRuns(s, from, rest);
    case '"' =>
      CharactersInside(s, from, rest, '"');
      DoubleRuns(s, from, |s|);
    case '$' =>
      DollarsInside(s, from, rest);
      BodyRuns(s, from, |s|);
    case '-' =>
      LineInside(s, from, rest);
      LineRuns(s, from, |s|);
    case '/' =>
      BlockInside(s, from, rest);
      BlockRuns(s, from, |s|);
  }

  /** A quote or comment that is not closed takes the rest of the text, semicolons included. */
  lemma UnclosedTakesTheRest(pieces: seq<Piece>, opening: string, rest: string)
    requires AllValid(pieces) && StaysOpen(opening, rest)
    ensures var text := Texts(pieces) + opening + rest;
            SplitStatements(text) == if Trim(text) == "" then [] else [Trim(text)]
  {
    var front := Texts(pieces);
    var text := front + opening + rest;
    ReadPieces(text, pieces, front);
    PrefixStands(text, front, opening);
    PrefixStands(text, front + opening, rest);
    ReadUnclosed(text, |front|, opening, rest);
    SplitFromCutting(text, Progress([], 0));
    assert text[0..] == text;
    KeptOne(text);
  }
}
