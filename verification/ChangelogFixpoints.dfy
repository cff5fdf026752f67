/** When a second merge of the same notes changes nothing: exactly when, for every changelog and all notes. */
module ChangelogFixpoints {
  import opened Text
  import opened Changelog
  import opened ChangelogLaws

  // ----- Line ends

  /** No line but the last ends in a carriage return. */
  predicate NoReturnEnds(lines: seq<string>) {
    forall i :: 0 <= i < |lines| - 1 ==> !EndsInReturn(lines[i])
  }

  predicate EndsInReturn(line: string) {
    line != "" && line[|line| - 1] == '\r'
  }

  lemma ReturnAtStart(s: string)
    ensures OccursAt(s, "\r\n", 0) <==> |s| >= 2 && s[0] == '\r' && s[1] == '\n'
  {
    if |s| >= 2 {
      assert s[0..2] == [s[0], s[1]];
    }
  }

  /** Normalising keeps the number of lines and never makes a text longer. */
  lemma {:induction false} NormalizeKeepsLines(s: string)
    ensures |NormalizeLineEnds(s)| <= |s|
    ensures |Split(NormalizeLineEnds(s), '\n')| == |Split(s, '\n')|
  {
    if s != "" {
      ReturnAtStart(s);
      if OccursAt(s, "\r\n", 0) {
        NormalizeKeepsLines(s[2..]);
        SplitCons('\n', NormalizeLineEnds(s[2..]), '\n');
        assert s[1..][1..] == s[2..];
      } else {
        NormalizeKeepsLines(s[1..]);
        SplitCons(s[0], NormalizeLineEnds(s[1..]), '\n');
      }
    }
  }

  lemma PrependReturnEnds(c: char, parts: seq<string>)
    requires parts != []
    ensures NoReturnEnds(Prepend(c, parts)) <==> NoReturnEnds(parts) && !(c == '\r' && parts[0] == "" && |parts| > 1)
  {
    var all := Prepend(c, parts);
    assert all[0] == [c] + parts[0] && forall i :: 0 < i < |parts| ==> all[i] == parts[i];
    if |parts| > 1 {
      assert EndsInReturn(all[0]) <==> EndsInReturn(parts[0]) || (c == '\r' && parts[0] == "");
    }
  }

  lemma BlankFirst(lines: seq<string>)
    ensures NoReturnEnds([""] + lines) <==> NoReturnEnds(lines)
  {
    var all := [""] + lines;
    if NoReturnEnds(all) {
      forall i | 0 <= i < |lines| - 1
        ensures !EndsInReturn(lines[i])
      {
        assert all[i + 1] == lines[i];
      }
    }
  }

  /** A text is normal exactly when none of its lines ends in a carriage return that a line break follows. */
  lemma {:induction false} NormalExactly(s: string)
    ensures NormalizeLineEnds(s) == s <==> NoReturnEnds(Split(s, '\n'))
  {
    if s != "" {
      var rest := Split(s[1..], '\n');
      ReturnAtStart(s);
      if OccursAt(s, "\r\n", 0) {
        NormalizeKeepsLines(s[2..]);
        PrependReturnEnds('\r', rest);
      } else {
        NormalExactly(s[1..]);
        if s[0] == '\n' {
          BlankFirst(rest);
        } else {
          FirstLineEmpty(s[1..]);
          PrependReturnEnds(s[0], rest);
        }
      }
    }
  }

  lemma FirstLineEmpty(s: string)
    ensures Split(s, '\n')[0] == "" && |Split(s, '\n')| > 1 ==> s != "" && s[0] == '\n'
    ensures s != "" && s[0] == '\n' ==> Split(s, '\n')[0] == "" && |Split(s, '\n')| > 1
  {}

  /** A text that holds a carriage return in front of a line break is not normal. */
  lemma {:induction false} ReturnsAreRemoved(s: string, i: nat)
    requires OccursAt(s, "\r\n", i)
    ensures |NormalizeLineEnds(s)| < |s|
    decreases |s|
  {
    ReturnAtStart(s);
    if OccursAt(s, "\r\n", 0) {
      NormalizeKeepsLines(s[2..]);
    } else {
      assert s[1..][i - 1..i + 1] == s[i..i + 2];
      ReturnsAreRemoved(s[1..], i - 1);
    }
  }

  // ----- Texts that a merge does not change

  lemma {:induction false} EachHasLines(parts: seq<string>, c: char)
    ensures |SplitEach(parts, c)| >= |parts|
  {
    if parts != [] {
      EachHasLines(parts[1..], c);
    }
  }

  /** Normalising adds no line and an insertion does: a merge leaves a text alone exactly when the text is
      normal and there is nothing to add. */
  lemma UnchangedExactly(text: string, version: string, notes: seq<string>, date: string)
    ensures Merge(text, version, notes, date) == Some(text) <==>
              && NormalizeLineEnds(text) == text
              && EditFor(Split(text, '\n'), version, notes, date) == Nothing
  {
    var lines := Split(NormalizeLineEnds(text), '\n');
    var edit := EditFor(lines, version, notes, date);
    NormalizeKeepsLines(text);
    if edit.Put? {
      LinesAfterInsert(NormalizeLineEnds(text), edit.at, edit.block);
      EachHasLines(edit.block, '\n');
      assert |Split(Insert(lines, edit.at, edit.block), '\n')| > |lines|;
    }
  }

  // ----- The section after a merge

  /** The lines up to the first that looks like a heading. */
  function UpToHeading(lines: seq<string>): (r: seq<string>)
    ensures r <= lines && NoneStartsWith(r, "## ")
    ensures r == lines <==> NoneStartsWith(lines, "## ")
    ensures |r| < |lines| ==> StartsWith(lines[|r|], "## ")
  {
    var k := FindLine(lines, "## ", 0);
    if k.None? then lines else lines[..k.value]
  }

  /** The notes that a merge adds. */
  function Absent(lines: seq<string>, version: string, notes: seq<string>): seq<string> {
    match FindSection(lines, version)
    case Some(s) => Missing(notes, Body(lines, s))
    case None => notes
  }

  /** The lines of the section in front of those that a merge brings in. */
  function Front(lines: seq<string>, version: string): seq<string> {
    match FindSection(lines, version)
    case Some(s) => lines[s.heading + 1..InsertionPoint(lines, s)]
    case None => []
  }

  /** The lines that a merge brings in behind the heading of the section. */
  function Brought(lines: seq<string>, version: string, notes: seq<string>, date: string): seq<string> {
    match FindSection(lines, version)
    case Some(s) => SplitEach(Spaced(Absent(lines, version, notes)), '\n')
    case None => Split(Heading(version) + " " + date, '\n')[1..] + SplitEach(Spaced(notes) + [""], '\n')
  }

  /** The merge brings in no line that looks like a heading, or what it adds is also found in front of the
      first such line. */
  predicate Settles(lines: seq<string>, version: string, notes: seq<string>, date: string) {
    var brought := Brought(lines, version, notes, date);
    || NoneStartsWith(brought, "## ")
    || HoldsAll(Join(Front(lines, version) + UpToHeading(brought), "\n"), Absent(lines, version, notes))
  }

  lemma InsertedSlice<T>(lines: seq<T>, at: nat, added: seq<T>, from: nat, to: nat)
    requires from <= at <= to <= |lines|
    ensures (lines[..at] + added + lines[at..])[from..to + |added|] == lines[from..at] + added + lines[at..to]
  {}

  /** The section found before is found again around what was inserted in it. */
  lemma SectionStretches(lines: seq<string>, version: string, s: Section, at: nat, added: seq<string>)
    requires FindSection(lines, version) == Some(s) && s.heading < at <= s.end
    requires NoneStartsWith(added, "## ")
    ensures FindSection(lines[..at] + added + lines[at..], version) == Some(Section(s.heading, s.end + |added|))
  {
    SectionBounds(lines, version, s);
    InsertedSlices(lines, at, added, s.heading + 1, s.end);
    InsertedSlices(lines, at, added, s.heading, s.end);
    NoneInInsert(lines[s.heading + 1..at], added, lines[at..s.end], "## ");
    var again := lines[..at] + added + lines[at..];
    assert again[s.heading] == lines[s.heading];
    SectionIs(again, version, s.heading, s.end + |added|);
  }

  lemma InsertedFront<T>(lines: seq<T>, at: nat, added: seq<T>, from: nat, k: nat)
    requires from <= at <= |lines| && k <= |added|
    ensures var again := lines[..at] + added + lines[at..];
            && again[..from] == lines[..from]
            && again[from..at + k] == lines[from..at] + added[..k]
            && (k < |added| ==> again[at + k] == added[k])
  {}

  lemma FrontIsHeadless(lines: seq<string>, version: string, s: Section, at: nat)
    requires FindSection(lines, version) == Some(s) && s.heading < at <= s.end
    ensures NoneStartsWith(lines[s.heading + 1..at], "## ")
  {
    SectionBounds(lines, version, s);
    forall l | l in lines[s.heading + 1..at]
      ensures !StartsWith(l, "## ")
    {
      var i :| s.heading + 1 <= i < at && lines[i] == l;
      assert lines[s.heading + 1..s.end][i - s.heading - 1] == l;
    }
  }

  /** A heading among the inserted lines ends the section there. */
  lemma SectionIsCut(lines: seq<string>, version: string, s: Section, at: nat, added: seq<string>)
    requires FindSection(lines, version) == Some(s) && s.heading < at <= s.end
    requires !NoneStartsWith(added, "## ")
    ensures FindSection(lines[..at] + added + lines[at..], version)
            == Some(Section(s.heading, at + |UpToHeading(added)|))
  {
    var k := |UpToHeading(added)|;
    var again := lines[..at] + added + lines[at..];
    SectionBounds(lines, version, s);
    InsertedFront(lines, at, added, s.heading + 1, k);
    InsertedFront(lines, at, added, s.heading, k);
    FrontIsHeadless(lines, version, s, at);
    NoneOfBoth(lines[s.heading + 1..at], added[..k], "## ");
    assert again[s.heading] == lines[s.heading];
    SectionIs(again, version, s.heading, at + k);
  }

  lemma SinglesWithin(lines: seq<string>, from: nat, to: nat)
    requires Singles(lines) && from <= to <= |lines|
    ensures Singles(lines[from..to])
  {}

  /** The insertion point cuts the body of a section in front of a last blank line, or at its end. */
  lemma PartsOfBody(lines: seq<string>, s: Section)
    requires s.heading < s.end <= |lines| && Singles(lines)
    ensures var at := InsertionPoint(lines, s);
            && lines[s.heading + 1..s.end] == lines[s.heading + 1..at] + lines[at..s.end]
            && Singles(lines[s.heading + 1..at]) && Singles(lines[at..s.end])
            && (lines[at..s.end] == [] || lines[at..s.end] == [""])
  {}

  /** A body that begins with the old lines and a blank one includes what the old body did. */
  lemma BodyGrows(front: seq<string>, added: seq<string>, tail: seq<string>)
    requires added != [] && added[0] == "" && (tail == [] || tail == [""])
    ensures Join(front + tail, "\n") <= Join(front + added, "\n")
  {
    if tail == [] {
      assert front + tail == front;
      if front != [] {
        JoinAppend(front, added, "\n");
      }
    } else {
      assert added == tail + added[1..];
      assert front + added == (front + tail) + added[1..];
      if added[1..] == [] {
        assert front + added == front + tail;
      } else {
        JoinAppend(front + tail, added[1..], "\n");
      }
    }
  }

  /** Of the notes it is the missing ones that decide whether the grown body holds all. */
  lemma MissingDecide(front: seq<string>, tail: seq<string>, added: seq<string>, body: string, notes: seq<string>)
    requires added != [] && added[0] == "" && (tail == [] || tail == [""]) && body == Join(front + tail, "\n")
    ensures HoldsAll(Join(front + added, "\n"), notes)
            <==> HoldsAll(Join(front + added, "\n"), Missing(notes, body))
  {
    MissingIs(notes, body);
    BodyGrows(front, added, tail);
    forall n | n in notes && n !in Missing(notes, body)
      ensures Includes(Join(front + added, "\n"), n)
    {
      IncludedInPrefix(body, Join(front + added, "\n"), n);
    }
  }

  lemma BlockIsHeld(front: seq<string>, notes: seq<string>, more: seq<string>, tail: seq<string>)
    requires Singles(front) && Singles(tail)
    ensures HoldsAll(Join(front + SplitEach(Spaced(notes) + more, '\n') + tail, "\n"), notes)
  {
    forall n | n in notes
      ensures Includes(Join(front + SplitEach(Spaced(notes) + more, '\n') + tail, "\n"), n)
    {
      SpacedHoldsNotes(notes);
      InsertedIsIncluded(front, Spaced(notes) + more, tail, n);
    }
  }

  lemma SpacedStarts(notes: seq<string>)
    requires notes != []
    ensures var added := SplitEach(Spaced(notes), '\n'); added != [] && added[0] == ""
  {
    SpacedLines(notes);
  }

  /** Where no heading comes in, the stretched body holds all notes. */
  lemma StretchedHoldsAll(front: seq<string>, tail: seq<string>, body: string, notes: seq<string>)
    requires Singles(front) && Singles(tail) && (tail == [] || tail == [""])
    requires body == Join(front + tail, "\n") && Missing(notes, body) != []
    ensures HoldsAll(Join(front + SplitEach(Spaced(Missing(notes, body)), '\n') + tail, "\n"), notes)
  {
    var missing := Missing(notes, body);
    var added := SplitEach(Spaced(missing), '\n');
    SpacedStarts(missing);
    BlockIsHeld(front, missing, [], tail);
    assert Spaced(missing) + [] == Spaced(missing);
    MissingDecide(front, tail, added + tail, body, notes);
    assert front + (added + tail) == front + added + tail;
  }

  lemma ExistingUncut(lines: seq<string>, version: string, notes: seq<string>, s: Section, added: seq<string>)
    requires Singles(lines) && FindSection(lines, version) == Some(s) && Missing(notes, Body(lines, s)) != []
    requires added == SplitEach(Spaced(Missing(notes, Body(lines, s))), '\n') && NoneStartsWith(added, "## ")
    ensures var at := InsertionPoint(lines, s);
            HoldsInSection(lines[..at] + added + lines[at..], version, notes)
  {
    var at := InsertionPoint(lines, s);
    UncutBody(lines, version, s, at, added);
    PartsOfBody(lines, s);
    StretchedHoldsAll(lines[s.heading + 1..at], lines[at..s.end], Body(lines, s), notes);
  }

  lemma UncutBody(lines: seq<string>, version: string, s: Section, at: nat, added: seq<string>)
    requires FindSection(lines, version) == Some(s) && s.heading < at <= s.end
    requires NoneStartsWith(added, "## ")
    ensures var again := lines[..at] + added + lines[at..];
            var t := FindSection(again, version);
            t.Some? && Body(again, t.value) == Join(lines[s.heading + 1..at] + added + lines[at..s.end], "\n")
  {
    SectionStretches(lines, version, s, at, added);
    InsertedSlice(lines, at, added, s.heading + 1, s.end);
  }

  lemma ExistingCut(lines: seq<string>, version: string, notes: seq<string>, s: Section, added: seq<string>)
    requires Singles(lines) && FindSection(lines, version) == Some(s) && Missing(notes, Body(lines, s)) != []
    requires added == SplitEach(Spaced(Missing(notes, Body(lines, s))), '\n') && !NoneStartsWith(added, "## ")
    ensures var at := InsertionPoint(lines, s);
            HoldsInSection(lines[..at] + added + lines[at..], version, notes)
            <==> HoldsAll(Join(lines[s.heading + 1..at] + UpToHeading(added), "\n"), Missing(notes, Body(lines, s)))
  {
    var at := InsertionPoint(lines, s);
    CutBody(lines, version, s, at, added);
    PartsOfBody(lines, s);
    SpacedStarts(Missing(notes, Body(lines, s)));
    BlankIsKept(added);
    MissingDecide(lines[s.heading + 1..at], lines[at..s.end], UpToHeading(added), Body(lines, s), notes);
  }

  lemma BlankIsKept(lines: seq<string>)
    requires lines != [] && lines[0] == ""
    ensures UpToHeading(lines) != [] && UpToHeading(lines)[0] == ""
  {}

  lemma CutBody(lines: seq<string>, version: string, s: Section, at: nat, added: seq<string>)
    requires FindSection(lines, version) == Some(s) && s.heading < at <= s.end
    requires !NoneStartsWith(added, "## ")
    ensures var again := lines[..at] + added + lines[at..];
            var t := FindSection(again, version);
            t.Some? && Body(again, t.value) == Join(lines[s.heading + 1..at] + UpToHeading(added), "\n")
  {
    var cut := UpToHeading(added);
    SectionIsCut(lines, version, s, at, added);
    InsertedFront(lines, at, added, s.heading + 1, |cut|);
    assert added[..|cut|] == cut;
  }

  /** The section of the release is there and includes every note. */
  predicate HoldsInSection(lines: seq<string>, version: string, notes: seq<string>) {
    var s := FindSection(lines, version);
    s.Some? && HoldsAll(Body(lines, s.value), notes)
  }

  /** Nothing is to be merged exactly where the section holds all notes, or there are none. */
  lemma NothingExactly(lines: seq<string>, version: string, notes: seq<string>, date: string)
    ensures EditFor(lines, version, notes, date) == Nothing <==> notes == [] || HoldsInSection(lines, version, notes)
  {
    var s := FindSection(lines, version);
    if s.Some? {
      MissingIs(notes, Body(lines, s.value));
      if HoldsAll(Body(lines, s.value), notes) {
        NoneMissing(notes, Body(lines, s.value));
      }
    }
  }

  // ----- A new section

  lemma {:induction false} SplitKeepsPrefix(a: string, b: string, c: char)
    requires c !in a
    ensures a <= Split(a + b, c)[0]
  {
    if a != "" {
      assert a + b == [a[0]] + (a[1..] + b);
      SplitCons(a[0], a[1..] + b, c);
      SplitKeepsPrefix(a[1..], b, c);
    }
  }

  /** The lines of a new section: a blank one, the title, and what is brought in behind it. */
  lemma NewSectionLines(version: string, notes: seq<string>, date: string)
    requires '\n' !in version
    ensures var title := Split(Heading(version) + " " + date, '\n');
            && StartsWith(title[0], Heading(version))
            && SplitEach(["", Heading(version) + " " + date] + Spaced(notes) + [""], '\n')
               == ["", title[0]] + (title[1..] + SplitEach(Spaced(notes) + [""], '\n'))
  {
    var text := Heading(version) + " " + date;
    SplitKeepsPrefix(Heading(version), " " + date, '\n');
    assert Heading(version) + (" " + date) == text;
    BlockLines(text, Spaced(notes) + [""]);
    assert ["", text] + Spaced(notes) + [""] == ["", text] + (Spaced(notes) + [""]);
  }

  /** The lines around a section that was put in. */
  lemma NewSlices(lines: seq<string>, at: nat, title: string, inner: seq<string>, stop: nat)
    requires at <= stop <= |lines|
    ensures var again := lines[..at] + (["", title] + inner) + lines[at..];
            && again[..at + 1] == lines[..at] + [""] && again[at + 1] == title
            && again[at + 2..stop + 2 + |inner|] == inner + lines[at..stop]
            && (stop < |lines| ==> again[stop + 2 + |inner|] == lines[stop])
  {}

  lemma NewFront(lines: seq<string>, at: nat, title: string, inner: seq<string>, k: nat)
    requires at <= |lines| && k <= |inner|
    ensures var again := lines[..at] + (["", title] + inner) + lines[at..];
            && again[..at + 1] == lines[..at] + [""] && again[at + 1] == title
            && again[at + 2..at + 2 + k] == inner[..k]
            && (k < |inner| ==> again[at + 2 + k] == inner[k])
  {}

  /** Where the section that was put in at `at` ends, counted in the lines before. */
  function Stop(lines: seq<string>, at: nat): (stop: nat)
    requires at <= |lines|
    ensures at <= stop <= |lines| && NoneStartsWith(lines[at..stop], "## ")
    ensures stop < |lines| ==> StartsWith(lines[stop], "## ")
  {
    FindLineSkips(lines, "## ", at);
    var next := FindLine(lines, "## ", at);
    if next.None? then |lines| else next.value
  }

  lemma NoneAbove(lines: seq<string>, version: string, at: nat)
    requires FindSection(lines, version) == None && at <= |lines|
    ensures NoneStartsWith(lines[..at] + [""], Heading(version))
  {
    FindLineSkips(lines, Heading(version), 0);
    assert lines[0..|lines|] == lines;
  }

  /** A new section is found, and ends where the next heading follows. */
  lemma SectionAppears(lines: seq<string>, version: string, title: string, at: nat, inner: seq<string>)
    requires FindSection(lines, version) == None && at <= |lines|
    requires StartsWith(title, Heading(version)) && NoneStartsWith(inner, "## ")
    ensures FindSection(lines[..at] + (["", title] + inner) + lines[at..], version)
            == Some(Section(at + 1, Stop(lines, at) + 2 + |inner|))
  {
    var stop := Stop(lines, at);
    NewSlices(lines, at, title, inner, stop);
    NoneAbove(lines, version, at);
    SectionIs(lines[..at] + (["", title] + inner) + lines[at..], version, at + 1, stop + 2 + |inner|);
  }

  /** A heading behind its own ends the new section. */
  lemma NewSectionIsCut(lines: seq<string>, version: string, title: string, at: nat, inner: seq<string>)
    requires FindSection(lines, version) == None && at <= |lines|
    requires StartsWith(title, Heading(version)) && !NoneStartsWith(inner, "## ")
    ensures FindSection(lines[..at] + (["", title] + inner) + lines[at..], version)
            == Some(Section(at + 1, at + 2 + |UpToHeading(inner)|))
  {
    var k := |UpToHeading(inner)|;
    NewFront(lines, at, title, inner, k);
    assert inner[..k] == UpToHeading(inner);
    NoneAbove(lines, version, at);
    SectionIs(lines[..at] + (["", title] + inner) + lines[at..], version, at + 1, at + 2 + k);
  }

  lemma NewUncut(lines: seq<string>, version: string, title: string, at: nat, date: seq<string>, notes: seq<string>)
    requires Singles(lines) && Singles(date) && FindSection(lines, version) == None && at <= |lines|
    requires StartsWith(title, Heading(version))
    requires NoneStartsWith(date + SplitEach(Spaced(notes) + [""], '\n'), "## ")
    ensures var inner := date + SplitEach(Spaced(notes) + [""], '\n');
            HoldsInSection(lines[..at] + (["", title] + inner) + lines[at..], version, notes)
  {
    var inner := date + SplitEach(Spaced(notes) + [""], '\n');
    var stop := Stop(lines, at);
    SectionAppears(lines, version, title, at, inner);
    NewSlices(lines, at, title, inner, stop);
    SinglesWithin(lines, at, stop);
    BlockIsHeld(date, notes, [""], lines[at..stop]);
  }

  lemma NewCutBody(lines: seq<string>, version: string, title: string, at: nat, inner: seq<string>)
    requires FindSection(lines, version) == None && at <= |lines|
    requires StartsWith(title, Heading(version)) && !NoneStartsWith(inner, "## ")
    ensures var again := lines[..at] + (["", title] + inner) + lines[at..];
            var t := FindSection(again, version);
            t.Some? && again[t.value.heading + 1..t.value.end] == UpToHeading(inner)
  {
    var k := |UpToHeading(inner)|;
    NewSectionIsCut(lines, version, title, at, inner);
    NewFront(lines, at, title, inner, k);
    assert inner[..k] == UpToHeading(inner);
  }

  lemma NewCut(lines: seq<string>, version: string, title: string, at: nat, inner: seq<string>, notes: seq<string>)
    requires FindSection(lines, version) == None && at <= |lines|
    requires StartsWith(title, Heading(version)) && !NoneStartsWith(inner, "## ")
    ensures HoldsInSection(lines[..at] + (["", title] + inner) + lines[at..], version, notes)
            <==> HoldsAll(Join([] + UpToHeading(inner), "\n"), notes)
  {
    NewCutBody(lines, version, title, at, inner);
    assert [] + UpToHeading(inner) == UpToHeading(inner);
  }

  // ----- The exact condition

  /** The lines after a merge. */
  function LinesAfter(lines: seq<string>, version: string, notes: seq<string>, date: string): seq<string> {
    match EditFor(lines, version, notes, date)
    case Put(at, block) => lines[..at] + SplitEach(block, '\n') + lines[at..]
    case _ => lines
  }

  lemma MergedLines(changelog: string, version: string, notes: seq<string>, date: string)
    requires Merge(changelog, version, notes, date).Some?
    ensures Split(Merge(changelog, version, notes, date).value, '\n')
            == LinesAfter(Split(NormalizeLineEnds(changelog), '\n'), version, notes, date)
  {
    var text := NormalizeLineEnds(changelog);
    var edit := EditFor(Split(text, '\n'), version, notes, date);
    if edit.Put? {
      LinesAfterInsert(text, edit.at, edit.block);
    }
  }

  /** After an insertion under a one-line version, the section holds all notes exactly if they settle. */
  lemma InsertionHoldsExactly(lines: seq<string>, version: string, notes: seq<string>, date: string)
    requires Singles(lines) && '\n' !in version && EditFor(lines, version, notes, date).Put?
    ensures HoldsInSection(LinesAfter(lines, version, notes, date), version, notes)
            <==> Settles(lines, version, notes, date)
  {
    var section := FindSection(lines, version);
    var brought := Brought(lines, version, notes, date);
    if section.Some? {
      if NoneStartsWith(brought, "## ") {
        ExistingUncut(lines, version, notes, section.value, brought);
      } else {
        ExistingCut(lines, version, notes, section.value, brought);
      }
    } else {
      var at := EditFor(lines, version, notes, date).at;
      var title := Split(Heading(version) + " " + date, '\n');
      NewSectionLines(version, notes, date);
      PartsHoldNoSeparator(Heading(version) + " " + date, '\n');
      if NoneStartsWith(brought, "## ") {
        NewUncut(lines, version, title[0], at, title[1..], notes);
      } else {
        NewCut(lines, version, title[0], at, brought, notes);
      }
    }
  }

  lemma PrefixCharacters(line: string, prefix: string, c: char)
    requires c in prefix
    ensures StartsWith(line, prefix) ==> c in line
  {
    var i :| 0 <= i < |prefix| && prefix[i] == c;
    assert StartsWith(line, prefix) ==> line[i] == c;
  }

  /** A version of several lines has no section. */
  lemma BrokenVersionHasNoSection(lines: seq<string>, version: string)
    requires Singles(lines) && '\n' in version
    ensures FindSection(lines, version) == None
  {
    var heading := FindLine(lines, Heading(version), 0);
    assert version == Heading(version)[3..3 + |version|];
    if heading.Some? {
      PrefixCharacters(lines[heading.value], Heading(version), '\n');
    }
  }

  /** What a merge leaves behind has nothing to be merged, exactly if nothing was added, or the version has
      one line and the notes settle. */
  lemma SettledExactly(text: string, version: string, notes: seq<string>, date: string)
    requires EditFor(Split(text, '\n'), version, notes, date) != Impossible
    ensures var lines := Split(text, '\n');
            EditFor(LinesAfter(lines, version, notes, date), version, notes, date) == Nothing
            <==> Absent(lines, version, notes) == [] || ('\n' !in version && Settles(lines, version, notes, date))
  {
    var lines := Split(text, '\n');
    var after := LinesAfter(lines, version, notes, date);
    PartsHoldNoSeparator(text, '\n');
    var edit := EditFor(lines, version, notes, date);
    if edit.Put? {
      LinesAfterInsert(text, edit.at, edit.block);
      PartsHoldNoSeparator(Insert(lines, edit.at, edit.block), '\n');
      NothingExactly(after, version, notes, date);
      if '\n' in version {
        BrokenVersionHasNoSection(after, version);
      } else {
        InsertionHoldsExactly(lines, version, notes, date);
      }
    }
  }

  /** No line ends in a carriage return. */
  predicate NoneEndsInReturn(lines: seq<string>) {
    forall l :: l in lines ==> !EndsInReturn(l)
  }

  /** The lines that a merge brings in, heading and blank lines included, and the line in front of which they go. */
  function Inserted(lines: seq<string>, version: string, notes: seq<string>, date: string): (r: (nat, seq<string>))
    ensures r.0 <= |lines|
  {
    match EditFor(lines, version, notes, date)
    case Put(at, block) => (at, SplitEach(block, '\n'))
    case _ => (|lines|, [])
  }

  /** No carriage return is left in front of a line break: none at the end of a line in front of the insertion
      or behind it, nor of a line that is brought in, the very last line aside. */
  predicate ReturnFree(lines: seq<string>, version: string, notes: seq<string>, date: string) {
    var (at, brought) := Inserted(lines, version, notes, date);
    if brought == [] then NoReturnEnds(lines)
    else if at == |lines| then NoneEndsInReturn(lines) && NoReturnEnds(brought)
    else NoneEndsInReturn(lines[..at]) && NoneEndsInReturn(brought) && NoReturnEnds(lines[at..])
  }

  lemma NoReturnEndsOf(a: seq<string>, b: seq<string>)
    requires b != []
    ensures NoReturnEnds(a + b) <==> NoneEndsInReturn(a) && NoReturnEnds(b)
  {
    var all := a + b;
    if NoReturnEnds(all) {
      forall i | 0 <= i < |a|
        ensures !EndsInReturn(a[i])
      {
        assert all[i] == a[i];
      }
      forall i | 0 <= i < |b| - 1
        ensures !EndsInReturn(b[i])
      {
        assert all[|a| + i] == b[i];
      }
    }
  }

  lemma NoReturnEndsAround(front: seq<string>, brought: seq<string>, back: seq<string>)
    requires brought != []
    ensures NoReturnEnds(front + brought + back) <==>
              && NoneEndsInReturn(front)
              && if back == [] then NoReturnEnds(brought) else NoneEndsInReturn(brought) && NoReturnEnds(back)
  {
    assert front + brought + back == front + (brought + back);
    NoReturnEndsOf(front, brought + back);
    if back == [] {
      assert brought + back == brought;
    } else {
      NoReturnEndsOf(brought, back);
    }
  }

  /** The merged lines are free of carriage returns in front of line breaks exactly if their parts are. */
  lemma ReturnFreeExactly(lines: seq<string>, version: string, notes: seq<string>, date: string)
    ensures NoReturnEnds(LinesAfter(lines, version, notes, date)) <==> ReturnFree(lines, version, notes, date)
  {
    var (at, brought) := Inserted(lines, version, notes, date);
    if EditFor(lines, version, notes, date).Put? {
      EachHasLines(EditFor(lines, version, notes, date).block, '\n');
      NoReturnEndsAround(lines[..at], brought, lines[at..]);
      assert at == |lines| ==> lines[..at] == lines;
    }
  }

  /** Merging twice is merging once, for every changelog and every version, notes and date, exactly if
      - no line of the changelog or of what is brought in ends in a carriage return, the last line aside, and
      - either no note was to be added, or the version has one line and the added notes settle: they bring in
        no line that looks like a heading, or occur all the same in front of the first such line. */
  lemma MergeIdempotentExactly(changelog: string, version: string, notes: seq<string>, date: string)
    requires Merge(changelog, version, notes, date).Some?
    ensures var lines := Split(NormalizeLineEnds(changelog), '\n');
            var once := Merge(changelog, version, notes, date);
            Merge(once.value, version, notes, date) == once
            <==> && ReturnFree(lines, version, notes, date)
                 && (|| Absent(lines, version, notes) == []
                     || ('\n' !in version && Settles(lines, version, notes, date)))
  {
    var once := Merge(changelog, version, notes, date).value;
    MergedLines(changelog, version, notes, date);
    ReturnFreeExactly(Split(NormalizeLineEnds(changelog), '\n'), version, notes, date);
    SettledExactly(NormalizeLineEnds(changelog), version, notes, date);
    UnchangedExactly(once, version, notes, date);
    NormalExactly(once);
  }

  /** After a merge into a section of a one-line version, the section holds every note exactly if nothing was
      added or the added notes settle. */
  lemma MergedSectionHoldsExactly(changelog: string, version: string, notes: seq<string>, date: string)
    requires notes != [] && Merge(changelog, version, notes, date).Some?
    ensures var lines := Split(NormalizeLineEnds(changelog), '\n');
            HoldsInSection(Split(Merge(changelog, version, notes, date).value, '\n'), version, notes)
            <==> || Absent(lines, version, notes) == []
                 || ('\n' !in version && Settles(lines, version, notes, date))
  {
    MergedLines(changelog, version, notes, date);
    SettledExactly(NormalizeLineEnds(changelog), version, notes, date);
    NothingExactly(Split(Merge(changelog, version, notes, date).value, '\n'), version, notes, date);
  }

  /** With a line break in the version the notes are added again by every merge. */
  lemma BrokenVersionAddsAgain(changelog: string, version: string, notes: seq<string>, date: string)
    requires '\n' in version && notes != [] && Merge(changelog, version, notes, date).Some?
    ensures Merge(Merge(changelog, version, notes, date).value, version, notes, date)
            != Merge(changelog, version, notes, date)
  {
    PartsHoldNoSeparator(NormalizeLineEnds(changelog), '\n');
    BrokenVersionHasNoSection(Split(NormalizeLineEnds(changelog), '\n'), version);
    MergeIdempotentExactly(changelog, version, notes, date);
  }

  // ----- Inputs that settle

  lemma {:induction false} NormalizeKeeps(s: string)
    requires '\r' !in s
    ensures NormalizeLineEnds(s) == s
  {
    if s != "" {
      NormalizeKeeps(s[1..]);
      ReturnAtStart(s);
    }
  }

  lemma {:induction false} PartsCharacters(s: string, sep: char, c: char)
    requires c !in s
    ensures forall p :: p in Split(s, sep) ==> c !in p
  {
    if s != "" {
      PartsCharacters(s[1..], sep, c);
    }
  }

  lemma {:induction false} SpacedCharacters(notes: seq<string>, c: char)
    requires forall n :: n in notes ==> c !in n
    ensures forall l :: l in Spaced(notes) ==> c !in l
  {
    if notes != [] {
      SpacedCharacters(notes[1..], c);
    }
  }

  lemma EditCharacters(lines: seq<string>, version: string, notes: seq<string>, date: string)
    requires EditFor(lines, version, notes, date).Put?
    requires '\r' !in version && '\r' !in date && forall n :: n in notes ==> '\r' !in n
    ensures forall l :: l in EditFor(lines, version, notes, date).block ==> '\r' !in l
  {
    var section := FindSection(lines, version);
    if section.Some? {
      MissingIs(notes, Body(lines, section.value));
      SpacedCharacters(Missing(notes, Body(lines, section.value)), '\r');
    } else {
      SpacedCharacters(notes, '\r');
    }
  }

  lemma MergedHasNoReturns(text: string, version: string, notes: seq<string>, date: string)
    requires '\r' !in text && EditFor(Split(text, '\n'), version, notes, date).Put?
    requires '\r' !in version && '\r' !in date && forall n :: n in notes ==> '\r' !in n
    ensures var lines := Split(text, '\n');
            var edit := EditFor(lines, version, notes, date);
            '\r' !in Insert(lines, edit.at, edit.block)
  {
    var lines := Split(text, '\n');
    var edit := EditFor(lines, version, notes, date);
    PartsCharacters(text, '\n', '\r');
    EditCharacters(lines, version, notes, date);
    if '\r' in Insert(lines, edit.at, edit.block) {
      JoinCharacters(lines[..edit.at] + edit.block + lines[edit.at..], "\n", '\r');
    }
  }

  /** Without carriage returns, and with notes and a date whose lines do not look like headings, merging twice
      is merging once. */
  lemma MergeIdempotent(changelog: string, version: string, notes: seq<string>, date: string)
    requires '\r' !in NormalizeLineEnds(changelog)
    requires '\r' !in version && '\n' !in version && '\r' !in date && '\n' !in date
    requires AllHeadless(notes) && forall n :: n in notes ==> '\r' !in n
    requires Merge(changelog, version, notes, date).Some?
    ensures Merge(Merge(changelog, version, notes, date).value, version, notes, date)
            == Merge(changelog, version, notes, date)
  {
    var lines := Split(NormalizeLineEnds(changelog), '\n');
    PlainMergeIsNormal(changelog, version, notes, date);
    ReturnFreeExactly(lines, version, notes, date);
    HeadlessSettle(lines, version, notes, date);
    MergeIdempotentExactly(changelog, version, notes, date);
  }

  lemma PlainMergeIsNormal(changelog: string, version: string, notes: seq<string>, date: string)
    requires '\r' !in NormalizeLineEnds(changelog) && '\r' !in version && '\r' !in date
    requires forall n :: n in notes ==> '\r' !in n
    requires Merge(changelog, version, notes, date).Some?
    ensures NoReturnEnds(LinesAfter(Split(NormalizeLineEnds(changelog), '\n'), version, notes, date))
  {
    var text := NormalizeLineEnds(changelog);
    var once := Merge(changelog, version, notes, date).value;
    if EditFor(Split(text, '\n'), version, notes, date).Put? {
      MergedHasNoReturns(text, version, notes, date);
    }
    NormalizeKeeps(once);
    NormalExactly(once);
    MergedLines(changelog, version, notes, date);
  }

  /** With a version and a date of one line, it is the added notes that bring in what looks like a heading. */
  lemma BroughtHeadless(lines: seq<string>, version: string, notes: seq<string>, date: string)
    requires '\n' !in version && '\n' !in date
    ensures NoneStartsWith(Brought(lines, version, notes, date), "## ") <==> AllHeadless(Absent(lines, version, notes))
  {
    SpacedHeadless(Absent(lines, version, notes));
    if FindSection(lines, version).None? {
      SplitWithout(Heading(version) + " " + date, '\n');
      SplitEachAppend(Spaced(notes), [""], '\n');
      SplitEachWithout([""], '\n');
      NoneOfBoth(SplitEach(Spaced(notes), '\n'), [""], "## ");
      assert Brought(lines, version, notes, date) == SplitEach(Spaced(notes), '\n') + [""];
    }
  }

  lemma HeadlessSettle(lines: seq<string>, version: string, notes: seq<string>, date: string)
    requires AllHeadless(notes) && '\n' !in version && '\n' !in date
    ensures Settles(lines, version, notes, date)
  {
    BroughtHeadless(lines, version, notes, date);
    var section := FindSection(lines, version);
    if section.Some? {
      MissingIs(notes, Body(lines, section.value));
    }
  }

  // ----- Notes that never settle

  lemma SliceOfSlice<T>(s: seq<T>, i: nat, m: nat, j: nat, k: nat)
    requires i + m <= |s| && j + k <= m
    ensures s[i..i + m][j..j + k] == s[i + j..i + j + k]
  {
    var inner, outer := s[i..i + m][j..j + k], s[i + j..i + j + k];
    forall x | 0 <= x < k
      ensures inner[x] == outer[x]
    {
      assert s[i..i + m][j + x] == s[i + j + x];
    }
  }

  lemma IncludesTransitive(s: string, t: string, part: string)
    requires Includes(s, t) && Includes(t, part)
    ensures Includes(s, part)
  {
    var i, j := IndexOf(s, t, 0).value, IndexOf(t, part, 0).value;
    SliceOfSlice(s, i, |t|, j, |part|);
    IncludesWhere(s, part, i + j);
  }

  lemma JoinStarts(lines: seq<string>)
    requires Singles(lines) && NoneStartsWith(lines, "## ")
    ensures !StartsWith(Join(lines, "\n"), "## ")
  {
    if lines != [] {
      var first, s := lines[0], Join(lines, "\n");
      assert first in lines;
      if |lines| > 1 && |first| < 3 {
        assert s[|first|] == '\n';
        assert forall i :: 0 <= i < 3 ==> "## "[i] != '\n';
      } else if |lines| > 1 {
        assert s[..3] == first[..3];
      }
    }
  }

  /** No line of a body looks like a heading, wherever one looks for it. */
  lemma {:induction false} JoinHasNoHeading(lines: seq<string>, i: nat)
    requires Singles(lines) && NoneStartsWith(lines, "## ")
    ensures !OccursAt(Join(lines, "\n"), "\n## ", i)
  {
    var s := Join(lines, "\n");
    if lines != [] {
      assert lines[0] in lines;
      if i < |lines[0]| {
        assert s[i] == lines[0][i] != '\n';
      } else if |lines| > 1 && i + 4 <= |s| {
        var rest := Join(lines[1..], "\n");
        var j := i - |lines[0]|;
        assert s[|lines[0]| + 1..] == rest;
        if j == 0 {
          JoinStarts(lines[1..]);
          assert s[i..i + 4][1..] == rest[..3];
        } else {
          JoinHasNoHeading(lines[1..], j - 1);
          assert s[i..i + 4] == rest[j - 1..j + 3];
        }
      }
    }
  }

  /** A note with a heading behind its first line is never found in the section: whatever the changelog, the
      merge adds it once more. */
  lemma HeadingNoteNeverSettles(text: string, version: string, notes: seq<string>, date: string, n: string)
    requires n in notes && Includes(n, "\n## ")
    ensures Merge(text, version, notes, date) != Some(text)
  {
    var lines := Split(text, '\n');
    UnchangedExactly(text, version, notes, date);
    NothingExactly(lines, version, notes, date);
    if HoldsInSection(lines, version, notes) {
      var s := FindSection(lines, version).value;
      PartsHoldNoSeparator(text, '\n');
      SectionBounds(lines, version, s);
      SinglesWithin(lines, s.heading + 1, s.end);
      IncludesTransitive(Body(lines, s), n, "\n## ");
      JoinHasNoHeading(lines[s.heading + 1..s.end], IndexOf(Body(lines, s), "\n## ", 0).value);
    }
  }

  lemma NormalWithin(lines: seq<string>, from: nat, to: nat)
    requires Singles(lines) && NoReturnEnds(lines) && from <= to <= |lines|
    ensures NormalizeLineEnds(Join(lines[from..to], "\n")) == Join(lines[from..to], "\n")
  {
    var part := lines[from..to];
    if part != [] {
      SplitJoinParts(part, '\n');
      NormalExactly(Join(part, "\n"));
    }
  }

  /** Nor is a note with a carriage return in front of a line break. */
  lemma ReturnNoteNeverSettles(text: string, version: string, notes: seq<string>, date: string, n: string)
    requires n in notes && Includes(n, "\r\n")
    ensures Merge(text, version, notes, date) != Some(text)
  {
    var lines := Split(text, '\n');
    UnchangedExactly(text, version, notes, date);
    NothingExactly(lines, version, notes, date);
    NormalExactly(text);
    if HoldsInSection(lines, version, notes) && NoReturnEnds(lines) {
      var s := FindSection(lines, version).value;
      PartsHoldNoSeparator(text, '\n');
      NormalWithin(lines, s.heading + 1, s.end);
      IncludesTransitive(Body(lines, s), n, "\r\n");
      ReturnsAreRemoved(Body(lines, s), IndexOf(Body(lines, s), "\r\n", 0).value);
    }
  }

  lemma OneLineMerges(text: string, version: string, notes: seq<string>, date: string)
    requires '\r' !in text && '\n' !in text && !StartsWith(text, Heading(version))
    requires FindExactLine([text], "## Unreleased").Some?
    ensures Merge(text, version, notes, date).Some?
  {
    NormalizeKeeps(text);
    SplitWithout(text, '\n');
    assert FindLine([text], Heading(version), 0) == None;
  }

  lemma FreshChangelogMerges(changelog: string, version: string, notes: seq<string>, date: string)
    requires changelog == "## Unreleased" && version == "1.0.0"
    ensures Merge(changelog, version, notes, date).Some?
  {
    assert Heading(version)[3] == version[0] && changelog[3] == 'U';
    OneLineMerges(changelog, version, notes, date);
  }

  lemma NotesThatFail(note: string)
    requires note == "Added:\n## Details" || note == "Added:\r\nDetails"
    ensures Includes(note, "\n## ") || Includes(note, "\r\n")
  {
    if note == "Added:\n## Details" {
      assert note[6..10] == "\n## ";
      IncludesWhere(note, "\n## ", 6);
    } else {
      assert note[6..8] == "\r\n";
      IncludesWhere(note, "\r\n", 6);
    }
  }

  /** Whatever the changelog, merging such notes twice is not merging them once. */
  lemma SuchNotesAddedAgain(changelog: string, version: string, notes: seq<string>, date: string, n: string)
    requires n in notes && (Includes(n, "\n## ") || Includes(n, "\r\n"))
    requires Merge(changelog, version, notes, date).Some?
    ensures Merge(Merge(changelog, version, notes, date).value, version, notes, date)
            != Merge(changelog, version, notes, date)
  {
    var once := Merge(changelog, version, notes, date).value;
    if Includes(n, "\n## ") {
      HeadingNoteNeverSettles(once, version, notes, date, n);
    } else {
      ReturnNoteNeverSettles(once, version, notes, date, n);
    }
  }

  /** A note with a heading in its second line and one with the line ends of Windows, on a fresh changelog:
      merging twice is not merging once. */
  lemma NotesAddedAgain(changelog: string, version: string, note: string, date: string)
    requires changelog == "## Unreleased" && version == "1.0.0"
    requires note == "Added:\n## Details" || note == "Added:\r\nDetails"
    ensures var once := Merge(changelog, version, [note], date);
            once.Some? && Merge(once.value, version, [note], date) != once
  {
    FreshChangelogMerges(changelog, version, [note], date);
    NotesThatFail(note);
    SuchNotesAddedAgain(changelog, version, [note], date, note);
  }
}
