/** The lines of a changelog: how a merge changes them, and where a section is found in them. */
module ChangelogLaws {
  import opened Text
  import opened Changelog

  // ----- Lines and texts

  lemma {:induction false} PartsHoldNoSeparator(s: string, c: char)
    ensures forall p :: p in Split(s, c) ==> c !in p
  {
    if s != "" {
      PartsHoldNoSeparator(s[1..], c);
    }
  }

  lemma {:induction false} SplitEachAppend(a: seq<string>, b: seq<string>, c: char)
    ensures SplitEach(a + b, c) == SplitEach(a, c) + SplitEach(b, c)
  {
    if a == [] {
      assert a + b == b;
    } else {
      assert (a + b)[1..] == a[1..] + b;
      SplitEachAppend(a[1..], b, c);
    }
  }

  lemma {:induction false} JoinCons(first: string, rest: seq<string>, sep: string)
    requires rest != []
    ensures Join([first] + rest, sep) == first + sep + Join(rest, sep)
  {
    assert ([first] + rest)[1..] == rest;
  }

  lemma {:induction false} JoinAppend(a: seq<string>, b: seq<string>, sep: string)
    requires a != [] && b != []
    ensures Join(a + b, sep) == Join(a, sep) + sep + Join(b, sep)
  {
    if |a| == 1 {
      JoinCons(a[0], b, sep);
      assert a + b == [a[0]] + b;
    } else {
      JoinAppend(a[1..], b, sep);
      assert a + b == [a[0]] + (a[1..] + b);
      JoinCons(a[0], a[1..] + b, sep);
    }
  }

  /** Splitting elements of several lines does not change their join. */
  lemma {:induction false} JoinSplitEach(parts: seq<string>, c: char)
    requires parts != []
    ensures SplitEach(parts, c) != [] && Join(SplitEach(parts, c), [c]) == Join(parts, [c])
  {
    JoinSplit(parts[0], c);
    if |parts| == 1 {
      assert parts[1..] == [];
      assert SplitEach(parts, c) == Split(parts[0], c);
    } else {
      JoinSplitEach(parts[1..], c);
      JoinAppend(Split(parts[0], c), SplitEach(parts[1..], c), [c]);
    }
  }

  lemma IncludesWhere(s: string, part: string, i: nat)
    requires OccursAt(s, part, i)
    ensures Includes(s, part)
  {}

  lemma IncludedInPrefix(s: string, t: string, part: string)
    requires s <= t && Includes(s, part)
    ensures Includes(t, part)
  {
    var i := IndexOf(s, part, 0).value;
    assert t[i..i + |part|] == s[i..i + |part|];
    IncludesWhere(t, part, i);
  }

  /** A join includes each of its elements. */
  lemma {:induction false} JoinIncludes(parts: seq<string>, sep: string, part: string)
    requires part in parts
    ensures Includes(Join(parts, sep), part)
  {
    var s := Join(parts, sep);
    if part == parts[0] {
      assert s[0..|part|] == part;
      IncludesWhere(s, part, 0);
    } else {
      JoinIncludes(parts[1..], sep, part);
      var rest := Join(parts[1..], sep);
      var i := IndexOf(rest, part, 0).value;
      var at := |parts[0] + sep| + i;
      assert s == (parts[0] + sep) + rest;
      assert s[at..at + |part|] == rest[i..i + |part|];
      IncludesWhere(s, part, at);
    }
  }

  // ----- One merge

  /** Where a block goes: to the end of the section of the release, in front of its last blank line, or, if
      there is none, with the title of a new section right below the first "Unreleased". */
  predicate InPlace(lines: seq<string>, version: string, date: string, at: nat, block: seq<string>)
    requires at <= |lines|
  {
    match FindSection(lines, version)
    case Some(s) => s.heading < at && (at == s.end || (at == s.end - 1 && lines[at] == "")) && [""] <= block
    case None =>
      && at > 0 && lines[at - 1] == "## Unreleased" && "## Unreleased" !in lines[..at - 1]
      && [""] + Split(Heading(version) + " " + date, '\n') <= block
  }

  /** The lines are kept, with a block put between two of them, if there is one, in its place. */
  predicate InsertsInPlace(before: seq<string>, after: seq<string>, version: string, date: string,
                           at: nat, block: seq<string>) {
    && at <= |before| && after == before[..at] + block + before[at..]
    && (block == [] || InPlace(before, version, date, at, block))
  }

  /** What every merge does to the lines: it puts one block between two of them, in its place. */
  lemma MergeInsertsOneBlock(changelog: string, version: string, notes: seq<string>, date: string)
    returns (at: nat, block: seq<string>)
    requires Merge(changelog, version, notes, date).Some?
    ensures InsertsInPlace(Split(NormalizeLineEnds(changelog), '\n'),
                           Split(Merge(changelog, version, notes, date).value, '\n'), version, date, at, block)
  {
    var text := NormalizeLineEnds(changelog);
    var lines := Split(text, '\n');
    var edit := EditFor(lines, version, notes, date);
    if edit.Put? {
      at, block := edit.at, SplitEach(edit.block, '\n');
      LinesAfterInsert(text, edit.at, edit.block);
      BlockInPlace(lines, version, notes, date);
    } else {
      at, block := 0, [];
    }
  }

  lemma BlockInPlace(lines: seq<string>, version: string, notes: seq<string>, date: string)
    requires EditFor(lines, version, notes, date).Put?
    ensures var edit := EditFor(lines, version, notes, date);
            InPlace(lines, version, date, edit.at, SplitEach(edit.block, '\n'))
  {
    var edit := EditFor(lines, version, notes, date);
    if FindSection(lines, version).None? {
      BlockLines(Heading(version) + " " + date, Spaced(notes) + [""]);
      assert edit.block == ["", Heading(version) + " " + date] + (Spaced(notes) + [""]);
    } else {
      SplitEachCons("", edit.block[1..], '\n');
      assert edit.block == [""] + edit.block[1..];
    }
  }

  lemma BlockLines(text: string, rest: seq<string>)
    ensures var title := Split(text, '\n');
            SplitEach(["", text] + rest, '\n') == ["", title[0]] + (title[1..] + SplitEach(rest, '\n'))
  {
    var title := Split(text, '\n');
    SplitEachCons("", [text] + rest, '\n');
    SplitEachCons(text, rest, '\n');
    assert ["", text] + rest == [""] + ([text] + rest);
    assert title == [title[0]] + title[1..];
  }

  lemma LinesAfterInsert(text: string, at: nat, block: seq<string>)
    requires at <= |Split(text, '\n')|
    requires block != []
    ensures var lines := Split(text, '\n');
            Split(Insert(lines, at, block), '\n') == lines[..at] + SplitEach(block, '\n') + lines[at..]
  {
    var lines := Split(text, '\n');
    PartsHoldNoSeparator(text, '\n');
    SplitJoin(lines[..at] + block + lines[at..], '\n');
    SplitEachAppend(lines[..at] + block, lines[at..], '\n');
    SplitEachAppend(lines[..at], block, '\n');
    SplitEachWithout(lines[..at], '\n');
    SplitEachWithout(lines[at..], '\n');
  }

  // ----- Notes and sections

  /** No line of the note looks like a heading of the changelog. */
  predicate Headless(note: string) {
    forall l :: l in Split(note, '\n') ==> !StartsWith(l, "## ")
  }

  predicate AllHeadless(notes: seq<string>) {
    forall n :: n in notes ==> Headless(n)
  }

  lemma NoneOfBoth(a: seq<string>, b: seq<string>, prefix: string)
    ensures NoneStartsWith(a + b, prefix) <==> NoneStartsWith(a, prefix) && NoneStartsWith(b, prefix)
  {
    assert forall l :: l in a || l in b ==> l in a + b;
  }

  lemma {:induction false} SpacedHeadless(notes: seq<string>)
    ensures NoneStartsWith(SplitEach(Spaced(notes), '\n'), "## ") <==> AllHeadless(notes)
  {
    if notes != [] {
      var lines, rest := Split(notes[0], '\n'), SplitEach(Spaced(notes[1..]), '\n');
      SpacedHeadless(notes[1..]);
      SpacedLines(notes);
      NoneOfBoth([""], lines + rest, "## ");
      NoneOfBoth(lines, rest, "## ");
      assert notes == [notes[0]] + notes[1..];
      assert NoneStartsWith(lines, "## ") <==> Headless(notes[0]);
    }
  }

  lemma SplitEachCons(first: string, rest: seq<string>, c: char)
    ensures SplitEach([first] + rest, c) == Split(first, c) + SplitEach(rest, c)
  {
    assert ([first] + rest)[1..] == rest;
  }

  lemma SpacedLines(notes: seq<string>)
    requires notes != []
    ensures SplitEach(Spaced(notes), '\n') == [""] + (Split(notes[0], '\n') + SplitEach(Spaced(notes[1..]), '\n'))
  {
    var rest := Spaced(notes[1..]);
    assert Spaced(notes) == [""] + ([notes[0]] + rest);
    SplitEachCons("", [notes[0]] + rest, '\n');
    SplitEachCons(notes[0], rest, '\n');
  }

  lemma {:induction false} SpacedHoldsNotes(notes: seq<string>)
    ensures forall n :: n in notes ==> n in Spaced(notes)
  {
    if notes != [] {
      SpacedHoldsNotes(notes[1..]);
    }
  }

  predicate NoneStartsWith(lines: seq<string>, prefix: string) {
    forall l :: l in lines ==> !StartsWith(l, prefix)
  }

  lemma FindLineIs(lines: seq<string>, prefix: string, from: nat, k: nat)
    requires from <= k <= |lines| && NoneStartsWith(lines[from..k], prefix)
    requires k < |lines| ==> StartsWith(lines[k], prefix)
    ensures FindLine(lines, prefix, from) == if k < |lines| then Some(k) else None
  {
    forall i | from <= i < k
      ensures !StartsWith(lines[i], prefix)
    {
      assert lines[from..k][i - from] == lines[i];
    }
  }

  lemma FindLineSkips(lines: seq<string>, prefix: string, from: nat)
    requires from <= |lines|
    ensures var r := FindLine(lines, prefix, from);
            NoneStartsWith(lines[from..if r.None? then |lines| else r.value], prefix)
  {}

  /** A section is found where its heading is the first of its kind and the next heading closes it. */
  lemma SectionIs(lines: seq<string>, version: string, heading: nat, end: nat)
    requires heading < end <= |lines| && StartsWith(lines[heading], Heading(version))
    requires NoneStartsWith(lines[..heading], Heading(version))
    requires NoneStartsWith(lines[heading + 1..end], "## ")
    requires end < |lines| ==> StartsWith(lines[end], "## ")
    ensures FindSection(lines, version) == Some(Section(heading, end))
  {
    assert lines[0..heading] == lines[..heading];
    FindLineIs(lines, Heading(version), 0, heading);
    FindLineIs(lines, "## ", heading + 1, end);
  }

  /** The joined lines include every element that was inserted. */
  lemma InsertedIsIncluded(front: seq<string>, block: seq<string>, tail: seq<string>, note: string)
    requires note in block
    requires forall l :: l in front || l in tail ==> '\n' !in l
    ensures Includes(Join(front + SplitEach(block, '\n') + tail, "\n"), note)
  {
    var parts := front + block + tail;
    assert note in parts;
    JoinIncludes(parts, "\n", note);
    JoinSplitEach(parts, '\n');
    SplitEachAppend(front + block, tail, '\n');
    SplitEachAppend(front, block, '\n');
    SplitEachWithout(front, '\n');
    SplitEachWithout(tail, '\n');
  }

  predicate HoldsAll(text: string, notes: seq<string>) {
    forall n :: n in notes ==> Includes(text, n)
  }

  predicate Singles(lines: seq<string>) {
    forall l :: l in lines ==> '\n' !in l
  }

  lemma {:induction false} MissingIs(notes: seq<string>, section: string)
    ensures forall n :: n in Missing(notes, section) <==> n in notes && !Includes(section, n)
  {
    if notes != [] {
      MissingIs(notes[1..], section);
    }
  }

  lemma {:induction false} NoneMissing(notes: seq<string>, section: string)
    requires HoldsAll(section, notes)
    ensures Missing(notes, section) == []
  {
    if notes != [] {
      assert notes[0] in notes;
      NoneMissing(notes[1..], section);
    }
  }

  lemma InsertedSlices<T>(lines: seq<T>, at: nat, added: seq<T>, from: nat, to: nat)
    requires from <= at <= to <= |lines|
    ensures var again := lines[..at] + added + lines[at..];
            && again[..from] == lines[..from]
            && again[from..to + |added|] == lines[from..at] + added + lines[at..to]
            && (to < |lines| ==> again[to + |added|] == lines[to])
    ensures lines[from..to] == lines[from..at] + lines[at..to]
  {}

  lemma NoneInInsert(a: seq<string>, added: seq<string>, b: seq<string>, prefix: string)
    requires NoneStartsWith(a + b, prefix) && NoneStartsWith(added, prefix)
    ensures NoneStartsWith(a + added + b, prefix)
  {
    forall l | l in a + added + b
      ensures !StartsWith(l, prefix)
    {
      assert l in a + b || l in added;
    }
  }

  /** What the search for a section says about the lines. */
  lemma SectionBounds(lines: seq<string>, version: string, s: Section)
    requires FindSection(lines, version) == Some(s)
    ensures StartsWith(lines[s.heading], Heading(version))
    ensures NoneStartsWith(lines[..s.heading], Heading(version))
    ensures NoneStartsWith(lines[s.heading + 1..s.end], "## ")
    ensures s.end < |lines| ==> StartsWith(lines[s.end], "## ")
  {
    FindLineSkips(lines, Heading(version), 0);
    FindLineSkips(lines, "## ", s.heading + 1);
    assert lines[0..s.heading] == lines[..s.heading];
  }
}
