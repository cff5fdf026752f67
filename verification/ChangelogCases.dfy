/** What a merge makes of a changelog, line by line. */
module ChangelogCases {
  import opened Text
  import opened Changelog
  import opened ChangelogLaws

  // ----- Line ends

  /** A Windows line end becomes a line feed, wherever it stands. */
  lemma {:induction false} WindowsLineEnd(front: string, rest: string)
    ensures NormalizeLineEnds(front + "\r\n" + rest)
            == NormalizeLineEnds(front) + "\n" + NormalizeLineEnds(rest)
  {
    var s := front + "\r\n" + rest;
    if front == "" {
      assert s == "\r\n" + rest;
      assert s[0..2] == "\r\n" && s[2..] == rest;
    } else {
      var later := front[1..] + "\r\n" + rest;
      assert s[1..] == later;
      PairKept(front, rest);
      if OccursAt(front, "\r\n", 0) {
        WindowsLineEnd(front[2..], rest);
        assert s[2..] == front[2..] + "\r\n" + rest;
      } else {
        WindowsLineEnd(front[1..], rest);
      }
    }
  }

  lemma PairKept(front: string, rest: string)
    requires front != ""
    ensures OccursAt(front + "\r\n" + rest, "\r\n", 0) <==> OccursAt(front, "\r\n", 0)
  {
    var s := front + "\r\n" + rest;
    if |front| == 1 {
      assert s[0..2][1] == '\r';
    } else {
      assert s[0..2] == front[0..2];
    }
  }

  /** Every other character is kept. */
  lemma OtherCharacter(c: char, rest: string)
    requires c != '\r' || rest == "" || rest[0] != '\n'
    ensures NormalizeLineEnds([c] + rest) == [c] + NormalizeLineEnds(rest)
  {
    var s := [c] + rest;
    assert s[1..] == rest;
    if |s| >= 2 {
      assert s[0..2] == [s[0], s[1]];
    }
  }

  // ----- Blocks of notes

  /** A blank line in front of each note. */
  predicate IsBlockOf(block: seq<string>, notes: seq<string>) {
    && |block| == 2 * |notes|
    && forall i :: 0 <= i < |block| ==> block[i] == if i % 2 == 0 then "" else notes[i / 2]
  }

  lemma {:induction false} SpacedIsBlock(notes: seq<string>)
    ensures IsBlockOf(Spaced(notes), notes)
  {
    if notes != [] {
      var rest := Spaced(notes[1..]);
      SpacedIsBlock(notes[1..]);
      assert Spaced(notes) == ["", notes[0]] + rest;
      forall i | 2 <= i < |Spaced(notes)|
        ensures Spaced(notes)[i] == if i % 2 == 0 then "" else notes[i / 2]
      {
        assert Spaced(notes)[i] == rest[i - 2] && (i - 2) % 2 == i % 2 && (i - 2) / 2 == i / 2 - 1;
      }
    }
  }

  ghost predicate Occurs(text: string, part: string) {
    exists i: nat :: OccursAt(text, part, i)
  }

  /** The positions of the notes that are chosen, in order. */
  predicate AreThose(at: seq<nat>, notes: seq<string>, chosen: string -> bool) {
    && (forall k :: 0 <= k < |at| ==> at[k] < |notes| && chosen(notes[at[k]]))
    && (forall j, k :: 0 <= j < k < |at| ==> at[j] < at[k])
    && (forall i :: 0 <= i < |notes| && chosen(notes[i]) ==> i in at)
  }

  /** The positions of the notes that do not occur in a text, in order. */
  ghost predicate AreAbsent(at: seq<nat>, notes: seq<string>, text: string) {
    AreThose(at, notes, note => !Occurs(text, note))
  }

  function Picked(notes: seq<string>, at: seq<nat>): seq<string>
    requires forall k :: 0 <= k < |at| ==> at[k] < |notes|
  {
    seq(|at|, k requires 0 <= k < |at| => notes[at[k]])
  }

  lemma {:induction false} MissingSnoc(notes: seq<string>, last: string, text: string)
    ensures Missing(notes + [last], text) == Missing(notes, text) + if Includes(text, last) then [] else [last]
  {
    if notes == [] {
      assert [last][1..] == [];
    } else {
      assert (notes + [last])[1..] == notes[1..] + [last];
      MissingSnoc(notes[1..], last, text);
    }
  }

  lemma OneNoteMore(notes: seq<string>, last: string, chosen: string -> bool, at: seq<nat>) returns (more: seq<nat>)
    requires AreThose(at, notes, chosen)
    ensures AreThose(more, notes + [last], chosen)
    ensures Picked(notes + [last], more) == Picked(notes, at) + if chosen(last) then [last] else []
  {
    var all := notes + [last];
    more := at + if chosen(last) then [|notes|] else [];
    assert all[|notes|] == last;
    forall k | 0 <= k < |at|
      ensures all[more[k]] == notes[at[k]]
    {}
    forall i | 0 <= i < |all| && chosen(all[i])
      ensures i in more
    {
      if i < |notes| {
        assert i in at;
      }
    }
  }

  lemma {:induction false} MissingArePicked(notes: seq<string>, text: string) returns (at: seq<nat>)
    ensures AreAbsent(at, notes, text) && Missing(notes, text) == Picked(notes, at)
  {
    if notes == [] {
      at := [];
    } else {
      var front, last := notes[..|notes| - 1], notes[|notes| - 1];
      at := MissingArePicked(front, text);
      MissingSnoc(front, last, text);
      assert front + [last] == notes;
      assert Includes(text, last) <==> Occurs(text, last);
      at := OneNoteMore(front, last, note => !Occurs(text, note), at);
    }
  }

  // ----- The three outcomes

  predicate NoneBegins(lines: seq<string>, prefix: string) {
    forall l :: l in lines ==> !(prefix <= l)
  }

  /** No section of the release: a new one goes right below the first "Unreleased" line, with its title, its
      notes and a blank line behind them; without such a line nothing can be added. */
  lemma NewSection(changelog: string, version: string, notes: seq<string>, date: string, block: seq<string>)
    requires notes != [] && IsBlockOf(block, notes)
    requires var lines := Split(NormalizeLineEnds(changelog), '\n');
             NoneBegins(lines, "## " + version + " -")
    ensures var lines := Split(NormalizeLineEnds(changelog), '\n');
            var merged := Merge(changelog, version, notes, date);
            && (merged.None? <==> "## Unreleased" !in lines)
            && forall u: nat :: u < |lines| && lines[u] == "## Unreleased" && "## Unreleased" !in lines[..u] ==>
                 merged == Some(Join(lines[..u + 1] + ["", "## " + version + " - " + date] + block + [""]
                                     + lines[u + 1..], "\n"))
  {
    var lines := Split(NormalizeLineEnds(changelog), '\n');
    SpacedIsBlock(notes);
    SameBlock(block, Spaced(notes), notes);
    NoSection(lines, version);
    assert Heading(version) + " " + date == "## " + version + " - " + date by {
      assert " -" + " " == " - ";
    }
    forall u: nat | u < |lines| && lines[u] == "## Unreleased" && "## Unreleased" !in lines[..u]
      ensures FindExactLine(lines, "## Unreleased") == Some(u)
    {
      FirstLine(lines, "## Unreleased", u);
    }
    if "## Unreleased" in lines {
      NewSectionText(lines, version, notes, date);
    }
  }

  lemma NewSectionText(lines: seq<string>, version: string, notes: seq<string>, date: string)
    requires notes != [] && FindSection(lines, version).None? && FindExactLine(lines, "## Unreleased").Some?
    ensures var u := FindExactLine(lines, "## Unreleased").value;
            var title := Heading(version) + " " + date;
            EditFor(lines, version, notes, date) == Put(u + 1, ["", title] + Spaced(notes) + [""])
            && Insert(lines, u + 1, ["", title] + Spaced(notes) + [""])
               == Join(lines[..u + 1] + ["", title] + Spaced(notes) + [""] + lines[u + 1..], "\n")
  {
    var u := FindExactLine(lines, "## Unreleased").value;
    var block := ["", Heading(version) + " " + date] + Spaced(notes) + [""];
    assert lines[..u + 1] + block + lines[u + 1..]
        == lines[..u + 1] + ["", Heading(version) + " " + date] + Spaced(notes) + [""] + lines[u + 1..];
  }

  lemma {:induction false} FirstLine(lines: seq<string>, line: string, u: nat)
    requires u < |lines| && lines[u] == line && line !in lines[..u]
    ensures FindExactLine(lines, line) == Some(u)
  {
    if u > 0 {
      assert lines[..u][0] == lines[0];
      assert lines[1..][..u - 1] == lines[..u][1..];
      FirstLine(lines[1..], line, u - 1);
    }
  }

  lemma NoSection(lines: seq<string>, version: string)
    requires NoneBegins(lines, "## " + version + " -")
    ensures FindSection(lines, version).None?
  {
    assert lines[0..|lines|] == lines;
    FindLineIs(lines, Heading(version), 0, |lines|);
  }

  lemma SameBlock(a: seq<string>, b: seq<string>, notes: seq<string>)
    requires IsBlockOf(a, notes) && IsBlockOf(b, notes)
    ensures a == b
  {}

  /** The section of a release: its heading is the first of its kind, and it ends in front of the next heading. */
  ghost predicate IsSection(lines: seq<string>, version: string, heading: nat, end: nat) {
    && heading < end <= |lines|
    && "## " + version + " -" <= lines[heading]
    && (forall i :: 0 <= i < heading ==> !("## " + version + " -" <= lines[i]))
    && (forall i :: heading < i < end ==> !("## " <= lines[i]))
    && (end < |lines| ==> "## " <= lines[end])
  }

  lemma SectionFound(lines: seq<string>, version: string, heading: nat, end: nat)
    requires IsSection(lines, version, heading, end)
    ensures FindSection(lines, version) == Some(Section(heading, end))
  {
    SectionIs(lines, version, heading, end);
  }

  /** A section of the release: the notes that do not occur in it are added in their order at its end, in front
      of the blank line that ends it if one does; if all occur, nothing is added. */
  lemma ExistingSection(changelog: string, version: string, notes: seq<string>, date: string,
                        heading: nat, end: nat, block: seq<string>) returns (absent: seq<nat>)
    requires IsSection(Split(NormalizeLineEnds(changelog), '\n'), version, heading, end)
    ensures var lines := Split(NormalizeLineEnds(changelog), '\n');
            var merged := Merge(changelog, version, notes, date);
            var at := if end > heading + 1 && lines[end - 1] == "" then end - 1 else end;
            && AreAbsent(absent, notes, Join(lines[heading + 1..end], "\n"))
            && (absent == [] ==> merged == Some(NormalizeLineEnds(changelog)))
            && (absent != [] && IsBlockOf(block, Picked(notes, absent)) ==>
                  merged == Some(Join(lines[..at] + block + lines[at..], "\n")))
  {
    var lines := Split(NormalizeLineEnds(changelog), '\n');
    var section := Section(heading, end);
    SectionFound(lines, version, heading, end);
    absent := MissingArePicked(notes, Body(lines, section));
    SectionEdit(lines, version, notes, date, section);
    if IsBlockOf(block, Picked(notes, absent)) {
      SpacedIsBlock(Picked(notes, absent));
      SameBlock(block, Spaced(Picked(notes, absent)), Picked(notes, absent));
    }
  }

  lemma SectionEdit(lines: seq<string>, version: string, notes: seq<string>, date: string, s: Section)
    requires FindSection(lines, version) == Some(s)
    ensures var missing := Missing(notes, Body(lines, s));
            var at := if s.end > s.heading + 1 && lines[s.end - 1] == "" then s.end - 1 else s.end;
            EditFor(lines, version, notes, date) == if missing == [] then Nothing else Put(at, Spaced(missing))
  {}

  /** Nothing is added where there is nothing to add. */
  lemma NoNotes(changelog: string, version: string, date: string)
    ensures Merge(changelog, version, [], date) == Some(NormalizeLineEnds(changelog))
  {}
}
