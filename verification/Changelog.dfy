/** Merging release notes into the changelog: into the section of the release if there is one, into a new
    section below "Unreleased" otherwise. */
module Changelog {
  import opened Text

  /** `replaceAll("\r\n", "\n")` */
  function NormalizeLineEnds(s: string): string {
    if s == "" then ""
    else if OccursAt(s, "\r\n", 0) then "\n" + NormalizeLineEnds(s[2..])
    else [s[0]] + NormalizeLineEnds(s[1..])
  }

  predicate StartsWith(line: string, prefix: string) {
    prefix <= line
  }

  /** The first line at or behind `from` that starts with `prefix`. */
  function FindLine(lines: seq<string>, prefix: string, from: nat): (r: Option<nat>)
    ensures r.Some? ==> from <= r.value < |lines| && StartsWith(lines[r.value], prefix)
    ensures r.Some? ==> forall i :: from <= i < r.value ==> !StartsWith(lines[i], prefix)
    ensures r.None? ==> forall i :: from <= i < |lines| ==> !StartsWith(lines[i], prefix)
    decreases |lines| - from
  {
    if from >= |lines| then None
    else if StartsWith(lines[from], prefix) then Some(from)
    else FindLine(lines, prefix, from + 1)
  }

  /** `lines.indexOf(line)` */
  function FindExactLine(lines: seq<string>, line: string): (r: Option<nat>)
    ensures r.Some? ==> r.value < |lines| && lines[r.value] == line
    ensures r.Some? ==> line !in lines[..r.value]
    ensures r.None? ==> line !in lines
  {
    if lines == [] then None
    else if lines[0] == line then Some(0)
    else
      var rest := FindExactLine(lines[1..], line);
      if rest.None? then None else Some(1 + rest.value)
  }

  predicate Includes(s: string, part: string) {
    IndexOf(s, part, 0).Some?
  }

  function Heading(version: string): string {
    "## " + version + " -"
  }

  /** The notes that are not in the section yet. */
  function Missing(notes: seq<string>, section: string): seq<string> {
    if notes == [] then []
    else (if Includes(section, notes[0]) then [] else [notes[0]]) + Missing(notes[1..], section)
  }

  /** Every note behind a blank line. */
  function Spaced(notes: seq<string>): seq<string> {
    if notes == [] then [] else ["", notes[0]] + Spaced(notes[1..])
  }

  /** The section of a release: from `start` up to `end` in the lines. */
  datatype Section = Section(heading: nat, end: nat)

  function FindSection(lines: seq<string>, version: string): (r: Option<Section>)
    ensures r.Some? ==> r.value.heading < r.value.end <= |lines|
  {
    var heading := FindLine(lines, Heading(version), 0);
    if heading.None? then None
    else
      var next := FindLine(lines, "## ", heading.value + 1);
      Some(Section(heading.value, if next.None? then |lines| else next.value))
  }

  function Body(lines: seq<string>, s: Section): string
    requires s.heading < s.end <= |lines|
  {
    Join(lines[s.heading + 1..s.end], "\n")
  }

  function InsertionPoint(lines: seq<string>, s: Section): (i: nat)
    requires s.heading < s.end <= |lines|
    ensures s.heading < i <= s.end
  {
    if s.end > s.heading + 1 && lines[s.end - 1] == "" then s.end - 1 else s.end
  }

  function Insert(lines: seq<string>, at: nat, block: seq<string>): string
    requires at <= |lines|
  {
    Join(lines[..at] + block + lines[at..], "\n")
  }

  /** The block that goes into a changelog, and the line before which it goes; None where nothing is to be
      added, or nothing can be. */
  datatype Edit = Nothing | Impossible | Put(at: nat, block: seq<string>)

  function EditFor(lines: seq<string>, version: string, notes: seq<string>, date: string): (e: Edit)
    ensures e.Put? ==> e.at <= |lines| && e.block != [] && e.block[0] == ""
  {
    var section := FindSection(lines, version);
    if section.Some? then
      var missing := Missing(notes, Body(lines, section.value));
      if missing == [] then Nothing else Put(InsertionPoint(lines, section.value), Spaced(missing))
    else if notes == [] then Nothing
    else
      var unreleased := FindExactLine(lines, "## Unreleased");
      if unreleased.None? then Impossible
      else Put(unreleased.value + 1, ["", Heading(version) + " " + date] + Spaced(notes) + [""])
  }

  /** The merged changelog; None where the program throws. */
  function Merge(changelog: string, version: string, notes: seq<string>, date: string): Option<string> {
    var text := NormalizeLineEnds(changelog);
    var lines := Split(text, '\n');
    match EditFor(lines, version, notes, date)
    case Nothing => Some(text)
    case Impossible => None
    case Put(at, block) => Some(Insert(lines, at, block))
  }

  lemma {:induction false} SpacedSnoc(notes: seq<string>, last: string)
    ensures Spaced(notes + [last]) == Spaced(notes) + ["", last]
  {
    if notes == [] {
      assert Spaced([last]) == ["", last] + Spaced([last][1..]);
    } else {
      assert (notes + [last])[1..] == notes[1..] + [last];
      SpacedSnoc(notes[1..], last);
    }
  }

  /** `noteLines`: blank lines between notes. */
  method NoteLines(notes: seq<string>) returns (noteLines: seq<string>)
    requires notes != []
    ensures [""] + noteLines == Spaced(notes)
  {
    noteLines := [notes[0]];
    SpacedSnoc([], notes[0]);
    assert notes[..1] == [] + [notes[0]];
    for i := 1 to |notes|
      invariant [""] + noteLines == Spaced(notes[..i])
    {
      SpacedSnoc(notes[..i], notes[i]);
      assert notes[..i + 1] == notes[..i] + [notes[i]];
      noteLines := noteLines + ["", notes[i]];
    }
    assert notes[..|notes|] == notes;
  }

  /** `mergeReleaseNotesIntoChangelog` */
  method MergeReleaseNotesIntoChangelog(changelog: string, version: string, notes: seq<string>, date: string)
    returns (merged: Option<string>)
    ensures merged == Merge(changelog, version, notes, date)
  {
    var normalizedChangelog := NormalizeLineEnds(changelog);
    var lines := Split(normalizedChangelog, '\n');
    var section := FindSection(lines, version);
    var notesToAdd := if section.Some? then Missing(notes, Body(lines, section.value)) else notes;
    if notesToAdd == [] { return Some(normalizedChangelog); }
    var noteLines := NoteLines(notesToAdd);
    if section.Some? {
      var insertionIndex := section.value.end;
      if insertionIndex > section.value.heading + 1 && lines[insertionIndex - 1] == "" {
        insertionIndex := insertionIndex - 1;
      }
      lines := lines[..insertionIndex] + ([""] + noteLines) + lines[insertionIndex..];
      return Some(Join(lines, "\n"));
    }
    var unreleased := FindExactLine(lines, "## Unreleased");
    if unreleased.None? { return None; }
    var at := unreleased.value + 1;
    var block := ["", Heading(version) + " " + date] + ([""] + noteLines) + [""];
    lines := lines[..at] + block + lines[at..];
    return Some(Join(lines, "\n"));
  }
}
