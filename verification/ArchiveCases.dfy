/** Which extractions succeed, and how one that nothing disturbs fits into the runs. */
module ArchiveCases {
  import opened Text
  import opened ArchiveSwap

  // ----- Plain trees

  /** The entry that a path of names leads to. */
  function Entry(n: Node, path: seq<string>): Option<Node> {
    if path == [] then Some(n)
    else if n.Directory? && path[0] in n.entries then Entry(n.entries[path[0]], path[1..])
    else None
  }

  lemma {:induction false} EntriesOfPlain(n: Node, path: seq<string>)
    requires Plain(n)
    ensures Entry(n, path) != Some(Special)
    decreases path
  {
    if path != [] && n.Directory? && path[0] in n.entries {
      EntriesOfPlain(n.entries[path[0]], path[1..]);
    }
  }

  lemma {:induction false} SpecialEntry(n: Node) returns (path: seq<string>)
    requires !Plain(n)
    ensures Entry(n, path) == Some(Special)
    decreases n
  {
    if n.Special? {
      path := [];
    } else {
      var name :| name in n.entries && !Plain(n.entries[name]);
      var rest := SpecialEntry(n.entries[name]);
      path := [name] + rest;
      assert path[1..] == rest;
    }
  }

  /** A tree is plain exactly if no path in it leads to anything but directories and regular files. */
  lemma PlainExactly(n: Node)
    ensures Plain(n) <==> forall path :: Entry(n, path) != Some(Special)
  {
    if Plain(n) {
      forall path
        ensures Entry(n, path) != Some(Special)
      {
        EntriesOfPlain(n, path);
      }
    } else {
      var path := SpecialEntry(n);
    }
  }

  // ----- One extraction

  /** An extraction succeeds exactly if a slot is free, every step before the swap succeeds, the tree is a plain
      directory, and no step of the swap fails; then the tree is in place. One that fails before the swap
      leaves the target alone. */
  lemma WholeSucceedsExactly(d: Dirs, active: int, id: nat, target: string, o: Outside, f: Faults)
    requires Staging(id) !in d && Previous(id) !in d
    ensures var (after, slots, ok) := Whole(d, active, id, target, o, f);
            var accepted := && active < 2 && !o.mkdirFails && o.listingOk && o.tarOk
                            && o.tree.Directory? && Plain(o.tree);
            && (ok <==> accepted && !f.renameIn && (Target(target) in d ==> !f.renameOut && !f.cleanPrevious))
            && (ok ==> after == d[Target(target) := o.tree] && slots == active)
            && (!accepted ==> Lookup(after, Target(target)) == Lookup(d, Target(target)))
            && (active >= 2 ==> after == d && slots == active)
            && (active < 2 && !accepted ==> slots == if f.cleanStaging then active + 1 else active)
  {}


  /** What a new call does when no other move comes between its own. */
  function Undisturbed(s: System, id: nat, target: string, o: Outside, f: Faults): System {
    var begun := Next(s, Begin(id, target, o.tree, o.mkdirFails, f));
    var listed := Next(begun, Listed(id, o.listingOk, f));
    Next(Next(listed, Unpack(id, o.partial)), Unpacked(id, o.tarOk, f))
  }

  lemma RestagedDirs(d: Dirs, p: Path, a: Node, b: Node)
    ensures d[p := a][p := b] == d[p := b]
  {}

  lemma ListedUndisturbed(s: System, id: nat, target: string, o: Outside, f: Faults)
    requires id !in s.calls && s.active < 2 && !o.mkdirFails && o.listingOk
    ensures var begun := Next(s, Begin(id, target, o.tree, o.mkdirFails, f));
            Next(Next(begun, Listed(id, o.listingOk, f)), Unpack(id, o.partial))
            == s.(active := s.active + 1, dirs := s.dirs[Staging(id) := o.partial],
                  calls := s.calls[id := Extraction(target, o.tree, Extracting)])
  {
    var validating, extracting := Extraction(target, o.tree, Validating), Extraction(target, o.tree, Extracting);
    assert s.calls[id := validating][id := extracting] == s.calls[id := extracting];
    RestagedDirs(s.dirs, Staging(id), EMPTY, o.partial);
  }

  lemma EarlyUndisturbed(s: System, id: nat, target: string, o: Outside, f: Faults)
    requires id !in s.calls && (s.active >= 2 || o.mkdirFails || !o.listingOk)
    ensures var t := Undisturbed(s, id, target, o, f);
            var (dirs, active, ok) := Whole(s.dirs, s.active, id, target, o, f);
            t.dirs == dirs && t.active == active && t.calls[id].phase == Done(ok)
  {}

  /** The moves of a call, one after the other, end as the whole extraction does. */
  lemma UndisturbedIsWhole(s: System, id: nat, target: string, o: Outside, f: Faults)
    requires id !in s.calls
    ensures var t := Undisturbed(s, id, target, o, f);
            var (dirs, active, ok) := Whole(s.dirs, s.active, id, target, o, f);
            t.dirs == dirs && t.active == active && t.calls[id].phase == Done(ok)
  {
    if s.active >= 2 || o.mkdirFails || !o.listingOk {
      EarlyUndisturbed(s, id, target, o, f);
    } else {
      ListedUndisturbed(s, id, target, o, f);
      RestagedDirs(s.dirs, Staging(id), o.partial, o.tree);
    }
  }

  /** A tree is installed exactly where its extraction is complete, the tree is a plain directory, and neither
      rename fails. */
  lemma InstalledExactly(s: System, move: Move)
    ensures var installs := && move.Unpacked? && move.id in s.calls && s.calls[move.id].phase.Extracting? && move.ok
                            && s.calls[move.id].tree.Directory? && Plain(s.calls[move.id].tree)
                            && !move.faults.renameIn
                            && (Target(s.calls[move.id].target) in s.dirs ==> !move.faults.renameOut);
            var t := Next(s, move);
            && (installs <==> |t.events| == |s.events| + 1 && t.events[|s.events|].Installed?)
            && (installs ==> t.events[|s.events|] == Installed(s.calls[move.id].target, s.calls[move.id].tree))
  {
    if move.Unpacked? && move.id in s.calls && s.calls[move.id].phase.Extracting? && move.ok {
      var c := s.calls[move.id];
      SwapLeaksExactly(s.dirs[Staging(move.id) := c.tree], move.id, c.target, move.faults);
    }
  }
}
