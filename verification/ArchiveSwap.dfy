/** Extraction of an application archive: into a staging directory, checked there, then swapped with the
    directory of the application. Extractions interleave where they wait for `tar`; the code between two
    waits runs undisturbed. */
module ArchiveSwap {
  import opened Text

  datatype Node = Directory(entries: map<string, Node>) | Regular(content: string) | Special

  /** Directories below one parent; staging and previous directories carry the random ID of their call. */
  datatype Path = Target(name: string) | Staging(id: nat) | Previous(id: nat)

  type Dirs = map<Path, Node>

  const MAX_CONCURRENT_EXTRACTIONS := 2

  const EMPTY := Directory(map[])

  /** Only directories and regular files, at every depth. */
  predicate Plain(n: Node) {
    match n
    case Directory(entries) => forall name :: name in entries ==> Plain(entries[name])
    case Regular(_) => true
    case Special => false
  }

  /** `validateExtractedTree`: an entry that is no directory must be a regular file. */
  method ValidateExtractedTree(root: Node) returns (ok: bool)
    ensures root.Directory? ==> ok == Plain(root)
    ensures !root.Directory? ==> !ok
    decreases root
  {
    if !root.Directory? { return false; }
    var rest := root.entries.Keys;
    while rest != {}
      invariant rest <= root.entries.Keys
      invariant forall name :: name in root.entries && name !in rest ==> Plain(root.entries[name])
      decreases |rest|
    {
      var name :| name in rest;
      rest := rest - {name};
      var entry := root.entries[name];
      if entry.Directory? {
        var inner := ValidateExtractedTree(entry);
        if !inner { return false; }
      } else if !entry.Regular? {
        return false;
      }
    }
    return true;
  }

  /** Which of the file system calls at the end of an extraction fail. */
  datatype Faults = Faults(renameOut: bool, renameIn: bool, restore: bool, cleanStaging: bool, cleanPrevious: bool)

  /** How an extraction ends: whether the new tree went in, whether the call succeeded, and whether it gave
      its slot back. */
  datatype Ending = Ending(dirs: Dirs, installed: bool, ok: bool, released: bool)

  /** The `finally` block. */
  function CleanUp(d: Dirs, id: nat, movedPrevious: bool, movedStaging: bool, f: Faults): Ending {
    if !movedStaging && f.cleanStaging then Ending(d, false, false, false)
    else
      var d1 := if movedStaging then d else d - {Staging(id)};
      if movedPrevious && f.cleanPrevious then Ending(d1, movedStaging, false, false)
      else Ending(if movedPrevious then d1 - {Previous(id)} else d1, movedStaging, movedStaging, true)
  }

  function Renamed(d: Dirs, from: Path, to: Path): Dirs
    requires from in d
  {
    (d - {from})[to := d[from]]
  }

  /** Swapping the staged tree in, with the restore of the `catch` block and the clean-up. */
  function Swap(d: Dirs, id: nat, target: string, f: Faults): Ending
    requires Staging(id) in d
  {
    if Target(target) in d then
      if f.renameOut then CleanUp(d, id, false, false, f)
      else
        var moved := Renamed(d, Target(target), Previous(id));
        if f.renameIn then
          if f.restore then CleanUp(moved, id, true, false, f)
          else CleanUp(Renamed(moved, Previous(id), Target(target)), id, false, false, f)
        else CleanUp(Renamed(moved, Staging(id), Target(target)), id, true, true, f)
    else if f.renameIn then CleanUp(d, id, false, false, f)
    else CleanUp(Renamed(d, Staging(id), Target(target)), id, false, true, f)
  }

  /** The directories agree but for some paths. */
  ghost predicate SameBut(d: Dirs, e: Dirs, changed: set<Path>) {
    forall p :: p !in changed ==> (p in d <==> p in e) && (p in d ==> d[p] == e[p])
  }

  function Lookup(d: Dirs, p: Path): Option<Node> {
    if p in d then Some(d[p]) else None
  }

  /** The old tree is lost where moving the new one in fails and so does moving the old one back: the
      clean-up deletes it. */
  predicate Loses(d: Dirs, target: string, f: Faults) {
    Target(target) in d && !f.renameOut && f.renameIn && f.restore
  }

  /** The swap leaves the old tree or the new one, whole, exactly unless it loses the old one. */
  lemma SwapIsAtomicExactly(d: Dirs, id: nat, target: string, f: Faults)
    requires Staging(id) in d && Previous(id) !in d
    ensures var e := Swap(d, id, target, f);
            var after := Lookup(e.dirs, Target(target));
            && (!Loses(d, target, f)
                <==> after == if e.installed then Some(d[Staging(id)]) else Lookup(d, Target(target)))
            && (Loses(d, target, f) ==> after == None && !e.installed)
            && (e.ok ==> e.installed && e.released)
            && (e.released ==> Staging(id) !in e.dirs && Previous(id) !in e.dirs)
            && SameBut(d, e.dirs, {Target(target), Staging(id), Previous(id)})
    ensures var e := Swap(d, id, target, f);
            !f.cleanStaging && !f.cleanPrevious ==> e.released && (e.ok <==> e.installed)
  {}

  /** The new tree goes in where no rename fails. */
  predicate Installs(d: Dirs, target: string, f: Faults) {
    !f.renameIn && (Target(target) in d ==> !f.renameOut)
  }

  /** The old tree is aside when the clean-up begins: moved out, and not moved back. */
  predicate LeftAside(d: Dirs, target: string, f: Faults) {
    Target(target) in d && !f.renameOut && (f.renameIn ==> f.restore)
  }

  /** The removal of the staged tree fails where it did not go in, or that of the old one where it is aside. */
  predicate SwapLeaks(d: Dirs, target: string, f: Faults) {
    (!Installs(d, target, f) && f.cleanStaging) || (LeftAside(d, target, f) && f.cleanPrevious)
  }

  /** A swap keeps its slot exactly if one of the removals it comes to fails. */
  lemma SwapLeaksExactly(d: Dirs, id: nat, target: string, f: Faults)
    requires Staging(id) in d
    ensures var e := Swap(d, id, target, f);
            && (e.installed <==> Installs(d, target, f))
            && (!e.released <==> SwapLeaks(d, target, f))
  {}

  /** An old tree, a new one, and both renames and the restore failing: nothing is left of either. */
  lemma TreesCanBeLost(present: Node, staged: Node)
    ensures var d: Dirs := map[Target("app") := present, Staging(0) := staged];
            var f := Faults(false, true, true, false, false);
            Loses(d, "app", f) && Swap(d, 0, "app", f).dirs == map[]
  {}

  // ----- One extraction

  /** What goes on outside: the tree `tar` makes of the archive, whether the checks and commands before the
      swap succeed, and what they leave in the staging directory if not. */
  datatype Outside = Outside(mkdirFails: bool, listingOk: bool, tarOk: bool, partial: Node, tree: Node)

  function Whole(d: Dirs, active: int, id: nat, target: string, o: Outside, f: Faults): (Dirs, int, bool) {
    if active >= MAX_CONCURRENT_EXTRACTIONS then (d, active, false)
    else
      var e :=
        if o.mkdirFails then CleanUp(d, id, false, false, f)
        else if !o.listingOk then CleanUp(d[Staging(id) := EMPTY], id, false, false, f)
        else if !o.tarOk || !o.tree.Directory? || !Plain(o.tree) then
          CleanUp(d[Staging(id) := if o.tarOk then o.tree else o.partial], id, false, false, f)
        else Swap(d[Staging(id) := o.tree], id, target, f);
      (e.dirs, if e.released then active else active + 1, e.ok)
  }

  class ArchiveExtractor {
    var dirs: Dirs
    var activeExtractions: int

    constructor (existing: Dirs)
      ensures dirs == existing && activeExtractions == 0
    {
      dirs, activeExtractions := existing, 0;
    }

    method Rename(from: Path, to: Path, fails: bool) returns (ok: bool)
      requires from in dirs
      modifies this`dirs
      ensures ok == !fails && dirs == if fails then old(dirs) else Renamed(old(dirs), from, to)
    {
      if !fails { dirs := (dirs - {from})[to := dirs[from]]; }
      return !fails;
    }

    method Remove(p: Path, fails: bool) returns (ok: bool)
      modifies this`dirs
      ensures ok == !fails && dirs == if fails then old(dirs) else old(dirs) - {p}
    {
      if !fails { dirs := dirs - {p}; }
      return !fails;
    }

    /** The `finally` block; the call fails if it throws. */
    method Finally(id: nat, movedPrevious: bool, movedStaging: bool, f: Faults) returns (ok: bool)
      modifies this
      ensures var e := CleanUp(old(dirs), id, movedPrevious, movedStaging, f);
              && dirs == e.dirs && ok == e.released
              && activeExtractions == if e.released then old(activeExtractions) - 1 else old(activeExtractions)
    {
      if !movedStaging {
        ok := Remove(Staging(id), f.cleanStaging);
        if !ok { return; }
      }
      if movedPrevious {
        ok := Remove(Previous(id), f.cleanPrevious);
        if !ok { return; }
      }
      activeExtractions := activeExtractions - 1;
      return true;
    }

    /** The synchronous end of an extraction, from the swap on. */
    method SwapIn(id: nat, target: string, f: Faults) returns (ok: bool)
      requires Staging(id) in dirs && Previous(id) !in dirs
      modifies this
      ensures var e := Swap(old(dirs), id, target, f);
              && dirs == e.dirs && ok == e.ok
              && activeExtractions == if e.released then old(activeExtractions) - 1 else old(activeExtractions)
    {
      var movedPrevious, movedStaging, failed := false, false, false;
      if Target(target) in dirs {
        movedPrevious := Rename(Target(target), Previous(id), f.renameOut);
        failed := !movedPrevious;
      }
      if !failed {
        movedStaging := Rename(Staging(id), Target(target), f.renameIn);
        failed := !movedStaging;
      }
      if failed && movedPrevious && Target(target) !in dirs {
        var restored := Rename(Previous(id), Target(target), f.restore);
        if restored { movedPrevious := false; }
      }
      var cleaned := Finally(id, movedPrevious, movedStaging, f);
      return !failed && cleaned;
    }

    /** `extractApplicationArchive` without other extractions in between. */
    method ExtractApplicationArchive(id: nat, target: string, o: Outside, f: Faults) returns (ok: bool)
      requires Staging(id) !in dirs && Previous(id) !in dirs
      modifies this
      ensures (dirs, activeExtractions, ok) == Whole(old(dirs), old(activeExtractions), id, target, o, f)
    {
      if activeExtractions >= MAX_CONCURRENT_EXTRACTIONS { return false; }
      activeExtractions := activeExtractions + 1;
      ok := !o.mkdirFails;
      if ok { dirs := dirs[Staging(id) := EMPTY]; }
      ok := ok && o.listingOk;
      if ok {
        dirs := dirs[Staging(id) := if o.tarOk then o.tree else o.partial];
        ok := o.tarOk;
        assert dirs == old(dirs)[Staging(id) := if o.tarOk then o.tree else o.partial];
      }
      if ok { ok := ValidateExtractedTree(dirs[Staging(id)]); }
      if ok {
        ok := SwapIn(id, target, f);
      } else {
        var _ := Finally(id, false, false, f);
      }
    }
  }

  // ----- Interleavings

  datatype Phase = Validating | Extracting | Done(ok: bool)

  datatype Extraction = Extraction(target: string, tree: Node, phase: Phase)

  /** What happened to a target. */
  datatype Event = Installed(target: string, tree: Node) | Lost(target: string)

  /** `leaked` are the calls whose clean-up threw before they gave their slot back. */
  datatype System = System(dirs: Dirs, active: int, calls: map<nat, Extraction>, events: seq<Event>, leaked: set<nat>)

  datatype Move =
    | Begin(id: nat, target: string, tree: Node, mkdirFails: bool, faults: Faults)
    | Listed(id: nat, ok: bool, faults: Faults)
    | Unpack(id: nat, partial: Node)
    | Unpacked(id: nat, ok: bool, faults: Faults)

  function EventsOf(c: Extraction, e: Ending, lost: bool): seq<Event> {
    if e.installed then [Installed(c.target, c.tree)] else if lost then [Lost(c.target)] else []
  }

  /** The end of a call: its clean-up and its slot. */
  function Close(s: System, id: nat, e: Ending, lost: bool): System
    requires id in s.calls
  {
    var c := s.calls[id];
    System(e.dirs,
           if e.released then s.active - 1 else s.active,
           s.calls[id := c.(phase := Done(e.ok))],
           s.events + EventsOf(c, e, lost),
           if e.released then s.leaked else s.leaked + {id})
  }

  /** What follows a complete extraction, without another wait. */
  function CheckAndSwap(s: System, id: nat, d: Dirs, f: Faults): System
    requires id in s.calls && Staging(id) in d
  {
    var c := s.calls[id];
    if !c.tree.Directory? || !Plain(c.tree) then Close(s, id, CleanUp(d, id, false, false, f), false)
    else Close(s, id, Swap(d, id, c.target, f), Loses(d, c.target, f))
  }

  function Next(s: System, move: Move): System {
    match move
    case Begin(id, target, tree, mkdirFails, f) =>
      if id in s.calls then s
      else if s.active >= MAX_CONCURRENT_EXTRACTIONS then
        s.(calls := s.calls[id := Extraction(target, tree, Done(false))])
      else
        var t := s.(active := s.active + 1, calls := s.calls[id := Extraction(target, tree, Validating)]);
        if mkdirFails then Close(t, id, CleanUp(s.dirs, id, false, false, f), false)
        else t.(dirs := s.dirs[Staging(id) := EMPTY])
    case Listed(id, ok, f) =>
      if id !in s.calls || !s.calls[id].phase.Validating? then s
      else if ok then s.(calls := s.calls[id := s.calls[id].(phase := Extracting)])
      else Close(s, id, CleanUp(s.dirs, id, false, false, f), false)
    case Unpack(id, partial) =>
      if id !in s.calls || !s.calls[id].phase.Extracting? then s else s.(dirs := s.dirs[Staging(id) := partial])
    case Unpacked(id, ok, f) =>
      if id !in s.calls || !s.calls[id].phase.Extracting? then s
      else
        if !ok then Close(s, id, CleanUp(s.dirs, id, false, false, f), false)
        else CheckAndSwap(s, id, s.dirs[Staging(id) := s.calls[id].tree], f)
  }

  function Run(existing: Dirs, moves: seq<Move>): System {
    if moves == [] then System(existing, 0, map[], [], {})
    else Next(Run(existing, moves[..|moves| - 1]), moves[|moves| - 1])
  }

  function Running(calls: map<nat, Extraction>): set<nat> {
    set id | id in calls && !calls[id].phase.Done?
  }

  /** What the events say is at a target. */
  function Expected(existing: Dirs, events: seq<Event>, target: string): Option<Node> {
    if events == [] then Lookup(existing, Target(target))
    else
      var last := events[|events| - 1];
      if last.target == target then if last.Installed? then Some(last.tree) else None
      else Expected(existing, events[..|events| - 1], target)
  }

  /** The installed trees are whole and checked, and come from a call for that target. */
  predicate Sound(calls: map<nat, Extraction>, event: Event) {
    event.Installed? ==>
      && event.tree.Directory? && Plain(event.tree)
      && exists id ::
           id in calls && calls[id].phase.Done? && calls[id].target == event.target && calls[id].tree == event.tree
  }

  /** The slots in use are those of running calls and those that were never given back. */
  predicate SlotsAreCounted(s: System) {
    && s.active == |Running(s.calls)| + |s.leaked| && s.active <= MAX_CONCURRENT_EXTRACTIONS
    && s.leaked !! Running(s.calls) && s.leaked <= s.calls.Keys
  }

  /** Running calls have a staging directory; only failed clean-ups leave other directories. */
  ghost predicate TemporariesAreOwned(s: System) {
    && (forall id :: id in Running(s.calls) ==> Staging(id) in s.dirs)
    && (forall id :: Staging(id) in s.dirs ==> id in Running(s.calls) + s.leaked)
    && (forall id :: Previous(id) in s.dirs ==> id in s.leaked)
  }

  ghost predicate TargetsFollowEvents(existing: Dirs, s: System) {
    forall target :: Lookup(s.dirs, Target(target)) == Expected(existing, s.events, target)
  }

  predicate EventsAreSound(s: System) {
    forall i :: 0 <= i < |s.events| ==> Sound(s.calls, s.events[i])
  }

  ghost predicate Inv(existing: Dirs, s: System) {
    SlotsAreCounted(s) && TemporariesAreOwned(s) && TargetsFollowEvents(existing, s) && EventsAreSound(s)
  }

  lemma RunningAfter(calls: map<nat, Extraction>, id: nat, c: Extraction)
    ensures Running(calls[id := c]) == if c.phase.Done? then Running(calls) - {id} else Running(calls) + {id}
  {}

  lemma {:induction false} ExpectedSnoc(existing: Dirs, events: seq<Event>, more: seq<Event>, target: string)
    requires |more| <= 1
    ensures Expected(existing, events + more, target)
            == if more != [] && more[0].target == target then if more[0].Installed? then Some(more[0].tree) else None
               else Expected(existing, events, target)
  {
    if more == [] {
      assert events + more == events;
    } else {
      assert (events + more)[..|events|] == events;
    }
  }

  lemma SoundLater(calls: map<nat, Extraction>, id: nat, c: Extraction, event: Event)
    requires Sound(calls, event) && (id in calls ==> !calls[id].phase.Done?)
    ensures Sound(calls[id := c], event)
  {
    if event.Installed? {
      var i :| i in calls && calls[i].phase.Done? && calls[i].target == event.target && calls[i].tree == event.tree;
      assert i in calls[id := c];
    }
  }

  /** What every way to end a call does to the directories. */
  ghost predicate Ends(d: Dirs, id: nat, c: Extraction, e: Ending, lost: bool) {
    && (e.released ==> Staging(id) !in e.dirs && Previous(id) !in e.dirs)
    && (e.installed ==> !lost && c.tree.Directory? && Plain(c.tree))
    && SameBut(d, e.dirs, {Target(c.target), Staging(id), Previous(id)})
    && Lookup(e.dirs, Target(c.target))
       == (if e.installed then Some(c.tree) else if lost then None else Lookup(d, Target(c.target)))
  }

  lemma CloseKeepsSlots(s: System, id: nat, e: Ending, lost: bool)
    requires SlotsAreCounted(s) && id in Running(s.calls)
    ensures SlotsAreCounted(Close(s, id, e, lost))
  {
    RunningAfter(s.calls, id, s.calls[id].(phase := Done(e.ok)));
  }

  /** The directories that the ended call leaves: none, or ones that its leak accounts for. */
  lemma EndsTemporaries(s: System, d: Dirs, id: nat, e: Ending, lost: bool, i: nat)
    requires TemporariesAreOwned(s) && id in Running(s.calls)
    requires SameBut(s.dirs, d, {Staging(id)}) && Ends(d, id, s.calls[id], e, lost)
    ensures i != id ==> (Staging(i) in e.dirs <==> Staging(i) in s.dirs)
                        && (Previous(i) in e.dirs <==> Previous(i) in s.dirs)
    ensures i == id && e.released ==> Staging(i) !in e.dirs && Previous(i) !in e.dirs
  {
    if i != id {
      assert Staging(i) in d <==> Staging(i) in s.dirs;
      assert Previous(i) in d <==> Previous(i) in s.dirs;
    }
  }

  lemma CloseKeepsTemporaries(s: System, d: Dirs, id: nat, e: Ending, lost: bool)
    requires TemporariesAreOwned(s) && id in Running(s.calls)
    requires SameBut(s.dirs, d, {Staging(id)}) && Ends(d, id, s.calls[id], e, lost)
    ensures TemporariesAreOwned(Close(s, id, e, lost))
  {
    var t := Close(s, id, e, lost);
    RunningAfter(s.calls, id, s.calls[id].(phase := Done(e.ok)));
    forall i: nat
      ensures i in Running(t.calls) ==> Staging(i) in t.dirs
      ensures Staging(i) in t.dirs ==> i in Running(t.calls) + t.leaked
      ensures Previous(i) in t.dirs ==> i in t.leaked
    {
      EndsTemporaries(s, d, id, e, lost, i);
    }
  }

  lemma EndsTargets(s: Dirs, d: Dirs, id: nat, c: Extraction, e: Ending, lost: bool, target: string)
    requires SameBut(s, d, {Staging(id)}) && Ends(d, id, c, e, lost)
    ensures Lookup(e.dirs, Target(target))
            == if target != c.target then Lookup(s, Target(target))
               else if e.installed then Some(c.tree) else if lost then None else Lookup(s, Target(target))
  {
    assert Target(target) in d <==> Target(target) in s;
    assert Target(target) in e.dirs || Target(target) !in e.dirs;
  }

  lemma CloseKeepsTargets(existing: Dirs, s: System, d: Dirs, id: nat, e: Ending, lost: bool)
    requires TargetsFollowEvents(existing, s) && id in s.calls
    requires SameBut(s.dirs, d, {Staging(id)}) && Ends(d, id, s.calls[id], e, lost)
    ensures TargetsFollowEvents(existing, Close(s, id, e, lost))
  {
    var c := s.calls[id];
    forall target
      ensures Lookup(e.dirs, Target(target)) == Expected(existing, s.events + EventsOf(c, e, lost), target)
    {
      EndsTargets(s.dirs, d, id, c, e, lost, target);
      ExpectedSnoc(existing, s.events, EventsOf(c, e, lost), target);
    }
  }

  lemma CloseKeepsEvents(s: System, d: Dirs, id: nat, e: Ending, lost: bool)
    requires EventsAreSound(s) && id in Running(s.calls) && Ends(d, id, s.calls[id], e, lost)
    ensures EventsAreSound(Close(s, id, e, lost))
  {
    var c := s.calls[id];
    var t := Close(s, id, e, lost);
    forall i | 0 <= i < |t.events|
      ensures Sound(t.calls, t.events[i])
    {
      if i < |s.events| {
        SoundLater(s.calls, id, c.(phase := Done(e.ok)), s.events[i]);
      } else {
        assert t.calls[id].phase.Done?;
      }
    }
  }

  lemma CloseKeepsInv(existing: Dirs, s: System, d: Dirs, id: nat, e: Ending, lost: bool)
    requires Inv(existing, s) && id in Running(s.calls)
    requires SameBut(s.dirs, d, {Staging(id)}) && Ends(d, id, s.calls[id], e, lost)
    ensures Inv(existing, Close(s, id, e, lost))
  {
    CloseKeepsSlots(s, id, e, lost);
    CloseKeepsTemporaries(s, d, id, e, lost);
    CloseKeepsTargets(existing, s, d, id, e, lost);
    CloseKeepsEvents(s, d, id, e, lost);
  }

  lemma CleanUpEnds(d: Dirs, id: nat, c: Extraction, f: Faults)
    requires Previous(id) !in d
    ensures Ends(d, id, c, CleanUp(d, id, false, false, f), false)
  {}

  lemma SwapEnds(d: Dirs, id: nat, c: Extraction, f: Faults)
    requires Lookup(d, Staging(id)) == Some(c.tree) && Previous(id) !in d && c.tree.Directory? && Plain(c.tree)
    ensures Ends(d, id, c, Swap(d, id, c.target, f), Loses(d, c.target, f))
  {
    SwapIsAtomicExactly(d, id, c.target, f);
  }

  /** A call that starts, goes on or is refused keeps the targets and the events. */
  lemma EntryKeeps(existing: Dirs, s: System, id: nat, c: Extraction, d: Dirs, active: int)
    requires TargetsFollowEvents(existing, s) && EventsAreSound(s)
    requires id in s.calls ==> !s.calls[id].phase.Done?
    requires SameBut(s.dirs, d, {Staging(id)})
    ensures var t := s.(active := active, calls := s.calls[id := c], dirs := d);
            TargetsFollowEvents(existing, t) && EventsAreSound(t)
  {
    forall target
      ensures Lookup(d, Target(target)) == Expected(existing, s.events, target)
    {
      assert Target(target) != Staging(id);
      assert Lookup(d, Target(target)) == Lookup(s.dirs, Target(target));
    }
    forall i | 0 <= i < |s.events|
      ensures Sound(s.calls[id := c], s.events[i])
    {
      SoundLater(s.calls, id, c, s.events[i]);
    }
  }

  lemma RefusedKeepsInv(existing: Dirs, s: System, id: nat, c: Extraction)
    requires Inv(existing, s) && id !in s.calls && c.phase.Done?
    ensures Inv(existing, s.(calls := s.calls[id := c]))
  {
    RunningAfter(s.calls, id, c);
    assert Running(s.calls) - {id} == Running(s.calls);
    EntryKeeps(existing, s, id, c, s.dirs, s.active);
  }

  lemma AdmittedKeepsInv(existing: Dirs, s: System, id: nat, c: Extraction)
    requires Inv(existing, s) && id !in s.calls && !c.phase.Done? && s.active < MAX_CONCURRENT_EXTRACTIONS
    ensures Inv(existing, s.(active := s.active + 1, calls := s.calls[id := c], dirs := s.dirs[Staging(id) := EMPTY]))
  {
    RunningAfter(s.calls, id, c);
    assert id !in Running(s.calls) && id !in s.leaked;
    EntryKeeps(existing, s, id, c, s.dirs[Staging(id) := EMPTY], s.active + 1);
  }

  lemma BeginKeepsInv(existing: Dirs, s: System, id: nat, target: string, tree: Node, mkdirFails: bool, f: Faults)
    requires Inv(existing, s)
    ensures Inv(existing, Next(s, Begin(id, target, tree, mkdirFails, f)))
  {
    if id !in s.calls {
      if s.active >= MAX_CONCURRENT_EXTRACTIONS {
        RefusedKeepsInv(existing, s, id, Extraction(target, tree, Done(false)));
      } else {
        var c := Extraction(target, tree, Validating);
        AdmittedKeepsInv(existing, s, id, c);
        if mkdirFails {
          var t := s.(active := s.active + 1, calls := s.calls[id := c], dirs := s.dirs[Staging(id) := EMPTY]);
          assert id in Running(t.calls);
          CleanUpEnds(s.dirs, id, c, f);
          CloseKeepsInv(existing, t, s.dirs, id, CleanUp(s.dirs, id, false, false, f), false);
        }
      }
    }
  }

  lemma NextKeepsInv(existing: Dirs, s: System, move: Move)
    requires Inv(existing, s)
    ensures Inv(existing, Next(s, move))
  {
    match move
    case Begin(id, target, tree, mkdirFails, f) => BeginKeepsInv(existing, s, id, target, tree, mkdirFails, f);
    case Listed(id, ok, f) =>
      if id in s.calls && s.calls[id].phase.Validating? {
        if ok {
          ProgressKeepsInv(existing, s, id, Extracting, s.dirs);
        } else {
          FailedKeepsInv(existing, s, id, s.dirs, f);
        }
      }
    case Unpack(id, partial) =>
      if id in s.calls && s.calls[id].phase.Extracting? {
        ProgressKeepsInv(existing, s, id, Extracting, s.dirs[Staging(id) := partial]);
        assert s.calls[id := s.calls[id].(phase := Extracting)] == s.calls;
      }
    case Unpacked(id, ok, f) =>
      if id in s.calls && s.calls[id].phase.Extracting? {
        UnpackedKeepsInv(existing, s, id, ok, f);
      }
  }

  lemma ProgressKeepsInv(existing: Dirs, s: System, id: nat, phase: Phase, d: Dirs)
    requires Inv(existing, s) && id in Running(s.calls) && !phase.Done?
    requires Staging(id) in d && SameBut(s.dirs, d, {Staging(id)})
    ensures Inv(existing, s.(dirs := d, calls := s.calls[id := s.calls[id].(phase := phase)]))
  {
    var c := s.calls[id].(phase := phase);
    RunningAfter(s.calls, id, c);
    assert Running(s.calls) + {id} == Running(s.calls);
    EntryKeeps(existing, s, id, c, d, s.active);
  }

  lemma FailedKeepsInv(existing: Dirs, s: System, id: nat, d: Dirs, f: Faults)
    requires Inv(existing, s) && id in Running(s.calls) && SameBut(s.dirs, d, {Staging(id)})
    ensures Inv(existing, Close(s, id, CleanUp(d, id, false, false, f), false))
  {
    assert Previous(id) !in s.dirs;
    CleanUpEnds(d, id, s.calls[id], f);
    CloseKeepsInv(existing, s, d, id, CleanUp(d, id, false, false, f), false);
  }

  lemma SwappedKeepsInv(existing: Dirs, s: System, id: nat, d: Dirs, f: Faults)
    requires Inv(existing, s) && id in Running(s.calls) && SameBut(s.dirs, d, {Staging(id)})
    requires Lookup(d, Staging(id)) == Some(s.calls[id].tree) && s.calls[id].tree.Directory? && Plain(s.calls[id].tree)
    ensures var target := s.calls[id].target; Inv(existing, Close(s, id, Swap(d, id, target, f), Loses(d, target, f)))
  {
    assert Previous(id) !in s.dirs;
    SwapEnds(d, id, s.calls[id], f);
    CloseKeepsInv(existing, s, d, id, Swap(d, id, s.calls[id].target, f), Loses(d, s.calls[id].target, f));
  }

  lemma CheckAndSwapKeepsInv(existing: Dirs, s: System, id: nat, d: Dirs, f: Faults)
    requires Inv(existing, s) && id in Running(s.calls) && SameBut(s.dirs, d, {Staging(id)})
    requires Staging(id) in d && d[Staging(id)] == s.calls[id].tree
    ensures Inv(existing, CheckAndSwap(s, id, d, f))
  {
    var c := s.calls[id];
    if !c.tree.Directory? || !Plain(c.tree) {
      FailedKeepsInv(existing, s, id, d, f);
    } else {
      SwappedKeepsInv(existing, s, id, d, f);
    }
  }

  lemma UnpackedIs(s: System, id: nat, ok: bool, f: Faults)
    requires id in s.calls && s.calls[id].phase.Extracting?
    ensures Next(s, Unpacked(id, ok, f))
            == if ok then CheckAndSwap(s, id, s.dirs[Staging(id) := s.calls[id].tree], f)
               else Close(s, id, CleanUp(s.dirs, id, false, false, f), false)
  {}

  lemma UnpackedKeepsInv(existing: Dirs, s: System, id: nat, ok: bool, f: Faults)
    requires Inv(existing, s) && id in s.calls && s.calls[id].phase.Extracting?
    ensures Inv(existing, Next(s, Unpacked(id, ok, f)))
  {
    assert id in Running(s.calls);
    UnpackedIs(s, id, ok, f);
    if ok {
      CheckAndSwapKeepsInv(existing, s, id, s.dirs[Staging(id) := s.calls[id].tree], f);
    } else {
      FailedKeepsInv(existing, s, id, s.dirs, f);
    }
  }

  /** Before the first extraction there are no staging or previous directories. */
  ghost predicate Tidy(d: Dirs) {
    forall id :: Staging(id) !in d && Previous(id) !in d
  }

  lemma {:induction false} RunKeepsInv(existing: Dirs, moves: seq<Move>)
    requires Tidy(existing)
    ensures Inv(existing, Run(existing, moves))
  {
    if moves == [] {
      assert Running(map[]) == {};
    } else {
      RunKeepsInv(existing, moves[..|moves| - 1]);
      NextKeepsInv(existing, Run(existing, moves[..|moves| - 1]), moves[|moves| - 1]);
    }
  }

  // ----- What every run keeps

  function FaultsOf(move: Move): Faults {
    match move
    case Begin(_, _, _, _, f) => f
    case Listed(_, _, f) => f
    case Unpack(_, _) => Faults(false, false, false, false, false)
    case Unpacked(_, _, f) => f
  }

  predicate RestoresWork(moves: seq<Move>) {
    forall i :: 0 <= i < |moves| ==> !FaultsOf(moves[i]).restore
  }

  predicate CleanUpsWork(moves: seq<Move>) {
    forall i :: 0 <= i < |moves| ==> !FaultsOf(moves[i]).cleanStaging && !FaultsOf(moves[i]).cleanPrevious
  }

  /** A move adds at most one event, and no loss while restores work. */
  lemma NextInstalls(s: System, move: Move)
    requires !FaultsOf(move).restore
    ensures var t := Next(s, move);
            t.events == s.events
            || (|t.events| == |s.events| + 1 && s.events <= t.events && t.events[|s.events|].Installed?)
  {}

  lemma {:induction false} NothingIsLost(existing: Dirs, moves: seq<Move>, i: nat)
    requires RestoresWork(moves) && i < |Run(existing, moves).events|
    ensures Run(existing, moves).events[i].Installed?
  {
    if moves != [] {
      var n := |moves| - 1;
      NextInstalls(Run(existing, moves[..n]), moves[n]);
      if i < |Run(existing, moves[..n]).events| {
        NothingIsLost(existing, moves[..n], i);
      }
    }
  }

  /** The move ends a call in whose clean-up a removal fails. */
  predicate Leaks(s: System, move: Move) {
    match move
    case Begin(id, target, tree, mkdirFails, f) =>
      id !in s.calls && s.active < MAX_CONCURRENT_EXTRACTIONS && mkdirFails && f.cleanStaging
    case Listed(id, ok, f) => id in s.calls && s.calls[id].phase.Validating? && !ok && f.cleanStaging
    case Unpack(_, _) => false
    case Unpacked(id, ok, f) =>
      && id in s.calls && s.calls[id].phase.Extracting?
      && var c := s.calls[id];
         if !ok || !c.tree.Directory? || !Plain(c.tree) then f.cleanStaging
         else SwapLeaks(s.dirs, c.target, f)
  }

  lemma NextLeaks(s: System, move: Move)
    ensures Next(s, move).leaked == if Leaks(s, move) then s.leaked + {move.id} else s.leaked
  {
    if move.Unpacked? && move.id in s.calls && s.calls[move.id].phase.Extracting? && move.ok {
      var c := s.calls[move.id];
      SwapLeaksExactly(s.dirs[Staging(move.id) := c.tree], move.id, c.target, move.faults);
    }
  }

  predicate LeaksAt(existing: Dirs, moves: seq<Move>, i: nat)
    requires i < |moves|
  {
    Leaks(Run(existing, moves[..i]), moves[i])
  }

  lemma LeakedBefore(existing: Dirs, moves: seq<Move>, n: nat, i: nat)
    requires i < n <= |moves|
    ensures LeaksAt(existing, moves[..n], i) <==> LeaksAt(existing, moves, i)
  {
    assert moves[..n][..i] == moves[..i];
  }

  /** The slots that are never given back are those of the calls in whose clean-up a removal failed. */
  lemma {:induction false} LeakedExactly(existing: Dirs, moves: seq<Move>, id: nat)
    ensures id in Run(existing, moves).leaked <==>
              exists i :: 0 <= i < |moves| && LeaksAt(existing, moves, i) && moves[i].id == id
  {
    if moves != [] {
      var n := |moves| - 1;
      LeakedExactly(existing, moves[..n], id);
      NextLeaks(Run(existing, moves[..n]), moves[n]);
      forall i | 0 <= i < n
        ensures LeaksAt(existing, moves[..n], i) <==> LeaksAt(existing, moves, i)
      {
        LeakedBefore(existing, moves, n, i);
      }
      assert LeaksAt(existing, moves, n) <==> Leaks(Run(existing, moves[..n]), moves[n]);
    }
  }

  lemma NothingIsLeaked(existing: Dirs, moves: seq<Move>)
    requires CleanUpsWork(moves)
    ensures Run(existing, moves).leaked == {}
  {
    forall id
      ensures id !in Run(existing, moves).leaked
    {
      LeakedExactly(existing, moves, id);
      assert forall i :: 0 <= i < |moves| ==> !FaultsOf(moves[i]).cleanStaging && !LeaksAt(existing, moves, i);
    }
  }

  lemma {:induction false} ExpectedIsLastEvent(existing: Dirs, events: seq<Event>, target: string)
    requires forall i :: 0 <= i < |events| ==> events[i].Installed?
    ensures || Expected(existing, events, target) == Lookup(existing, Target(target))
            || exists i :: 0 <= i < |events| && events[i].target == target
                  && Expected(existing, events, target) == Some(events[i].tree)
  {
    if events != [] && events[|events| - 1].target != target {
      ExpectedIsLastEvent(existing, events[..|events| - 1], target);
    }
  }

  /** However extractions interleave and whichever of their steps fail, restores aside: a target always is
      the tree it was at first, or the whole, checked tree of an extraction into it that has ended. */
  lemma TargetsAreWhole(existing: Dirs, moves: seq<Move>, target: string)
    requires Tidy(existing) && RestoresWork(moves)
    ensures var s := Run(existing, moves);
            var now := Lookup(s.dirs, Target(target));
            || now == Lookup(existing, Target(target))
            || (now.Some? && Plain(now.value)
                && exists id :: id in s.calls && s.calls[id].phase.Done?
                      && s.calls[id].target == target && s.calls[id].tree == now.value)
  {
    var s := Run(existing, moves);
    RunKeepsInv(existing, moves);
    forall i | 0 <= i < |s.events|
      ensures s.events[i].Installed?
    {
      NothingIsLost(existing, moves, i);
    }
    ExpectedIsLastEvent(existing, s.events, target);
    var now := Lookup(s.dirs, Target(target));
    if now != Lookup(existing, Target(target)) {
      var i :| 0 <= i < |s.events| && s.events[i].target == target && now == Some(s.events[i].tree);
      assert Sound(s.calls, s.events[i]);
    }
  }

  lemma OwnedWithoutLeaks(s: System)
    requires SlotsAreCounted(s) && TemporariesAreOwned(s) && s.leaked == {}
    ensures s.active == |Running(s.calls)| && 0 <= s.active <= MAX_CONCURRENT_EXTRACTIONS
    ensures forall id :: Staging(id) in s.dirs <==> id in Running(s.calls)
    ensures forall id :: Previous(id) !in s.dirs
  {}

  /** The limit holds in every run; while clean-ups work, the counter is the number of running extractions,
      only they have staging directories, and nothing else remains once they have ended. */
  lemma NothingIsLeftBehind(existing: Dirs, moves: seq<Move>)
    requires Tidy(existing) && CleanUpsWork(moves)
    ensures var s := Run(existing, moves);
            && s.active == |Running(s.calls)| && 0 <= s.active <= MAX_CONCURRENT_EXTRACTIONS
            && (forall id :: Staging(id) in s.dirs <==> id in Running(s.calls))
            && (forall id :: Previous(id) !in s.dirs)
            && (Running(s.calls) == {} ==> s.active == 0 && Tidy(s.dirs))
  {
    RunKeepsInv(existing, moves);
    NothingIsLeaked(existing, moves);
    var s := Run(existing, moves);
    OwnedWithoutLeaks(s);
  }

  /** When all extractions have ended, the counter is back at its starting value exactly if no removal of a
      clean-up has failed. */
  lemma CounterReturnsExactly(existing: Dirs, moves: seq<Move>)
    requires Tidy(existing) && Running(Run(existing, moves).calls) == {}
    ensures Run(existing, moves).active == 0 <==> forall i :: 0 <= i < |moves| ==> !LeaksAt(existing, moves, i)
  {
    var s := Run(existing, moves);
    RunKeepsInv(existing, moves);
    if forall i :: 0 <= i < |moves| ==> !LeaksAt(existing, moves, i) {
      forall id
        ensures id !in s.leaked
      {
        LeakedExactly(existing, moves, id);
      }
      assert s.leaked == {};
    } else {
      var i :| 0 <= i < |moves| && LeaksAt(existing, moves, i);
      LeakedExactly(existing, moves, moves[i].id);
      assert moves[i].id in s.leaked;
    }
  }

  /** A slot is free exactly while running extractions and slots never given back are fewer than two; after
      two such slots no extraction is let in again. */
  lemma AdmittedExactly(existing: Dirs, moves: seq<Move>, begin: Move)
    requires Tidy(existing) && begin.Begin? && !begin.mkdirFails && begin.id !in Run(existing, moves).calls
    ensures var s := Run(existing, moves);
            var t := Next(s, begin);
            && s.active == |Running(s.calls)| + |s.leaked| <= MAX_CONCURRENT_EXTRACTIONS
            && (t.calls[begin.id].phase == Validating <==> |Running(s.calls)| + |s.leaked| < MAX_CONCURRENT_EXTRACTIONS)
            && (t.calls[begin.id].phase != Validating ==> t.calls[begin.id].phase == Done(false) && t.dirs == s.dirs)
  {
    RunKeepsInv(existing, moves);
  }

  /** Two extractions whose staging directory can be neither made nor removed shut out a third one. */
  lemma TwoLeaksShutOut(tree: Node)
    ensures var f := Faults(false, false, false, true, false);
            var s := Run(map[], [Begin(0, "app", tree, true, f), Begin(1, "app", tree, true, f)]);
            && Running(s.calls) == {} && s.active == MAX_CONCURRENT_EXTRACTIONS && s.leaked == {0, 1}
            && forall f :: Next(s, Begin(2, "app", tree, false, f)).calls[2].phase == Done(false)
  {
    var f := Faults(false, false, false, true, false);
    var first, second := Begin(0, "app", tree, true, f), Begin(1, "app", tree, true, f);
    assert [first, second][..1] == [first] && [first][..0] == [];
    assert Run(map[], [first]) == Next(System(map[], 0, map[], [], {}), first);
  }
}
