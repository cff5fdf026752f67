/** Replacing the configuration of a running Caddy container: write, compare, back up, validate, swap,
    reload, and roll back when a command fails. Every command may fail. */
module CaddyTransaction {
  import opened Text

  /** How a command fails: before or after it has had its effect, or leaving something else in the file
      it writes. */
  datatype Fault = Works | FailsBefore | FailsAfter | FailsPartway(leftover: Option<string>)

  datatype Command =
    Inspect | Archive | Format | ReadActive | ReadNext | RemoveNext | BackUp | Validate | Swap | Reload | RemovePrevious

  /** How each command of one call turns out. */
  datatype Plan = Plan(
    inspect: bool, archive: Fault, format: Fault, readActive: bool, readNext: bool, removeNext: Fault,
    backUp: Fault, validate: bool, swap: Fault, reload: Fault, rollback: Fault, removePrevious: Fault)

  datatype Outcome = Changed | Same | Failed(at: Command)

  /** The files Caddyfile, Caddyfile.next and Caddyfile.previous, and the configuration Caddy runs. */
  datatype Files = Files(active: string, next: Option<string>, previous: Option<string>, running: string)

  /** `caddy fmt` and `caddy validate`. */
  datatype Tools = Tools(format: string -> string, valid: string -> bool)

  // ----- Commands, on values

  function Written(before: Option<string>, content: Option<string>, fault: Fault): Option<string> {
    match fault
    case Works => content
    case FailsBefore => before
    case FailsAfter => content
    case FailsPartway(leftover) => leftover
  }

  predicate TakesEffect(fault: Fault) {
    fault.Works? || fault.FailsAfter?
  }

  function Swapped(f: Files, fault: Fault): Files {
    if TakesEffect(fault) && f.next.Some? then f.(active := f.next.value, next := None) else f
  }

  /** A rollback that fails part-way has moved the backup and left the candidate. */
  predicate Restores(fault: Fault) {
    !fault.FailsBefore?
  }

  /** `rollbackTypedCaddyConfiguration` */
  function RolledBack(f: Files, fault: Fault): Files {
    if !Restores(fault) then f
    else
      var restored := if f.previous.Some? then f.(active := f.previous.value, previous := None) else f;
      if fault.FailsPartway? then restored else restored.(next := None)
  }

  /** The files up to the comparison of the active configuration with the candidate. */
  function Prepared(tools: Tools, f: Files, input: string, plan: Plan): (Files, Option<Command>) {
    if !plan.inspect then (f, Some(Inspect))
    else
      var archived := f.(next := Written(f.next, Some(input), plan.archive));
      if !plan.archive.Works? then (archived, Some(Archive))
      else
        var formatted := f.(next := Written(archived.next, Some(tools.format(input)), plan.format));
        if !plan.format.Works? then (formatted, Some(Format))
        else if !plan.readActive then (formatted, Some(ReadActive))
        else if !plan.readNext then (formatted, Some(ReadNext))
        else (formatted, None)
  }

  /** The files and the outcome behind the comparison, when the configurations differ. */
  function Replaced(tools: Tools, f: Files, plan: Plan): (Files, Outcome)
    requires f.next.Some?
  {
    var candidate := f.next.value;
    var backedUp := f.(previous := Written(f.previous, Some(f.active), plan.backUp));
    if !plan.backUp.Works? then (backedUp, Failed(BackUp))
    else if !plan.validate || !tools.valid(candidate) then (RolledBack(backedUp, plan.rollback), Failed(Validate))
    else
      var swapped := Swapped(backedUp, plan.swap);
      if !plan.swap.Works? then (RolledBack(swapped, plan.rollback), Failed(Swap))
      else
        var reloaded := if TakesEffect(plan.reload) then swapped.(running := swapped.active) else swapped;
        if !plan.reload.Works? then (RolledBack(reloaded, plan.rollback), Failed(Reload))
        else
          var cleaned := if TakesEffect(plan.removePrevious) then reloaded.(previous := None) else reloaded;
          (cleaned, if plan.removePrevious.Works? then Changed else Failed(RemovePrevious))
  }

  predicate Consistent(f: Files) {
    f.active == f.running
  }

  /** A failed reload leaves the running configuration alone, and the rollback works when it is called for. */
  predicate Tame(plan: Plan) {
    (plan.reload.FailsBefore? || plan.reload.Works?) && plan.rollback.Works?
  }

  /** The swap was reached and the faults leave exactly one of the file and the running configuration
      changed. */
  predicate Torn(tools: Tools, f: Files, input: string, plan: Plan) {
    && plan.inspect && plan.archive.Works? && plan.format.Works? && plan.readActive && plan.readNext
    && f.active != tools.format(input)
    && plan.backUp.Works? && plan.validate && tools.valid(tools.format(input))
    && (if plan.swap.Works? then
          || (plan.reload.FailsAfter? && Restores(plan.rollback))
          || ((plan.reload.FailsBefore? || plan.reload.FailsPartway?) && !Restores(plan.rollback))
        else plan.swap.FailsAfter? && !Restores(plan.rollback))
  }

  /** Success: both the file and the running configuration are the validated candidate. Failure before
      the final clean-up, or nothing to do: both are what they were. Failure of the clean-up itself: as
      for success. */
  predicate Atomic(tools: Tools, f: Files, input: string, g: Files, outcome: Outcome) {
    var candidate := tools.format(input);
    && (outcome == Changed || outcome == Failed(RemovePrevious) ==>
          g.active == candidate && g.running == candidate && tools.valid(candidate) && candidate != f.active)
    && (outcome == Same ==> g.active == f.active == candidate && g.running == f.running && g.next == None)
    && (outcome.Failed? && outcome.at != RemovePrevious ==> g.active == f.active && g.running == f.running)
    && (outcome == Changed ==> g.next == None && g.previous == None)
    && (outcome.Failed? && outcome.at in {Validate, Swap, Reload} ==> g.next == None && g.previous == None)
  }

  /** One call. It is atomic if reload and rollback behave; whatever fails and however, it separates the
      file from the running configuration exactly when it is torn: a reload fails after it took effect
      and is rolled back, or a swap that took effect is not rolled back although the reload did not
      happen. */
  function Applied(tools: Tools, f: Files, input: string, plan: Plan): (r: (Files, Outcome))
    ensures Tame(plan) ==> Atomic(tools, f, input, r.0, r.1)
    ensures Consistent(f) ==> (Consistent(r.0) <==> !Torn(tools, f, input, plan))
  {
    var (prepared, failure) := Prepared(tools, f, input, plan);
    if failure.Some? then (prepared, Failed(failure.value))
    else if prepared.active == tools.format(input) then
      (if TakesEffect(plan.removeNext) then prepared.(next := None) else prepared,
       if plan.removeNext.Works? then Same else Failed(RemoveNext))
    else Replaced(tools, prepared, plan)
  }

  // ----- The program

  class CaddyContainer {
    const tools: Tools
    var active: string
    var next: Option<string>
    var previous: Option<string>
    var running: string

    ghost function Contents(): Files
      reads this
    {
      Files(active, next, previous, running)
    }

    constructor (tools: Tools, configuration: string)
      ensures this.tools == tools && Contents() == Files(configuration, None, None, configuration)
    {
      this.tools := tools;
      active, next, previous, running := configuration, None, None, configuration;
    }

    method RollBack(fault: Fault)
      modifies this
      ensures Contents() == RolledBack(old(Contents()), fault)
      ensures running == old(running) && (fault.FailsBefore? ==> Contents() == old(Contents()))
      ensures !fault.FailsBefore? ==>
                && active == (if old(previous).Some? then old(previous).value else old(active)) && previous == None
                && next == if fault.FailsPartway? then old(next) else None
    {
      if fault.FailsBefore? { return; }
      if previous.Some? {
        active, previous := previous.value, None;
      }
      if fault.FailsPartway? { return; }
      next := None;
    }

    /** `applyTypedCaddyConfiguration` */
    method Apply(input: string, plan: Plan) returns (outcome: Outcome)
      modifies this
      ensures (Contents(), outcome) == Applied(tools, old(Contents()), input, plan)
    {
      if !plan.inspect { return Failed(Inspect); }
      next := Written(next, Some(input), plan.archive);
      if !plan.archive.Works? { return Failed(Archive); }
      next := Written(next, Some(tools.format(input)), plan.format);
      if !plan.format.Works? { return Failed(Format); }
      if !plan.readActive { return Failed(ReadActive); }
      if !plan.readNext { return Failed(ReadNext); }
      if next == Some(active) {
        if TakesEffect(plan.removeNext) { next := None; }
        return if plan.removeNext.Works? then Same else Failed(RemoveNext);
      }
      previous := Written(previous, Some(active), plan.backUp);
      if !plan.backUp.Works? { return Failed(BackUp); }
      if !plan.validate || !tools.valid(next.value) {
        RollBack(plan.rollback);
        return Failed(Validate);
      }
      if TakesEffect(plan.swap) { active, next := next.value, None; }
      if !plan.swap.Works? {
        RollBack(plan.rollback);
        return Failed(Swap);
      }
      if TakesEffect(plan.reload) { running := active; }
      if !plan.reload.Works? {
        RollBack(plan.rollback);
        return Failed(Reload);
      }
      if TakesEffect(plan.removePrevious) { previous := None; }
      return if plan.removePrevious.Works? then Changed else Failed(RemovePrevious);
    }
  }

  // ----- Which command decides

  /** The commands of a call in order, for a candidate that differs from the active configuration and for one
      that does not. */
  function Commands(differs: bool): seq<Command> {
    [Inspect, Archive, Format, ReadActive, ReadNext] +
    if differs then [BackUp, Validate, Swap, Reload, RemovePrevious] else [RemoveNext]
  }

  predicate Succeeds(tools: Tools, input: string, plan: Plan, c: Command) {
    match c
    case Inspect => plan.inspect
    case Archive => plan.archive.Works?
    case Format => plan.format.Works?
    case ReadActive => plan.readActive
    case ReadNext => plan.readNext
    case RemoveNext => plan.removeNext.Works?
    case BackUp => plan.backUp.Works?
    case Validate => plan.validate && tools.valid(tools.format(input))
    case Swap => plan.swap.Works?
    case Reload => plan.reload.Works?
    case RemovePrevious => plan.removePrevious.Works?
  }

  /** Command `i` is the first that fails. */
  predicate FailsFirst(tools: Tools, input: string, plan: Plan, commands: seq<Command>, i: nat) {
    && i < |commands| && !Succeeds(tools, input, plan, commands[i])
    && forall j :: 0 <= j < i ==> Succeeds(tools, input, plan, commands[j])
  }

  lemma NoFailure(tools: Tools, f: Files, input: string, plan: Plan)
    requires var commands := Commands(f.active != tools.format(input));
             forall j :: 0 <= j < |commands| ==> Succeeds(tools, input, plan, commands[j])
    ensures Applied(tools, f, input, plan).1 == if f.active != tools.format(input) then Changed else Same
  {
    var differs := f.active != tools.format(input);
    var commands := Commands(differs);
    PreparedSucceeds(tools, f, input, plan);
    assert Succeeds(tools, input, plan, commands[0]) && Succeeds(tools, input, plan, commands[1]);
    assert Succeeds(tools, input, plan, commands[2]) && Succeeds(tools, input, plan, commands[3]);
    assert Succeeds(tools, input, plan, commands[4]) && Succeeds(tools, input, plan, commands[5]);
    if differs {
      assert Succeeds(tools, input, plan, commands[6]) && Succeeds(tools, input, plan, commands[7]);
      assert Succeeds(tools, input, plan, commands[8]) && Succeeds(tools, input, plan, commands[9]);
    }
  }

  lemma OneFailure(tools: Tools, f: Files, input: string, plan: Plan, i: nat)
    requires FailsFirst(tools, input, plan, Commands(f.active != tools.format(input)), i)
    ensures Applied(tools, f, input, plan).1 == Failed(Commands(f.active != tools.format(input))[i])
  {
    var commands := Commands(f.active != tools.format(input));
    PreparedSucceeds(tools, f, input, plan);
    assert i > 0 ==> Succeeds(tools, input, plan, commands[0]);
    assert i > 1 ==> Succeeds(tools, input, plan, commands[1]);
    assert i > 2 ==> Succeeds(tools, input, plan, commands[2]);
    assert i > 3 ==> Succeeds(tools, input, plan, commands[3]);
    assert i > 4 ==> Succeeds(tools, input, plan, commands[4]);
    assert i > 5 ==> Succeeds(tools, input, plan, commands[5]);
    assert i > 6 ==> Succeeds(tools, input, plan, commands[6]);
    assert i > 7 ==> Succeeds(tools, input, plan, commands[7]);
    assert i > 8 ==> Succeeds(tools, input, plan, commands[8]);
  }

  /** A call fails with its first command that fails; if none does, it reports whether the configurations
      differed. */
  lemma FirstFailureDecides(tools: Tools, f: Files, input: string, plan: Plan)
    ensures var differs := f.active != tools.format(input);
            var outcome := Applied(tools, f, input, plan).1;
            var commands := Commands(differs);
            && (forall i: nat :: FailsFirst(tools, input, plan, commands, i) ==> outcome == Failed(commands[i]))
            && ((forall j :: 0 <= j < |commands| ==> Succeeds(tools, input, plan, commands[j])) ==>
                  outcome == if differs then Changed else Same)
  {
    var commands := Commands(f.active != tools.format(input));
    forall i: nat | FailsFirst(tools, input, plan, commands, i)
      ensures Applied(tools, f, input, plan).1 == Failed(commands[i])
    {
      OneFailure(tools, f, input, plan, i);
    }
    if forall j :: 0 <= j < |commands| ==> Succeeds(tools, input, plan, commands[j]) {
      NoFailure(tools, f, input, plan);
    }
  }

  lemma PreparedSucceeds(tools: Tools, f: Files, input: string, plan: Plan)
    ensures var (prepared, failure) := Prepared(tools, f, input, plan);
            failure.None? ==> prepared == f.(next := Some(tools.format(input)))
  {}

  // ----- What a call achieves

  /** What a call does to the file and to Caddy does not depend on a backup that an earlier call left
      behind, whatever fails: a stale backup is never restored. Nor does it depend on a stale candidate. */
  lemma StaleFilesAreIgnored(tools: Tools, f: Files, stale: Files, input: string, plan: Plan)
    requires f.active == stale.active && f.running == stale.running
    ensures var (g, outcome) := Applied(tools, f, input, plan);
            var (h, other) := Applied(tools, stale, input, plan);
            g.active == h.active && g.running == h.running && outcome == other
  {}

  /** A plan that tears: everything works but the reload, which takes effect and then fails. The file is the
      old configuration, Caddy runs the new one. */
  lemma LateReloadTears(tools: Tools, f: Files, input: string)
    requires Consistent(f) && tools.format(input) != f.active && tools.valid(tools.format(input))
    ensures var plan := Plan(true, Works, Works, true, true, Works, Works, true, Works, FailsAfter, Works, Works);
            var (g, outcome) := Applied(tools, f, input, plan);
            && Torn(tools, f, input, plan) && outcome == Failed(Reload)
            && g.active == f.active && g.running == tools.format(input)
  {}

  /** Such inputs exist: with tools that leave a text alone and find all of them valid. */
  lemma TornCallExists()
    ensures exists tools: Tools, f: Files, input: string, plan: Plan ::
              Consistent(f) && !Consistent(Applied(tools, f, input, plan).0)
  {
    var tools := Tools((s: string) => s, (s: string) => true);
    var f := Files("old", None, None, "old");
    LateReloadTears(tools, f, "new");
    var plan := Plan(true, Works, Works, true, true, Works, Works, true, Works, FailsAfter, Works, Works);
    assert !Consistent(Applied(tools, f, "new", plan).0);
  }

  /** A sequence of calls, each with its input and its faults. */
  function ApplyAll(tools: Tools, f: Files, calls: seq<(string, Plan)>): Files {
    if calls == [] then f
    else
      var front := calls[..|calls| - 1];
      var last := calls[|calls| - 1];
      Applied(tools, ApplyAll(tools, f, front), last.0, last.1).0
  }

  /** After any sequence of calls the file is what Caddy runs, and both are the first configuration or a
      validated candidate of one of the calls. */
  lemma {:induction false} CallsStayConsistent(tools: Tools, f: Files, calls: seq<(string, Plan)>)
    requires Consistent(f) && forall c :: c in calls ==> Tame(c.1)
    ensures var g := ApplyAll(tools, f, calls);
            && Consistent(g)
            && (g.running == f.running
                || exists i :: 0 <= i < |calls| && g.running == tools.format(calls[i].0) && tools.valid(g.running))
  {
    if calls != [] {
      var n := |calls| - 1;
      var front := calls[..n];
      CallsStayConsistent(tools, f, front);
      var before := ApplyAll(tools, f, front);
      var g := ApplyAll(tools, f, calls);
      if g.running == before.running && before.running != f.running {
        var i :| 0 <= i < n && before.running == tools.format(front[i].0) && tools.valid(before.running);
        assert front[i] == calls[i];
      }
    }
  }
}
