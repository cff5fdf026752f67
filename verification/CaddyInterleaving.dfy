/** Calls of the Caddy transaction cut into their commands. The broker holds no lock: what a call achieves
    while others run between its commands. Commands fail here only where the files make them fail. */
module CaddyInterleaving {
  import opened Text
  import opened CaddyTransaction

  /** The next command of a call. */
  datatype Phase =
    | Putting
    | Formatting
    | ReadingActive
    | ReadingNext(seen: string)
    | RemovingNext
    | BackingUp
    | Validating
    | Swapping
    | Reloading
    | RemovingPrevious
    | RollingBack(at: Command)
    | Done(outcome: Outcome)

  datatype Call = Call(input: string, phase: Phase)

  /** One command of a call on the shared files. */
  function Step(tools: Tools, f: Files, call: Call): (Files, Phase) {
    match call.phase
    case Putting => (f.(next := Some(call.input)), Formatting)
    case Formatting =>
      if f.next.None? then (f, Done(Failed(Format)))
      else (f.(next := Some(tools.format(f.next.value))), ReadingActive)
    case ReadingActive => (f, ReadingNext(f.active))
    case ReadingNext(seen) =>
      (f, if f.next.None? then Done(Failed(ReadNext)) else if f.next.value == seen then RemovingNext else BackingUp)
    case RemovingNext => (f.(next := None), Done(Same))
    case BackingUp => (f.(previous := Some(f.active)), Validating)
    case Validating =>
      (f, if f.next.Some? && tools.valid(f.next.value) then Swapping else RollingBack(Validate))
    case Swapping =>
      if f.next.None? then (f, RollingBack(Swap)) else (f.(active := f.next.value, next := None), Reloading)
    case Reloading =>
      if tools.valid(f.active) then (f.(running := f.active), RemovingPrevious) else (f, RollingBack(Reload))
    case RemovingPrevious => (f.(previous := None), Done(Changed))
    case RollingBack(at) => (RolledBack(f, Works), Done(Failed(at)))
    case Done(_) => (f, call.phase)
  }

  /** How many commands a call has left at most. */
  function Remaining(phase: Phase): nat {
    match phase
    case Putting => 10
    case Formatting => 9
    case ReadingActive => 8
    case ReadingNext(_) => 7
    case BackingUp => 6
    case Validating => 5
    case Swapping => 4
    case Reloading => 3
    case RemovingPrevious => 1
    case RollingBack(_) => 1
    case RemovingNext => 1
    case Done(_) => 0
  }

  /** A call that is not interrupted any more. */
  function Finish(tools: Tools, f: Files, call: Call): (Files, Outcome)
    decreases Remaining(call.phase)
  {
    if call.phase.Done? then (f, call.phase.outcome)
    else
      var (g, phase) := Step(tools, f, call);
      Finish(tools, g, call.(phase := phase))
  }

  /** A call after `k` of its commands, without interruption. */
  function After(tools: Tools, f: Files, input: string, k: nat): (Files, Phase) {
    if k == 0 then (f, Putting)
    else
      var (g, phase) := After(tools, f, input, k - 1);
      Step(tools, g, Call(input, phase))
  }

  const ALL_WORK :=
    Plan(true, Works, Works, true, true, Works, Works, true, Works, Works, Works, Works)

  lemma FinishStep(tools: Tools, f: Files, input: string, phase: Phase)
    requires !phase.Done?
    ensures var (g, next) := Step(tools, f, Call(input, phase));
            Finish(tools, f, Call(input, phase)) == Finish(tools, g, Call(input, next))
  {}

  lemma FinishLast(tools: Tools, f: Files, input: string, phase: Phase)
    requires !phase.Done? && Step(tools, f, Call(input, phase)).1.Done?
    ensures var (g, next) := Step(tools, f, Call(input, phase));
            Finish(tools, f, Call(input, phase)) == (g, next.outcome)
  {}

  lemma FinishFromReload(tools: Tools, f: Files, input: string)
    requires tools.valid(f.active)
    ensures Finish(tools, f, Call(input, Reloading)) == (f.(running := f.active, previous := None), Changed)
  {
    FinishStep(tools, f, input, Reloading);
    FinishLast(tools, f.(running := f.active), input, RemovingPrevious);
  }

  lemma FinishFromSwap(tools: Tools, f: Files, input: string)
    requires f.next.Some? && tools.valid(f.next.value)
    ensures Finish(tools, f, Call(input, Swapping))
            == (Files(f.next.value, None, None, f.next.value), Changed)
  {
    FinishStep(tools, f, input, Swapping);
    FinishFromReload(tools, f.(active := f.next.value, next := None), input);
  }

  lemma FinishFromBackUp(tools: Tools, f: Files, input: string)
    requires f.next.Some?
    ensures Finish(tools, f, Call(input, BackingUp)) == Replaced(tools, f, ALL_WORK)
  {
    var backedUp := f.(previous := Some(f.active));
    FinishStep(tools, f, input, BackingUp);
    FinishStep(tools, backedUp, input, Validating);
    if tools.valid(f.next.value) {
      FinishFromSwap(tools, backedUp, input);
    } else {
      FinishLast(tools, backedUp, input, RollingBack(Validate));
    }
  }

  lemma FinishFromPut(tools: Tools, f: Files, input: string)
    ensures Finish(tools, f, Call(input, Putting))
            == Finish(tools, f.(next := Some(tools.format(input))),
                      Call(input, if f.active == tools.format(input) then RemovingNext else BackingUp))
  {
    var put := f.(next := Some(input));
    var formatted := f.(next := Some(tools.format(input)));
    FinishStep(tools, f, input, Putting);
    FinishStep(tools, put, input, Formatting);
    FinishStep(tools, formatted, input, ReadingActive);
    FinishStep(tools, formatted, input, ReadingNext(f.active));
  }

  /** Whatever files other calls have left, a call that is not interrupted does what the transaction says:
      success means that the file and Caddy have its own, validated candidate, failure that both are as before. */
  lemma UninterruptedIsApplied(tools: Tools, f: Files, input: string)
    ensures Finish(tools, f, Call(input, Putting)) == Applied(tools, f, input, ALL_WORK)
    ensures var (g, outcome) := Finish(tools, f, Call(input, Putting)); Atomic(tools, f, input, g, outcome)
  {
    FinishFromPut(tools, f, input);
    var formatted := f.(next := Some(tools.format(input)));
    if f.active == tools.format(input) {
      FinishLast(tools, formatted, input, RemovingNext);
    } else {
      FinishFromBackUp(tools, formatted, input);
    }
  }

  // ----- Interruptions

  datatype System = System(files: Files, calls: map<nat, Call>)

  datatype Move = Begin(id: nat, input: string) | Advance(id: nat)

  function Next(tools: Tools, s: System, move: Move): System {
    match move
    case Begin(id, input) => if id in s.calls then s else s.(calls := s.calls[id := Call(input, Putting)])
    case Advance(id) =>
      if id !in s.calls then s
      else
        var (g, phase) := Step(tools, s.files, s.calls[id]);
        System(g, s.calls[id := s.calls[id].(phase := phase)])
  }

  function Run(tools: Tools, s: System, moves: seq<Move>): System
    decreases moves
  {
    if moves == [] then s else Run(tools, Next(tools, s, moves[0]), moves[1..])
  }

  // ----- One call alone

  /** The files after `k` commands of a call on a configuration. */
  function FilesAfter(tools: Tools, f: Files, input: string, k: nat): Files {
    var candidate := tools.format(input);
    if k == 0 then f
    else if k == 1 then f.(next := Some(input))
    else if k <= 4 then f.(next := Some(candidate))
    else if candidate == f.active then f.(next := None)
    else if k <= 6 then f.(next := Some(candidate), previous := Some(f.active))
    else if !tools.valid(candidate) then f.(next := None, previous := None)
    else Files(candidate, None, if k <= 8 then Some(f.active) else None, if k == 7 then f.running else candidate)
  }

  function PhaseAfter(tools: Tools, f: Files, input: string, k: nat): Phase {
    var candidate := tools.format(input);
    if k == 0 then Putting
    else if k == 1 then Formatting
    else if k == 2 then ReadingActive
    else if k == 3 then ReadingNext(f.active)
    else if candidate == f.active then (if k == 4 then RemovingNext else Done(Same))
    else if k == 4 then BackingUp
    else if k == 5 then Validating
    else if !tools.valid(candidate) then (if k == 6 then RollingBack(Validate) else Done(Failed(Validate)))
    else if k == 6 then Swapping
    else if k == 7 then Reloading
    else if k == 8 then RemovingPrevious
    else Done(Changed)
  }

  lemma TableStep(tools: Tools, f: Files, input: string, k: nat)
    ensures Step(tools, FilesAfter(tools, f, input, k), Call(input, PhaseAfter(tools, f, input, k)))
            == (FilesAfter(tools, f, input, k + 1), PhaseAfter(tools, f, input, k + 1))
  {}

  lemma {:induction false} AfterIs(tools: Tools, f: Files, input: string, k: nat)
    ensures After(tools, f, input, k) == (FilesAfter(tools, f, input, k), PhaseAfter(tools, f, input, k))
  {
    if k > 0 {
      AfterIs(tools, f, input, k - 1);
      TableStep(tools, f, input, k - 1);
    }
  }

  /** The system in which a call has run `k` commands and no other call has begun. */
  function Reached(tools: Tools, f: Files, input: string, k: nat): System {
    System(FilesAfter(tools, f, input, k), map[0 := Call(input, PhaseAfter(tools, f, input, k))])
  }

  lemma ReachedIs(tools: Tools, f: Files, input: string, k: nat)
    ensures var (g, phase) := After(tools, f, input, k);
            Reached(tools, f, input, k) == System(g, map[0 := Call(input, phase)])
  {
    AfterIs(tools, f, input, k);
  }

  lemma {:induction false} RunAppend(tools: Tools, s: System, a: seq<Move>, b: seq<Move>)
    ensures Run(tools, s, a + b) == Run(tools, Run(tools, s, a), b)
    decreases a
  {
    if a == [] {
      assert a + b == b;
    } else {
      assert (a + b)[0] == a[0] && (a + b)[1..] == a[1..] + b;
      RunAppend(tools, Next(tools, s, a[0]), a[1..], b);
    }
  }

  lemma RunOne(tools: Tools, s: System, move: Move)
    ensures Run(tools, s, [move]) == Next(tools, s, move)
  {
    assert [move][1..] == [];
    assert Run(tools, Next(tools, s, move), []) == Next(tools, s, move);
  }

  /** Some commands of one call. */
  function Steps(id: nat, n: nat): seq<Move> {
    seq(n, _ => Advance(id))
  }

  lemma {:induction false} RunSteps(tools: Tools, s: System, f: Files, id: nat, input: string, k: nat, n: nat)
    requires k <= n && id in s.calls
    requires s.files == FilesAfter(tools, f, input, k) && s.calls[id] == Call(input, PhaseAfter(tools, f, input, k))
    ensures Run(tools, s, Steps(id, n - k))
            == System(FilesAfter(tools, f, input, n), s.calls[id := Call(input, PhaseAfter(tools, f, input, n))])
  {
    if k == n {
      assert s.calls[id := s.calls[id]] == s.calls;
    } else {
      TableStep(tools, f, input, n - 1);
      RunSteps(tools, s, f, id, input, k, n - 1);
      assert Steps(id, n - k) == Steps(id, n - 1 - k) + [Advance(id)];
      RunAppend(tools, s, Steps(id, n - 1 - k), [Advance(id)]);
      RunOne(tools, Run(tools, s, Steps(id, n - 1 - k)), Advance(id));
    }
  }

  // ----- Success that is not one's own

  /** Other calls run some commands, then the call runs to its end and reports success, but Caddy has a
      configuration that is not the one the call was given. */
  predicate Misleads(tools: Tools, s: System, id: nat, moves: seq<Move>)
    requires id in s.calls
  {
    && (forall m :: m in moves ==> m.id != id)
    && !s.calls[id].phase.Done?
    && var (g, outcome) := Finish(tools, Run(tools, s, moves).files, s.calls[id]);
       outcome == Changed && g.running != tools.format(s.calls[id].input)
  }

  ghost predicate CanMislead(tools: Tools, s: System, id: nat)
    requires id in s.calls
  {
    exists moves: seq<Move> :: Misleads(tools, s, id, moves)
  }

  /** A call in one of the phases up to the swap. */
  predicate BeforeSwap(phase: Phase, active: string) {
    || phase in {Formatting, ReadingActive, BackingUp, Validating, Swapping}
    || phase == ReadingNext(active)
  }

  function Stage(phase: Phase): nat {
    match phase
    case Formatting => 6
    case ReadingActive => 5
    case ReadingNext(_) => 4
    case BackingUp => 3
    case Validating => 2
    case _ => 1
  }

  /** Up to the swap, the call goes on with any valid candidate that another call has put in place of its own. */
  lemma {:induction false} FinishWithOther(tools: Tools, f: Files, call: Call, other: string)
    requires BeforeSwap(call.phase, f.active) && f.next == Some(other)
    requires other != f.active && tools.format(other) == other && tools.valid(other)
    ensures Finish(tools, f, call) == (Files(other, None, None, other), Changed)
    decreases Stage(call.phase)
  {
    if call.phase.Swapping? {
      FinishFromSwap(tools, f, call.input);
    } else {
      FinishStep(tools, f, call.input, call.phase);
      var (g, phase) := Step(tools, f, call);
      FinishWithOther(tools, g, call.(phase := phase), other);
    }
  }

  /** A call run to its end by moves of its own. */
  lemma {:induction false} RunToEnd(tools: Tools, s: System, id: nat) returns (moves: seq<Move>)
    requires id in s.calls
    ensures forall m :: m in moves ==> m.id == id
    ensures Run(tools, s, moves).files == Finish(tools, s.files, s.calls[id]).0
    decreases Remaining(s.calls[id].phase)
  {
    if s.calls[id].phase.Done? {
      moves := [];
    } else {
      var rest := RunToEnd(tools, Next(tools, s, Advance(id)), id);
      moves := [Advance(id)] + rest;
      assert moves[1..] == rest;
    }
  }

  /** Putting in another candidate misleads a call that has put its own and not swapped yet. */
  lemma PutMisleads(tools: Tools, s: System, other: string)
    requires s.calls.Keys == {0} && BeforeSwap(s.calls[0].phase, s.files.active)
    requires other != s.files.active && other != tools.format(s.calls[0].input)
    requires tools.format(other) == other && tools.valid(other)
    ensures CanMislead(tools, s, 0)
  {
    var moves := [Begin(1, other)] + [Advance(1)];
    var begun := Next(tools, s, Begin(1, other));
    RunAppend(tools, s, [Begin(1, other)], [Advance(1)]);
    RunOne(tools, s, Begin(1, other));
    RunOne(tools, begun, Advance(1));
    assert Run(tools, s, moves).files == s.files.(next := Some(other));
    FinishWithOther(tools, s.files.(next := Some(other)), s.calls[0], other);
    assert Misleads(tools, s, 0, moves);
  }

  /** A whole other call between swap and clean-up misleads the call, too. */
  lemma WholeCallMisleads(tools: Tools, s: System, other: string)
    requires s.calls.Keys == {0} && s.calls[0].phase in {Reloading, RemovingPrevious}
    requires other != s.files.active && other != tools.format(s.calls[0].input)
    requires tools.format(other) == other && tools.valid(other)
    ensures CanMislead(tools, s, 0)
  {
    var begun := Next(tools, s, Begin(1, other));
    var rest := RunToEnd(tools, begun, 1);
    var moves := [Begin(1, other)] + rest;
    assert moves[1..] == rest;
    UninterruptedIsApplied(tools, s.files, other);
    var g := Run(tools, s, moves).files;
    assert g == Files(other, None, None, other);
    if s.calls[0].phase.Reloading? {
      FinishFromReload(tools, g, s.calls[0].input);
    } else {
      FinishLast(tools, g, s.calls[0].input, RemovingPrevious);
    }
    assert Misleads(tools, s, 0, moves);
  }

  /** A call that is about to put its candidate, or that can only fail or has nothing to do, is not misled. */
  lemma NotMisled(tools: Tools, s: System)
    requires 0 in s.calls
    requires s.calls[0].phase in {Putting, RemovingNext} || s.calls[0].phase.RollingBack? || s.calls[0].phase.Done?
    ensures !CanMislead(tools, s, 0)
  {
    var call := s.calls[0];
    forall moves: seq<Move>
      ensures !Misleads(tools, s, 0, moves)
    {
      var f := Run(tools, s, moves).files;
      if call.phase.Putting? {
        UninterruptedIsApplied(tools, f, call.input);
      } else if !call.phase.Done? {
        FinishLast(tools, f, call.input, call.phase);
      }
    }
  }

  /** How far a call gets on its own until it only has to clean up: a candidate that is active already is
      found out by the comparison, an invalid one by the validation. */
  function LastCommand(tools: Tools, f: Files, input: string): nat {
    if tools.format(input) == f.active then 3 else if !tools.valid(tools.format(input)) then 5 else 8
  }

  /** For every call: after `k` of its commands other calls can make it report success while Caddy runs
      something else exactly if it has put its candidate and has not reported, nor come to know that it has
      nothing to do or fails. `other` is any valid text that is neither active nor its own. */
  lemma MisleadableExactly(tools: Tools, f: Files, input: string, other: string, k: nat)
    requires other != f.active && other != tools.format(input) && tools.format(other) == other && tools.valid(other)
    ensures var (g, phase) := After(tools, f, input, k);
            CanMislead(tools, System(g, map[0 := Call(input, phase)]), 0) <==>
              1 <= k <= LastCommand(tools, f, input)
  {
    ReachedIs(tools, f, input, k);
    var s := Reached(tools, f, input, k);
    var phase := s.calls[0].phase;
    if BeforeSwap(phase, s.files.active) {
      PutMisleads(tools, s, other);
    } else if phase in {Reloading, RemovingPrevious} {
      WholeCallMisleads(tools, s, other);
    } else {
      NotMisled(tools, s);
    }
  }

  // ----- Tears that last

  /** A schedule of the call and one other, after which both have ended and the file is not what Caddy runs. */
  predicate Tears(tools: Tools, s: System, other: string, moves: seq<Move>) {
    && (forall m :: m in moves ==> m.id <= 1 && (m.Begin? ==> m == Begin(1, other)))
    && var t := Run(tools, s, moves);
       && (forall id :: id in t.calls ==> t.calls[id].phase.Done?)
       && !Consistent(t.files)
  }

  ghost predicate CanTear(tools: Tools, s: System, other: string) {
    exists moves: seq<Move> :: Tears(tools, s, other, moves)
  }

  /** What two calls keep once the first has swapped or has nothing to do: a backup of the second is the
      active file, and only a pending reload stands between the file and Caddy. */
  predicate Settling(tools: Tools, f: Files, first: Phase, second: Phase) {
    && (first in {Reloading, RemovingPrevious, RemovingNext} || first.Done?)
    && (f.active == f.running || first.Reloading? || second.Reloading?)
    && (first.Reloading? || second.Reloading? ==> tools.valid(f.active))
    && (second in {Validating, Swapping} || second.RollingBack? ==> f.previous.Some? ==> f.previous.value == f.active)
    && (second.Swapping? ==> f.next.Some? ==> tools.valid(f.next.value))
  }

  lemma SettlingStep(tools: Tools, f: Files, first: Call, second: Call)
    requires Settling(tools, f, first.phase, second.phase)
    ensures var (g, phase) := Step(tools, f, first); Settling(tools, g, phase, second.phase)
    ensures var (g, phase) := Step(tools, f, second); Settling(tools, g, first.phase, phase)
  {}

  predicate Settled(tools: Tools, s: System) {
    && s.calls.Keys <= {0, 1} && 0 in s.calls
    && Settling(tools, s.files, s.calls[0].phase, if 1 in s.calls then s.calls[1].phase else Putting)
  }

  lemma NextSettled(tools: Tools, s: System, other: string, move: Move)
    requires Settled(tools, s) && move.id <= 1
    ensures Settled(tools, Next(tools, s, move))
  {
    if move.Advance? && move.id in s.calls {
      SettlingStep(tools, s.files, s.calls[0], if 1 in s.calls then s.calls[1] else Call(other, Putting));
    }
  }

  lemma {:induction false} RunSettled(tools: Tools, s: System, other: string, moves: seq<Move>)
    requires Settled(tools, s) && forall m :: m in moves ==> m.id <= 1
    ensures Settled(tools, Run(tools, s, moves))
    decreases moves
  {
    if moves != [] {
      assert moves[0] in moves;
      NextSettled(tools, s, other, moves[0]);
      RunSettled(tools, Next(tools, s, moves[0]), other, moves[1..]);
    }
  }

  lemma SettledDoesNotTear(tools: Tools, s: System, other: string)
    requires Settled(tools, s)
    ensures !CanTear(tools, s, other)
  {
    forall moves: seq<Move>
      ensures !Tears(tools, s, other, moves)
    {
      if forall m :: m in moves ==> m.id <= 1 {
        RunSettled(tools, s, other, moves);
      }
    }
  }

  /** The end of every tear: the first call has backed up the old file, the second has gone through up to its
      clean-up. The first finds no candidate, or rolls back anyway, and restores the old file. */
  lemma RollBackTears(tools: Tools, s: System, before: string, other: string) returns (moves: seq<Move>)
    requires s.calls.Keys == {0, 1} && s.calls[1].phase.RemovingPrevious?
    requires s.calls[0].phase in {Validating, Swapping} || s.calls[0].phase.RollingBack?
    requires s.files == Files(other, None, Some(before), other) && before != other
    ensures forall m :: m in moves ==> m.Advance? && m.id <= 1
    ensures var t := Run(tools, s, moves);
            (forall id :: id in t.calls ==> t.calls[id].phase.Done?) && !Consistent(t.files)
  {
    var last := [Advance(0)] + [Advance(1)];
    if s.calls[0].phase.RollingBack? {
      moves := last;
      RunAppend(tools, s, [Advance(0)], [Advance(1)]);
      RunOne(tools, s, Advance(0));
      RunOne(tools, Next(tools, s, Advance(0)), Advance(1));
    } else {
      moves := [Advance(0)] + last;
      var next := Next(tools, s, Advance(0));
      RunAppend(tools, s, [Advance(0)], last);
      RunOne(tools, s, Advance(0));
      RunAppend(tools, next, [Advance(0)], [Advance(1)]);
      RunOne(tools, next, Advance(0));
      RunOne(tools, Next(tools, next, Advance(0)), Advance(1));
    }
  }

  /** Putting schedules one after the other keeps to the moves that are allowed. */
  predicate Allowed(other: string, moves: seq<Move>) {
    forall m :: m in moves ==> m.id <= 1 && (m.Begin? ==> m == Begin(1, other))
  }

  lemma TearsBehind(tools: Tools, s: System, other: string, front: seq<Move>, back: seq<Move>)
    requires Allowed(other, front) && Tears(tools, Run(tools, s, front), other, back)
    ensures Tears(tools, s, other, front + back)
  {
    RunAppend(tools, s, front, back);
  }

  lemma CanTearBehind(tools: Tools, s: System, other: string, front: seq<Move>)
    requires Allowed(other, front) && CanTear(tools, Run(tools, s, front), other)
    ensures CanTear(tools, s, other)
  {
    var back :| Tears(tools, Run(tools, s, front), other, back);
    TearsBehind(tools, s, other, front, back);
  }

  /** The call has backed up the old file, the other one goes through up to its clean-up. */
  lemma OtherPassesTears(tools: Tools, s: System, other: string, k: nat)
    requires s.calls.Keys == {0, 1} && k <= 2 && s.calls[1] == Call(other, PhaseAfter(tools, s.files, other, k))
    requires s.calls[0].phase in {Validating, Swapping} || s.calls[0].phase.RollingBack?
    requires s.files.previous == Some(s.files.active) && (k == 2 ==> s.files.next == Some(other)) && k != 1
    requires other != s.files.active && tools.format(other) == other && tools.valid(other)
    ensures CanTear(tools, s, other)
  {
    RunSteps(tools, s, s.files, 1, other, k, 8);
    var t := Run(tools, s, Steps(1, 8 - k));
    var back := RollBackTears(tools, t, s.files.active, other);
    assert Tears(tools, t, other, back);
    CanTearBehind(tools, s, other, Steps(1, 8 - k));
  }

  /** From its backup on, another call that goes through up to its clean-up lets the call tear. */
  lemma BackedUpTears(tools: Tools, s: System, other: string)
    requires s.calls.Keys == {0} && (s.calls[0].phase in {Validating, Swapping} || s.calls[0].phase.RollingBack?)
    requires s.files.previous == Some(s.files.active)
    requires other != s.files.active && tools.format(other) == other && tools.valid(other)
    ensures CanTear(tools, s, other)
  {
    RunOne(tools, s, Begin(1, other));
    OtherPassesTears(tools, Next(tools, s, Begin(1, other)), other, 0);
    CanTearBehind(tools, s, other, [Begin(1, other)]);
  }

  /** The call takes the other one's candidate for its own. */
  lemma ComparedTears(tools: Tools, s: System, other: string)
    requires s.calls.Keys == {0, 1} && s.calls[1] == Call(other, ReadingActive)
    requires s.calls[0].phase == ReadingNext(s.files.active) && s.files.next == Some(other)
    requires other != s.files.active && tools.format(other) == other && tools.valid(other)
    ensures CanTear(tools, s, other)
  {
    var front := [Advance(0)] + [Advance(0)];
    var compared := Next(tools, s, Advance(0));
    RunAppend(tools, s, [Advance(0)], [Advance(0)]);
    RunOne(tools, s, Advance(0));
    RunOne(tools, compared, Advance(0));
    OtherPassesTears(tools, Next(tools, compared, Advance(0)), other, 2);
    CanTearBehind(tools, s, other, front);
  }

  /** Another call that puts its candidate before the comparison makes the call back up, whatever its own. */
  lemma ComparisonTears(tools: Tools, s: System, other: string)
    requires s.calls.Keys == {0} && s.calls[0].phase == ReadingNext(s.files.active)
    requires other != s.files.active && tools.format(other) == other && tools.valid(other)
    ensures CanTear(tools, s, other)
  {
    var front := [Begin(1, other)] + Steps(1, 2);
    var begun := Next(tools, s, Begin(1, other));
    RunAppend(tools, s, [Begin(1, other)], Steps(1, 2));
    RunOne(tools, s, Begin(1, other));
    RunSteps(tools, begun, s.files, 1, other, 0, 2);
    ComparedTears(tools, Run(tools, s, front), other);
    CanTearBehind(tools, s, other, front);
  }

  lemma ReachedTears(tools: Tools, f: Files, input: string, other: string, k: nat, n: nat)
    requires k <= n && CanTear(tools, Reached(tools, f, input, n), other)
    ensures CanTear(tools, Reached(tools, f, input, k), other)
  {
    var s := Reached(tools, f, input, k);
    RunSteps(tools, s, f, 0, input, k, n);
    assert Run(tools, s, Steps(0, n - k)) == Reached(tools, f, input, n);
    var moves :| Tears(tools, Reached(tools, f, input, n), other, moves);
    TearsBehind(tools, s, other, Steps(0, n - k), moves);
  }

  /** For every call, on a file that is what Caddy runs: after `k` of its commands it and one other call, every
      command of which works, can be scheduled so that file and running configuration differ for good exactly if
      it has not swapped yet, nor found that its candidate is active already. */
  lemma TearableExactly(tools: Tools, f: Files, input: string, other: string, k: nat)
    requires Consistent(f) && other != f.active && tools.format(other) == other && tools.valid(other)
    ensures var (g, phase) := After(tools, f, input, k);
            CanTear(tools, System(g, map[0 := Call(input, phase)]), other) <==>
              k <= if tools.format(input) == f.active then 3 else 6
  {
    ReachedIs(tools, f, input, k);
    if k <= 3 {
      ComparisonTears(tools, Reached(tools, f, input, 3), other);
      ReachedTears(tools, f, input, other, k, 3);
    } else if k <= 6 && tools.format(input) != f.active {
      var n := if k == 6 then 6 else 5;
      BackedUpTears(tools, Reached(tools, f, input, n), other);
      ReachedTears(tools, f, input, other, k, n);
    } else {
      SettledDoesNotTear(tools, Reached(tools, f, input, k), other);
    }
  }

  /** Such calls exist: with tools that leave a text alone and find all of them valid. */
  lemma OverlapTears()
    ensures exists tools: Tools, f: Files, first: string, second: string ::
              Consistent(f) && CanTear(tools, System(f, map[0 := Call(first, Putting)]), second)
  {
    var tools := Tools((s: string) => s, (s: string) => true);
    var f := Files("a", None, None, "a");
    TearableExactly(tools, f, "b", "c", 0);
    assert CanTear(tools, System(f, map[0 := Call("b", Putting)]), "c");
  }
}
