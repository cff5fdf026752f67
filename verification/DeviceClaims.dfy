/** Whose claim an approval completes: the script of the completion looks at the user and the user code of the
    claim that is held, but not at its organization. */
module DeviceClaims {
  import opened Text
  import opened DeviceStore
  import opened DeviceProtocol
  import opened DeviceSafety
  import opened DeviceExamples

  /** The organization of the last successful claim of a device code. */
  function LastClaim(log: seq<Event>, code: string): Option<string> {
    if log == [] then None
    else
      var last := log[|log| - 1];
      if last.Claimed? && last.code == code then Some(last.organizationId) else LastClaim(log[..|log| - 1], code)
  }

  lemma {:induction false} LastClaimAppend(a: seq<Event>, b: seq<Event>, code: string)
    ensures LastClaim(a + b, code) == if LastClaim(b, code).Some? then LastClaim(b, code) else LastClaim(a, code)
  {
    if b == [] {
      assert a + b == a;
    } else {
      assert (a + b)[..|a + b| - 1] == a + b[..|b| - 1];
      LastClaimAppend(a, b[..|b| - 1], code);
    }
  }

  /** The claim that is held is the last one. */
  lemma {:induction false} HeldIsLastClaim(log: seq<Event>, code: string)
    requires LifeOf(log, code).Held?
    ensures LastClaim(log, code) == Some(LifeOf(log, code).organizationId)
  {
    var n := |log| - 1;
    if !(log[n].code == code && log[n].Claimed?) {
      HeldIsLastClaim(log[..n], code);
    }
  }

  /** Moves of others leave a call where it is, and only add to the log. */
  lemma {:induction false} CallWaits(moves: seq<Move>, more: seq<Move>, id: nat)
    requires id in Run(moves).calls && Advance(id) !in more
    ensures id in Run(moves + more).calls && Run(moves + more).calls[id] == Run(moves).calls[id]
  {
    if more == [] {
      assert moves + more == moves;
    } else {
      var n := |more| - 1;
      assert moves + more == (moves + more[..n]) + [more[n]];
      CallWaits(moves, more[..n], id);
      RunSnoc(moves + more[..n], more[n]);
      assert more[n] in more;
    }
  }

  /** A request in the state of being claimed is held by the user and for the organization it names. */
  lemma ClaimingIsHeld(moves: seq<Move>, code: string)
    requires code in Run(moves).store.requests && Run(moves).store.requests[code].status == Claiming
    ensures var life := LifeOf(Run(moves).log, code);
            var request := Run(moves).store.requests[code];
            life.Held? && request.userId == Some(life.userId) && request.organizationId == Some(life.organizationId)
  {
    RunsFollowTheLife(moves, code);
  }

  /** A completion that passes its checks has read the claim that is held, for its own organization. */
  lemma ReadsOwnClaim(first: seq<Move>, id: nat, input: Input, code: string, seen: Request)
    requires id in Run(first).calls && Run(first).calls[id] == Call(Complete(input), Located(code))
    requires Next(Run(first), Advance(id)).calls.Keys >= {id}
    requires Next(Run(first), Advance(id)).calls[id] == Call(Complete(input), Read(code, seen))
    ensures LastClaim(Run(first).log, code) == Some(input.organizationId)
    ensures Run(first + [Advance(id)]).log == Run(first).log
  {
    RunSnoc(first, Advance(id));
    ClaimingIsHeld(first, code);
    HeldIsLastClaim(Run(first).log, code);
  }

  /** The run of a completion that succeeds: it reads the request after `first`, others move, and its script
      writes the approval. */
  ghost predicate Completes(first: seq<Move>, id: nat, input: Input, code: string, more: seq<Move>) {
    && id in Run(first).calls && Run(first).calls[id] == Call(Complete(input), Located(code))
    && Advance(id) !in more
    && id in Run(first + [Advance(id)]).calls && Run(first + [Advance(id)]).calls[id].phase.Read?
    && var t := Run(first + [Advance(id)] + more);
       Next(t, Advance(id)).log == t.log + [Completed(code, input)]
  }

  /** What happened between the read of a completion and its script. */
  ghost function Between(first: seq<Move>, id: nat, more: seq<Move>): seq<Event> {
    var before, after := Run(first).log, Run(first + [Advance(id)] + more).log;
    if |before| <= |after| then after[|before|..] else []
  }

  lemma CompletionHolds(t: System, id: nat, input: Input, code: string)
    requires id in t.calls && t.calls[id].op == Complete(input) && t.calls[id].phase.Read?
    requires t.calls[id].phase.key == code
    requires Next(t, Advance(id)).log == t.log + [Completed(code, input)]
    ensures HeldBy(t.store, code, LookupCode(Complete(input)), input.userId)
  {}

  /** The approval is for the organization of the claim that is held when it is written exactly if, since the
      completion read the request, nobody claimed it again, or the last one to do so claimed it for the same
      organization. The user is the same in any case. */
  lemma ApprovalMatchesClaimExactly(first: seq<Move>, id: nat, input: Input, code: string, more: seq<Move>)
    requires Completes(first, id, input, code, more)
    ensures var life := LifeOf(Run(first + [Advance(id)] + more).log, code);
            var again := LastClaim(Between(first, id, more), code);
            && life.Held? && life.userId == input.userId
            && (life.organizationId == input.organizationId <==> again == None || again == Some(input.organizationId))
  {
    var read := first + [Advance(id)];
    var t := Run(read + more);
    RunSnoc(first, Advance(id));
    var seen := Run(read).calls[id].phase.seen;
    ReadsOwnClaim(first, id, input, code, seen);
    CallWaits(read, more, id);
    RunExtends(read, more);
    CompletionHolds(t, id, input, code);
    ClaimingIsHeld(read + more, code);
    HeldIsLastClaim(t.log, code);
    assert t.log == Run(first).log + Between(first, id, more);
    LastClaimAppend(Run(first).log, Between(first, id, more), code);
  }

  // ----- A claim for another organization

  lemma ReleaseStage(moves: seq<Move>, code: string, shown: string, input: Input, others: map<nat, Call>,
                     log: seq<Event>, id: nat) returns (after: seq<Move>)
    requires Run(moves) == With(code, shown, DeviceExamples.Held(shown, input), map[], others, log) && id !in others
    requires shown == NormalizeUserCode(shown)
    ensures Run(after) == With(code, shown, Opened(shown), map[], others, log + [Released(code, input.userId)])
  {
    var op := Release(shown, input.userId);
    var held := DeviceExamples.Held(shown, input);
    after := CallReads(moves, code, shown, held, map[], others, log, id, op);
    RunSnoc(after, Advance(id));
    after := after + [Advance(id)];
    assert others[id := Call(op, Read(code, held))] - {id} == others;
  }

  /** A run in which the two differ: the user claims for one organization, a completion reads the claim, the
      user gives it back and claims for another organization, and the completion approves the first one. */
  lemma ApprovalsCanMissTheClaim(code: string, shown: string, input: Input, other: Input) returns (moves: seq<Move>)
    requires NormalizeUserCode(shown) == shown == NormalizeUserCode(input.userCode) == NormalizeUserCode(other.userCode)
    requires input.userId == other.userId && input.organizationId != other.organizationId
    ensures LifeOf(Run(moves).log, code) == Life.Held(other.userId, other.organizationId)
    ensures LifeOf(Run(moves + [Advance(3)]).log, code)
            == Granted(input.userId, input.organizationId, input.accessToken)
  {
    moves := AfterCreate(code, shown);
    moves := ClaimStage(moves, code, shown, input, map[], [Created(code)], 2);
    var log := [Created(code)] + [Claimed(code, input.userId, input.organizationId)];
    var held := DeviceExamples.Held(shown, input);
    moves := CallReads(moves, code, shown, held, map[], map[], log, 3, Complete(input));
    var reading: map<nat, Call> := map[][3 := Call(Complete(input), Read(code, held))];
    moves := ReleaseStage(moves, code, shown, input, reading, log, 4);
    moves := ClaimStage(moves, code, shown, other, reading, log + [Released(code, input.userId)], 5);
    var last := log + [Released(code, input.userId)] + [Claimed(code, other.userId, other.organizationId)];
    ClaimingIsHeld(moves, code);
    var after := CompleteStage(moves, code, shown, DeviceExamples.Held(shown, other), input, map[], last, 3);
    LifeOfRecord(last, Some(Completed(code, input)), code);
  }
}
