/** A run of the device authorization store in which a denial overtakes an approval, and what holds of every
    delivery. */
module DeviceExamples {
  import opened Text
  import opened DeviceStore
  import opened DeviceProtocol
  import opened DeviceSafety

  lemma RunSnoc(moves: seq<Move>, move: Move)
    ensures Run(moves + [move]) == Next(Run(moves), move)
  {
    assert (moves + [move])[..|moves|] == moves;
  }

  // ----- Create, deny up to its read, claim, complete

  function Opened(shown: string): Request {
    Request(shown, Pending, None, None, None, 0)
  }

  function Held(shown: string, input: Input): Request {
    Opened(shown).(status := Claiming, userId := Some(input.userId),
                   organizationId := Some(input.organizationId), preset := Some(input.preset))
  }

  function Reading(code: string, shown: string): map<nat, Call> {
    map[1 := Call(Deny(shown), Read(code, Opened(shown)))]
  }

  function With(code: string, shown: string, r: Request, secrets: map<string, string>, calls: map<nat, Call>,
                log: seq<Event>): System {
    System(Store(map[code := r], secrets, map[shown := code]), calls, {code}, log)
  }

  lemma AfterCreate(code: string, shown: string) returns (moves: seq<Move>)
    ensures Run(moves) == With(code, shown, Opened(shown), map[], map[], [Created(code)])
  {
    var op := Create(code, shown, 0);
    moves := [Begin(0, op)];
    RunSnoc([], Begin(0, op));
    assert [] + [Begin(0, op)] == moves;
    assert Run(moves) == System(Store(map[], map[], map[]), map[0 := Call(op, Start)], {code}, []);
    RunSnoc(moves, Advance(0));
    moves := moves + [Advance(0)];
    assert Run(moves) == System(Store(map[code := Opened(shown)], map[], map[]),
                                map[0 := Call(op, Located(code))], {code}, [Created(code)]);
    RunSnoc(moves, Advance(0));
    moves := moves + [Advance(0)];
    assert map[0 := Call(op, Located(code))] - {0} == map[];
  }

  /** A call that has located its request and read it. */
  lemma CallReads(moves: seq<Move>, code: string, shown: string, r: Request, secrets: map<string, string>,
                  others: map<nat, Call>, log: seq<Event>, id: nat, op: Op) returns (after: seq<Move>)
    requires Run(moves) == With(code, shown, r, secrets, others, log) && id !in others
    requires !op.Create? && !op.Poll? && LookupCode(op) == shown && MayProceed(op, r)
    ensures Run(after) == With(code, shown, r, secrets, others[id := Call(op, Read(code, r))], log)
    ensures after == moves + [Begin(id, op)] + [Advance(id)] + [Advance(id)]
  {
    RunSnoc(moves, Begin(id, op));
    after := moves + [Begin(id, op)];
    RunSnoc(after, Advance(id));
    after := after + [Advance(id)];
    assert Run(after).calls == others[id := Call(op, Located(code))];
    RunSnoc(after, Advance(id));
    after := after + [Advance(id)];
  }

  lemma AfterDenyReads(code: string, shown: string) returns (moves: seq<Move>)
    requires NormalizeUserCode(shown) == shown
    ensures Run(moves) == With(code, shown, Opened(shown), map[], Reading(code, shown), [Created(code)])
  {
    moves := AfterCreate(code, shown);
    moves := CallReads(moves, code, shown, Opened(shown), map[], map[], [Created(code)], 1, Deny(shown));
  }

  lemma ClaimStage(moves: seq<Move>, code: string, shown: string, input: Input, others: map<nat, Call>,
                   log: seq<Event>, id: nat) returns (after: seq<Move>)
    requires Run(moves) == With(code, shown, Opened(shown), map[], others, log) && id !in others
    requires shown == NormalizeUserCode(input.userCode)
    ensures Run(after) == With(code, shown, Held(shown, input), map[], others,
                               log + [Claimed(code, input.userId, input.organizationId)])
  {
    var op := Claim(input);
    after := CallReads(moves, code, shown, Opened(shown), map[], others, log, id, op);
    RunSnoc(after, Advance(id));
    after := after + [Advance(id)];
    assert others[id := Call(op, Read(code, Opened(shown)))] - {id} == others;
  }

  lemma CompleteStage(moves: seq<Move>, code: string, shown: string, held: Request, input: Input,
                      others: map<nat, Call>, log: seq<Event>, id: nat) returns (after: seq<Move>)
    requires shown == NormalizeUserCode(input.userCode) && id !in others
    requires Run(moves) == With(code, shown, held, map[],
                                others[id := Call(Complete(input), Read(code, Held(shown, input)))], log)
    requires held.status == Claiming && held.userCode == shown && held.userId == Some(input.userId)
    ensures Run(after) == With(code, shown, Held(shown, input).(status := Approved), map[code := input.accessToken],
                               others, log + [Completed(code, input)])
    ensures after == moves + [Advance(id)]
  {
    RunSnoc(moves, Advance(id));
    after := moves + [Advance(id)];
    assert others[id := Call(Complete(input), Read(code, Held(shown, input)))] - {id} == others;
  }

  lemma AfterComplete(code: string, shown: string, input: Input) returns (moves: seq<Move>)
    requires NormalizeUserCode(shown) == shown == NormalizeUserCode(input.userCode)
    ensures Run(moves) == With(code, shown, Held(shown, input).(status := Approved), map[code := input.accessToken],
                               Reading(code, shown),
                               [Created(code)] + [Claimed(code, input.userId, input.organizationId)]
                               + [Completed(code, input)])
  {
    var others, log := Reading(code, shown), [Created(code)];
    moves := AfterDenyReads(code, shown);
    moves := ClaimStage(moves, code, shown, input, others, log, 2);
    log := log + [Claimed(code, input.userId, input.organizationId)];
    moves := CallReads(moves, code, shown, Held(shown, input), map[], others, log, 3, Complete(input));
    moves := CompleteStage(moves, code, shown, Held(shown, input), input, others, log, 3);
  }

  /** For every device code and every approval of it there is a run that approves the request while a denial
      that read it before is in flight: the approval can still be refused. */
  lemma ApprovalsCanBeRefused(code: string, shown: string, input: Input) returns (moves: seq<Move>)
    requires NormalizeUserCode(shown) == shown == NormalizeUserCode(input.userCode)
    ensures LifeOf(Run(moves).log, code) == Granted(input.userId, input.organizationId, input.accessToken)
    ensures StaleDeny(Run(moves), 1, code) && Refusable(moves, code)
  {
    moves := AfterComplete(code, shown, input);
    var log := Run(moves).log;
    assert log[..2][..1] == log[..1] && log[..1][..0] == [];
    assert LifeOf(log[..1], code) == Open;
    assert LifeOf(log[..2], code) == Life.Held(input.userId, input.organizationId);
    assert StaleDeny(Run(moves), 1, code);
    RefusableExactlyByStaleDeny(moves, code);
    assert Refusable(moves, code);
  }

  // ----- Empty organizations

  /** A poll that goes on to the delivery has read an organization. */
  predicate PollsHaveOrganization(s: System) {
    && (forall id :: id in s.calls && s.calls[id].op.Poll? && s.calls[id].phase.Read? ==>
          Organization(s.calls[id].phase.seen) != "")
    && (forall id :: id in s.calls && s.calls[id].op.Poll? ==> !s.calls[id].phase.Located?)
    && (forall i :: 0 <= i < |s.log| && s.log[i].Delivered? ==> s.log[i].organizationId != "")
  }

  lemma NextHasOrganization(s: System, move: Move)
    requires PollsHaveOrganization(s)
    ensures PollsHaveOrganization(Next(s, move))
  {
    if move.Advance? && move.id in s.calls {
      var e := Step(s.store, s.calls[move.id]);
      assert e.event.Some? && e.event.value.Delivered? ==> e.event.value.organizationId != "";
    }
  }

  /** In no run is an empty organization delivered. */
  lemma {:induction false} DeliveriesNameAnOrganization(moves: seq<Move>)
    ensures PollsHaveOrganization(Run(moves))
  {
    if moves != [] {
      DeliveriesNameAnOrganization(moves[..|moves| - 1]);
      NextHasOrganization(Run(moves[..|moves| - 1]), moves[|moves| - 1]);
    }
  }
}
