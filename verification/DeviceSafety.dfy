/** Safety of the device authorization grant over every run of its concurrent callers. */
module DeviceSafety {
  import opened Text
  import opened DeviceStore
  import opened DeviceProtocol

  // ----- Lives that have ended

  /** A life that is legal now was legal before. */
  lemma {:induction false} LegalBefore(log: seq<Event>, code: string, n: nat)
    requires n <= |log| && LifeOf(log, code) != Illegal
    ensures LifeOf(log[..n], code) != Illegal
  {
    if n < |log| {
      LegalBefore(log[..|log| - 1], code, n);
      assert log[..|log| - 1][..n] == log[..n];
    } else {
      assert log[..n] == log;
    }
  }

  /** After the end of a life only refusals and expiries follow. */
  lemma {:induction false} EndedStays(log: seq<Event>, code: string, n: nat)
    requires n <= |log| && LifeOf(log, code) != Illegal && LifeOf(log[..n], code) == Closed
    ensures LifeOf(log, code) == Closed
    ensures forall k :: n <= k < |log| && log[k].code == code ==> log[k].Refused? || log[k].Expired?
  {
    if n < |log| {
      var front := log[..|log| - 1];
      assert front[..n] == log[..n];
      EndedStays(front, code, n);
    } else {
      assert log[..n] == log;
    }
  }

  /** The life just before and just after an event of the code. */
  lemma LifeAround(log: seq<Event>, code: string, i: nat)
    requires i < |log| && log[i].code == code && LifeOf(log, code) != Illegal
    ensures LifeOf(log[..i + 1], code) == Live(LifeOf(log[..i], code), log[i]) != Illegal
    ensures LifeOf(log[..i], code) != Illegal
  {
    LegalBefore(log, code, i + 1);
    LegalBefore(log, code, i);
    assert log[..i + 1][..i] == log[..i];
  }

  // ----- Delivery

  /** At most one poll of a device code is answered with a token. */
  lemma DeliveredAtMostOnce(moves: seq<Move>, code: string, i: nat, j: nat)
    requires i < j < |Run(moves).log|
    requires Run(moves).log[i].Delivered? && Run(moves).log[i].code == code
    ensures !(Run(moves).log[j].Delivered? && Run(moves).log[j].code == code)
  {
    RunsFollowTheLife(moves, code);
    var log := Run(moves).log;
    LifeAround(log, code, i);
    EndedStays(log, code, i + 1);
  }

  lemma {:induction false} GrantComesFromApproval(log: seq<Event>, code: string) returns (i: nat)
    requires LifeOf(log, code).Granted?
    ensures var life := LifeOf(log, code);
            && i < |log| && log[i].Completed? && log[i].code == code
            && log[i].input.userId == life.userId
            && log[i].input.organizationId == life.organizationId
            && log[i].input.accessToken == life.accessToken
    ensures forall k :: 0 <= k < |log| && k != i ==> !(log[k].Completed? && log[k].code == code)
  {
    var n := |log| - 1;
    if log[n].code == code {
      i := n;
      forall k | 0 <= k < n
        ensures !(log[k].Completed? && log[k].code == code)
      {
        if log[k].Completed? && log[k].code == code {
          LifeAround(log, code, k);
          assert log[..n][..k + 1] == log[..k + 1];
          GrantedOnlyEnds(log[..n], code, k + 1);
        }
      }
    } else {
      i := GrantComesFromApproval(log[..n], code);
    }
  }

  /** Nothing but its end follows a grant. */
  lemma {:induction false} GrantedOnlyEnds(log: seq<Event>, code: string, n: nat)
    requires n <= |log| && LifeOf(log, code) != Illegal && LifeOf(log[..n], code).Granted?
    ensures LifeOf(log, code) == LifeOf(log[..n], code) || LifeOf(log, code) == Closed
  {
    if n < |log| {
      var front := log[..|log| - 1];
      assert front[..n] == log[..n];
      GrantedOnlyEnds(front, code, n);
    } else {
      assert log[..n] == log;
    }
  }

  /** The token and the organization a poll delivers come from one approval, the only one that succeeded
      for that device code, and it came before. */
  lemma DeliveryComesFromOneApproval(moves: seq<Move>, j: nat) returns (i: nat)
    requires j < |Run(moves).log| && Run(moves).log[j].Delivered?
    ensures var log := Run(moves).log;
            && i < j
            && log[i].Completed? && log[i].code == log[j].code
            && log[i].input.accessToken == log[j].accessToken
            && log[i].input.organizationId == log[j].organizationId
            && forall k :: 0 <= k < |log| && k != i ==> !(log[k].Completed? && log[k].code == log[j].code)
  {
    var log := Run(moves).log;
    var code := log[j].code;
    RunsFollowTheLife(moves, code);
    LifeAround(log, code, j);
    i := GrantComesFromApproval(log[..j], code);
    EndedStays(log, code, j + 1);
    forall k | 0 <= k < |log| && k != i
      ensures !(log[k].Completed? && log[k].code == code)
    {
      if k < j {
        assert log[..j][k] == log[k];
      }
    }
  }

  /** A poll answers with a token exactly when the run records the delivery of it. */
  lemma DeliveryIsRecorded(s: Store, call: Call, accessToken: string, organizationId: string)
    requires call.op.Poll? && (call.phase.Read? ==> call.phase.key == call.op.deviceCode)
    requires !call.phase.Located?
    ensures Step(s, call).outcome == Finish(Delivery(accessToken, organizationId)) <==>
            Step(s, call).event == Some(Delivered(call.op.deviceCode, accessToken, organizationId))
  {}

  /** In every run, a poll that nothing interrupts is answered by the life of its device code. */
  lemma PollFollowsTheLife(moves: seq<Move>, code: string)
    ensures var store := Run(moves).store;
            var reply := Alone(store, Poll(code)).1;
            match LifeOf(Run(moves).log, code)
            case Fresh => reply == ExpiredToken
            case Open => reply == AuthorizationPending
            case Held(_, _) => reply == AuthorizationPending
            case Granted(_, organizationId, accessToken) =>
              if organizationId == "" then reply == ExpiredToken
              else if code in store.secrets then reply == Delivery(accessToken, organizationId)
              else reply == AuthorizationPending
            case Closed => reply == if code in store.requests then AccessDenied else ExpiredToken
            case Illegal => false
  {
    RunsFollowTheLife(moves, code);
  }

  // ----- Ends

  lemma {:induction false} RunExtends(first: seq<Move>, more: seq<Move>)
    ensures Run(first).log <= Run(first + more).log
  {
    if more == [] {
      assert first + more == first;
    } else {
      var last := |more| - 1;
      RunExtends(first, more[..last]);
      assert (first + more)[..|first + more| - 1] == first + more[..last];
    }
  }

  /** A request that existed and has been denied, delivered or dropped is never pending, claimed or
      approved again. */
  lemma EndedRequestsStayEnded(first: seq<Move>, more: seq<Move>, code: string)
    requires LifeOf(Run(first).log, code) != Fresh
    requires var r := Run(first).store.requests; code in r ==> r[code].status == Denied
    ensures var r := Run(first + more).store.requests; code in r ==> r[code].status == Denied
  {
    RunsFollowTheLife(first, code);
    RunsFollowTheLife(first + more, code);
    RunExtends(first, more);
    var log := Run(first + more).log;
    assert log[..|Run(first).log|] == Run(first).log;
    EndedStays(log, code, |Run(first).log|);
  }

  // ----- Claims

  /** A successful claim is held until its own release, its completion or the end of the request. */
  lemma {:induction false} HeldUntil(log: seq<Event>, code: string, n: nat, claim: Life)
    requires n <= |log| && LifeOf(log, code) != Illegal && LifeOf(log[..n], code) == claim && claim.Held?
    ensures || LifeOf(log, code) == claim
            || LifeOf(log, code).Granted? || LifeOf(log, code).Closed?
            || exists k :: n <= k < |log| && log[k] == Released(code, claim.userId)
  {
    if n < |log| {
      var front := log[..|log| - 1];
      assert front[..n] == log[..n];
      HeldUntil(front, code, n, claim);
      if k :| n <= k < |front| && front[k] == Released(code, claim.userId) {
        assert log[k] == Released(code, claim.userId);
      }
    } else {
      assert log[..n] == log;
    }
  }

  /** Of concurrent claims one wins: between two successful claims lies a release by the first holder. */
  lemma ClaimsHaveOneWinner(moves: seq<Move>, i: nat, j: nat)
    requires i < j < |Run(moves).log|
    requires Run(moves).log[i].Claimed? && Run(moves).log[j].Claimed?
             && Run(moves).log[i].code == Run(moves).log[j].code
    ensures exists k :: i < k < j && Run(moves).log[k] == Released(Run(moves).log[i].code, Run(moves).log[i].userId)
  {
    var log := Run(moves).log;
    var code := log[i].code;
    RunsFollowTheLife(moves, code);
    LifeAround(log, code, i);
    LifeAround(log, code, j);
    assert log[..j][..i + 1] == log[..i + 1];
    HeldUntil(log[..j], code, i + 1, Held(log[i].userId, log[i].organizationId));
    var k :| i + 1 <= k < j && log[..j][k] == Released(code, log[i].userId);
    assert log[k] == Released(code, log[i].userId);
  }

  /** An approval is written for the user who holds the claim at that moment, and an approved request
      names that user and the organization the approval named. */
  lemma ApprovalIsTheHolders(moves: seq<Move>, code: string) returns (i: nat)
    requires code in Run(moves).store.requests && Run(moves).store.requests[code].status == Approved
    ensures var log := Run(moves).log;
            var request := Run(moves).store.requests[code];
            && i < |log| && log[i].Completed? && log[i].code == code
            && LifeOf(log[..i], code).Held? && LifeOf(log[..i], code).userId == log[i].input.userId
            && request.userId == Some(log[i].input.userId)
            && request.organizationId == Some(log[i].input.organizationId)
  {
    RunsFollowTheLife(moves, code);
    i := GrantComesFromApproval(Run(moves).log, code);
    LifeAround(Run(moves).log, code, i);
  }

  // ----- Refusal of what has been approved

  /** A deny that has read a request and is about to overwrite it. */
  predicate StaleDeny(s: System, id: nat, code: string) {
    id in s.calls && s.calls[id].op.Deny? && s.calls[id].phase.Read? && s.calls[id].phase.key == code
  }

  /** What a continuation of a run adds to its log. */
  function Added(first: seq<Move>, more: seq<Move>): seq<Event> {
    var before, after := Run(first).log, Run(first + more).log;
    if |before| <= |after| then after[|before|..] else []
  }

  /** An approved request may still be refused in some continuation of the run. */
  ghost predicate Refusable(first: seq<Move>, code: string) {
    exists more: seq<Move> :: Refused(code) in Added(first, more)
  }

  /** A grant stays or ends in every continuation. */
  lemma GrantStaysOrEnds(first: seq<Move>, more: seq<Move>, code: string)
    requires LifeOf(Run(first).log, code).Granted?
    ensures LifeOf(Run(first + more).log, code).Granted? || LifeOf(Run(first + more).log, code).Closed?
  {
    RunExtends(first, more);
    RunsFollowTheLife(first + more, code);
    assert Run(first + more).log[..|Run(first).log|] == Run(first).log;
    GrantedOnlyEnds(Run(first + more).log, code, |Run(first).log|);
  }

  lemma {:induction false} NoLateRefusal(first: seq<Move>, more: seq<Move>, code: string)
    requires LifeOf(Run(first).log, code).Granted? && forall id :: !StaleDeny(Run(first), id, code)
    ensures Run(first).log <= Run(first + more).log
    ensures Refused(code) !in Run(first + more).log[|Run(first).log|..]
    ensures forall id :: !StaleDeny(Run(first + more), id, code)
  {
    RunExtends(first, more);
    var moves := first + more;
    if more == [] {
      assert moves == first;
    } else {
      var last := |more| - 1;
      var s := Run(first + more[..last]);
      NoLateRefusal(first, more[..last], code);
      GrantStaysOrEnds(first, more[..last], code);
      assert moves[..|moves| - 1] == first + more[..last];
      RunsFollowTheLife(first + more[..last], code);
      NoNewStaleDeny(s, moves[|moves| - 1], code);
      var n := |Run(first).log|;
      assert Run(moves).log[n..] == s.log[n..] + Run(moves).log[|s.log|..];
    }
  }

  lemma NoNewStaleDeny(s: System, move: Move, code: string)
    requires Matches(s.store, code, LifeOf(s.log, code))
    requires LifeOf(s.log, code).Granted? || LifeOf(s.log, code).Closed?
    requires forall id :: !StaleDeny(s, id, code)
    ensures s.log <= Next(s, move).log
    ensures Refused(code) !in Next(s, move).log[|s.log|..]
    ensures forall id :: !StaleDeny(Next(s, move), id, code)
  {
    if move.Advance? && move.id in s.calls {
      var e := Step(s.store, s.calls[move.id]);
      assert !StaleDeny(s, move.id, code);
      assert Next(s, move).log[|s.log|..] == if e.event.None? then [] else [e.event.value];
    }
    forall i
      ensures !StaleDeny(Next(s, move), i, code)
    {
      assert !StaleDeny(s, i, code);
    }
  }

  /** `deny` reads and writes in two commands: an approved request can still be refused exactly while a
      deny that read it before is in flight. */
  lemma RefusableExactlyByStaleDeny(first: seq<Move>, code: string)
    requires LifeOf(Run(first).log, code).Granted?
    ensures Refusable(first, code) <==> exists id :: StaleDeny(Run(first), id, code)
  {
    if id :| StaleDeny(Run(first), id, code) {
      var more := [Advance(id)];
      var moves := first + more;
      assert moves[..|moves| - 1] == first;
      assert Run(moves).log == Run(first).log + [Refused(code)];
      assert Added(first, more) == [Refused(code)];
      assert Refusable(first, code);
    } else {
      forall more: seq<Move>
        ensures Refused(code) !in Added(first, more)
      {
        NoLateRefusal(first, more, code);
      }
    }
  }

  // ----- Without interference

  /** Create, approve, poll: the poll delivers what was approved and leaves nothing behind; an empty
      organization is answered as an expired token. */
  lemma UndisturbedGrant(s: Store, code: string, shown: string, at: nat, input: Input)
    requires NormalizeUserCode(input.userCode) == shown
    ensures var created := Alone(s, Create(code, shown, at)).0;
            var (claimed, c) := Alone(created, Claim(input));
            var (completed, d) := Alone(claimed, Complete(input));
            var (polled, reply) := Alone(completed, Poll(code));
            && c == d == Done(true)
            && (input.organizationId != "" ==>
                  && reply == Delivery(input.accessToken, input.organizationId)
                  && code !in polled.requests && code !in polled.secrets && shown !in polled.index
                  && Alone(polled, Poll(code)).1 == ExpiredToken)
            && (input.organizationId == "" ==> reply == ExpiredToken)
  {
    var created := Alone(s, Create(code, shown, at)).0;
    assert created.index[shown] == code && created.requests[code] == Request(shown, Pending, None, None, None, at);
    var claimed := Alone(created, Claim(input)).0;
    assert claimed.index == created.index && claimed.requests[code].status == Claiming;
    var completed := Alone(claimed, Complete(input)).0;
    assert completed.requests[code].status == Approved && completed.secrets[code] == input.accessToken;
  }
}
