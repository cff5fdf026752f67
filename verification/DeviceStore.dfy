/** The Redis keys of the CLI device authorization store and the steps its operations take on them.
    Every Redis command is one step; a digest is as good as the code it hashes. */
module DeviceStore {
  import opened Text

  datatype Status = Pending | Claiming | Approved | Denied

  datatype Request = Request(
    userCode: string,
    status: Status,
    userId: Option<string>,
    organizationId: Option<string>,
    preset: Option<string>,
    createdAt: nat)

  /** What a caller of `approve` brings along. */
  datatype Input = Input(userCode: string, userId: string, organizationId: string, preset: string, accessToken: string)

  /** The request and secret of each device code, and the device code of each user code. */
  datatype Store = Store(requests: map<string, Request>, secrets: map<string, string>, index: map<string, string>)

  datatype Op =
    | Create(deviceCode: string, shownCode: string, createdAt: nat)
    | Claim(input: Input)
    | Complete(input: Input)
    | Release(releaseCode: string, userId: string)
    | Deny(denyCode: string)
    | Poll(deviceCode: string)

  /** How far an operation has come: nothing read, device code known, request read. */
  datatype Phase = Start | Located(key: string) | Read(key: string, seen: Request)

  datatype Call = Call(op: Op, phase: Phase)

  datatype Reply =
    | Done(ok: bool)
    | AuthorizationPending
    | AccessDenied
    | ExpiredToken
    | Delivery(accessToken: string, organizationId: string)

  datatype Outcome = Continue(call: Call) | Finish(reply: Reply)

  /** What a step does to the request of a device code. */
  datatype Event =
    | Created(code: string)
    | Claimed(code: string, userId: string, organizationId: string)
    | Released(code: string, userId: string)
    | Completed(code: string, input: Input)
    | Delivered(code: string, accessToken: string, organizationId: string)
    | Refused(code: string)
    | Expired(code: string)

  datatype Effect = Effect(store: Store, outcome: Outcome, event: Option<Event>)

  function NormalizeUserCode(value: string): string {
    if value == "" then ""
    else
      var c := value[0];
      var rest := NormalizeUserCode(value[1..]);
      if 'a' <= c <= 'z' then [(c as int - 'a' as int + 'A' as int) as char] + rest
      else if '0' <= c <= '9' || 'A' <= c <= 'Z' then [c] + rest
      else rest
  }

  /** Letters are upper-cased, digits kept, everything else is dropped. */
  lemma NormalizedCharacter(c: char)
    ensures NormalizeUserCode([c]) ==
            if 'A' <= c <= 'Z' || '0' <= c <= '9' then [c]
            else if 'a' <= c <= 'z' then [(c as int - 32) as char]
            else ""
  {
    assert [c][1..] == "";
  }

  /** Normalising goes character by character. */
  lemma {:induction false} NormalizedParts(a: string, b: string)
    ensures NormalizeUserCode(a + b) == NormalizeUserCode(a) + NormalizeUserCode(b)
  {
    if a == "" {
      assert a + b == b;
    } else {
      assert (a + b)[1..] == a[1..] + b;
      NormalizedParts(a[1..], b);
    }
  }

  // ----- The atomic scripts, on values

  function ClaimScript(s: Store, key: string, userCode: string, claiming: Request): (Store, bool) {
    if key !in s.requests || s.requests[key].status != Pending || s.requests[key].userCode != userCode then (s, false)
    else (s.(requests := s.requests[key := claiming]), true)
  }

  predicate HeldBy(s: Store, key: string, userCode: string, userId: string) {
    && key in s.requests
    && s.requests[key].status == Claiming
    && s.requests[key].userCode == userCode
    && s.requests[key].userId == Some(userId)
  }

  function CompleteScript(s: Store, key: string, userCode: string, userId: string, secret: string,
                          approved: Request): (Store, bool) {
    if !HeldBy(s, key, userCode, userId) then (s, false)
    else (s.(secrets := s.secrets[key := secret], requests := s.requests[key := approved]), true)
  }

  function ReleaseScript(s: Store, key: string, userCode: string, userId: string, pending: Request): (Store, bool) {
    if !HeldBy(s, key, userCode, userId) then (s, false)
    else (s.(requests := s.requests[key := pending]), true)
  }

  function DeliverScript(s: Store, key: string, userCode: string): (Store, Option<string>) {
    if key !in s.requests || s.requests[key].status != Approved || key !in s.secrets then (s, None)
    else (Store(s.requests - {key}, s.secrets - {key}, s.index - {userCode}), Some(s.secrets[key]))
  }

  // ----- The operations, step by step

  /** The user code an operation looks its device code up with. */
  function LookupCode(op: Op): string {
    match op
    case Claim(input) => NormalizeUserCode(input.userCode)
    case Complete(input) => NormalizeUserCode(input.userCode)
    case Release(userCode, _) => NormalizeUserCode(userCode)
    case Deny(userCode) => NormalizeUserCode(userCode)
    case Create(_, shownCode, _) => shownCode
    case Poll(_) => ""
  }

  /** The checks between reading a request and writing it. */
  predicate MayProceed(op: Op, seen: Request) {
    match op
    case Claim(input) => seen.status == Pending && seen.userCode == LookupCode(op)
    case Complete(input) =>
      && seen.status == Claiming && seen.userCode == LookupCode(op)
      && seen.userId == Some(input.userId) && seen.organizationId == Some(input.organizationId)
      && seen.preset == Some(input.preset)
    case Release(_, userId) =>
      seen.status == Claiming && seen.userCode == LookupCode(op) && seen.userId == Some(userId)
    case Deny(_) => seen.status == Pending
    case _ => false
  }

  function Organization(seen: Request): string {
    if seen.organizationId.Some? then seen.organizationId.value else ""
  }

  /** The last step of an operation that has read a request. */
  function Write(s: Store, op: Op, key: string, seen: Request): Effect {
    match op
    case Claim(input) =>
      var claiming := seen.(status := Claiming, userId := Some(input.userId),
                            organizationId := Some(input.organizationId), preset := Some(input.preset));
      var (t, ok) := ClaimScript(s, key, LookupCode(op), claiming);
      Effect(t, Finish(Done(ok)), if ok then Some(Claimed(key, input.userId, input.organizationId)) else None)
    case Complete(input) =>
      var approved := seen.(status := Approved);
      var (t, ok) := CompleteScript(s, key, LookupCode(op), input.userId, input.accessToken, approved);
      Effect(t, Finish(Done(ok)), if ok then Some(Completed(key, input)) else None)
    case Release(_, userId) =>
      var pending := Request(seen.userCode, Pending, None, None, None, seen.createdAt);
      var (t, ok) := ReleaseScript(s, key, LookupCode(op), userId, pending);
      Effect(t, Finish(Done(ok)), if ok then Some(Released(key, userId)) else None)
    case Deny(_) =>
      Effect(s.(requests := s.requests[key := seen.(status := Denied)]), Finish(Done(true)), Some(Refused(key)))
    case Poll(_) =>
      var (t, secret) := DeliverScript(s, key, seen.userCode);
      if secret.None? then Effect(t, Finish(AuthorizationPending), None)
      else Effect(t, Finish(Delivery(secret.value, Organization(seen))),
                  Some(Delivered(key, secret.value, Organization(seen))))
    case Create(_, _, _) => Effect(s, Finish(Done(true)), None)
  }

  /** What `poll` makes of the request it reads; None if it goes on to the delivery script. */
  function PollReply(seen: Option<Request>): Option<Reply> {
    match seen
    case None => Some(ExpiredToken)
    case Some(r) =>
      if r.status == Pending || r.status == Claiming then Some(AuthorizationPending)
      else if r.status == Denied then Some(AccessDenied)
      else if Organization(r) == "" then Some(ExpiredToken)
      else None
  }

  function Lookup<K, V>(m: map<K, V>, k: K): Option<V> {
    if k in m then Some(m[k]) else None
  }

  /** One Redis command of a call. */
  function Step(s: Store, call: Call): Effect {
    match (call.op, call.phase)
    case (Create(code, shown, at), Start) =>
      Effect(s.(requests := s.requests[code := Request(shown, Pending, None, None, None, at)]),
             Continue(call.(phase := Located(code))), Some(Created(code)))
    case (Create(code, shown, _), _) =>
      Effect(s.(index := s.index[shown := code]), Finish(Done(true)), None)
    case (Poll(code), Start) =>
      var seen := Lookup(s.requests, code);
      var reply := PollReply(seen);
      if reply.Some? then Effect(s, Finish(reply.value), None)
      else Effect(s, Continue(call.(phase := Read(code, seen.value))), None)
    case (op, Start) =>
      var key := Lookup(s.index, LookupCode(op));
      Effect(s, if key.None? then Finish(Done(false)) else Continue(call.(phase := Located(key.value))), None)
    case (op, Located(key)) =>
      var seen := Lookup(s.requests, key);
      Effect(s, if seen.None? || !MayProceed(op, seen.value) then Finish(Done(false))
                else Continue(call.(phase := Read(key, seen.value))), None)
    case (op, Read(key, seen)) => Write(s, op, key, seen)
  }

  /** A call that no other call interrupts takes at most three steps. */
  function Alone(s: Store, op: Op): (Store, Reply) {
    var first := Step(s, Call(op, Start));
    if first.outcome.Finish? then (first.store, first.outcome.reply)
    else
      var second := Step(first.store, first.outcome.call);
      if second.outcome.Finish? then (second.store, second.outcome.reply)
      else
        var third := Step(second.store, second.outcome.call);
        (third.store, if third.outcome.Finish? then third.outcome.reply else Done(false))
  }

  /** `CliDeviceAuthStore`, over the Redis keys it owns. */
  class CliDeviceAuthStore {
    var requests: map<string, Request>
    var secrets: map<string, string>
    var index: map<string, string>

    ghost function Contents(): Store
      reads this
    {
      Store(requests, secrets, index)
    }

    /** The device code that a user code leads to, if its request is there and is still that of the user code. */
    ghost function Located(userCode: string): (key: Option<string>)
      reads this
      ensures key.Some? ==> key.value in requests
    {
      var u := NormalizeUserCode(userCode);
      if u in index && index[u] in requests && requests[index[u]].userCode == u then Some(index[u]) else None
    }

    constructor ()
      ensures Contents() == Store(map[], map[], map[])
    {
      requests, secrets, index := map[], map[], map[];
    }

    method Create(deviceCode: string, userCode: string, createdAt: nat)
      modifies this
      ensures Contents() == Alone(old(Contents()), Op.Create(deviceCode, userCode, createdAt)).0
      ensures requests == old(requests)[deviceCode := Request(userCode, Pending, None, None, None, createdAt)]
      ensures index == old(index)[userCode := deviceCode] && secrets == old(secrets)
    {
      requests := requests[deviceCode := Request(userCode, Pending, None, None, None, createdAt)];
      index := index[userCode := deviceCode];
    }

    method Claim(input: Input) returns (ok: bool)
      modifies this
      ensures (Contents(), Done(ok)) == Alone(old(Contents()), Op.Claim(input))
      ensures var key := old(Located(input.userCode));
              && (ok <==> key.Some? && old(requests[key.value].status) == Pending)
              && (!ok ==> Contents() == old(Contents()))
              && (ok ==> secrets == old(secrets) && index == old(index)
                         && var r := old(requests[key.value]);
                            requests == old(requests)[key.value :=
                              Request(r.userCode, Claiming, Some(input.userId), Some(input.organizationId),
                                      Some(input.preset), r.createdAt)])
    {
      var normalizedUserCode := NormalizeUserCode(input.userCode);
      if normalizedUserCode !in index { return false; }
      var key := index[normalizedUserCode];
      if key !in requests { return false; }
      var state := requests[key];
      if state.status != Pending || state.userCode != normalizedUserCode { return false; }
      var claimingState := state.(status := Claiming, userId := Some(input.userId),
                                  organizationId := Some(input.organizationId), preset := Some(input.preset));
      ok := EvalClaim(key, normalizedUserCode, claimingState);
    }

    method EvalClaim(key: string, userCode: string, state: Request) returns (ok: bool)
      modifies this`requests
      ensures (Contents(), ok) == ClaimScript(old(Contents()), key, userCode, state)
      ensures ok <==> && key in old(requests) && old(requests)[key].status == Pending
                      && old(requests)[key].userCode == userCode
      ensures requests == if ok then old(requests)[key := state] else old(requests)
    {
      if key !in requests { return false; }
      var current := requests[key];
      if current.status != Pending || current.userCode != userCode { return false; }
      requests := requests[key := state];
      return true;
    }

    method CompleteApproval(input: Input) returns (ok: bool)
      modifies this
      ensures (Contents(), Done(ok)) == Alone(old(Contents()), Complete(input))
      ensures var key := old(Located(input.userCode));
              && (ok <==> key.Some? && var r := old(requests[key.value]);
                          && r.status == Claiming && r.userId == Some(input.userId)
                          && r.organizationId == Some(input.organizationId) && r.preset == Some(input.preset))
              && (!ok ==> Contents() == old(Contents()))
              && (ok ==> secrets == old(secrets)[key.value := input.accessToken] && index == old(index)
                         && requests == old(requests)[key.value := old(requests[key.value]).(status := Approved)])
    {
      var normalizedUserCode := NormalizeUserCode(input.userCode);
      if normalizedUserCode !in index { return false; }
      var key := index[normalizedUserCode];
      if key !in requests { return false; }
      var state := requests[key];
      if || state.status != Claiming || state.userCode != normalizedUserCode || state.userId != Some(input.userId)
         || state.organizationId != Some(input.organizationId) || state.preset != Some(input.preset) {
        return false;
      }
      ok := EvalComplete(key, normalizedUserCode, input.userId, input.accessToken, state.(status := Approved));
    }

    method EvalComplete(key: string, userCode: string, userId: string, secret: string, state: Request)
      returns (ok: bool)
      modifies this`requests, this`secrets
      ensures (Contents(), ok) == CompleteScript(old(Contents()), key, userCode, userId, secret, state)
      ensures ok <==> && key in old(requests) && old(requests)[key].status == Claiming
                      && old(requests)[key].userCode == userCode && old(requests)[key].userId == Some(userId)
      ensures requests == if ok then old(requests)[key := state] else old(requests)
      ensures secrets == if ok then old(secrets)[key := secret] else old(secrets)
    {
      if key !in requests { return false; }
      var current := requests[key];
      if current.status != Claiming || current.userCode != userCode || current.userId != Some(userId) { return false; }
      secrets := secrets[key := secret];
      requests := requests[key := state];
      return true;
    }

    method ReleaseClaim(userCode: string, userId: string) returns (ok: bool)
      modifies this
      ensures (Contents(), Done(ok)) == Alone(old(Contents()), Release(userCode, userId))
      ensures var key := old(Located(userCode));
              && (ok <==> key.Some? && old(requests[key.value].status) == Claiming
                          && old(requests[key.value].userId) == Some(userId))
              && (!ok ==> Contents() == old(Contents()))
              && (ok ==> secrets == old(secrets) && index == old(index)
                         && var r := old(requests[key.value]);
                            requests == old(requests)[key.value :=
                              Request(r.userCode, Pending, None, None, None, r.createdAt)])
    {
      var normalizedUserCode := NormalizeUserCode(userCode);
      if normalizedUserCode !in index { return false; }
      var key := index[normalizedUserCode];
      if key !in requests { return false; }
      var state := requests[key];
      if state.status != Claiming || state.userCode != normalizedUserCode || state.userId != Some(userId) {
        return false;
      }
      ok := EvalRelease(key, normalizedUserCode, userId,
                        Request(state.userCode, Pending, None, None, None, state.createdAt));
    }

    method EvalRelease(key: string, userCode: string, userId: string, state: Request) returns (ok: bool)
      modifies this`requests
      ensures (Contents(), ok) == ReleaseScript(old(Contents()), key, userCode, userId, state)
      ensures ok <==> && key in old(requests) && old(requests)[key].status == Claiming
                      && old(requests)[key].userCode == userCode && old(requests)[key].userId == Some(userId)
      ensures requests == if ok then old(requests)[key := state] else old(requests)
    {
      if key !in requests { return false; }
      var current := requests[key];
      if current.status != Claiming || current.userCode != userCode || current.userId != Some(userId) { return false; }
      requests := requests[key := state];
      return true;
    }

    method Deny(userCode: string) returns (ok: bool)
      modifies this
      ensures (Contents(), Done(ok)) == Alone(old(Contents()), Op.Deny(userCode))
      ensures var u := NormalizeUserCode(userCode);
              && (ok <==> && u in old(index) && old(index)[u] in old(requests)
                          && old(requests[index[u]].status) == Pending)
              && (!ok ==> Contents() == old(Contents()))
              && (ok ==> secrets == old(secrets) && index == old(index)
                         && requests == old(requests)[old(index)[u] := old(requests[index[u]]).(status := Denied)])
    {
      var normalizedUserCode := NormalizeUserCode(userCode);
      if normalizedUserCode !in index { return false; }
      var key := index[normalizedUserCode];
      if key !in requests { return false; }
      var state := requests[key];
      if state.status != Pending { return false; }
      requests := requests[key := state.(status := Denied)];
      return true;
    }

    method Poll(deviceCode: string) returns (reply: Reply)
      modifies this
      ensures (Contents(), reply) == Alone(old(Contents()), Op.Poll(deviceCode))
      ensures deviceCode !in old(requests) ==> reply == ExpiredToken
      ensures deviceCode in old(requests) ==>
                var r := old(requests)[deviceCode];
                match r.status
                case Pending => reply == AuthorizationPending
                case Claiming => reply == AuthorizationPending
                case Denied => reply == AccessDenied
                case Approved =>
                  if r.organizationId == None || r.organizationId == Some("") then reply == ExpiredToken
                  else if deviceCode !in old(secrets) then reply == AuthorizationPending
                  else reply == Delivery(old(secrets)[deviceCode], r.organizationId.value)
      ensures !reply.Delivery? ==> Contents() == old(Contents())
      ensures reply.Delivery? ==>
                && requests == old(requests) - {deviceCode} && secrets == old(secrets) - {deviceCode}
                && index == old(index) - {old(requests)[deviceCode].userCode}
    {
      if deviceCode !in requests { return ExpiredToken; }
      var state := requests[deviceCode];
      if state.status == Pending || state.status == Claiming { return AuthorizationPending; }
      if state.status == Denied { return AccessDenied; }
      if Organization(state) == "" { return ExpiredToken; }
      var secret := EvalDeliver(deviceCode, state.userCode);
      if secret.None? { return AuthorizationPending; }
      return Delivery(secret.value, Organization(state));
    }

    method EvalDeliver(key: string, userCode: string) returns (secret: Option<string>)
      modifies this
      ensures (Contents(), secret) == DeliverScript(old(Contents()), key, userCode)
      ensures secret == if key in old(requests) && old(requests)[key].status == Approved && key in old(secrets)
                        then Some(old(secrets)[key]) else None
      ensures secret.None? ==> Contents() == old(Contents())
      ensures secret.Some? ==>
                requests == old(requests) - {key} && secrets == old(secrets) - {key} && index == old(index) - {userCode}
    {
      if key !in requests || requests[key].status != Approved { return None; }
      if key !in secrets { return None; }
      secret := Some(secrets[key]);
      requests, secrets, index := requests - {key}, secrets - {key}, index - {userCode};
    }

    /** `approve`: claim, complete, and give the claim back if completing fails. */
    method Approve(input: Input) returns (ok: bool)
      modifies this
      ensures var (claimed, r) := Alone(old(Contents()), Op.Claim(input));
              var (completed, c) := Alone(claimed, Complete(input));
              if r != Done(true) then !ok && Contents() == claimed
              else if c == Done(true) then ok && Contents() == completed
              else !ok && Contents() == Alone(completed, Release(input.userCode, input.userId)).0
    {
      var claimed := Claim(input);
      if !claimed { return false; }
      ok := CompleteApproval(input);
      if !ok {
        var _ := ReleaseClaim(input.userCode, input.userId);
      }
    }
  }
}
