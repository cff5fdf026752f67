/** Any number of concurrent callers of the device authorization store, and what every run keeps. */
module DeviceProtocol {
  import opened Text
  import opened DeviceStore

  // ----- Interleavings

  /** The store, the calls in flight, the device codes handed out so far, and what happened to requests. */
  datatype System = System(store: Store, calls: map<nat, Call>, issued: set<string>, log: seq<Event>)

  /** A caller starts an operation or takes its next step, or Redis drops a key. */
  datatype Move =
    | Begin(id: nat, op: Op)
    | Advance(id: nat)
    | ExpireRequest(code: string)
    | ExpireSecret(code: string)
    | ExpireIndex(userCode: string)

  const INITIAL := System(Store(map[], map[], map[]), map[], {}, [])

  function Record(log: seq<Event>, event: Option<Event>): seq<Event> {
    if event.None? then log else log + [event.value]
  }

  /** Device codes are fresh: no two creations use the same one. */
  predicate MayBegin(s: System, id: nat, op: Op) {
    id !in s.calls && (op.Create? ==> op.deviceCode !in s.issued)
  }

  function Next(s: System, move: Move): System {
    match move
    case Begin(id, op) =>
      if !MayBegin(s, id, op) then s
      else s.(calls := s.calls[id := Call(op, Start)],
              issued := if op.Create? then s.issued + {op.deviceCode} else s.issued)
    case Advance(id) =>
      if id !in s.calls then s
      else
        var e := Step(s.store, s.calls[id]);
        s.(store := e.store, log := Record(s.log, e.event),
           calls := if e.outcome.Finish? then s.calls - {id} else s.calls[id := e.outcome.call])
    case ExpireRequest(code) =>
      if code !in s.store.requests then s
      else s.(store := s.store.(requests := s.store.requests - {code}), log := s.log + [Expired(code)])
    case ExpireSecret(code) => s.(store := s.store.(secrets := s.store.secrets - {code}))
    case ExpireIndex(userCode) => s.(store := s.store.(index := s.store.index - {userCode}))
  }

  function Run(moves: seq<Move>): System {
    if moves == [] then INITIAL else Next(Run(moves[..|moves| - 1]), moves[|moves| - 1])
  }

  // ----- The life of a request, as RFC 8628 intends it

  datatype Life =
    | Fresh
    | Open
    | Held(userId: string, organizationId: string)
    | Granted(userId: string, organizationId: string, accessToken: string)
    | Closed
    | Illegal

  function Live(life: Life, event: Event): Life {
    match event
    case Created(_) => if life.Fresh? then Open else Illegal
    case Claimed(_, userId, organizationId) => if life.Open? then Held(userId, organizationId) else Illegal
    case Released(_, userId) => if life.Held? && life.userId == userId then Open else Illegal
    case Completed(_, input) =>
      if life.Held? && life.userId == input.userId then
        Granted(input.userId, input.organizationId, input.accessToken)
      else Illegal
    case Delivered(_, accessToken, organizationId) =>
      if life.Granted? && life.accessToken == accessToken && life.organizationId == organizationId then Closed
      else Illegal
    case Refused(_) => if life.Fresh? || life.Illegal? then Illegal else Closed
    case Expired(_) => if life.Fresh? || life.Illegal? then Illegal else Closed
  }

  /** The life that the events of one device code add up to. */
  function LifeOf(log: seq<Event>, code: string): Life {
    if log == [] then Fresh
    else
      var before, last := LifeOf(log[..|log| - 1], code), log[|log| - 1];
      if last.code == code then Live(before, last) else before
  }

  /** What the keys of a device code look like during each part of its life. */
  predicate Matches(s: Store, code: string, life: Life) {
    match life
    case Fresh => code !in s.requests
    case Open => code in s.requests && s.requests[code].status == Pending
    case Held(userId, organizationId) =>
      && code in s.requests
      && s.requests[code].status == Claiming
      && s.requests[code].userId == Some(userId)
      && s.requests[code].organizationId == Some(organizationId)
    case Granted(userId, organizationId, accessToken) =>
      && code in s.requests
      && s.requests[code].status == Approved
      && s.requests[code].userId == Some(userId)
      && s.requests[code].organizationId == Some(organizationId)
      && (code in s.secrets ==> s.secrets[code] == accessToken)
    case Closed => code in s.requests ==> s.requests[code].status == Denied
    case Illegal => false
  }

  // ----- One step, seen from one device code

  lemma LifeOfRecord(log: seq<Event>, event: Option<Event>, code: string)
    ensures LifeOf(Record(log, event), code) ==
            if event.Some? && event.value.code == code then Live(LifeOf(log, code), event.value) else LifeOf(log, code)
  {
    if event.Some? {
      assert (log + [event.value])[..|log|] == log;
    }
  }

  /** A life never starts over, and nothing follows the grant of a request but its end. */
  predicate Grows(before: Life, after: Life) {
    && (before.Fresh? <==> after.Fresh?)
    && (before.Closed? ==> after.Closed?)
    && (before.Granted? ==> after == before || after.Closed?)
  }

  /** The device code a call works on, once it knows. */
  function KeyOf(call: Call): string {
    match call.phase
    case Start => if call.op.Create? then call.op.deviceCode else ""
    case Located(key) => key
    case Read(key, _) => key
  }

  /** What a call in flight may rely on, given the life of its device code: it found a request that
      existed, and what it read there is what its checks accepted; a poll has read the grant, which may
      have ended since. */
  predicate CallKeeps(call: Call, life: Life) {
    match call.phase
    case Start => call.op.Create? ==> life.Fresh?
    case Located(key) => !life.Fresh? && (call.op.Create? ==> key == call.op.deviceCode)
    case Read(key, seen) =>
      && !life.Fresh?
      && (if call.op.Poll? then
            life.Closed? || (life.Granted? && seen.organizationId == Some(life.organizationId))
          else MayProceed(call.op, seen))
  }

  /** The store and log change at one device code at most, and in step with its life. */
  ghost predicate Local(s: Store, log: seq<Event>, t: Store, after: seq<Event>, key: string) {
    && (forall code :: code != key ==>
          && LifeOf(after, code) == LifeOf(log, code)
          && (code in t.requests <==> code in s.requests)
          && (code in s.requests ==> t.requests[code] == s.requests[code])
          && (code in t.secrets ==> code in s.secrets && t.secrets[code] == s.secrets[code]))
    && Matches(t, key, LifeOf(after, key))
  }

  lemma WriteIsLocal(s: Store, log: seq<Event>, op: Op, key: string, seen: Request)
    requires Matches(s, key, LifeOf(log, key)) && !op.Create?
    requires CallKeeps(Call(op, Read(key, seen)), LifeOf(log, key))
    ensures var e := Write(s, op, key, seen);
            && Local(s, log, e.store, Record(log, e.event), key)
            && Grows(LifeOf(log, key), LifeOf(Record(log, e.event), key))
            && e.outcome.Finish? && e.store.index.Keys <= s.index.Keys
            && forall u :: u in e.store.index ==> e.store.index[u] == s.index[u]
  {
    var e := Write(s, op, key, seen);
    forall code
      ensures LifeOf(Record(log, e.event), code) ==
              if e.event.Some? && e.event.value.code == code then Live(LifeOf(log, code), e.event.value)
              else LifeOf(log, code)
    {
      LifeOfRecord(log, e.event, code);
    }
  }

  // ----- The invariant of every run

  ghost predicate Inv(s: System) {
    && (forall code :: Matches(s.store, code, LifeOf(s.log, code)))
    && (forall code :: LifeOf(s.log, code) != Fresh ==> code in s.issued)
    && (forall u :: u in s.store.index ==> LifeOf(s.log, s.store.index[u]) != Fresh)
    && (forall id :: id in s.calls ==> CallKeeps(s.calls[id], LifeOf(s.log, KeyOf(s.calls[id]))))
    && (forall id :: id in s.calls && s.calls[id].op.Create? ==> s.calls[id].op.deviceCode in s.issued)
    && OneCreationEach(s.calls)
  }

  predicate OneCreationEach(calls: map<nat, Call>) {
    forall i, j :: i in calls && j in calls && i != j && calls[i].op.Create? && calls[j].op.Create?
                   ==> calls[i].op.deviceCode != calls[j].op.deviceCode
  }

  /** Other calls keep what they rely on when a device code moves on in its life. */
  lemma CallKeepsGrows(call: Call, before: Life, after: Life)
    requires CallKeeps(call, before) && Grows(before, after)
    ensures CallKeeps(call, after)
  {}

  lemma OthersKeep(calls: map<nat, Call>, log: seq<Event>, after: seq<Event>, key: string)
    requires forall id :: id in calls ==> CallKeeps(calls[id], LifeOf(log, KeyOf(calls[id])))
    requires forall code :: code != key ==> LifeOf(after, code) == LifeOf(log, code)
    requires Grows(LifeOf(log, key), LifeOf(after, key))
    ensures forall id :: id in calls ==> CallKeeps(calls[id], LifeOf(after, KeyOf(calls[id])))
  {
    forall id | id in calls
      ensures CallKeeps(calls[id], LifeOf(after, KeyOf(calls[id])))
    {
      CallKeepsGrows(calls[id], LifeOf(log, KeyOf(calls[id])), LifeOf(after, KeyOf(calls[id])));
    }
  }

  lemma WriteKeepsInv(s: System, id: nat)
    requires Inv(s) && id in s.calls && s.calls[id].phase.Read? && !s.calls[id].op.Create?
    ensures Inv(Next(s, Advance(id)))
  {
    var call := s.calls[id];
    var key := call.phase.key;
    var t := Next(s, Advance(id));
    WriteIsLocal(s.store, s.log, call.op, key, call.phase.seen);
    assert Step(s.store, call) == Write(s.store, call.op, key, call.phase.seen);
    OthersKeep(s.calls, s.log, t.log, key);
  }

  lemma ReadKeepsInv(s: System, id: nat)
    requires Inv(s) && id in s.calls && !s.calls[id].phase.Read? && !s.calls[id].op.Create?
    ensures Inv(Next(s, Advance(id)))
  {
    var call := s.calls[id];
    var t := Next(s, Advance(id));
    assert t.store == s.store && t.log == s.log;
    forall i | i in t.calls
      ensures CallKeeps(t.calls[i], LifeOf(t.log, KeyOf(t.calls[i])))
    {
      if i == id {
        ReadCallKeeps(s, id);
      }
    }
  }

  lemma ReadCallKeeps(s: System, id: nat)
    requires Inv(s) && id in s.calls && !s.calls[id].phase.Read? && !s.calls[id].op.Create?
    ensures var e := Step(s.store, s.calls[id]);
            && e.store == s.store && e.event == None
            && (e.outcome.Continue? ==>
                  CallKeeps(e.outcome.call, LifeOf(s.log, KeyOf(e.outcome.call)))
                   && e.outcome.call.op == s.calls[id].op)
  {
    var call := s.calls[id];
    match call.phase
    case Start =>
      if call.op.Poll? {
        assert Matches(s.store, call.op.deviceCode, LifeOf(s.log, call.op.deviceCode));
      }
    case Located(key) =>
  }

  lemma CreateKeepsInv(s: System, id: nat)
    requires Inv(s) && id in s.calls && s.calls[id].op.Create?
    ensures Inv(Next(s, Advance(id)))
  {
    var call := s.calls[id];
    var e := Step(s.store, call);
    var t := Next(s, Advance(id));
    var code := call.op.deviceCode;
    forall c
      ensures LifeOf(t.log, c) == if call.phase.Start? && c == code then Open else LifeOf(s.log, c)
    {
      LifeOfRecord(s.log, e.event, c);
    }
    forall c
      ensures Matches(t.store, c, LifeOf(t.log, c))
    {
      assert Matches(s.store, c, LifeOf(s.log, c));
    }
    forall i | i in t.calls
      ensures CallKeeps(t.calls[i], LifeOf(t.log, KeyOf(t.calls[i])))
    {
      assert CallKeeps(s.calls[i], LifeOf(s.log, KeyOf(s.calls[i])));
    }
  }

  lemma ExpireKeepsInv(s: System, code: string)
    requires Inv(s) && code in s.store.requests
    ensures Inv(Next(s, ExpireRequest(code)))
  {
    var t := Next(s, ExpireRequest(code));
    assert t.log == Record(s.log, Some(Expired(code)));
    forall c
      ensures LifeOf(t.log, c) == if c == code then Closed else LifeOf(s.log, c)
      ensures Matches(t.store, c, LifeOf(t.log, c))
    {
      LifeOfRecord(s.log, Some(Expired(code)), c);
      assert Matches(s.store, c, LifeOf(s.log, c));
    }
    OthersKeep(s.calls, s.log, t.log, code);
  }

  lemma NextKeepsInv(s: System, move: Move)
    requires Inv(s)
    ensures Inv(Next(s, move))
  {
    match move
    case Begin(id, op) =>
    case Advance(id) =>
      if id in s.calls {
        if s.calls[id].op.Create? {
          CreateKeepsInv(s, id);
        } else if s.calls[id].phase.Read? {
          WriteKeepsInv(s, id);
        } else {
          ReadKeepsInv(s, id);
        }
      }
    case ExpireRequest(code) =>
      if code in s.store.requests {
        ExpireKeepsInv(s, code);
      }
    case ExpireSecret(code) =>
      forall c
        ensures Matches(Next(s, move).store, c, LifeOf(s.log, c))
      {
        assert Matches(s.store, c, LifeOf(s.log, c));
      }
    case ExpireIndex(userCode) =>
      forall c
        ensures Matches(Next(s, move).store, c, LifeOf(s.log, c))
      {
        assert Matches(s.store, c, LifeOf(s.log, c));
      }
  }

  lemma {:induction false} RunKeepsInv(moves: seq<Move>)
    ensures Inv(Run(moves))
  {
    if moves != [] {
      RunKeepsInv(moves[..|moves| - 1]);
      NextKeepsInv(Run(moves[..|moves| - 1]), moves[|moves| - 1]);
    }
  }

  /** In every run, every request lives as intended and its keys show where it stands. */
  lemma RunsFollowTheLife(moves: seq<Move>, code: string)
    ensures LifeOf(Run(moves).log, code) != Illegal
    ensures Matches(Run(moves).store, code, LifeOf(Run(moves).log, code))
  {
    RunKeepsInv(moves);
  }
}
