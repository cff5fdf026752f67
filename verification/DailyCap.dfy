/** The daily cap: what makes a counter fall behind what was admitted, and when that lets the cap be passed. */
module DailyCap {
  import opened Text
  import opened DailyBudget

  predicate Charges(r: Request, key: Key) {
    KeyOf(r, key.kind) == key && Amount(r, key.kind) > 0
  }

  /** Every request that charges the key names the same limit. */
  predicate FixedLimit(events: seq<Event>, key: Key, limit: nat) {
    forall i :: 0 <= i < |events| && Charges(events[i].request, key) ==>
      Limit(events[i].request, key.kind) == Some(limit)
  }

  predicate Alive(m: Counters, key: Key, t: nat) {
    key in m && (m[key].expiresAt.None? || t < m[key].expiresAt.value)
  }

  /** A request that is admitted at `t` starts the counter of the key afresh, although it was charged before:
      the counter has expired. */
  predicate Restarts(l: Ledger, key: Key, t: nat, r: Request) {
    && Charges(r, key) && Execute(l.counters, t, r).1 == Admitted
    && Charged(l.admitted, key) > 0 && !Alive(l.counters, key, t)
  }

  predicate RestartsAt(events: seq<Event>, key: Key, i: nat)
    requires i < |events|
  {
    Restarts(After(events[..i]), key, events[i].at, events[i].request)
  }

  /** In the run a counter that had expired was charged. */
  predicate Restarted(events: seq<Event>, key: Key) {
    exists i :: 0 <= i < |events| && RestartsAt(events, key, i)
  }

  lemma RestartsBefore(events: seq<Event>, key: Key, n: nat, i: nat)
    requires i < n <= |events|
    ensures RestartsAt(events[..n], key, i) <==> RestartsAt(events, key, i)
  {
    assert events[..n][..i] == events[..i];
  }

  lemma RestartedStep(events: seq<Event>, key: Key)
    requires events != []
    ensures var n := |events| - 1;
            Restarted(events, key) <==> Restarted(events[..n], key) || RestartsAt(events, key, n)
  {
    var n := |events| - 1;
    forall i | 0 <= i < n
      ensures RestartsAt(events[..n], key, i) <==> RestartsAt(events, key, i)
    {
      RestartsBefore(events, key, n, i);
    }
  }

  /** A counter that is there has an expiry, and less than what was admitted exactly if it was restarted. */
  predicate Counts(l: Ledger, key: Key, restarted: bool) {
    && (restarted ==> Charged(l.admitted, key) > 0)
    && (key in l.counters ==>
          && l.counters[key].expiresAt.Some?
          && 1 <= l.counters[key].value <= Charged(l.admitted, key)
          && (l.counters[key].value < Charged(l.admitted, key) <==> restarted))
  }

  lemma ChargeCounts(l: Ledger, key: Key, t: nat, r: Request, restarted: bool)
    requires Counts(l, key, restarted) && Charges(r, key) && Execute(l.counters, t, r).1 == Admitted
    ensures Counts(Ledger(Execute(l.counters, t, r).0, l.admitted + [r]), key, restarted || Restarts(l, key, t, r))
  {
    ExecuteAtKey(l.counters, t, r, key);
    ChargedSnoc(l.admitted, r, key);
  }

  lemma OthersCount(l: Ledger, key: Key, t: nat, r: Request, restarted: bool)
    requires Counts(l, key, restarted) && !(Charges(r, key) && Execute(l.counters, t, r).1 == Admitted)
    ensures var (m, reply) := Execute(l.counters, t, r);
            Counts(Ledger(m, if reply == Admitted then l.admitted + [r] else l.admitted), key, restarted)
  {
    ExecuteAtKey(l.counters, t, r, key);
    ChargedSnoc(l.admitted, r, key);
  }

  /** In every run, whatever the times of its scripts. */
  lemma {:induction false} RunsCount(events: seq<Event>, key: Key)
    ensures Counts(After(events), key, Restarted(events, key))
  {
    if events != [] {
      var n := |events| - 1;
      var l, e := After(events[..n]), events[n];
      RunsCount(events[..n], key);
      RestartedStep(events, key);
      if Charges(e.request, key) && Execute(l.counters, e.at, e.request).1 == Admitted {
        ChargeCounts(l, key, e.at, e.request, Restarted(events[..n], key));
      } else {
        OthersCount(l, key, e.at, e.request, Restarted(events[..n], key));
      }
    }
  }

  /** What a script sees of a counter at time `t` is less than what was admitted. */
  predicate Lags(events: seq<Event>, key: Key, t: nat) {
    Get(LiveAt(After(events).counters, t), key) < Charged(After(events).admitted, key)
  }

  /** In every run, a charged counter lags at time `t` exactly if it has expired by then, or had expired when
      it was charged before. */
  lemma LagsExactly(events: seq<Event>, key: Key, t: nat)
    ensures Lags(events, key, t) <==>
              && Charged(After(events).admitted, key) > 0
              && (!Alive(After(events).counters, key, t) || Restarted(events, key))
  {
    RunsCount(events, key);
  }

  // ----- When the cap holds

  /** One more event on a ledger. */
  function Taken(l: Ledger, e: Event): Ledger {
    var (m, reply) := Execute(l.counters, e.at, e.request);
    Ledger(m, if reply == Admitted then l.admitted + [e.request] else l.admitted)
  }

  lemma AfterTaken(events: seq<Event>, e: Event)
    ensures After(events + [e]) == Taken(After(events), e)
  {
    assert (events + [e])[..|events|] == events;
  }

  /** An admitted request finds its amount within the limit by what the script sees. */
  lemma AdmittedWithin(m: Counters, t: nat, r: Request, key: Key)
    requires Execute(m, t, r).1 == Admitted && KeyOf(r, key.kind) == key && Limit(r, key.kind).Some?
    ensures Get(LiveAt(m, t), key) + Amount(r, key.kind) <= Limit(r, key.kind).value
  {
    assert Within(LiveAt(m, t), r, key.kind);
  }

  /** Under a fixed limit no more is admitted in any run that does not charge an expired counter again. */
  lemma {:induction false} CapHoldsWithoutRestart(events: seq<Event>, key: Key, limit: nat)
    requires !Restarted(events, key) && FixedLimit(events, key, limit)
    ensures Charged(After(events).admitted, key) <= limit
  {
    if events != [] {
      var n := |events| - 1;
      var l, e := After(events[..n]), events[n];
      RestartedStep(events, key);
      CapHoldsWithoutRestart(events[..n], key, limit);
      ChargedSnoc(l.admitted, e.request, key);
      LagsExactly(events[..n], key, e.at);
      if Charges(e.request, key) && Execute(l.counters, e.at, e.request).1 == Admitted {
        AdmittedWithin(l.counters, e.at, e.request, key);
      }
    }
  }

  lemma TimelyBefore(events: seq<Event>, i: nat)
    requires Timely(events) && i <= |events|
    ensures Timely(events[..i])
  {
    var front := events[..i];
    forall j, k | 0 <= j < k < |front|
      ensures front[j].at <= front[k].at
    {
      assert events[j].at <= events[k].at;
    }
  }

  /** Scripts that run before their day has ended never charge an expired counter. */
  lemma TimelyRunsDoNotRestart(events: seq<Event>, key: Key)
    requires Timely(events)
    ensures !Restarted(events, key)
  {
    forall i | 0 <= i < |events|
      ensures !RestartsAt(events, key, i)
    {
      if Charges(events[i].request, key) {
        TimelyBefore(events, i);
        if i > 0 { assert events[i - 1].at <= events[i].at; }
        CountersAreExact(events[..i], key);
      }
    }
  }

  /** Under a fixed limit a counter never exceeds it: at no time of its day has more been admitted. */
  lemma DailyCapHolds(events: seq<Event>, key: Key, limit: nat)
    requires Timely(events) && FixedLimit(events, key, limit)
    ensures Charged(After(events).admitted, key) <= limit
  {
    TimelyRunsDoNotRestart(events, key);
    CapHoldsWithoutRestart(events, key, limit);
  }

  // ----- When the cap can be passed

  /** A request for the key under the limit that would take what is admitted beyond it at time `t`. */
  predicate Overshoots(events: seq<Event>, key: Key, limit: nat, t: nat, r: Request) {
    && KeyOf(r, key.kind) == key && Limit(r, key.kind) == Some(limit)
    && Charged(After(events + [Event(t, r)]).admitted, key) > limit
  }

  ghost predicate Passable(events: seq<Event>, key: Key, limit: nat, t: nat) {
    exists r :: Overshoots(events, key, limit, t, r)
  }

  /** The other counters of the organization and day leave room for one more unit under the largest limit. */
  predicate OthersHaveRoom(m: Counters, key: Key, t: nat) {
    forall kind :: kind != key.kind ==> Get(LiveAt(m, t), key.(kind := kind)) < MAX_SAFE_INTEGER
  }

  /** A request for an amount of a key under a limit, and for one unit of everything else. */
  function RequestFor(key: Key, limit: nat, amount: nat): (r: Request)
    ensures KeyOf(r, key.kind) == key && Limit(r, key.kind) == Some(limit)
    ensures Amount(r, key.kind) == if key.kind.Runs? then 1 else amount
    ensures forall kind :: KeyOf(r, kind) == key.(kind := kind)
    ensures forall kind :: kind != key.kind && Limit(r, kind).Some? ==>
              Limit(r, kind).value == MAX_SAFE_INTEGER && Amount(r, kind) <= 1
    ensures 1 <= amount <= limit <= MAX_SAFE_INTEGER ==> IsValid(r)
  {
    var now := key.day * DAY;
    match key.kind
    case Runs => RunTokensAndCost(key.organization, now, limit, 1, MAX_SAFE_INTEGER, 1, MAX_SAFE_INTEGER)
    case Tokens => TokensAndCost(key.organization, now, amount, limit, 1, MAX_SAFE_INTEGER)
    case Cents => TokensAndCost(key.organization, now, 1, MAX_SAFE_INTEGER, amount, limit)
  }

  lemma OvershootingLags(events: seq<Event>, key: Key, limit: nat, t: nat, r: Request)
    requires Charged(After(events).admitted, key) <= limit && Overshoots(events, key, limit, t, r)
    ensures Lags(events, key, t)
    ensures key.kind.Runs? ==> Charged(After(events).admitted, key) == limit
  {
    var l := After(events);
    AfterTaken(events, Event(t, r));
    ChargedSnoc(l.admitted, r, key);
    AdmittedWithin(l.counters, t, r, key);
  }

  lemma RequestFits(m: Counters, key: Key, limit: nat, t: nat)
    requires Get(LiveAt(m, t), key) < limit <= MAX_SAFE_INTEGER && OthersHaveRoom(m, key, t)
    ensures Execute(m, t, RequestFor(key, limit, limit - Get(LiveAt(m, t), key))).1 == Admitted
  {
    var live := LiveAt(m, t);
    var r := RequestFor(key, limit, limit - Get(live, key));
    forall kind
      ensures Within(live, r, kind)
    {
      if kind != key.kind {
        assert Get(live, key.(kind := kind)) < MAX_SAFE_INTEGER;
      } else {
        assert KeyOf(r, kind) == key;
      }
    }
  }

  lemma LagIsUsed(events: seq<Event>, key: Key, limit: nat, t: nat)
    requires Charged(After(events).admitted, key) <= limit <= MAX_SAFE_INTEGER
    requires OthersHaveRoom(After(events).counters, key, t) && Lags(events, key, t)
    requires key.kind.Runs? ==> Charged(After(events).admitted, key) == limit
    ensures Overshoots(events, key, limit, t,
                       RequestFor(key, limit, limit - Get(LiveAt(After(events).counters, t), key)))
  {
    var r := RequestFor(key, limit, limit - Get(LiveAt(After(events).counters, t), key));
    RequestFits(After(events).counters, key, limit, t);
    AfterTaken(events, Event(t, r));
    ChargedSnoc(After(events).admitted, r, key);
  }

  /** In every run that has not passed the cap yet, one more request can pass it at time `t` exactly if the key
      has been charged and its counter has expired, by then or when it was charged before (and, as a request
      counts as one run only, for the cap on runs, if all runs have been admitted). */
  lemma CapFailsExactly(events: seq<Event>, key: Key, limit: nat, t: nat)
    requires Charged(After(events).admitted, key) <= limit <= MAX_SAFE_INTEGER
    requires OthersHaveRoom(After(events).counters, key, t)
    ensures Passable(events, key, limit, t) <==>
              && Charged(After(events).admitted, key) > 0
              && (!Alive(After(events).counters, key, t) || Restarted(events, key))
              && (key.kind.Runs? ==> Charged(After(events).admitted, key) == limit)
  {
    LagsExactly(events, key, t);
    if Passable(events, key, limit, t) {
      var r :| Overshoots(events, key, limit, t, r);
      OvershootingLags(events, key, limit, t, r);
    }
    if Lags(events, key, t) && (key.kind.Runs? ==> Charged(After(events).admitted, key) == limit) {
      LagIsUsed(events, key, limit, t);
    }
  }

  /** A request of the last millisecond of day 0 for some tokens, under a limit of ten. */
  function LateRequest(organization: string, tokens: nat): Request {
    TokensAndCost(organization, DAY - 1, tokens, 10, 1, 5)
  }

  function CountersOf(organization: string, tokens: nat, expiresAt: nat): Counters {
    map[Key(Tokens, organization, 0) := Counter(tokens, Some(expiresAt)),
        Key(Cents, organization, 0) := Counter(1, Some(expiresAt))]
  }

  /** A request that finds no counter makes two. */
  lemma FreshCounters(m: Counters, t: nat, organization: string, tokens: nat)
    requires LiveAt(m, t) == map[] && 1 <= tokens <= 10
    ensures Execute(m, t, LateRequest(organization, tokens)) == (CountersOf(organization, tokens, t + 1000), Admitted)
  {
    var r, at := LateRequest(organization, tokens), t + 1000;
    var key := Key(Tokens, organization, 0);
    assert SecondsUntilNextUtcDay(DAY - 1) == 1;
    assert KeyOf(r, Tokens) == key && KeyOf(r, Cents) == Key(Cents, organization, 0);
    assert Charge(map[], r, Runs, at) == map[];
    assert Charge(map[], r, Tokens, at) == map[key := Counter(tokens, Some(at))];
    assert Charge(map[key := Counter(tokens, Some(at))], r, Cents, at) == CountersOf(organization, tokens, at);
  }

  lemma TakenFresh(l: Ledger, t: nat, organization: string, tokens: nat)
    requires LiveAt(l.counters, t) == map[] && 1 <= tokens <= 10
    ensures Taken(l, Event(t, LateRequest(organization, tokens)))
            == Ledger(CountersOf(organization, tokens, t + 1000), l.admitted + [LateRequest(organization, tokens)])
  {
    FreshCounters(l.counters, t, organization, tokens);
  }

  lemma TakenNine(l: Ledger, organization: string)
    requires l.counters == CountersOf(organization, 1, DAY + 1999)
    ensures Taken(l, Event(DAY + 1000, LateRequest(organization, 9))).admitted
            == l.admitted + [LateRequest(organization, 9)]
  {
    var r := LateRequest(organization, 9);
    assert LiveAt(l.counters, DAY + 1000) == l.counters;
    assert KeyOf(r, Tokens) == Key(Tokens, organization, 0) && KeyOf(r, Cents) == Key(Cents, organization, 0);
  }

  lemma ChargedLate(admitted: seq<Request>, organization: string, tokens: nat)
    ensures var key := Key(Tokens, organization, 0);
            Charged(admitted + [LateRequest(organization, tokens)], key) == Charged(admitted, key) + tokens
  {
    var r := LateRequest(organization, tokens);
    assert KeyOf(r, Tokens) == Key(Tokens, organization, 0);
    ChargedSnoc(admitted, r, Key(Tokens, organization, 0));
  }

  /** A counter that was restarted is alive, and the cap is passed all the same: five tokens before midnight,
      one after the counter has expired, nine a moment later, under a limit of ten. */
  lemma RestartedCounterOvershoots(organization: string)
    ensures var key := Key(Tokens, organization, 0);
            var two := [] + [Event(DAY - 1, LateRequest(organization, 5))]
                       + [Event(DAY + 999, LateRequest(organization, 1))];
            && Alive(After(two).counters, key, DAY + 1000) && Charged(After(two).admitted, key) == 6
            && Charged(After(two + [Event(DAY + 1000, LateRequest(organization, 9))]).admitted, key) == 15
  {
    var one := [] + [Event(DAY - 1, LateRequest(organization, 5))];
    var two := one + [Event(DAY + 999, LateRequest(organization, 1))];
    AfterTaken([], Event(DAY - 1, LateRequest(organization, 5)));
    TakenFresh(Ledger(map[], []), DAY - 1, organization, 5);
    AfterTaken(one, Event(DAY + 999, LateRequest(organization, 1)));
    TakenFresh(After(one), DAY + 999, organization, 1);
    AfterTaken(two, Event(DAY + 1000, LateRequest(organization, 9)));
    TakenNine(After(two), organization);
    ChargedLate([], organization, 5);
    ChargedLate(After(one).admitted, organization, 1);
    ChargedLate(After(two).admitted, organization, 9);
  }

  // ----- Refused requests

  lemma LiveTwice(m: Counters, t: nat, u: nat)
    requires t <= u
    ensures LiveAt(LiveAt(m, t), u) == LiveAt(m, u)
  {}

  lemma ExecuteSeesTheLiving(m: Counters, n: Counters, t: nat, r: Request)
    requires LiveAt(m, t) == LiveAt(n, t)
    ensures Execute(m, t, r) == Execute(n, t, r)
  {}

  /** At a time not before the refusal, a script sees the same counters with and without it. */
  lemma RefusedThenTaken(l: Ledger, refused: Event, e: Event)
    requires refused.at <= e.at && Execute(l.counters, refused.at, refused.request).1 != Admitted
    ensures Taken(Taken(l, refused), e) == Taken(l, e)
  {
    LiveTwice(l.counters, refused.at, e.at);
    ExecuteSeesTheLiving(LiveAt(l.counters, refused.at), l.counters, e.at, e.request);
  }

  lemma AfterAppend(a: seq<Event>, b: seq<Event>, e: Event)
    ensures After(a + (b + [e])) == Taken(After(a + b), e)
  {
    AfterTaken(a + b, e);
    assert a + (b + [e]) == (a + b) + [e];
  }

  /** A refused request leaves no trace: what any later requests are answered, and what the counters are after
      them, is the same without it. */
  lemma {:induction false} RefusalLeavesNoTrace(events: seq<Event>, refused: Event, more: seq<Event>)
    requires more != [] && forall e :: e in more ==> refused.at <= e.at
    requires Execute(After(events).counters, refused.at, refused.request).1 != Admitted
    ensures After(events + [refused] + more) == After(events + more)
  {
    var n := |more| - 1;
    var front, last := more[..n], more[n];
    assert last in more && more == front + [last];
    AfterAppend(events + [refused], front, last);
    AfterAppend(events, front, last);
    if front == [] {
      assert events + [refused] + front == events + [refused] && events + front == events;
      AfterTaken(events, refused);
      RefusedThenTaken(After(events), refused, last);
    } else {
      RefusalLeavesNoTrace(events, refused, front);
    }
  }
}
