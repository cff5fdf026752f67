/** Daily AI budgets: counters in Redis, reserved by atomic scripts and dropped when their day has ended. */
module DailyBudget {
  import opened Text

  const DAY := 86_400_000
  const MAX_SAFE_INTEGER := 0x1F_FFFF_FFFF_FFFF

  datatype Kind = Runs | Tokens | Cents

  /** `upGalDailyBudgetKey` and its siblings: a day is a UTC date, counted from the epoch. */
  datatype Key = Key(kind: Kind, organization: string, day: nat)

  datatype Counter = Counter(value: nat, expiresAt: Option<nat>)

  type Counters = map<Key, Counter>

  /** The end of a day, in milliseconds since the epoch. */
  function EndOf(day: nat): nat {
    (day + 1) * DAY
  }

  function DayOf(now: nat): nat {
    now / DAY
  }

  /** `secondsUntilNextUtcDay`: an expiry of that many seconds set at `now` or later is not before
      midnight, and one second less would be. */
  function SecondsUntilNextUtcDay(now: nat): (s: nat)
    ensures now + 1000 * s >= EndOf(DayOf(now)) > now + 1000 * (s - 1)
    ensures s >= 1
  {
    Max(1, (EndOf(DayOf(now)) - now + 999) / 1000)
  }

  function Max(a: nat, b: nat): nat {
    if a < b then b else a
  }

  // ----- Redis commands, on values

  /** The keys that have not expired at time `t`. */
  function LiveAt(m: Counters, t: nat): Counters {
    map k | k in m && (m[k].expiresAt.None? || t < m[k].expiresAt.value) :: m[k]
  }

  function Get(m: Counters, key: Key): nat {
    if key in m then m[key].value else 0
  }

  /** INCRBY keeps the expiry of a key; a new key has none. */
  function IncrBy(m: Counters, key: Key, amount: nat): Counters {
    m[key := if key in m then m[key].(value := m[key].value + amount) else Counter(amount, None)]
  }

  function Expire(m: Counters, key: Key, at: nat): Counters {
    if key in m then m[key := m[key].(expiresAt := Some(at))] else m
  }

  /** The INCRBY and, for the first amount of a key, the EXPIRE that the scripts pair. */
  function Add(m: Counters, key: Key, amount: nat, at: nat): Counters {
    var added := IncrBy(m, key, amount);
    if Get(added, key) == amount then Expire(added, key, at) else added
  }

  // ----- Requests

  datatype Request =
    | Run(organization: string, now: nat)
    | TokensAndCost(organization: string, now: nat, tokens: nat, tokenLimit: nat, cents: nat, costLimit: nat)
    | RunTokensAndCost(organization: string, now: nat, runLimit: nat,
                       tokens: nat, tokenLimit: nat, cents: nat, costLimit: nat)

  datatype Reply = Invalid | Rejected | Admitted

  function KeyOf(r: Request, kind: Kind): Key {
    Key(kind, r.organization, DayOf(r.now))
  }

  function Amount(r: Request, kind: Kind): nat {
    match kind
    case Runs => if r.TokensAndCost? then 0 else 1
    case Tokens => if r.Run? then 0 else r.tokens
    case Cents => if r.Run? then 0 else r.cents
  }

  /** The limit on a counter; `incrementUpGalDailyBudget` has none. */
  function Limit(r: Request, kind: Kind): Option<nat> {
    match kind
    case Runs => if r.RunTokensAndCost? then Some(r.runLimit) else None
    case Tokens => if r.Run? then None else Some(r.tokenLimit)
    case Cents => if r.Run? then None else Some(r.costLimit)
  }

  predicate InRange(n: nat) {
    1 <= n <= MAX_SAFE_INTEGER
  }

  predicate IsValid(r: Request) {
    match r
    case Run(_, _) => true
    case TokensAndCost(_, _, tokens, tokenLimit, cents, costLimit) =>
      InRange(tokens) && InRange(tokenLimit) && InRange(cents) && InRange(costLimit)
    case RunTokensAndCost(_, _, runLimit, tokens, tokenLimit, cents, costLimit) =>
      InRange(runLimit) && InRange(tokens) && InRange(tokenLimit) && InRange(cents) && InRange(costLimit)
  }

  predicate Within(m: Counters, r: Request, kind: Kind) {
    Limit(r, kind).Some? ==> Get(m, KeyOf(r, kind)) + Amount(r, kind) <= Limit(r, kind).value
  }

  function Charge(m: Counters, r: Request, kind: Kind, at: nat): Counters {
    if Amount(r, kind) == 0 then m else Add(m, KeyOf(r, kind), Amount(r, kind), at)
  }

  /** A request that Redis executes at time `t`. */
  function Execute(m: Counters, t: nat, r: Request): (Counters, Reply) {
    var live := LiveAt(m, t);
    var at := t + 1000 * SecondsUntilNextUtcDay(r.now);
    if !IsValid(r) then (live, Invalid)
    else if !Within(live, r, Runs) || !Within(live, r, Tokens) || !Within(live, r, Cents) then (live, Rejected)
    else (Charge(Charge(Charge(live, r, Runs, at), r, Tokens, at), r, Cents, at), Admitted)
  }

  // ----- The scripts and the functions that call them

  class BudgetStore {
    var counters: Counters
    var clock: nat

    constructor ()
      ensures counters == map[]
    {
      counters, clock := map[], 0;
    }

    /** Time passes and keys expire. */
    method Tick(t: nat)
      requires clock <= t
      modifies this
      ensures clock == t && counters == LiveAt(old(counters), t)
    {
      clock := t;
      counters := LiveAt(counters, t);
    }

    method IncrByAndExpire(key: Key, amount: nat, seconds: nat) returns (total: nat)
      modifies this`counters
      ensures counters == Add(old(counters), key, amount, clock + 1000 * seconds)
      ensures total == Get(counters, key) == Get(old(counters), key) + amount
    {
      counters := IncrBy(counters, key, amount);
      total := counters[key].value;
      if total == amount {
        counters := Expire(counters, key, clock + 1000 * seconds);
      }
    }

    /** `incrementUpGalDailyBudget` */
    method IncrementDailyBudget(organization: string, now: nat) returns (count: nat)
      modifies this`counters
      requires counters == LiveAt(counters, clock)
      ensures (counters, Admitted) == Execute(old(counters), clock, Run(organization, now))
      ensures count == Get(counters, Key(Runs, organization, DayOf(now)))
    {
      count := IncrByAndExpire(Key(Runs, organization, DayOf(now)), 1, SecondsUntilNextUtcDay(now));
    }

    /** `reserveUpGalDailyTokenAndCostBudget` and its script: both limits are checked before either
        counter moves. */
    method ReserveTokenAndCost(r: Request) returns (reply: Reply)
      requires r.TokensAndCost? && counters == LiveAt(counters, clock)
      modifies this`counters
      ensures (counters, reply) == Execute(old(counters), clock, r)
    {
      if !InRange(r.tokens) || !InRange(r.tokenLimit) || !InRange(r.cents) || !InRange(r.costLimit) { return Invalid; }
      var tokenKey, costKey := KeyOf(r, Tokens), KeyOf(r, Cents);
      var currentTokens, currentCents := Get(counters, tokenKey), Get(counters, costKey);
      if currentTokens + r.tokens > r.tokenLimit || currentCents + r.cents > r.costLimit { return Rejected; }
      var seconds := SecondsUntilNextUtcDay(r.now);
      var totalTokens := IncrByAndExpire(tokenKey, r.tokens, seconds);
      var totalCents := IncrByAndExpire(costKey, r.cents, seconds);
      return Admitted;
    }

    /** `reserveUpGalDailyRunTokenAndCostBudget` and its script */
    method ReserveRunTokenAndCost(r: Request) returns (reply: Reply)
      requires r.RunTokensAndCost? && counters == LiveAt(counters, clock)
      modifies this`counters
      ensures (counters, reply) == Execute(old(counters), clock, r)
    {
      if || !InRange(r.runLimit) || !InRange(r.tokens) || !InRange(r.tokenLimit)
         || !InRange(r.cents) || !InRange(r.costLimit) {
        return Invalid;
      }
      var runKey, tokenKey, costKey := KeyOf(r, Runs), KeyOf(r, Tokens), KeyOf(r, Cents);
      var currentRuns := Get(counters, runKey);
      var currentTokens, currentCents := Get(counters, tokenKey), Get(counters, costKey);
      if || currentRuns + 1 > r.runLimit || currentTokens + r.tokens > r.tokenLimit
         || currentCents + r.cents > r.costLimit {
        return Rejected;
      }
      var seconds := SecondsUntilNextUtcDay(r.now);
      var totalRuns := IncrByAndExpire(runKey, 1, seconds);
      var totalTokens := IncrByAndExpire(tokenKey, r.tokens, seconds);
      var totalCents := IncrByAndExpire(costKey, r.cents, seconds);
      return Admitted;
    }
  }

  // ----- Runs

  /** A request and the time at which its script runs. */
  datatype Event = Event(at: nat, request: Request)

  datatype Ledger = Ledger(counters: Counters, admitted: seq<Request>)

  function After(events: seq<Event>): Ledger {
    if events == [] then Ledger(map[], [])
    else
      var before, last := After(events[..|events| - 1]), events[|events| - 1];
      var (m, reply) := Execute(before.counters, last.at, last.request);
      Ledger(m, if reply == Admitted then before.admitted + [last.request] else before.admitted)
  }

  /** What the admitted requests have charged to a key. */
  function Charged(admitted: seq<Request>, key: Key): nat {
    if admitted == [] then 0
    else
      var last := admitted[|admitted| - 1];
      Charged(admitted[..|admitted| - 1], key) + if KeyOf(last, key.kind) == key then Amount(last, key.kind) else 0
  }

  /** Every script runs at or after the time its caller took for it, before that day has ended, and not
      before the scripts ahead of it. */
  predicate Timely(events: seq<Event>) {
    && (forall i :: 0 <= i < |events| ==> events[i].request.now <= events[i].at < EndOf(DayOf(events[i].request.now)))
    && (forall i, j :: 0 <= i < j < |events| ==> events[i].at <= events[j].at)
  }

  predicate Exact(l: Ledger, key: Key) {
    var charged := Charged(l.admitted, key);
    if charged == 0 then key !in l.counters
    else
      && key in l.counters
      && l.counters[key].value == charged
      && l.counters[key].expiresAt.Some? && l.counters[key].expiresAt.value >= EndOf(key.day)
  }

  lemma ChargedSnoc(admitted: seq<Request>, r: Request, key: Key)
    ensures Charged(admitted + [r], key)
            == Charged(admitted, key) + if KeyOf(r, key.kind) == key then Amount(r, key.kind) else 0
  {
    assert (admitted + [r])[..|admitted|] == admitted;
  }

  lemma TimelyPrefix(events: seq<Event>)
    requires events != [] && Timely(events)
    ensures Timely(events[..|events| - 1])
  {
    var front := events[..|events| - 1];
    forall i, j | 0 <= i < j < |front|
      ensures front[i].at <= front[j].at
    {
      assert events[i].at <= events[j].at;
    }
  }

  lemma ChargeAtKey(m: Counters, r: Request, kind: Kind, at: nat, key: Key)
    ensures var n := Charge(m, r, kind, at);
            if key == KeyOf(r, kind) && Amount(r, kind) > 0 then
              key in n && n[key] == Add(m, key, Amount(r, kind), at)[key]
            else (key in n <==> key in m) && (key in m ==> n[key] == m[key])
  {}

  /** What the three charges of a request change about one key. */
  lemma ChargesAtKey(m: Counters, r: Request, at: nat, key: Key)
    ensures var n := Charge(Charge(Charge(m, r, Runs, at), r, Tokens, at), r, Cents, at);
            if key == KeyOf(r, key.kind) && Amount(r, key.kind) > 0 then
              key in n && n[key] == Add(m, key, Amount(r, key.kind), at)[key]
            else (key in n <==> key in m) && (key in m ==> n[key] == m[key])
  {
    var runs := Charge(m, r, Runs, at);
    var tokens := Charge(runs, r, Tokens, at);
    ChargeAtKey(m, r, Runs, at, key);
    ChargeAtKey(runs, r, Tokens, at, key);
    ChargeAtKey(tokens, r, Cents, at, key);
  }

  /** What a request changes about one key. */
  lemma ExecuteAtKey(m: Counters, t: nat, r: Request, key: Key)
    ensures var live := LiveAt(m, t);
            var (n, reply) := Execute(m, t, r);
            if reply == Admitted && KeyOf(r, key.kind) == key && Amount(r, key.kind) > 0 then
              key in n && n[key] == Add(live, key, Amount(r, key.kind), t + 1000 * SecondsUntilNextUtcDay(r.now))[key]
            else
              (key in n <==> key in live) && (key in live ==> n[key] == live[key])
  {
    ChargesAtKey(LiveAt(m, t), r, t + 1000 * SecondsUntilNextUtcDay(r.now), key);
  }

  /** While its day lasts, a counter is the sum of what was admitted, and it stays until midnight. */
  lemma {:induction false} CountersAreExact(events: seq<Event>, key: Key)
    requires Timely(events)
    requires events != [] ==> events[|events| - 1].at < EndOf(key.day)
    ensures Exact(After(events), key)
  {
    if events != [] {
      var n := |events| - 1;
      var front, last := events[..n], events[n];
      TimelyPrefix(events);
      if n > 0 { assert events[n - 1].at <= last.at; }
      CountersAreExact(front, key);
      var before := After(front);
      ExecuteAtKey(before.counters, last.at, last.request, key);
      ChargedSnoc(before.admitted, last.request, key);
    }
  }

  /** An admitted reservation leaves each of its counters within the limit it named. */
  lemma {:induction false} AdmissionRespectsLimit(events: seq<Event>, kind: Kind)
    requires events != [] && Timely(events)
    requires var last := events[|events| - 1];
             Execute(After(events[..|events| - 1]).counters, last.at, last.request).1 == Admitted
    ensures var r := events[|events| - 1].request;
            Limit(r, kind).Some? ==> Charged(After(events).admitted, KeyOf(r, kind)) <= Limit(r, kind).value
  {
    var n := |events| - 1;
    var front, last := events[..n], events[n];
    var key := KeyOf(last.request, kind);
    TimelyPrefix(events);
    if n > 0 { assert events[n - 1].at <= last.at; }
    CountersAreExact(front, key);
    ChargedSnoc(After(front).admitted, last.request, key);
  }

  /** A script that runs after the day of its request has ended may find its counter gone and admit more
      than the limit. */
  lemma LateRequestOvershoots(organization: string)
    ensures var r := TokensAndCost(organization, DAY - 1, 10, 10, 1, 5);
            var events := [Event(DAY - 1, r), Event(DAY + 999, r)];
            Charged(After(events).admitted, KeyOf(r, Tokens)) == 20
  {
    var r := TokensAndCost(organization, DAY - 1, 10, 10, 1, 5);
    var key := KeyOf(r, Tokens);
    var first, second := Event(DAY - 1, r), Event(DAY + 999, r);
    var events := [first, second];
    assert events[..1] == [first] && [first][..0] == [];
    assert SecondsUntilNextUtcDay(r.now) == 1;
    assert After([first]) == Ledger(Execute(map[], DAY - 1, r).0, [r]);
    assert LiveAt(After([first]).counters, DAY + 999) == map[];
    assert After(events).admitted == [r] + [r];
    ChargedSnoc([r], r, key);
    ChargedSnoc([], r, key);
    assert [] + [r] == [r];
  }
}
