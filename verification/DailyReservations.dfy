/** What one reservation does to every counter, amount by amount. */
module DailyReservations {
  import opened Text
  import opened DailyBudget

  predicate IsLive(m: Counters, key: Key, t: nat) {
    key in m && (m[key].expiresAt.None? || t < m[key].expiresAt.value)
  }

  /** What a counter holds at time `t`; one that is missing or has expired holds nothing. */
  function Used(m: Counters, key: Key, t: nat): nat {
    if IsLive(m, key, t) then m[key].value else 0
  }

  /** A counter grows by an amount; it gets an expiry if it was empty and keeps its own otherwise. */
  predicate Grows(m: Counters, after: Counters, key: Key, t: nat, amount: nat, expiry: nat) {
    && key in after
    && after[key].value == Used(m, key, t) + amount
    && after[key].expiresAt == if Used(m, key, t) == 0 then Some(expiry) else m[key].expiresAt
  }

  /** A counter stays as it is, or goes if it has expired. */
  predicate Stays(m: Counters, after: Counters, key: Key, t: nat) {
    if IsLive(m, key, t) then key in after && after[key] == m[key] else key !in after
  }

  lemma AdmittedAtKey(m: Counters, t: nat, r: Request, key: Key)
    requires Execute(m, t, r).1 == Admitted && key == KeyOf(r, key.kind) && Amount(r, key.kind) > 0
    ensures Grows(m, Execute(m, t, r).0, key, t, Amount(r, key.kind), t + 1000 * SecondsUntilNextUtcDay(r.now))
  {
    ExecuteAtKey(m, t, r, key);
  }

  lemma OthersStay(m: Counters, t: nat, r: Request, key: Key)
    requires Execute(m, t, r).1 != Admitted || key != KeyOf(r, key.kind) || Amount(r, key.kind) == 0
    ensures Stays(m, Execute(m, t, r).0, key, t)
  {
    ExecuteAtKey(m, t, r, key);
  }

  predicate IsCount(n: nat) {
    1 <= n <= 9007199254740991
  }

  /** The key of a kind of counter for the UTC day of a time in milliseconds. */
  function DayKey(kind: Kind, organization: string, now: nat): Key {
    Key(kind, organization, now / 86400000)
  }

  /** Tokens and cents are reserved together or not at all: each within its own limit, with what that counter
      of the day holds already. */
  lemma TokensAndCostExactly(m: Counters, t: nat, organization: string, now: nat,
                             tokens: nat, tokenLimit: nat, cents: nat, costLimit: nat)
    ensures var (after, reply) :=
              Execute(m, t, TokensAndCost(organization, now, tokens, tokenLimit, cents, costLimit));
            var tokenKey, costKey := DayKey(Tokens, organization, now), DayKey(Cents, organization, now);
            var expiry := t + 1000 * SecondsUntilNextUtcDay(now);
            && reply == (if !(&& IsCount(tokens) && IsCount(tokenLimit) && IsCount(cents) && IsCount(costLimit))
                         then Invalid
                         else if Used(m, tokenKey, t) + tokens <= tokenLimit && Used(m, costKey, t) + cents <= costLimit
                         then Admitted else Rejected)
            && (reply == Admitted ==>
                  && Grows(m, after, tokenKey, t, tokens, expiry) && Grows(m, after, costKey, t, cents, expiry))
            && forall key :: reply != Admitted || key !in {tokenKey, costKey} ==> Stays(m, after, key, t)
  {
    var r := TokensAndCost(organization, now, tokens, tokenLimit, cents, costLimit);
    var (after, reply) := Execute(m, t, r);
    var tokenKey, costKey := DayKey(Tokens, organization, now), DayKey(Cents, organization, now);
    if reply == Admitted {
      AdmittedAtKey(m, t, r, tokenKey);
      AdmittedAtKey(m, t, r, costKey);
    }
    forall key | reply != Admitted || key !in {tokenKey, costKey}
      ensures Stays(m, after, key, t)
    {
      OthersStay(m, t, r, key);
    }
  }

  /** The same for a run with its tokens and cents. */
  lemma RunTokensAndCostExactly(m: Counters, t: nat, organization: string, now: nat, runLimit: nat,
                                tokens: nat, tokenLimit: nat, cents: nat, costLimit: nat)
    ensures var (after, reply) :=
              Execute(m, t, RunTokensAndCost(organization, now, runLimit, tokens, tokenLimit, cents, costLimit));
            var runKey := DayKey(Runs, organization, now);
            var tokenKey, costKey := DayKey(Tokens, organization, now), DayKey(Cents, organization, now);
            var expiry := t + 1000 * SecondsUntilNextUtcDay(now);
            && reply == (if !(&& IsCount(runLimit) && IsCount(tokens) && IsCount(tokenLimit)
                              && IsCount(cents) && IsCount(costLimit)) then Invalid
                         else if && Used(m, runKey, t) + 1 <= runLimit
                                 && Used(m, tokenKey, t) + tokens <= tokenLimit
                                 && Used(m, costKey, t) + cents <= costLimit
                         then Admitted else Rejected)
            && (reply == Admitted ==>
                  && Grows(m, after, runKey, t, 1, expiry)
                  && Grows(m, after, tokenKey, t, tokens, expiry) && Grows(m, after, costKey, t, cents, expiry))
            && forall key :: reply != Admitted || key !in {runKey, tokenKey, costKey} ==> Stays(m, after, key, t)
  {
    var r := RunTokensAndCost(organization, now, runLimit, tokens, tokenLimit, cents, costLimit);
    var (after, reply) := Execute(m, t, r);
    var runKey := DayKey(Runs, organization, now);
    var tokenKey, costKey := DayKey(Tokens, organization, now), DayKey(Cents, organization, now);
    if reply == Admitted {
      AdmittedAtKey(m, t, r, runKey);
      AdmittedAtKey(m, t, r, tokenKey);
      AdmittedAtKey(m, t, r, costKey);
    }
    forall key | reply != Admitted || key !in {runKey, tokenKey, costKey}
      ensures Stays(m, after, key, t)
    {
      OthersStay(m, t, r, key);
    }
  }

  /** A run alone is always counted. */
  lemma RunExactly(m: Counters, t: nat, organization: string, now: nat)
    ensures var (after, reply) := Execute(m, t, Run(organization, now));
            var runKey := DayKey(Runs, organization, now);
            && reply == Admitted
            && Grows(m, after, runKey, t, 1, t + 1000 * SecondsUntilNextUtcDay(now))
            && forall key :: key != runKey ==> Stays(m, after, key, t)
  {
    var r := Run(organization, now);
    var runKey := DayKey(Runs, organization, now);
    AdmittedAtKey(m, t, r, runKey);
    forall key | key != runKey
      ensures Stays(m, Execute(m, t, r).0, key, t)
    {
      OthersStay(m, t, r, key);
    }
  }
}
