/** The operational monitor: every check evaluates the alerts, and an alert is sent when its key appears. */
module AlertMonitor {
  import opened Text

  datatype Alert = Alert(code: string, queue: Option<string>, message: string)

  function KeyOf(a: Alert): string {
    a.code + ":" + if a.queue.Some? then a.queue.value else ""
  }

  function Keys(alerts: seq<Alert>): set<string> {
    set a | a in alerts :: KeyOf(a)
  }

  /** What a check evaluates; None where reading the status or evaluating it throws. */
  function AlertsOf(evaluation: Option<seq<Alert>>): seq<Alert> {
    if evaluation.Some? then evaluation.value
    else [Alert("operational_status_unavailable", None, "Unable to collect schedules operational status")]
  }

  // ----- One check

  /** The alerts that are sent when the given keys are active already. */
  function Sent(active: set<string>, alerts: seq<Alert>): seq<Alert>
    decreases alerts
  {
    if alerts == [] then []
    else
      var key := KeyOf(alerts[0]);
      if key in active then Sent(active, alerts[1..]) else [alerts[0]] + Sent(active + {key}, alerts[1..])
  }

  lemma {:induction false} SentSnoc(active: set<string>, alerts: seq<Alert>, last: Alert)
    ensures Sent(active, alerts + [last])
            == Sent(active, alerts) + if KeyOf(last) in active + Keys(alerts) then [] else [last]
    decreases alerts
  {
    if alerts == [] {
      assert [last][1..] == [];
    } else {
      var key := KeyOf(alerts[0]);
      assert (alerts + [last])[1..] == alerts[1..] + [last];
      assert alerts[0] in alerts;
      assert Keys(alerts) == {key} + Keys(alerts[1..]);
      SentSnoc(if key in active then active else active + {key}, alerts[1..], last);
      assert active + Keys(alerts) == (active + {key}) + Keys(alerts[1..]);
    }
  }

  /** How many alerts a check comes to before a callback throws. */
  function Reached(active: set<string>, alerts: seq<Alert>, throws: Alert -> bool): (n: nat)
    ensures n <= |alerts|
    decreases alerts
  {
    if alerts == [] then 0
    else
      var key := KeyOf(alerts[0]);
      if key in active then 1 + Reached(active, alerts[1..], throws)
      else if throws(alerts[0]) then 1
      else 1 + Reached(active + {key}, alerts[1..], throws)
  }

  /** Without a throw a check comes to all alerts. */
  lemma {:induction false} QuietReachesAll(active: set<string>, alerts: seq<Alert>, throws: Alert -> bool)
    requires forall a :: a in alerts ==> !throws(a)
    ensures Reached(active, alerts, throws) == |alerts|
    decreases alerts
  {
    if alerts != [] {
      var key := KeyOf(alerts[0]);
      assert alerts[0] in alerts;
      QuietReachesAll(if key in active then active else active + {key}, alerts[1..], throws);
    }
  }

  lemma KeysSnoc(alerts: seq<Alert>, last: Alert)
    ensures Keys(alerts + [last]) == Keys(alerts) + {KeyOf(last)}
  {
    assert forall a :: a in alerts + [last] <==> a in alerts || a == last;
  }

  /** One more turn of the loop over the alerts. */
  lemma OneMoreAlert(active: set<string>, alerts: seq<Alert>, i: nat, throws: Alert -> bool)
    requires i < |alerts|
    ensures var now, key := active + Keys(alerts[..i]), KeyOf(alerts[i]);
            && active + Keys(alerts[..i + 1]) == now + {key}
            && Sent(active, alerts[..i + 1]) == Sent(active, alerts[..i]) + (if key in now then [] else [alerts[i]])
            && Reached(now, alerts[i..], throws)
               == if key !in now && throws(alerts[i]) then 1 else 1 + Reached(now + {key}, alerts[i + 1..], throws)
  {
    var now, key := active + Keys(alerts[..i]), KeyOf(alerts[i]);
    SentSnoc(active, alerts[..i], alerts[i]);
    KeysSnoc(alerts[..i], alerts[i]);
    assert alerts[..i + 1] == alerts[..i] + [alerts[i]];
    assert alerts[i..][0] == alerts[i] && alerts[i..][1..] == alerts[i + 1..];
    assert key in now ==> now + {key} == now;
  }

  /** `createOperationalMonitor`; `sent` is what `onAlert` received. */
  class OperationalMonitor {
    var activeAlerts: set<string>
    var stopped: bool
    var sent: seq<Alert>

    constructor ()
      ensures activeAlerts == {} && !stopped && sent == []
    {
      activeAlerts, stopped, sent := {}, false, [];
    }

    /** The first loop of a check: alerts that are gone may be sent again. */
    method DropCleared(currentAlerts: set<string>)
      modifies this`activeAlerts
      ensures activeAlerts == old(activeAlerts) * currentAlerts
    {
      var rest := activeAlerts;
      while rest != {}
        invariant rest <= old(activeAlerts)
        invariant activeAlerts == old(activeAlerts) * (currentAlerts + rest)
        decreases |rest|
      {
        var key :| key in rest;
        if key !in currentAlerts { activeAlerts := activeAlerts - {key}; }
        rest := rest - {key};
      }
    }

    /** The second loop of a check; `throws` says for which alerts `onAlert` throws, having received them. */
    method SendNew(alerts: seq<Alert>, throws: Alert -> bool) returns (completed: bool)
      modifies this`activeAlerts, this`sent
      ensures var n := Reached(old(activeAlerts), alerts, throws);
              && activeAlerts == old(activeAlerts) + Keys(alerts[..n])
              && sent == old(sent) + Sent(old(activeAlerts), alerts[..n])
              && (completed ==> n == |alerts|)
    {
      for i := 0 to |alerts|
        invariant activeAlerts == old(activeAlerts) + Keys(alerts[..i])
        invariant sent == old(sent) + Sent(old(activeAlerts), alerts[..i])
        invariant Reached(old(activeAlerts), alerts, throws) == i + Reached(activeAlerts, alerts[i..], throws)
      {
        var key := KeyOf(alerts[i]);
        OneMoreAlert(old(activeAlerts), alerts, i, throws);
        if key !in activeAlerts {
          activeAlerts := activeAlerts + {key};
          sent := sent + [alerts[i]];
          if throws(alerts[i]) { return false; }
        }
      }
      assert alerts[..|alerts|] == alerts;
      return true;
    }

    /** What a check does once its evaluation is there. */
    method Finish(evaluation: Option<seq<Alert>>, throws: Alert -> bool) returns (completed: bool)
      modifies this`activeAlerts, this`sent
      ensures var alerts := AlertsOf(evaluation);
              var kept := old(activeAlerts) * Keys(alerts);
              var n := Reached(kept, alerts, throws);
              && activeAlerts == kept + Keys(alerts[..n])
              && sent == old(sent) + Sent(kept, alerts[..n])
              && (completed ==> n == |alerts|)
    {
      var alerts := AlertsOf(evaluation);
      DropCleared(Keys(alerts));
      completed := SendNew(alerts, throws);
    }

    /** A check that nothing overlaps and whose callbacks do not throw. */
    method Check(evaluation: Option<seq<Alert>>)
      modifies this`activeAlerts, this`sent
      ensures stopped ==> activeAlerts == old(activeAlerts) && sent == old(sent)
      ensures !stopped ==>
                && activeAlerts == Keys(AlertsOf(evaluation))
                && sent == old(sent) + Sent(old(activeAlerts) * Keys(AlertsOf(evaluation)), AlertsOf(evaluation))
    {
      if stopped { return; }
      var alerts := AlertsOf(evaluation);
      QuietReachesAll(activeAlerts * Keys(alerts), alerts, a => false);
      assert alerts[..|alerts|] == alerts;
      var _ := Finish(evaluation, a => false);
    }

    method Stop()
      modifies this`stopped
      ensures stopped
    {
      stopped := true;
    }
  }

  // ----- Runs of overlapping checks

  /** `checking` are the checks that wait for their status; `evaluated` the key sets of the finished ones, and
      `actives` the active keys each of them left. */
  datatype Monitor = Monitor(
    active: set<string>,
    stopped: bool,
    sent: seq<Alert>,
    checking: set<nat>,
    evaluated: seq<set<string>>,
    actives: seq<set<string>>)

  datatype Move =
    | Begin(id: nat)
    | Finish(id: nat, evaluation: Option<seq<Alert>>, throws: Alert -> bool)
    | Stop

  function Next(m: Monitor, move: Move): Monitor {
    match move
    case Begin(id) => if m.stopped then m else m.(checking := m.checking + {id})
    case Finish(id, evaluation, throws) =>
      if id !in m.checking then m
      else
        var alerts := AlertsOf(evaluation);
        var kept := m.active * Keys(alerts);
        var reached := alerts[..Reached(kept, alerts, throws)];
        var active := kept + Keys(reached);
        Monitor(active, m.stopped, m.sent + Sent(kept, reached), m.checking - {id},
                m.evaluated + [Keys(alerts)], m.actives + [active])
    case Stop => m.(stopped := true)
  }

  function Run(moves: seq<Move>): Monitor {
    if moves == [] then Monitor({}, false, [], {}, [], [])
    else Next(Run(moves[..|moves| - 1]), moves[|moves| - 1])
  }

  /** How often a key was sent. */
  function Sends(sent: seq<Alert>, key: string): nat {
    if sent == [] then 0 else (if KeyOf(sent[0]) == key then 1 else 0) + Sends(sent[1..], key)
  }

  lemma {:induction false} SendsAppend(a: seq<Alert>, b: seq<Alert>, key: string)
    ensures Sends(a + b, key) == Sends(a, key) + Sends(b, key)
  {
    if a == [] {
      assert a + b == b;
    } else {
      assert (a + b)[1..] == a[1..] + b;
      SendsAppend(a[1..], b, key);
    }
  }

  /** However often an evaluation repeats a key, it is sent once if it is new and not at all otherwise. */
  lemma {:induction false} SentOnce(active: set<string>, alerts: seq<Alert>, key: string)
    ensures Sends(Sent(active, alerts), key) == if key in Keys(alerts) && key !in active then 1 else 0
    decreases alerts
  {
    if alerts != [] {
      var first := KeyOf(alerts[0]);
      assert alerts[0] in alerts;
      assert Keys(alerts) == {first} + Keys(alerts[1..]);
      if first in active {
        SentOnce(active, alerts[1..], key);
      } else {
        SentOnce(active + {first}, alerts[1..], key);
        assert ([alerts[0]] + Sent(active + {first}, alerts[1..]))[1..] == Sent(active + {first}, alerts[1..]);
      }
    }
  }

  /** The alert that is sent for a new key is the first one with that key. */
  lemma {:induction false} FirstIsSent(active: set<string>, alerts: seq<Alert>, i: nat)
    requires i < |alerts| && KeyOf(alerts[i]) !in active
    requires forall j :: 0 <= j < i ==> KeyOf(alerts[j]) != KeyOf(alerts[i])
    ensures alerts[i] in Sent(active, alerts)
    decreases alerts
  {
    if i > 0 {
      var first := KeyOf(alerts[0]);
      var rest := alerts[1..];
      assert rest[i - 1] == alerts[i];
      assert forall j :: 0 <= j < i - 1 ==> rest[j] == alerts[j + 1];
      FirstIsSent(if first in active then active else active + {first}, rest, i - 1);
    }
  }

  /** How often a key appears: it is in a set and not in the one before. */
  function RisingEdges(sets: seq<set<string>>, key: string): nat {
    if sets == [] then 0
    else
      var n := |sets| - 1;
      RisingEdges(sets[..n], key) + if key in sets[n] && (n == 0 || key !in sets[n - 1]) then 1 else 0
  }

  lemma PrefixKeys(alerts: seq<Alert>, n: nat)
    requires n <= |alerts|
    ensures Keys(alerts[..n]) <= Keys(alerts)
  {
    assert forall a :: a in alerts[..n] ==> a in alerts;
  }

  /** Every key was sent exactly once per rising edge of the active set, however the checks overlapped and
      whichever callbacks threw. */
  lemma {:induction false} SendsAreRisingEdges(moves: seq<Move>, key: string)
    ensures var m := Run(moves);
            && m.active == (if m.actives == [] then {} else m.actives[|m.actives| - 1])
            && Sends(m.sent, key) == RisingEdges(m.actives, key)
  {
    if moves != [] {
      var before, last := Run(moves[..|moves| - 1]), moves[|moves| - 1];
      SendsAreRisingEdges(moves[..|moves| - 1], key);
      if last.Finish? && last.id in before.checking {
        var alerts := AlertsOf(last.evaluation);
        var kept := before.active * Keys(alerts);
        var n := Reached(kept, alerts, last.throws);
        PrefixKeys(alerts, n);
        SendsAppend(before.sent, Sent(kept, alerts[..n]), key);
        SentOnce(kept, alerts[..n], key);
        assert (before.actives + [kept + Keys(alerts[..n])])[..|before.actives|] == before.actives;
      }
    }
  }

  predicate Quiet(move: Move) {
    move.Finish? ==> forall a :: a in AlertsOf(move.evaluation) ==> !move.throws(a)
  }

  /** While no callback throws, the active set always is the last evaluated one, so that keys are sent once per
      rising edge of what was evaluated. */
  lemma {:induction false} QuietRunsFollowEvaluations(moves: seq<Move>)
    requires forall i :: 0 <= i < |moves| ==> Quiet(moves[i])
    ensures Run(moves).actives == Run(moves).evaluated
  {
    if moves != [] {
      var before, last := Run(moves[..|moves| - 1]), moves[|moves| - 1];
      QuietRunsFollowEvaluations(moves[..|moves| - 1]);
      if last.Finish? && last.id in before.checking {
        var alerts := AlertsOf(last.evaluation);
        assert Quiet(last);
        QuietReachesAll(before.active * Keys(alerts), alerts, last.throws);
        assert alerts[..|alerts|] == alerts;
        assert before.active * Keys(alerts) + Keys(alerts) == Keys(alerts);
      }
    }
  }

  /** After a stop only the checks that were waiting can still send anything, each of them once. */
  lemma {:induction false} StopEndsChecks(moves: seq<Move>, n: nat)
    requires n <= |moves| && Run(moves[..n]).stopped
    ensures Run(moves).stopped && Run(moves).checking <= Run(moves[..n]).checking
    ensures |Run(moves).evaluated| + |Run(moves).checking|
            == |Run(moves[..n]).evaluated| + |Run(moves[..n]).checking|
  {
    if n == |moves| {
      assert moves[..n] == moves;
    } else {
      assert moves[..|moves| - 1][..n] == moves[..n];
      StopEndsChecks(moves[..|moves| - 1], n);
    }
  }

  // ----- Which alerts are the same

  /** The codes of the monitor hold no colon. */
  predicate IsCode(code: string) {
    ':' !in code
  }

  function QueueText(a: Alert): string {
    if a.queue.Some? then a.queue.value else ""
  }

  /** Alerts of one code for one queue, or both for none. */
  predicate SameAlert(a: Alert, b: Alert) {
    a.code == b.code && QueueText(a) == QueueText(b)
  }

  /** Two alerts share a key exactly if they have their code and their queue in common. */
  lemma KeysDistinguish(a: Alert, b: Alert)
    requires IsCode(a.code) && IsCode(b.code)
    ensures KeyOf(a) == KeyOf(b) <==> SameAlert(a, b)
  {
    KeyParts(a);
    KeyParts(b);
  }

  lemma KeyParts(a: Alert)
    requires IsCode(a.code)
    ensures Split(KeyOf(a), ':')[0] == a.code
    ensures KeyOf(a)[|a.code| + 1..] == QueueText(a)
  {
    SplitAt(a.code, QueueText(a), ':');
    SplitWithout(a.code, ':');
    assert KeyOf(a) == a.code + [':'] + QueueText(a);
  }

  lemma {:induction false} SentAreNew(active: set<string>, alerts: seq<Alert>)
    ensures forall a :: a in Sent(active, alerts) ==> KeyOf(a) !in active
    decreases alerts
  {
    if alerts != [] {
      var key := KeyOf(alerts[0]);
      SentAreNew(if key in active then active else active + {key}, alerts[1..]);
    }
  }

  lemma SentExactly(previous: seq<Alert>, alerts: seq<Alert>, i: nat)
    requires i < |alerts| && forall j :: 0 <= j < i ==> KeyOf(alerts[j]) != KeyOf(alerts[i])
    ensures alerts[i] in Sent(Keys(previous) * Keys(alerts), alerts) <==> KeyOf(alerts[i]) !in Keys(previous)
  {
    var kept := Keys(previous) * Keys(alerts);
    assert alerts[i] in alerts;
    SentAreNew(kept, alerts);
    if KeyOf(alerts[i]) !in kept {
      FirstIsSent(kept, alerts, i);
    }
  }

  /** Between two checks that are not disturbed, the first alert of a code and a queue is sent exactly if the
      earlier evaluation had none of that code and queue. */
  lemma AlertedExactly(previous: seq<Alert>, alerts: seq<Alert>, i: nat)
    requires (forall a :: a in previous ==> IsCode(a.code)) && (forall a :: a in alerts ==> IsCode(a.code))
    requires i < |alerts| && forall j :: 0 <= j < i ==> !SameAlert(alerts[j], alerts[i])
    ensures alerts[i] in Sent(Keys(previous) * Keys(alerts), alerts) <==>
              !exists a :: a in previous && SameAlert(a, alerts[i])
  {
    assert alerts[i] in alerts;
    forall j | 0 <= j < i
      ensures KeyOf(alerts[j]) != KeyOf(alerts[i])
    {
      assert alerts[j] in alerts;
      KeysDistinguish(alerts[j], alerts[i]);
    }
    forall a | a in previous
      ensures KeyOf(a) == KeyOf(alerts[i]) <==> SameAlert(a, alerts[i])
    {
      KeysDistinguish(a, alerts[i]);
    }
    SentExactly(previous, alerts, i);
  }

  /** When the status cannot be read, one alert says so, once until a later evaluation succeeds; every other key
      is cleared. */
  lemma FailureIsAlerted(m: Monitor, id: nat, throws: Alert -> bool)
    requires id in m.checking
    ensures var after := Next(m, Finish(id, None, throws));
            && after.active == {"operational_status_unavailable:"}
            && after.sent == m.sent +
               if "operational_status_unavailable:" in m.active then []
               else [Alert("operational_status_unavailable", None, "Unable to collect schedules operational status")]
  {
    var alerts := AlertsOf(None);
    var alert := Alert("operational_status_unavailable", None, "Unable to collect schedules operational status");
    assert alerts == [alert] && alerts[1..] == [];
    assert KeyOf(alert) == "operational_status_unavailable:";
    assert Keys(alerts) == {KeyOf(alert)} by { assert alert in alerts; }
    var kept := m.active * Keys(alerts);
    assert Reached(kept, alerts, throws) == 1;
    assert alerts[..1] == alerts;
  }
}
