/** Get-or-create of managed Docker networks: inspect by name, create if missing, inspect again if someone
    else was faster. The daemon is a map of networks by name; each HTTP request is one step. */
module ManagedNetwork {
  import opened Text

  datatype Network = Network(
    id: string,
    name: string,
    driver: string,
    scope: string,
    attachable: bool,
    internal: bool,
    options: set<string>,
    labels: map<string, string>)

  type Daemon = map<string, Network>

  datatype Request =
    | Resource(resourceId: string, networkKey: string, projectName: string, composeType: string, internal: bool)
    | Swarm(networkName: string)

  // ----- Names and labels

  function OverlaySuffix(resourceId: string): string {
    if resourceId == "" then ""
    else
      var c := resourceId[0];
      (if 'a' <= c <= 'z' || '0' <= c <= '9' || c == '-' then [c]
       else if 'A' <= c <= 'Z' then [(c as int - 'A' as int + 'a' as int) as char]
       else "-") + OverlaySuffix(resourceId[1..])
  }

  function ResourceOverlayNetworkName(resourceId: string): string {
    var name := "upstand-resource-" + OverlaySuffix(resourceId);
    if |name| > 63 then name[..63] else name
  }

  function ResourceNetworkName(resourceId: string, networkKey: string): string {
    if networkKey == "" then ResourceOverlayNetworkName(resourceId)
    else "upstand-resource-" + ToLower(resourceId) + "-" + networkKey
  }

  function NameOf(r: Request): string {
    match r
    case Resource(resourceId, networkKey, _, _, _) => ResourceNetworkName(resourceId, networkKey)
    case Swarm(name) => name
  }

  function LabelForComposeType(composeType: string): string {
    if composeType == "stack" then "com.docker.stack.namespace" else "com.docker.compose.project"
  }

  function LabelsFor(r: Request): map<string, string> {
    match r
    case Swarm(_) => map["com.upstand.managed" := "true", "com.upstand.purpose" := "application-routing"]
    case Resource(resourceId, _, projectName, composeType, _) =>
      var labels := map["com.upstand.managed" := "true", "com.upstand.purpose" := "resource-isolation",
                        "com.upstand.resource-id" := resourceId];
      if projectName == "" then labels
      else if composeType == "stack" then labels["com.docker.stack.namespace" := projectName]
      else labels["com.docker.compose.project" := projectName]
  }

  function Label(n: Network, key: string): string {
    if key in n.labels then n.labels[key] else ""
  }

  predicate Encrypted(n: Network) {
    exists option :: option in n.options && ToLower(option) == "encrypted"
  }

  /** The network that the daemon makes of a creation request; overlay networks get the scope "swarm". */
  function Made(r: Request, id: string): Network {
    Network(id, NameOf(r), "overlay", "swarm", true, r.Resource? && r.internal, {"encrypted"}, LabelsFor(r))
  }

  /** The checks on an inspected network. */
  predicate Accepts(r: Request, n: Network) {
    && n.id != "" && n.driver == "overlay" && n.scope == "swarm" && n.attachable && Encrypted(n)
    && (r.Resource? ==>
          && n.name == NameOf(r)
          && Label(n, "com.upstand.managed") == "true"
          && Label(n, "com.upstand.purpose") == "resource-isolation"
          && Label(n, "com.upstand.resource-id") == r.resourceId
          && (r.projectName != "" ==> Label(n, LabelForComposeType(r.composeType)) == r.projectName))
  }

  /** What makes a network created for `a` acceptable to `b`. */
  predicate Compatible(a: Request, b: Request) {
    match b
    case Swarm(_) => true
    case Resource(resourceId, _, projectName, composeType, _) =>
      && a.Resource? && a.resourceId == resourceId
      && (projectName == "" || (a.projectName == projectName && (a.composeType == "stack" <==> composeType == "stack")))
  }

  /** Reuse is safe and not too strict: the checks accept what `a` created exactly if `b` asks for the same
      resource in the same project (or names no project). */
  lemma AcceptsMadeExactly(a: Request, b: Request, id: string)
    requires NameOf(a) == NameOf(b) && id != ""
    ensures Accepts(b, Made(a, id)) <==> Compatible(a, b)
  {
    assert "encrypted" in Made(a, id).options;
  }

  // ----- One call, request by request

  datatype Reply = Ensured(id: string, created: bool) | Failed

  datatype Phase = Inspecting | Creating | InspectingAgain | Done(reply: Reply)

  /** What becomes of an HTTP request: answered, or carried out without the answer arriving, or never
      carried out. */
  datatype Fate = Answered | AnswerLost | NotSent

  /** A call in flight; `intact` while all its requests were answered. */
  datatype Call = Call(request: Request, phase: Phase, intact: bool)

  /** How a call takes the answer to an inspection that found a network. */
  function Judge(r: Request, n: Network): Phase {
    Done(if Accepts(r, n) then Ensured(n.id, false) else Failed)
  }

  /** The next request of a call; a network it creates gets the given ID. */
  function Step(d: Daemon, r: Request, phase: Phase, fate: Fate, id: string): (Daemon, Phase) {
    var name := NameOf(r);
    match phase
    case Inspecting =>
      (d, if fate != Answered then Done(Failed) else if name in d then Judge(r, d[name]) else Creating)
    case Creating =>
      if fate == NotSent then (d, Done(Failed))
      else if name in d then (d, if fate == Answered then InspectingAgain else Done(Failed))
      else (d[name := Made(r, id)], Done(if fate == Answered && id != "" then Ensured(id, true) else Failed))
    case InspectingAgain =>
      (d, if fate != Answered || name !in d then Done(Failed) else Judge(r, d[name]))
    case Done(_) => (d, phase)
  }

  /** Another client may create a network of a name that is free. */
  function AddRival(d: Daemon, rival: Option<Network>): Daemon {
    if rival.None? || rival.value.name in d then d else d[rival.value.name := rival.value]
  }

  /** A whole call; between its inspection and its creation request a rival may come in. */
  function Whole(d: Daemon, r: Request, fates: (Fate, Fate, Fate), id: string, rival: Option<Network>)
    : (Daemon, Reply)
  {
    var (d1, inspected) := Step(d, r, Inspecting, fates.0, id);
    if inspected.Done? then (d1, inspected.reply)
    else
      var (d2, created) := Step(AddRival(d1, rival), r, inspected, fates.1, id);
      if created.Done? then (d2, created.reply)
      else
        var (d3, again) := Step(d2, r, created, fates.2, id);
        (d3, if again.Done? then again.reply else Failed)
  }

  datatype Answer = Found(network: Network) | NotFound | Conflict | CreatedAs(id: string) | NoAnswer

  /** The client of the daemon. */
  class DockerEngineClient {
    var networks: Daemon

    constructor (existing: Daemon)
      ensures networks == existing
    {
      networks := existing;
    }

    method GetNetwork(name: string, fate: Fate) returns (answer: Answer)
      ensures answer == if fate != Answered then NoAnswer
                        else if name in networks then Found(networks[name]) else NotFound
    {
      if fate != Answered { return NoAnswer; }
      if name in networks { return Found(networks[name]); }
      return NotFound;
    }

    method PostNetwork(network: Network, fate: Fate) returns (answer: Answer)
      modifies this
      ensures networks == if fate != NotSent && network.name !in old(networks)
                          then old(networks)[network.name := network] else old(networks)
      ensures answer == if fate != Answered then NoAnswer
                        else if network.name in old(networks) then Conflict else CreatedAs(network.id)
    {
      if fate == NotSent { return NoAnswer; }
      var taken := network.name in networks;
      if !taken { networks := networks[network.name := network]; }
      if fate == AnswerLost { return NoAnswer; }
      return if taken then Conflict else CreatedAs(network.id);
    }

    /** `ensureResourceNetwork` and `ensureManagedSwarmNetwork`, which send the same requests and differ in
        their checks. */
    method EnsureNetwork(request: Request, fates: (Fate, Fate, Fate), newId: string, rival: Option<Network>)
      returns (reply: Reply)
      modifies this
      ensures (networks, reply) == Whole(old(networks), request, fates, newId, rival)
    {
      var name := NameOf(request);
      var inspected := GetNetwork(name, fates.0);
      if inspected.Found? {
        if !Accepts(request, inspected.network) { return Failed; }
        return Ensured(inspected.network.id, false);
      }
      if inspected != NotFound { return Failed; }

      networks := AddRival(networks, rival);

      var created := PostNetwork(
        Network(newId, name, "overlay", "swarm", true, request.Resource? && request.internal,
                {"encrypted"}, LabelsFor(request)),
        fates.1);
      if !created.CreatedAs? {
        if created != Conflict { return Failed; }
        var again := GetNetwork(name, fates.2);
        if !again.Found? || !Accepts(request, again.network) { return Failed; }
        return Ensured(again.network.id, false);
      }
      if created.id == "" { return Failed; }
      return Ensured(created.id, true);
    }
  }

  /** With every request answered, a call fails exactly on a network of its name that it does not accept, be
      it there before or a rival's; otherwise such a network is there afterwards. */
  lemma WholeSucceedsExactly(d: Daemon, r: Request, id: string, rival: Option<Network>)
    requires id != ""
    ensures var (after, reply) := Whole(d, r, (Answered, Answered, Answered), id, rival);
            var name := NameOf(r);
            && name in after && (reply.Ensured? <==> Suits(r, after[name]))
            && (reply.Ensured? ==> after[name].id == reply.id && (reply.created <==> name !in AddRival(d, rival)))
            && (name in d ==> after == d)
            && (name !in d && name in AddRival(d, rival) ==> after == AddRival(d, rival))
  {
    AcceptsMadeExactly(r, r, id);
    SuitsExactly(r, Whole(d, r, (Answered, Answered, Answered), id, rival).0[NameOf(r)]);
  }

  // ----- What a call accepts and makes, field by field

  /** A label with a value; a label that is missing reads as the empty text. */
  predicate Carries(labels: map<string, string>, key: string, value: string) {
    if key in labels then labels[key] == value else value == ""
  }

  /** An encrypted overlay network of the swarm that containers can join. */
  predicate IsSecureOverlay(n: Network) {
    && n.id != ""
    && n.driver == "overlay"
    && n.scope == "swarm"
    && n.attachable
    && exists option :: option in n.options && ToLower(option) == "encrypted"
  }

  /** The network that isolates one resource, and the project it is in, if that is named. */
  predicate Isolates(n: Network, resourceId: string, projectName: string, composeType: string) {
    && Carries(n.labels, "com.upstand.managed", "true")
    && Carries(n.labels, "com.upstand.purpose", "resource-isolation")
    && Carries(n.labels, "com.upstand.resource-id", resourceId)
    && (projectName != "" && composeType == "stack" ==> Carries(n.labels, "com.docker.stack.namespace", projectName))
    && (projectName != "" && composeType != "stack" ==> Carries(n.labels, "com.docker.compose.project", projectName))
  }

  predicate Suits(r: Request, n: Network) {
    && IsSecureOverlay(n)
    && (r.Resource? ==> n.name == NameOf(r) && Isolates(n, r.resourceId, r.projectName, r.composeType))
  }

  /** A call that finds a network of its name, there before or a rival's, succeeds exactly if that is a secure
      overlay network and, for a resource, isolates that resource; either way it leaves the network alone. */
  lemma FoundIsJudged(d: Daemon, r: Request, id: string, rival: Option<Network>, found: Network)
    requires if NameOf(r) in d then found == d[NameOf(r)] else rival == Some(found) && found.name == NameOf(r)
    ensures Whole(d, r, (Answered, Answered, Answered), id, rival) ==
            (if NameOf(r) in d then d else d[NameOf(r) := found],
             if Suits(r, found) then Ensured(found.id, false) else Failed)
  {}

  /** The network that a request asks for. */
  predicate IsNew(r: Request, n: Network, id: string) {
    && n.id == id && n.name == NameOf(r)
    && n.driver == "overlay" && n.scope == "swarm" && n.attachable && n.options == {"encrypted"}
    && (n.internal <==> r.Resource? && r.internal)
    && "com.upstand.managed" in n.labels && n.labels["com.upstand.managed"] == "true"
    && "com.upstand.purpose" in n.labels
    && n.labels["com.upstand.purpose"] == (if r.Swarm? then "application-routing" else "resource-isolation")
    && (r.Resource? ==>
          && "com.upstand.resource-id" in n.labels && Isolates(n, r.resourceId, r.projectName, r.composeType))
    && |n.labels| == (if r.Swarm? then 2 else if r.projectName == "" then 3 else 4)
  }

  lemma LabelCount(r: Request)
    ensures |LabelsFor(r)| == (if r.Swarm? then 2 else if r.projectName == "" then 3 else 4)
  {}

  lemma MadeIsNew(r: Request, id: string)
    ensures IsNew(r, Made(r, id), id)
  {
    LabelCount(r);
  }

  lemma CreationAdds(d: Daemon, r: Request, fate: Fate, again: Fate, id: string)
    requires NameOf(r) !in d && id != ""
    ensures Whole(d, r, (Answered, fate, again), id, None) ==
            (if fate == NotSent then d else d[NameOf(r) := Made(r, id)],
             if fate == Answered then Ensured(id, true) else Failed)
  {}

  /** A call that finds none makes an encrypted overlay network of its name with the labels that will be looked
      for, if its request arrives, and says so, if the answer does. */
  lemma NewNetwork(d: Daemon, r: Request, fate: Fate, again: Fate, id: string)
    requires NameOf(r) !in d && id != ""
    ensures var (after, reply) := Whole(d, r, (Answered, fate, again), id, None);
            && reply == (if fate == Answered then Ensured(id, true) else Failed)
            && (fate == NotSent ==> after == d)
            && (fate != NotSent ==> NameOf(r) in after && IsNew(r, after[NameOf(r)], id)
                                    && after == d[NameOf(r) := after[NameOf(r)]])
  {
    MadeIsNew(r, id);
    CreationAdds(d, r, fate, again, id);
  }

  /** An inspection that is not answered ends the call before it has made anything. */
  lemma UnansweredInspection(d: Daemon, r: Request, fates: (Fate, Fate, Fate), id: string, rival: Option<Network>)
    requires fates.0 != Answered
    ensures Whole(d, r, fates, id, rival) == (d, Failed)
  {}

  lemma SuitsExactly(r: Request, n: Network)
    ensures Accepts(r, n) <==> Suits(r, n)
  {}

  // ----- Names

  predicate IsNameCharacter(c: char) {
    'a' <= c <= 'z' || '0' <= c <= '9' || c == '-'
  }

  /** How a character of an identifier is written in a name: a letter in lower case, a hyphen for what is no
      letter, digit or hyphen. */
  predicate IsWrittenAs(c: char, n: char) {
    && IsNameCharacter(n)
    && (IsNameCharacter(c) ==> n == c)
    && ('A' <= c <= 'Z' ==> [n] == ToLower([c]))
    && (!IsNameCharacter(c) && !('A' <= c <= 'Z') ==> n == '-')
  }

  lemma {:induction false} SuffixCharacters(resourceId: string)
    ensures var suffix := OverlaySuffix(resourceId);
            |suffix| == |resourceId| && forall i :: 0 <= i < |suffix| ==> IsWrittenAs(resourceId[i], suffix[i])
  {
    if resourceId != "" {
      SuffixCharacters(resourceId[1..]);
      assert OverlaySuffix(resourceId)[1..] == OverlaySuffix(resourceId[1..]);
    }
  }

  /** A name behind a prefix, cut at a limit. */
  predicate IsCut(name: string, prefix: string, resourceId: string, limit: nat) {
    && prefix <= name
    && |name| == (if |prefix| + |resourceId| > limit then limit else |prefix| + |resourceId|)
    && forall i :: |prefix| <= i < |name| ==>
         i - |prefix| < |resourceId| && IsWrittenAs(resourceId[i - |prefix|], name[i])
  }

  lemma CutNames(prefix: string, suffix: string, resourceId: string, limit: nat)
    requires |suffix| == |resourceId| && forall i :: 0 <= i < |suffix| ==> IsWrittenAs(resourceId[i], suffix[i])
    requires |prefix| <= limit
    ensures var all := prefix + suffix; IsCut(if |all| > limit then all[..limit] else all, prefix, resourceId, limit)
  {}

  /** The name of the network of a resource: at most 63 characters, behind a fixed prefix those of the
      identifier in lower case, with a hyphen for every other character. */
  lemma OverlayNames(resourceId: string)
    ensures IsCut(ResourceNetworkName(resourceId, ""), "upstand-resource-", resourceId, 63)
  {
    SuffixCharacters(resourceId);
    CutNames("upstand-resource-", OverlaySuffix(resourceId), resourceId, 63);
  }

  // ----- Interleavings

  datatype System = System(daemon: Daemon, calls: map<nat, Call>, makers: map<string, nat>)

  /** A call starts or sends its next request, or some other client creates a network. */
  datatype Move =
    | Begin(id: nat, request: Request)
    | Advance(id: nat, fate: Fate, newId: string)
    | Other(network: Network)

  function Next(s: System, move: Move): System {
    match move
    case Begin(id, request) => if id in s.calls then s else s.(calls := s.calls[id := Call(request, Inspecting, true)])
    case Advance(id, fate, newId) =>
      if id !in s.calls then s
      else
        var call := s.calls[id];
        var (d, phase) := Step(s.daemon, call.request, call.phase, fate, newId);
        System(d, s.calls[id := Call(call.request, phase,
                                      call.intact && (call.phase.Done? || (fate == Answered && newId != "")))],
               if d != s.daemon then s.makers[NameOf(call.request) := id] else s.makers)
    case Other(network) =>
      if network.name in s.daemon then s else s.(daemon := s.daemon[network.name := network])
  }

  function Run(existing: Daemon, moves: seq<Move>): System {
    if moves == [] then System(existing, map[], map[])
    else Next(Run(existing, moves[..|moves| - 1]), moves[|moves| - 1])
  }

  /** What a call relies on: nothing was removed, what it was told is still so. */
  predicate Keeps(d: Daemon, makers: map<string, nat>, id: nat, c: Call) {
    var name := NameOf(c.request);
    match c.phase
    case Inspecting => true
    case Creating => true
    case InspectingAgain => name in d
    case Done(Failed) => c.intact ==> name in d && !Accepts(c.request, d[name])
    case Done(Ensured(network, created)) =>
      && name in d && d[name].id == network && Accepts(c.request, d[name])
      && (created ==> name in makers && makers[name] == id && d[name] == Made(c.request, network))
  }

  predicate MadeBy(d: Daemon, calls: map<nat, Call>, name: string, id: nat) {
    && name in d && id in calls && NameOf(calls[id].request) == name
    && d[name] == Made(calls[id].request, d[name].id)
  }

  predicate Inv(s: System) {
    && (forall id :: id in s.calls ==> Keeps(s.daemon, s.makers, id, s.calls[id]))
    && (forall name :: name in s.makers ==> MadeBy(s.daemon, s.calls, name, s.makers[name]))
  }

  /** Networks stay, and so does the record of who made them. */
  predicate Extends(d: Daemon, makers: map<string, nat>, e: Daemon, after: map<string, nat>) {
    && (forall name :: name in d ==> name in e && e[name] == d[name])
    && (forall name :: name in makers ==> name in after && after[name] == makers[name])
  }

  lemma KeepsExtends(d: Daemon, makers: map<string, nat>, e: Daemon, after: map<string, nat>, id: nat, c: Call)
    requires Keeps(d, makers, id, c) && Extends(d, makers, e, after)
    ensures Keeps(e, after, id, c)
  {}

  /** What one request does: it changes nothing, or adds the network the call asks for. */
  lemma StepAddsAtMost(d: Daemon, r: Request, phase: Phase, fate: Fate, id: string)
    ensures var (e, after) := Step(d, r, phase, fate, id);
            e == d || (NameOf(r) !in d && phase.Creating? && after.Done? && e == d[NameOf(r) := Made(r, id)])
  {}

  lemma CreatingKeeps(d: Daemon, makers: map<string, nat>, c: Call, id: nat, fate: Fate, newId: string)
    requires c.phase.Creating?
    ensures var (e, phase) := Step(d, c.request, c.phase, fate, newId);
            Keeps(e, if e != d then makers[NameOf(c.request) := id] else makers, id,
                  Call(c.request, phase, c.intact && fate == Answered && newId != ""))
  {
    var r := c.request;
    if newId != "" {
      AcceptsMadeExactly(r, r, newId);
    }
    if NameOf(r) !in d {
      assert d[NameOf(r) := Made(r, newId)] != d;
    }
  }

  lemma StepKeeps(s: System, id: nat, fate: Fate, newId: string)
    requires id in s.calls && Inv(s)
    ensures var t := Next(s, Advance(id, fate, newId));
            Extends(s.daemon, s.makers, t.daemon, t.makers) && Keeps(t.daemon, t.makers, id, t.calls[id])
  {
    var call := s.calls[id];
    StepAddsAtMost(s.daemon, call.request, call.phase, fate, newId);
    if call.phase.Creating? {
      CreatingKeeps(s.daemon, s.makers, call, id, fate, newId);
    }
  }

  lemma MakersKeep(s: System, move: Move)
    requires Inv(s)
    ensures var t := Next(s, move); forall name :: name in t.makers ==> MadeBy(t.daemon, t.calls, name, t.makers[name])
  {
    if move.Advance? && move.id in s.calls {
      var call := s.calls[move.id];
      StepAddsAtMost(s.daemon, call.request, call.phase, move.fate, move.newId);
    }
  }

  lemma NextExtends(s: System, move: Move)
    requires Inv(s)
    ensures var t := Next(s, move); Extends(s.daemon, s.makers, t.daemon, t.makers) && Inv(t)
  {
    var t := Next(s, move);
    if move.Advance? && move.id in s.calls {
      StepKeeps(s, move.id, move.fate, move.newId);
    }
    MakersKeep(s, move);
    forall id | id in t.calls
      ensures Keeps(t.daemon, t.makers, id, t.calls[id])
    {
      if id in s.calls && t.calls[id] == s.calls[id] {
        KeepsExtends(s.daemon, s.makers, t.daemon, t.makers, id, s.calls[id]);
      }
    }
  }

  lemma {:induction false} RunKeepsInv(existing: Daemon, moves: seq<Move>)
    ensures Inv(Run(existing, moves))
  {
    if moves != [] {
      RunKeepsInv(existing, moves[..|moves| - 1]);
      NextExtends(Run(existing, moves[..|moves| - 1]), moves[|moves| - 1]);
    }
  }

  /** Nothing that was there at some time of a run is changed later. */
  lemma {:induction false} NetworksStay(existing: Daemon, moves: seq<Move>, n: nat, name: string)
    requires n <= |moves| && name in Run(existing, moves[..n]).daemon
    ensures name in Run(existing, moves).daemon
    ensures Run(existing, moves).daemon[name] == Run(existing, moves[..n]).daemon[name]
  {
    if n == |moves| {
      assert moves[..n] == moves;
    } else {
      var front := moves[..|moves| - 1];
      assert front[..n] == moves[..n];
      NetworksStay(existing, front, n, name);
      RunKeepsInv(existing, front);
      NextExtends(Run(existing, front), moves[|moves| - 1]);
    }
  }

  predicate Succeeded(s: System, id: nat) {
    id in s.calls && s.calls[id].phase.Done? && s.calls[id].phase.reply.Ensured?
  }

  /** At most one call reports that it created the network of a name. */
  lemma OneCallCreates(existing: Daemon, moves: seq<Move>, i: nat, j: nat)
    requires var s := Run(existing, moves);
             && Succeeded(s, i) && Succeeded(s, j)
             && s.calls[i].phase.reply.created && s.calls[j].phase.reply.created
             && NameOf(s.calls[i].request) == NameOf(s.calls[j].request)
    ensures i == j
  {
    RunKeepsInv(existing, moves);
  }

  /** All calls that succeed for a name return the ID of one network, which is as each of them asked. */
  lemma SuccessesAgree(existing: Daemon, moves: seq<Move>, i: nat, j: nat)
    requires var s := Run(existing, moves);
             Succeeded(s, i) && Succeeded(s, j) && NameOf(s.calls[i].request) == NameOf(s.calls[j].request)
    ensures var s := Run(existing, moves);
            var name := NameOf(s.calls[i].request);
            && s.calls[i].phase.reply.id == s.calls[j].phase.reply.id
            && name in s.daemon && s.daemon[name].id == s.calls[i].phase.reply.id
            && Suits(s.calls[i].request, s.daemon[name]) && Suits(s.calls[j].request, s.daemon[name])
  {
    RunKeepsInv(existing, moves);
  }

  /** A network that is foreign to a request makes the call fail, whenever it came, and stays as it is. */
  lemma ForeignIsRefused(existing: Daemon, moves: seq<Move>, n: nat, i: nat)
    requires n <= |moves| && i in Run(existing, moves).calls
    requires var r := Run(existing, moves).calls[i].request;
             var d := Run(existing, moves[..n]).daemon;
             NameOf(r) in d && !Suits(r, d[NameOf(r)])
    ensures !Succeeded(Run(existing, moves), i)
    ensures var name := NameOf(Run(existing, moves).calls[i].request);
            name in Run(existing, moves).daemon
            && Run(existing, moves).daemon[name] == Run(existing, moves[..n]).daemon[name]
  {
    RunKeepsInv(existing, moves);
    NetworksStay(existing, moves, n, NameOf(Run(existing, moves).calls[i].request));
  }

  /** A call all of whose requests were answered succeeds exactly if the network of its name, whoever made
      it, passes its checks. */
  lemma AnsweredCallsSucceedExactly(existing: Daemon, moves: seq<Move>, i: nat)
    requires var s := Run(existing, moves); i in s.calls && s.calls[i].phase.Done? && s.calls[i].intact
    ensures var s := Run(existing, moves);
            var name := NameOf(s.calls[i].request);
            name in s.daemon && (Succeeded(s, i) <==> Suits(s.calls[i].request, s.daemon[name]))
  {
    RunKeepsInv(existing, moves);
  }

  /** Answered calls for a network that one of the callers made succeed exactly if they are compatible with
      the maker: concurrent callers with the same request all get the network. */
  lemma CompatibleCallsSucceedExactly(existing: Daemon, moves: seq<Move>, i: nat)
    requires var s := Run(existing, moves);
             && i in s.calls && s.calls[i].phase.Done? && s.calls[i].intact
             && NameOf(s.calls[i].request) in s.makers && NameOf(s.calls[i].request) in s.daemon
             && s.daemon[NameOf(s.calls[i].request)].id != ""
    ensures var s := Run(existing, moves);
            var maker := s.makers[NameOf(s.calls[i].request)];
            maker in s.calls && (Succeeded(s, i) <==> Compatible(s.calls[maker].request, s.calls[i].request))
  {
    RunKeepsInv(existing, moves);
    var s := Run(existing, moves);
    var name := NameOf(s.calls[i].request);
    assert MadeBy(s.daemon, s.calls, name, s.makers[name]);
    AcceptsMadeExactly(s.calls[s.makers[name]].request, s.calls[i].request, s.daemon[name].id);
  }
}
