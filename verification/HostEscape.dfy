/** The walk over a decoded policy body that looks for requests to leave the container. */
module HostEscape {
  import opened Text
  import PolicyScanner

  /** A decoded JSON value; the members of an object have no order. */
  datatype Json =
    | Null | Bool(flag: bool) | Num(literal: string) | Str(text: string)
    | List(items: seq<Json>)
    | Object(fields: map<string, Json>)

  function Name(key: string): string {
    PolicyScanner.Normalize(key)
  }

  /** No two keys of an object are the same up to case and surrounding space. */
  predicate Unambiguous(fields: map<string, Json>) {
    forall j, k :: j in fields && k in fields && j != k ==> Name(j) != Name(k)
  }

  /** What the duplicate-key check guarantees. */
  predicate Clean(value: Json) {
    match value
    case List(items) => forall i :: 0 <= i < |items| ==> Clean(items[i])
    case Object(fields) => Unambiguous(fields) && forall k :: k in fields ==> Clean(fields[k])
    case _ => true
  }

  // ----- Forbidden members

  function TrimRightSlashes(s: string): string {
    if s != "" && s[|s| - 1] == '/' then TrimRightSlashes(s[..|s| - 1]) else s
  }

  predicate IsHostMode(value: string) {
    var v := ToLower(PolicyScanner.TrimSpace(value));
    v in {"host", "hostipc", "hostpid", "hostnetwork"} || "container:" <= v || "service:" <= v
  }

  predicate UnsafeSecurityOption(value: string) {
    ToLower(PolicyScanner.TrimSpace(value)) in
      {"apparmor=unconfined", "seccomp=unconfined", "label=disable", "systempaths=unconfined",
       "no-new-privileges=false"}
  }

  predicate IsTelemetryBindSource(value: string) {
    var clean := TrimRightSlashes(PolicyScanner.TrimSpace(value));
    clean == "/proc" || "/proc/" <= clean || clean == "/sys" || "/sys/" <= clean || clean == "/etc/os-release"
  }

  predicate HasReadOnlyBindOption(value: string) {
    var parts := Split(value, ':');
    |parts| >= 3 &&
    var options := Split(parts[2], ',');
    exists i :: 0 <= i < |options| && ToLower(PolicyScanner.TrimSpace(options[i])) in {"ro", "readonly"}
  }

  predicate UnsafeBindSource(value: string) {
    var source := PolicyScanner.TrimSpace(Split(value, ':')[0]);
    if !("/" <= source) then false
    else
      var clean := TrimRightSlashes(source);
      clean == "" || !IsTelemetryBindSource(clean) || !HasReadOnlyBindOption(value)
  }

  /** The member of a mount that goes by a name, where there is one. */
  ghost function Member(mount: map<string, Json>, name: string): Option<Json> {
    if k :| k in mount && Name(k) == name then Some(mount[k]) else None
  }

  function AsText(value: Option<Json>): string {
    if value.Some? && value.value.Str? then value.value.text else ""
  }

  function AsFlag(value: Option<Json>): bool {
    value.Some? && value.value.Bool? && value.value.flag
  }

  predicate UnsafeMount(kind: string, source: string, readOnly: bool) {
    && kind == "bind"
    && (|| (UnsafeBindSource(source) && !(IsTelemetryBindSource(source) && readOnly))
        || (IsTelemetryBindSource(source) && !readOnly))
  }

  /** A mount that binds an unsafe part of the host. */
  ghost predicate ForbiddenMount(entry: Json) {
    && entry.Object?
    && UnsafeMount(ToLower(PolicyScanner.TrimSpace(AsText(Member(entry.fields, "type")))),
                   AsText(Member(entry.fields, "source")),
                   AsFlag(Member(entry.fields, "readonly")))
  }

  const FLAGS := {"privileged", "publishallports"}
  const MODES := {"pidmode", "ipcmode", "networkmode", "usernsmode", "cgroupnsmode", "utsmode", "isolation"}
  const INJECTIONS := {"capadd", "capabilityadd", "devices", "devicerequests", "devicecgrouprules"}

  /** A key and value that ask for a capability of the host. */
  ghost predicate Forbidden(key: string, child: Json) {
    var name := Name(key);
    || (name in FLAGS && child == Bool(true))
    || (name in MODES && child.Str? && IsHostMode(child.text))
    || (name in INJECTIONS && child.List? && child.items != [])
    || (name == "sysctls" && ((child.List? && child.items != []) || (child.Object? && child.fields != map[])))
    || (name == "driveropts" && child.Object? && child.fields != map[])
    || (name == "volumedriver" && child.Str? && PolicyScanner.TrimSpace(child.text) != ""
        && ToLower(PolicyScanner.TrimSpace(child.text)) != "local")
    || (name == "runtime" && child.Str? && PolicyScanner.TrimSpace(child.text) != "")
    || (name == "securityopt" && child.List?
        && exists e :: e in child.items && e.Str? && UnsafeSecurityOption(e.text))
    || (name == "binds" && child.List? && exists e :: e in child.items && e.Str? && UnsafeBindSource(e.text))
    || (name == "mounts" && child.List? && exists e :: e in child.items && ForbiddenMount(e))
  }

  // ----- Where members are

  datatype Step = At(index: nat) | Under(key: string)

  /** The value a path leads to. */
  function Follow(value: Json, path: seq<Step>): Option<Json> {
    if path == [] then Some(value)
    else
      match path[0]
      case At(i) => if value.List? && i < |value.items| then Follow(value.items[i], path[1..]) else None
      case Under(k) => if value.Object? && k in value.fields then Follow(value.fields[k], path[1..]) else None
  }

  /** An object somewhere in the value has a forbidden member. */
  ghost predicate Escapes(value: Json) {
    exists path: seq<Step>, key: string :: EscapesAt(value, path, key)
  }

  ghost predicate EscapesAt(value: Json, path: seq<Step>, key: string) {
    var target := Follow(value, path);
    target.Some? && target.value.Object? && key in target.value.fields && Forbidden(key, target.value.fields[key])
  }

  lemma EscapesInList(items: seq<Json>)
    ensures Escapes(List(items)) <==> exists i :: 0 <= i < |items| && Escapes(items[i])
  {
    if path: seq<Step>, key :| EscapesAt(List(items), path, key) {
      assert path != [] && path[0].At?;
      assert EscapesAt(items[path[0].index], path[1..], key);
    }
    if i :| 0 <= i < |items| && Escapes(items[i]) {
      var path, key :| EscapesAt(items[i], path, key);
      assert ([At(i)] + path)[1..] == path;
      assert EscapesAt(List(items), [At(i)] + path, key);
    }
  }

  lemma EscapesInObject(fields: map<string, Json>)
    ensures Escapes(Object(fields)) <==> exists k :: k in fields && (Forbidden(k, fields[k]) || Escapes(fields[k]))
  {
    if path: seq<Step>, key :| EscapesAt(Object(fields), path, key) {
      if path != [] {
        assert EscapesAt(fields[path[0].key], path[1..], key);
      }
    }
    if k :| k in fields && (Forbidden(k, fields[k]) || Escapes(fields[k])) {
      if Forbidden(k, fields[k]) {
        assert EscapesAt(Object(fields), [], k);
      } else {
        var path, key :| EscapesAt(fields[k], path, key);
        assert ([Under(k)] + path)[1..] == path;
        assert EscapesAt(Object(fields), [Under(k)] + path, key);
      }
    }
  }

  lemma ScalarsDoNotEscape(value: Json)
    requires !value.List? && !value.Object?
    ensures !Escapes(value)
  {
    forall path: seq<Step>, key: string
      ensures !EscapesAt(value, path, key)
    {}
  }

  // ----- The program, for any order in which Go iterates over a map

  /** An order in which Go may iterate over a map: every key once. */
  ghost predicate IsOrder(order: seq<string>, mount: map<string, Json>) {
    (forall k :: k in order <==> k in mount) && Distinct(order)
  }

  predicate Distinct(order: seq<string>) {
    forall i, j :: 0 <= i < j < |order| ==> order[i] != order[j]
  }

  /** The member that an iteration in the given order is left with under a name. */
  function LastMember(mount: map<string, Json>, order: seq<string>, name: string): Option<Json> {
    if order == [] then None
    else
      var key := order[|order| - 1];
      if key in mount && Name(key) == name then Some(mount[key]) else LastMember(mount, order[..|order| - 1], name)
  }

  lemma LastMemberSnoc(mount: map<string, Json>, order: seq<string>, key: string, name: string)
    requires key in mount
    ensures LastMember(mount, order + [key], name)
            == if Name(key) == name then Some(mount[key]) else LastMember(mount, order, name)
  {
    assert (order + [key])[..|order|] == order;
  }

  /** The text of a kind, lower-cased and trimmed. */
  function KindOf(value: Option<Json>): string {
    ToLower(PolicyScanner.TrimSpace(AsText(value)))
  }

  /** Kind, source and read-only flag that an iteration in the given order is left with. */
  function FieldsIn(mount: map<string, Json>, order: seq<string>): (string, string, bool) {
    (KindOf(LastMember(mount, order, "type")), AsText(LastMember(mount, order, "source")),
     AsFlag(LastMember(mount, order, "readonly")))
  }

  /** `dockerMountFields`: later members overwrite earlier ones, in whatever order they come; where no two
      names coincide, the order does not matter. */
  method DockerMountFields(mount: map<string, Json>) returns (kind: string, source: string, readOnly: bool)
    ensures exists order :: IsOrder(order, mount) && (kind, source, readOnly) == FieldsIn(mount, order)
    ensures Unambiguous(mount) ==>
              && kind == KindOf(Member(mount, "type"))
              && source == AsText(Member(mount, "source"))
              && readOnly == AsFlag(Member(mount, "readonly"))
  {
    kind, source, readOnly := "", "", false;
    var left := mount.Keys;
    ghost var order: seq<string> := [];
    while left != {}
      invariant left <= mount.Keys && Distinct(order)
      invariant forall k :: k in order <==> k in mount && k !in left
      invariant kind == AsText(LastMember(mount, order, "type"))
      invariant source == AsText(LastMember(mount, order, "source"))
      invariant readOnly == AsFlag(LastMember(mount, order, "readonly"))
      decreases left
    {
      var key :| key in left;
      LastMemberSnoc(mount, order, key, "type");
      LastMemberSnoc(mount, order, key, "source");
      LastMemberSnoc(mount, order, key, "readonly");
      var value := mount[key];
      match Name(key) {
        case "type" => kind := AsText(Some(value));
        case "source" => source := AsText(Some(value));
        case "readonly" => readOnly := AsFlag(Some(value));
        case _ =>
      }
      left := left - {key};
      order := order + [key];
    }
    kind := ToLower(PolicyScanner.TrimSpace(kind));
    assert IsOrder(order, mount);
    if Unambiguous(mount) {
      LastMemberIsMember(mount, order, "type");
      LastMemberIsMember(mount, order, "source");
      LastMemberIsMember(mount, order, "readonly");
    }
  }

  lemma LastMemberIsMember(mount: map<string, Json>, order: seq<string>, name: string)
    requires Unambiguous(mount) && IsOrder(order, mount)
    ensures LastMember(mount, order, name) == Member(mount, name)
  {
    LastMemberIsOne(mount, order, name);
  }

  // ----- When the order of iteration does not matter

  /** What is read of the member of a name is the same for every order. */
  ghost predicate ReadsAlike<T(!new)>(mount: map<string, Json>, name: string, read: Option<Json> -> T) {
    forall a, b :: IsOrder(a, mount) && IsOrder(b, mount) ==>
      read(LastMember(mount, a, name)) == read(LastMember(mount, b, name))
  }

  /** All members of a name read the same. */
  ghost predicate MembersAlike<T(!new)>(mount: map<string, Json>, name: string, read: Option<Json> -> T) {
    forall j, k :: j in mount && k in mount && Name(j) == name == Name(k) ==>
      read(Some(mount[j])) == read(Some(mount[k]))
  }

  lemma ReadsAlikeExactly<T(!new)>(mount: map<string, Json>, name: string, read: Option<Json> -> T)
    ensures ReadsAlike(mount, name, read) <==> MembersAlike(mount, name, read)
  {
    if MembersAlike(mount, name, read) {
      forall a, b | IsOrder(a, mount) && IsOrder(b, mount)
        ensures read(LastMember(mount, a, name)) == read(LastMember(mount, b, name))
      {
        LastMemberIsOne(mount, a, name);
        LastMemberIsOne(mount, b, name);
      }
    } else {
      var j, k :| j in mount && k in mount && Name(j) == name == Name(k)
                  && read(Some(mount[j])) != read(Some(mount[k]));
      var a := OrderEndingIn(mount, mount.Keys - {j}, j);
      var b := OrderEndingIn(mount, mount.Keys - {k}, k);
      assert LastMember(mount, a, name) == Some(mount[j]) && LastMember(mount, b, name) == Some(mount[k]);
    }
  }

  ghost predicate OrderIndependent(mount: map<string, Json>) {
    forall a, b :: IsOrder(a, mount) && IsOrder(b, mount) ==> FieldsIn(mount, a) == FieldsIn(mount, b)
  }

  lemma FieldsReadAlike(mount: map<string, Json>, kind: Option<Json> -> string, source: Option<Json> -> string,
                        readOnly: Option<Json> -> bool)
    requires forall order :: FieldsIn(mount, order) ==
               (kind(LastMember(mount, order, "type")), source(LastMember(mount, order, "source")),
                readOnly(LastMember(mount, order, "readonly")))
    ensures OrderIndependent(mount) <==>
              ReadsAlike(mount, "type", kind) && ReadsAlike(mount, "source", source)
              && ReadsAlike(mount, "readonly", readOnly)
  {
    if OrderIndependent(mount) {
      forall a, b | IsOrder(a, mount) && IsOrder(b, mount)
        ensures kind(LastMember(mount, a, "type")) == kind(LastMember(mount, b, "type"))
        ensures source(LastMember(mount, a, "source")) == source(LastMember(mount, b, "source"))
        ensures readOnly(LastMember(mount, a, "readonly")) == readOnly(LastMember(mount, b, "readonly"))
      {
        assert FieldsIn(mount, a) == FieldsIn(mount, b);
      }
    }
  }

  /** Without the duplicate-key check, the fields of a mount are the same for every order of iteration exactly
      if all its kinds agree up to case and surrounding space, all its sources agree, and all its read-only
      flags do; what is no text counts as the empty text, what is no flag as false. */
  lemma OrderIndependentExactly(mount: map<string, Json>)
    ensures OrderIndependent(mount) <==>
              && MembersAlike(mount, "type", KindOf)
              && MembersAlike(mount, "source", AsText)
              && MembersAlike(mount, "readonly", AsFlag)
  {
    FieldsReadAlike(mount, KindOf, AsText, AsFlag);
    ReadsAlikeExactly(mount, "type", KindOf);
    ReadsAlikeExactly(mount, "source", AsText);
    ReadsAlikeExactly(mount, "readonly", AsFlag);
  }

  /** A bind of a part of the host and of a named volume, in one mount. */
  function AmbiguousMount(): map<string, Json> {
    map["Type" := Str("bind"), "Source" := Str("/etc"), "source" := Str("data")]
  }

  lemma AmbiguousNames()
    ensures Name("Type") == "type" && Name("Source") == "source" == Name("source")
  {
    assert PolicyScanner.TrimSpace("Type") == "Type" && PolicyScanner.TrimSpace("Source") == "Source";
    assert ToLower("Type") == "type" && ToLower("Source") == "source" && ToLower("source") == "source";
  }

  /** The fields of such a mount depend on the order in which Go comes to its members. */
  lemma AmbiguousMountDepends()
    ensures !OrderIndependent(AmbiguousMount())
  {
    var mount := AmbiguousMount();
    AmbiguousNames();
    OrderIndependentExactly(mount);
    assert AsText(Some(mount["Source"])) != AsText(Some(mount["source"])) by {
      assert |"/etc"| == |"data"| && "/etc"[0] != "data"[0];
    }
  }

  lemma {:induction false} LastMemberIsOne(mount: map<string, Json>, order: seq<string>, name: string)
    ensures LastMember(mount, order, name).None? ==> forall k :: k in order && k in mount ==> Name(k) != name
    ensures LastMember(mount, order, name).Some? ==>
              exists k :: k in order && k in mount && Name(k) == name
                && LastMember(mount, order, name) == Some(mount[k])
  {
    if order != [] {
      LastMemberIsOne(mount, order[..|order| - 1], name);
    }
  }

  lemma {:induction false} OrderEndingIn(mount: map<string, Json>, others: set<string>, last: string)
    returns (order: seq<string>)
    requires last in mount && others == mount.Keys - {last}
    ensures IsOrder(order, mount) && order != [] && order[|order| - 1] == last
  {
    var front := Enumerate(others);
    order := front + [last];
    forall k
      ensures k in order <==> k in mount
    {
      assert k in order <==> k in front || k == last;
    }
  }

  lemma {:induction false} Enumerate(keys: set<string>) returns (order: seq<string>)
    ensures forall k :: k in order <==> k in keys
    ensures forall i, j :: 0 <= i < j < |order| ==> order[i] != order[j]
    decreases keys
  {
    if keys == {} {
      order := [];
    } else {
      var k :| k in keys;
      var rest := Enumerate(keys - {k});
      order := rest + [k];
    }
  }

  /** The loops over options and binds. */
  method SomeText(items: seq<Json>, unsafe: string -> bool) returns (found: bool)
    ensures found <==> exists e :: e in items && e.Str? && unsafe(e.text)
  {
    for i := 0 to |items|
      invariant forall j :: 0 <= j < i ==> !(items[j].Str? && unsafe(items[j].text))
    {
      if items[i].Str? && unsafe(items[i].text) { return true; }
    }
    return false;
  }

  method IsForbiddenMount(entry: Json) returns (forbidden: bool)
    requires Clean(entry)
    ensures forbidden == ForbiddenMount(entry)
  {
    if !entry.Object? { return false; }
    var kind, source, readOnly := DockerMountFields(entry.fields);
    forbidden := UnsafeMount(kind, source, readOnly);
  }

  /** The loop over mounts. */
  method SomeMount(items: seq<Json>) returns (found: bool)
    requires forall i :: 0 <= i < |items| ==> Clean(items[i])
    ensures found <==> exists e :: e in items && ForbiddenMount(e)
  {
    for i := 0 to |items|
      invariant forall e :: e in items[..i] ==> !ForbiddenMount(e)
    {
      var forbidden := IsForbiddenMount(items[i]);
      if forbidden { return true; }
      assert items[..i + 1] == items[..i] + [items[i]];
    }
    assert items[..|items|] == items;
    return false;
  }

  /** The switch of `walkHostEscape` over one member. */
  method RejectMember(key: string, child: Json) returns (rejected: bool)
    requires Clean(child)
    ensures rejected == Forbidden(key, child)
  {
    var normalizedKey := Name(key);
    if normalizedKey in FLAGS { return child == Bool(true); }
    if normalizedKey in MODES { return child.Str? && IsHostMode(child.text); }
    if normalizedKey in INJECTIONS { return child.List? && |child.items| > 0; }
    match normalizedKey
    case "sysctls" =>
      return (child.List? && |child.items| > 0) || (child.Object? && child.fields.Keys != {});
    case "driveropts" =>
      return child.Object? && child.fields.Keys != {};
    case "volumedriver" =>
      return child.Str? && PolicyScanner.TrimSpace(child.text) != ""
             && ToLower(PolicyScanner.TrimSpace(child.text)) != "local";
    case "runtime" =>
      return child.Str? && PolicyScanner.TrimSpace(child.text) != "";
    case "securityopt" =>
      if !child.List? { return false; }
      rejected := SomeText(child.items, UnsafeSecurityOption);
    case "binds" =>
      if !child.List? { return false; }
      rejected := SomeText(child.items, UnsafeBindSource);
    case "mounts" =>
      if !child.List? { return false; }
      rejected := SomeMount(child.items);
    case _ =>
      return false;
  }

  /** `walkHostEscape`: its verdict is the same for every order in which the members of an object come. */
  method WalkHostEscape(value: Json) returns (rejected: bool)
    requires Clean(value)
    ensures rejected == Escapes(value)
    decreases value, 1
  {
    match value
    case Object(fields) =>
      rejected := WalkObject(value);
      EscapesInObject(fields);
    case List(items) =>
      rejected := WalkList(items);
      EscapesInList(items);
    case _ =>
      ScalarsDoNotEscape(value);
      return false;
  }

  method WalkObject(value: Json) returns (rejected: bool)
    requires value.Object? && Clean(value)
    ensures rejected <==> exists k :: k in value.fields && (Forbidden(k, value.fields[k]) || Escapes(value.fields[k]))
    decreases value, 0
  {
    var fields := value.fields;
    var left := fields.Keys;
    while left != {}
      invariant left <= fields.Keys
      invariant forall k :: k in fields && k !in left ==> !Forbidden(k, fields[k]) && !Escapes(fields[k])
      decreases left
    {
      var key :| key in left;
      rejected := RejectMember(key, fields[key]);
      if rejected { return; }
      rejected := WalkHostEscape(fields[key]);
      if rejected { return; }
      left := left - {key};
    }
    return false;
  }

  method WalkList(items: seq<Json>) returns (rejected: bool)
    requires forall i :: 0 <= i < |items| ==> Clean(items[i])
    ensures rejected <==> exists i :: 0 <= i < |items| && Escapes(items[i])
    decreases items, 0
  {
    for index := 0 to |items|
      invariant forall i :: 0 <= i < index ==> !Escapes(items[i])
    {
      rejected := WalkHostEscape(items[index]);
      if rejected { return; }
    }
    return false;
  }

  // ----- From the body to the verdict

  /** `json.Unmarshal` into a map: a later member replaces an earlier one of the same key. */
  function Decode(tree: PolicyScanner.Tree): Json {
    match tree
    case StrTree(text) => Str(text)
    case NumTree(literal) => Num(literal)
    case BoolTree(value) => Bool(value)
    case NullTree => Null
    case ArrayTree(items) => List(DecodeItems(items))
    case ObjectTree(fields) => Object(DecodeFields(fields))
  }

  function DecodeItems(items: seq<PolicyScanner.Tree>): seq<Json> {
    if items == [] then [] else [Decode(items[0])] + DecodeItems(items[1..])
  }

  function DecodeFields(fields: seq<PolicyScanner.Field>): map<string, Json> {
    if fields == [] then map[]
    else
      var last := fields[|fields| - 1];
      DecodeFields(fields[..|fields| - 1])[last.key := Decode(last.value)]
  }

  /** Documents with distinct keys decode to clean values. */
  lemma {:induction false} DistinctDecodesClean(tree: PolicyScanner.Tree)
    requires PolicyScanner.DistinctKeys(tree)
    ensures Clean(Decode(tree))
    decreases tree, 1
  {
    match tree
    case ArrayTree(items) => ItemsDecodeClean(items);
    case ObjectTree(fields) => FieldsDecodeClean(fields);
    case _ =>
  }

  lemma {:induction false} ItemsDecodeClean(items: seq<PolicyScanner.Tree>)
    requires forall i :: 0 <= i < |items| ==> PolicyScanner.DistinctKeys(items[i])
    ensures |DecodeItems(items)| == |items|
    ensures forall i :: 0 <= i < |items| ==> Clean(DecodeItems(items)[i])
    decreases items, 0
  {
    if items != [] {
      DistinctDecodesClean(items[0]);
      ItemsDecodeClean(items[1..]);
    }
  }

  lemma {:induction false} FieldsDecodeClean(fields: seq<PolicyScanner.Field>)
    requires forall i, j :: 0 <= i < j < |fields| ==> Name(fields[i].key) != Name(fields[j].key)
    requires forall i :: 0 <= i < |fields| ==> PolicyScanner.DistinctKeys(fields[i].value)
    ensures var m := DecodeFields(fields);
            && (forall k :: k in m ==> Clean(m[k]) && exists i :: 0 <= i < |fields| && fields[i].key == k)
            && Unambiguous(m)
    decreases fields, 0
  {
    if fields != [] {
      var n := |fields| - 1;
      DistinctDecodesClean(fields[n].value);
      FieldsDecodeClean(fields[..n]);
      var m, front := DecodeFields(fields), DecodeFields(fields[..n]);
      forall k | k in front
        ensures Name(k) != Name(fields[n].key) && exists i :: 0 <= i < |fields| && fields[i].key == k
      {
        var i :| 0 <= i < n && fields[..n][i].key == k;
        assert fields[i].key == k;
      }
    }
  }

  /** A body that the broker lets pass. */
  ghost predicate Harmless(tokens: seq<PolicyScanner.Token>) {
    exists tree :: PolicyScanner.Tokens(tree) == tokens && PolicyScanner.Fits(tree, 0) && !Escapes(Decode(tree))
  }

  /** `rejectHostEscapeJSON`: the body passes exactly when it is one document, nested at most 128 levels,
      without ambiguous keys and without a forbidden member anywhere. `decoded` is what `json.Unmarshal`
      makes of the body. */
  method RejectHostEscapeJSON(tokens: seq<PolicyScanner.Token>, clean: bool, decoded: Json) returns (rejected: bool)
    requires forall tree :: PolicyScanner.Tokens(tree) == tokens ==> decoded == Decode(tree)
    ensures !rejected <==> clean && Harmless(tokens)
  {
    var ok := PolicyScanner.RejectDuplicateJSONKeys(tokens, clean);
    PolicyScanner.AcceptedBodies(tokens);
    if !ok { return true; }
    ghost var tree :| PolicyScanner.Tokens(tree) == tokens && PolicyScanner.Fits(tree, 0);
    DistinctDecodesClean(tree);
    rejected := WalkHostEscape(decoded);
  }
}
