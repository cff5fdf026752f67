/** Which members of a policy body are refused, key by key. */
module HostEscapeCases {
  import opened Text
  import PolicyScanner
  import opened HostEscape

  // ----- The parts a verdict is made of

  lemma NoMembers()
    ensures !Escapes(Object(map[]))
  {
    EscapesInObject(map[]);
  }

  lemma OneMember(key: string, value: Json)
    ensures Escapes(Object(map[key := value])) <==> Forbidden(key, value) || Escapes(value)
  {
    EscapesInObject(map[key := value]);
    assert map[key := value][key] == value;
  }

  /** An object is refused exactly if it is refused for one of its members alone. */
  lemma EachMemberAlone(fields: map<string, Json>)
    ensures Escapes(Object(fields)) <==> exists k :: k in fields && Escapes(Object(map[k := fields[k]]))
  {
    EscapesInObject(fields);
    forall k | k in fields
      ensures Escapes(Object(map[k := fields[k]])) <==> Forbidden(k, fields[k]) || Escapes(fields[k])
    {
      OneMember(k, fields[k]);
    }
  }

  // ----- Names

  predicate IsSpacing(s: string) {
    forall c :: c in s ==> PolicyScanner.IsGoSpace(c)
  }

  /** No space at either end. */
  predicate Bare(s: string) {
    s != "" ==> !PolicyScanner.IsGoSpace(s[0]) && !PolicyScanner.IsGoSpace(s[|s| - 1])
  }

  lemma {:induction false} SpaceBefore(before: string, rest: string)
    requires IsSpacing(before)
    ensures PolicyScanner.TrimSpace(before + rest) == PolicyScanner.TrimSpace(rest)
  {
    if before == "" {
      assert before + rest == rest;
    } else {
      assert before[0] in before;
      SpaceBefore(before[1..], rest);
      assert (before + rest)[1..] == before[1..] + rest;
    }
  }

  lemma {:induction false} SpaceBehind(s: string, after: string)
    requires IsSpacing(after) && Bare(s)
    ensures PolicyScanner.TrimSpace(s + after) == s
  {
    if after == "" {
      assert s + after == s;
    } else if s == "" {
      SpaceBefore(after, "");
      assert s + after == after + "";
    } else {
      var n := |after| - 1;
      assert after[n] in after;
      SpaceBehind(s, after[..n]);
      assert (s + after)[..|s| + n] == s + after[..n];
    }
  }

  /** Space around a text is removed, and nothing else. */
  lemma SpaceAround(before: string, s: string, after: string)
    requires IsSpacing(before) && IsSpacing(after) && Bare(s)
    ensures PolicyScanner.TrimSpace(before + s + after) == s
  {
    SpaceBefore(before, s + after);
    SpaceBehind(s, after);
    assert before + s + after == before + (s + after);
  }

  lemma KeyName(key: string, name: string)
    requires Bare(key) && ToLower(key) == name
    ensures Name(key) == name
  {
    SpaceAround("", key, "");
    assert "" + key + "" == key;
  }

  // ----- Key by key

  /** Two switches must not be on. */
  lemma SwitchEscapes(key: string, value: Json)
    requires Name(key) == "privileged" || Name(key) == "publishallports"
    ensures Escapes(Object(map[key := value])) <==> value == Bool(true) || Escapes(value)
  {
    OneMember(key, value);
  }

  /** A mode is the host's or another container's. */
  predicate IsShared(mode: string) {
    || mode == "host" || mode == "hostipc" || mode == "hostpid" || mode == "hostnetwork"
    || "container:" <= mode || "service:" <= mode
  }

  /** Seven modes must not be the host's or another container's. */
  lemma ModeEscapes(key: string, text: string)
    requires || Name(key) == "pidmode" || Name(key) == "ipcmode" || Name(key) == "networkmode"
             || Name(key) == "usernsmode" || Name(key) == "cgroupnsmode" || Name(key) == "utsmode"
             || Name(key) == "isolation"
    ensures Escapes(Object(map[key := Str(text)])) <==> IsShared(ToLower(PolicyScanner.TrimSpace(text)))
  {
    OneMember(key, Str(text));
    ScalarsDoNotEscape(Str(text));
  }

  /** Five lists of capabilities and devices must be empty. */
  lemma InjectionEscapes(key: string, items: seq<Json>)
    requires || Name(key) == "capadd" || Name(key) == "capabilityadd" || Name(key) == "devices"
             || Name(key) == "devicerequests" || Name(key) == "devicecgrouprules"
    ensures Escapes(Object(map[key := List(items)])) <==> items != []
  {
    OneMember(key, List(items));
    EscapesInList(items);
  }

  /** Kernel parameters must be an empty list or object. */
  lemma SysctlsEscape(key: string, items: seq<Json>, fields: map<string, Json>)
    requires Name(key) == "sysctls"
    ensures Escapes(Object(map[key := List(items)])) <==> items != []
    ensures Escapes(Object(map[key := Object(fields)])) <==> fields != map[]
  {
    OneMember(key, List(items));
    EscapesInList(items);
    OneMember(key, Object(fields));
    NoMembers();
  }

  /** The options of a volume driver must be empty. */
  lemma DriverOptionsEscape(key: string, fields: map<string, Json>)
    requires Name(key) == "driveropts"
    ensures Escapes(Object(map[key := Object(fields)])) <==> fields != map[]
  {
    OneMember(key, Object(fields));
    NoMembers();
  }

  /** A volume driver must be the local one or left blank. */
  lemma VolumeDriverEscapes(key: string, text: string)
    requires Name(key) == "volumedriver"
    ensures Escapes(Object(map[key := Str(text)])) <==>
              PolicyScanner.TrimSpace(text) != "" && ToLower(PolicyScanner.TrimSpace(text)) != "local"
  {
    OneMember(key, Str(text));
    ScalarsDoNotEscape(Str(text));
  }

  /** A runtime must be left blank. */
  lemma RuntimeEscapes(key: string, text: string)
    requires Name(key) == "runtime"
    ensures Escapes(Object(map[key := Str(text)])) <==> PolicyScanner.TrimSpace(text) != ""
  {
    OneMember(key, Str(text));
    ScalarsDoNotEscape(Str(text));
  }

  lemma ScalarsInList(items: seq<Json>)
    requires forall e :: e in items ==> e.Str?
    ensures !Escapes(List(items))
  {
    EscapesInList(items);
    forall i | 0 <= i < |items|
      ensures !Escapes(items[i])
    {
      assert items[i] in items;
      ScalarsDoNotEscape(items[i]);
    }
  }

  /** Five security options must not be among those given. */
  lemma SecurityOptionEscapes(key: string, options: seq<Json>)
    requires Name(key) == "securityopt" && forall e :: e in options ==> e.Str?
    ensures Escapes(Object(map[key := List(options)])) <==>
              exists e :: e in options &&
                var option := ToLower(PolicyScanner.TrimSpace(e.text));
                || option == "apparmor=unconfined" || option == "seccomp=unconfined" || option == "label=disable"
                || option == "systempaths=unconfined" || option == "no-new-privileges=false"
  {
    OneMember(key, List(options));
    ScalarsInList(options);
  }

  /** Under every other key, only what stands inside the value counts; the same holds for a value of another
      shape than the key has. */
  lemma OtherKeysPass(key: string, value: Json)
    requires Name(key) !in {"privileged", "publishallports", "pidmode", "ipcmode", "networkmode", "usernsmode",
                            "cgroupnsmode", "utsmode", "isolation", "capadd", "capabilityadd", "devices",
                            "devicerequests", "devicecgrouprules", "sysctls", "driveropts", "volumedriver",
                            "runtime", "securityopt", "binds", "mounts"}
    ensures Escapes(Object(map[key := value])) <==> Escapes(value)
  {
    OneMember(key, value);
  }

  // ----- Binds

  /** A path in the file system of the host from which usage is read. */
  predicate IsUsagePath(path: string) {
    path == "/proc" || "/proc/" <= path || path == "/sys" || "/sys/" <= path || path == "/etc/os-release"
  }

  function PathOf(source: string): string {
    TrimRightSlashes(PolicyScanner.TrimSpace(source))
  }

  /** The third part of a bind asks for read-only access. */
  predicate AsksReadOnly(parts: seq<string>) {
    |parts| >= 3 &&
    exists option :: option in Split(parts[2], ',') &&
      (ToLower(PolicyScanner.TrimSpace(option)) == "ro" || ToLower(PolicyScanner.TrimSpace(option)) == "readonly")
  }

  lemma AsksAlike(text: string)
    ensures HasReadOnlyBindOption(text) <==> AsksReadOnly(Split(text, ':'))
  {
    var parts := Split(text, ':');
    if |parts| >= 3 {
      var options := Split(parts[2], ',');
      if option :| option in options && ToLower(PolicyScanner.TrimSpace(option)) in {"ro", "readonly"} {
        var i :| 0 <= i < |options| && options[i] == option;
      }
    }
  }

  /** A bind is refused exactly if its source is an absolute path, unless that is one from which usage is read
      and read-only access is asked for. */
  lemma BindEscapes(key: string, text: string)
    requires Name(key) == "binds"
    ensures var parts := Split(text, ':');
            Escapes(Object(map[key := List([Str(text)])])) <==>
              && "/" <= PolicyScanner.TrimSpace(parts[0])
              && !(IsUsagePath(PathOf(PathOf(parts[0]))) && AsksReadOnly(parts))
  {
    OneMember(key, List([Str(text)]));
    ScalarsInList([Str(text)]);
    AsksAlike(text);
    assert Str(text) in [Str(text)];
  }

  // ----- Mounts

  /** The source of a bind mount must not be an absolute path, unless it is one from which usage is read and the
      mount is read-only. */
  predicate IsUnsafeBind(source: string, readOnly: bool) {
    var parts := Split(source, ':');
    if IsUsagePath(PathOf(source)) then !readOnly
    else
      && "/" <= PolicyScanner.TrimSpace(parts[0])
      && !(IsUsagePath(PathOf(PathOf(parts[0]))) && AsksReadOnly(parts))
  }

  lemma BindVerdict(kind: string, source: string, readOnly: bool)
    ensures UnsafeMount(kind, source, readOnly) <==> kind == "bind" && IsUnsafeBind(source, readOnly)
  {
    AsksAlike(source);
  }

  lemma MountEscapes(key: string, mount: map<string, Json>)
    requires Name(key) == "mounts"
    ensures Escapes(Object(map[key := List([Object(mount)])])) <==>
              || Escapes(Object(mount))
              || (&& KindOf(Member(mount, "type")) == "bind"
                  && IsUnsafeBind(AsText(Member(mount, "source")), AsFlag(Member(mount, "readonly"))))
  {
    var mounts := [Object(mount)];
    OneMember(key, List(mounts));
    EscapesInList(mounts);
    assert mounts[0] in mounts;
    BindVerdict(KindOf(Member(mount, "type")), AsText(Member(mount, "source")), AsFlag(Member(mount, "readonly")));
  }

  // ----- Binds as people write them

  lemma {:induction false} SlashesBehind(path: string, slashes: string)
    requires path != "" ==> path[|path| - 1] != '/'
    requires forall c :: c in slashes ==> c == '/'
    ensures TrimRightSlashes(path + slashes) == path
  {
    if slashes != "" {
      var n := |slashes| - 1;
      assert slashes[n] in slashes;
      assert forall i :: 0 <= i < n ==> slashes[..n][i] in slashes;
      SlashesBehind(path, slashes[..n]);
      assert (path + slashes)[..|path| + n] == path + slashes[..n];
    } else {
      assert path + slashes == path;
    }
  }

  lemma BareText(s: string)
    requires Bare(s)
    ensures PolicyScanner.TrimSpace(s) == s
  {
    SpaceAround("", s, "");
    assert "" + s + "" == s;
  }

  /** An absolute path with no space at its ends and no slash at its end. */
  predicate IsPath(path: string) {
    "/" < path && ':' !in path && Bare(path) && path[|path| - 1] != '/'
  }

  lemma PathWithSlashes(path: string, slashes: string)
    requires IsPath(path) && forall c :: c in slashes ==> c == '/'
    ensures ':' !in path + slashes && "/" <= PolicyScanner.TrimSpace(path + slashes)
    ensures PathOf(path + slashes) == path && PathOf(path) == path
  {
    if slashes == "" {
      assert path + slashes == path;
    } else {
      assert slashes[|slashes| - 1] in slashes;
    }
    BareText(path + slashes);
    BareText(path);
    SlashesBehind(path, slashes);
    SlashesBehind(path, "");
    assert path + "" == path;
  }

  lemma ThreeParts(source: string, target: string, options: string)
    requires ':' !in source && ':' !in target && ':' !in options
    ensures Split(source + ":" + target, ':') == [source, target]
    ensures Split(source + ":" + target + ":" + options, ':') == [source, target, options]
  {
    SplitWithout(source, ':');
    SplitWithout(target, ':');
    SplitWithout(options, ':');
    SplitAt(source, target, ':');
    SplitAt(source + ":" + target, options, ':');
    assert [source, target] + [options] == [source, target, options];
  }

  /** A path of the host, however many slashes end it, is refused, with the one exception of reading usage. */
  lemma WrittenBind(key: string, path: string, slashes: string, target: string, options: string)
    requires Name(key) == "binds" && IsPath(path) && ':' !in target && ':' !in options
    requires forall c :: c in slashes ==> c == '/'
    ensures Escapes(Object(map[key := List([Str(path + slashes + ":" + target)])]))
    ensures Escapes(Object(map[key := List([Str(path + slashes + ":" + target + ":" + options)])])) <==>
              !(IsUsagePath(path) && AsksReadOnly(["", "", options]))
  {
    PathWithSlashes(path, slashes);
    ThreeParts(path + slashes, target, options);
    BindEscapes(key, path + slashes + ":" + target);
    BindEscapes(key, path + slashes + ":" + target + ":" + options);
  }

  // ----- The keys as the Docker API writes them

  lemma SwitchesNames()
    ensures Name("Privileged") == "privileged"
    ensures Name("PublishAllPorts") == "publishallports"
  {
    KeyName("Privileged", "privileged");
    KeyName("PublishAllPorts", "publishallports");
  }

  lemma NamespacesNames()
    ensures Name("PidMode") == "pidmode"
    ensures Name("IpcMode") == "ipcmode"
    ensures Name("NetworkMode") == "networkmode"
  {
    KeyName("PidMode", "pidmode");
    KeyName("IpcMode", "ipcmode");
    KeyName("NetworkMode", "networkmode");
  }

  lemma FurtherNamespacesNames()
    ensures Name("UsernsMode") == "usernsmode"
    ensures Name("CgroupnsMode") == "cgroupnsmode"
    ensures Name("UTSMode") == "utsmode"
  {
    KeyName("UsernsMode", "usernsmode");
    KeyName("CgroupnsMode", "cgroupnsmode");
    KeyName("UTSMode", "utsmode");
  }

  lemma IsolationNames()
    ensures Name("Isolation") == "isolation"
    ensures Name("Runtime") == "runtime"
  {
    KeyName("Isolation", "isolation");
    KeyName("Runtime", "runtime");
  }

  lemma CapabilitiesNames()
    ensures Name("CapAdd") == "capadd"
    ensures Name("CapabilityAdd") == "capabilityadd"
  {
    KeyName("CapAdd", "capadd");
    KeyName("CapabilityAdd", "capabilityadd");
  }

  lemma DevicesNames()
    ensures Name("Devices") == "devices"
    ensures Name("DeviceRequests") == "devicerequests"
    ensures Name("DeviceCgroupRules") == "devicecgrouprules"
  {
    KeyName("Devices", "devices");
    KeyName("DeviceRequests", "devicerequests");
    KeyName("DeviceCgroupRules", "devicecgrouprules");
  }

  lemma DriversNames()
    ensures Name("Sysctls") == "sysctls"
    ensures Name("DriverOpts") == "driveropts"
    ensures Name("VolumeDriver") == "volumedriver"
  {
    KeyName("Sysctls", "sysctls");
    KeyName("DriverOpts", "driveropts");
    KeyName("VolumeDriver", "volumedriver");
  }

  lemma FilesNames()
    ensures Name("SecurityOpt") == "securityopt"
    ensures Name("Binds") == "binds"
    ensures Name("Mounts") == "mounts"
  {
    KeyName("SecurityOpt", "securityopt");
    KeyName("Binds", "binds");
    KeyName("Mounts", "mounts");
  }

  lemma MountMembersNames()
    ensures Name("Type") == "type"
    ensures Name("Source") == "source"
    ensures Name("ReadOnly") == "readonly"
  {
    KeyName("Type", "type");
    KeyName("Source", "source");
    KeyName("ReadOnly", "readonly");
  }

  lemma DockerSwitches(on: bool)
    ensures Escapes(Object(map["Privileged" := Bool(on)])) <==> on
    ensures Escapes(Object(map["PublishAllPorts" := Bool(on)])) <==> on
  {
    SwitchesNames();
    SwitchEscapes("Privileged", Bool(on));
    SwitchEscapes("PublishAllPorts", Bool(on));
    ScalarsDoNotEscape(Bool(on));
  }

  lemma DockerModes(text: string)
    ensures var shared := IsShared(ToLower(PolicyScanner.TrimSpace(text)));
            && (Escapes(Object(map["PidMode" := Str(text)])) <==> shared)
            && (Escapes(Object(map["IpcMode" := Str(text)])) <==> shared)
            && (Escapes(Object(map["NetworkMode" := Str(text)])) <==> shared)
            && (Escapes(Object(map["UsernsMode" := Str(text)])) <==> shared)
            && (Escapes(Object(map["CgroupnsMode" := Str(text)])) <==> shared)
            && (Escapes(Object(map["UTSMode" := Str(text)])) <==> shared)
            && (Escapes(Object(map["Isolation" := Str(text)])) <==> shared)
  {
    NamespacesNames();
    FurtherNamespacesNames();
    IsolationNames();
    ModeEscapes("PidMode", text);
    ModeEscapes("IpcMode", text);
    ModeEscapes("NetworkMode", text);
    ModeEscapes("UsernsMode", text);
    ModeEscapes("CgroupnsMode", text);
    ModeEscapes("UTSMode", text);
    ModeEscapes("Isolation", text);
  }

  lemma DockerInjections(items: seq<Json>)
    ensures Escapes(Object(map["CapAdd" := List(items)])) <==> items != []
    ensures Escapes(Object(map["CapabilityAdd" := List(items)])) <==> items != []
    ensures Escapes(Object(map["Devices" := List(items)])) <==> items != []
    ensures Escapes(Object(map["DeviceRequests" := List(items)])) <==> items != []
    ensures Escapes(Object(map["DeviceCgroupRules" := List(items)])) <==> items != []
  {
    CapabilitiesNames();
    DevicesNames();
    InjectionEscapes("CapAdd", items);
    InjectionEscapes("CapabilityAdd", items);
    InjectionEscapes("Devices", items);
    InjectionEscapes("DeviceRequests", items);
    InjectionEscapes("DeviceCgroupRules", items);
  }

  lemma DockerOptions(items: seq<Json>, fields: map<string, Json>, text: string)
    ensures Escapes(Object(map["Sysctls" := List(items)])) <==> items != []
    ensures Escapes(Object(map["Sysctls" := Object(fields)])) <==> fields != map[]
    ensures Escapes(Object(map["DriverOpts" := Object(fields)])) <==> fields != map[]
    ensures var driver := PolicyScanner.TrimSpace(text);
            Escapes(Object(map["VolumeDriver" := Str(text)])) <==> driver != "" && ToLower(driver) != "local"
    ensures Escapes(Object(map["Runtime" := Str(text)])) <==> PolicyScanner.TrimSpace(text) != ""
  {
    DriversNames();
    IsolationNames();
    SysctlsEscape("Sysctls", items, fields);
    DriverOptionsEscape("DriverOpts", fields);
    VolumeDriverEscapes("VolumeDriver", text);
    RuntimeEscapes("Runtime", text);
  }

  lemma DockerSecurityOption(text: string)
    ensures var option := ToLower(PolicyScanner.TrimSpace(text));
            Escapes(Object(map["SecurityOpt" := List([Str(text)])])) <==>
              || option == "apparmor=unconfined" || option == "seccomp=unconfined" || option == "label=disable"
              || option == "systempaths=unconfined" || option == "no-new-privileges=false"
  {
    FilesNames();
    SecurityOptionEscapes("SecurityOpt", [Str(text)]);
    assert Str(text) in [Str(text)];
  }

  lemma DockerBind(text: string)
    ensures var parts := Split(text, ':');
            Escapes(Object(map["Binds" := List([Str(text)])])) <==>
              && "/" <= PolicyScanner.TrimSpace(parts[0])
              && !(IsUsagePath(PathOf(PathOf(parts[0]))) && AsksReadOnly(parts))
  {
    FilesNames();
    BindEscapes("Binds", text);
  }

  lemma MountMember(mount: map<string, Json>, key: string, name: string)
    requires key in mount && Name(key) == name
    requires forall k :: k in mount && k != key ==> Name(k) != name
    ensures Member(mount, name) == Some(mount[key])
  {}

  lemma MountOfThree(key: string, mount: map<string, Json>, kindKey: string, sourceKey: string, flagKey: string)
    requires Name(key) == "mounts"
    requires Name(kindKey) == "type" && Name(sourceKey) == "source" && Name(flagKey) == "readonly"
    requires mount.Keys == {kindKey, sourceKey, flagKey}
    requires mount[kindKey].Str? && mount[sourceKey].Str? && mount[flagKey].Bool?
    ensures Escapes(Object(map[key := List([Object(mount)])])) <==>
              && ToLower(PolicyScanner.TrimSpace(mount[kindKey].text)) == "bind"
              && IsUnsafeBind(mount[sourceKey].text, mount[flagKey].flag)
  {
    assert forall k :: k in mount ==> k == kindKey || k == sourceKey || k == flagKey;
    MountMember(mount, kindKey, "type");
    MountMember(mount, sourceKey, "source");
    MountMember(mount, flagKey, "readonly");
    MountEscapes(key, mount);
    NoSpecialMember(mount);
  }

  lemma MountOf(key: string, kindKey: string, sourceKey: string, flagKey: string,
                kind: string, source: string, readOnly: bool)
    requires Name(key) == "mounts"
    requires Name(kindKey) == "type" && Name(sourceKey) == "source" && Name(flagKey) == "readonly"
    ensures var mount := map[kindKey := Str(kind), sourceKey := Str(source), flagKey := Bool(readOnly)];
            Escapes(Object(map[key := List([Object(mount)])])) <==>
              ToLower(PolicyScanner.TrimSpace(kind)) == "bind" && IsUnsafeBind(source, readOnly)
  {
    assert kindKey != sourceKey && sourceKey != flagKey && kindKey != flagKey;
    MountOfThree(key, map[kindKey := Str(kind), sourceKey := Str(source), flagKey := Bool(readOnly)],
                 kindKey, sourceKey, flagKey);
  }

  /** A mount with its kind, its source and its read-only flag. */
  lemma DockerMount(kind: string, source: string, readOnly: bool)
    ensures var mount := map["Type" := Str(kind), "Source" := Str(source), "ReadOnly" := Bool(readOnly)];
            Escapes(Object(map["Mounts" := List([Object(mount)])])) <==>
              ToLower(PolicyScanner.TrimSpace(kind)) == "bind" && IsUnsafeBind(source, readOnly)
  {
    FilesNames();
    MountMembersNames();
    MountOf("Mounts", "Type", "Source", "ReadOnly", kind, source, readOnly);
  }

  lemma NoSpecialMember(mount: map<string, Json>)
    requires forall k :: k in mount ==>
               Name(k) in {"type", "source", "readonly"} && !mount[k].List? && !mount[k].Object?
    ensures !Escapes(Object(mount))
  {
    EachMemberAlone(mount);
    forall k | k in mount
      ensures !Escapes(Object(map[k := mount[k]]))
    {
      OtherKeysPass(k, mount[k]);
      ScalarsDoNotEscape(mount[k]);
    }
  }
}
