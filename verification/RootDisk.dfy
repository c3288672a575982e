/** The choice of the root disk in the default Incus profile. */
module RootDiskSelection {
  import opened Strings
  import opened Incus
  import opened Lifecycle

  predicate IsRootDisk(device: Device) {
    Field(device, "type") == "disk" && Field(device, "path") == "/" && Field(device, "source") == ""
  }

  /** The names of the devices that could be the root disk. */
  function Candidates(devices: Devices): set<Text> {
    set name | name in devices && IsRootDisk(devices[name])
  }

  const DISK_UNAVAILABLE :=
      Error(BAD_GATEWAY, "INCUS_PROFILE_ROOT_DISK_UNAVAILABLE", "incus default profile root disk unavailable")
  const DISK_AMBIGUOUS :=
      Error(BAD_GATEWAY, "INCUS_PROFILE_ROOT_DISK_AMBIGUOUS", "incus default profile root disk is ambiguous")
  const PROFILE_MALFORMED :=
      Error(BAD_GATEWAY, "INCUS_PROFILE_UNAVAILABLE", "incus default profile response is malformed")

  /** The answer as a function of the set of candidates, so of no iteration order. */
  ghost function SelectRootDisk(devices: Devices): Outcome<RootDisk> {
    var candidates := Candidates(devices);
    if |candidates| == 0 then Failure(DISK_UNAVAILABLE)
    else if |candidates| > 1 then Failure(DISK_AMBIGUOUS)
    else
      var name :| name in candidates;
      if Field(devices[name], "pool") == "" then Failure(DISK_UNAVAILABLE)
      else Success(RootDisk(name, devices[name]))
  }

  /** A candidate is a disk mounted at "/" that has no source of its own. */
  predicate LooksLikeRoot(device: Device) {
    && "type" in device && device["type"] == "disk"
    && "path" in device && device["path"] == "/"
    && ("source" !in device || device["source"] == "")
  }

  lemma CandidateMeaning(device: Device)
    ensures IsRootDisk(device) <==> LooksLikeRoot(device)
  {
    FieldMeaning(device, "type", "disk");
    FieldMeaning(device, "path", "/");
    FieldMeaning(device, "source", "");
  }

  /** The only device of the profile that looks like a root disk, with a pool to put it in. */
  ghost predicate IsOnlyRootDisk(devices: Devices, name: Text) {
    && name in devices && LooksLikeRoot(devices[name])
    && "pool" in devices[name] && devices[name]["pool"] != ""
    && forall other | other in devices && LooksLikeRoot(devices[other]) :: other == name
  }

  lemma SingletonSet(s: set<Text>, x: Text)
    requires |s| == 1 && x in s
    ensures s == {x}
  {
    assert |s - {x}| == 0;
  }

  /** A disk is chosen exactly when it is the only candidate and has a pool. */
  lemma SelectMeaning(devices: Devices, disk: RootDisk)
    ensures SelectRootDisk(devices) == Success(disk) <==>
            && Candidates(devices) == {disk.name}
            && disk.device == devices[disk.name]
            && Field(disk.device, "pool") != ""
  {
    var candidates := Candidates(devices);
    if |candidates| == 1 {
      var name :| name in candidates;
      SingletonSet(candidates, name);
    }
  }

  /** The same, said of the devices themselves. */
  lemma ChosenMeaning(devices: Devices, disk: RootDisk)
    ensures SelectRootDisk(devices) == Success(disk) <==>
              IsOnlyRootDisk(devices, disk.name) && disk.device == devices[disk.name]
  {
    SelectMeaning(devices, disk);
    CandidatesMeaning(devices);
    if disk.name in devices { FieldMeaning(devices[disk.name], "pool", []); }
    if IsOnlyRootDisk(devices, disk.name) {
      assert Candidates(devices) == {disk.name};
    }
    if Candidates(devices) == {disk.name} {
      assert disk.name in Candidates(devices);
    }
  }

  lemma CandidatesMeaning(devices: Devices)
    ensures forall name :: name in Candidates(devices) <==> name in devices && LooksLikeRoot(devices[name])
  {
    forall name | name in devices ensures IsRootDisk(devices[name]) <==> LooksLikeRoot(devices[name]) {
      CandidateMeaning(devices[name]);
    }
  }

  /** More than one candidate is ambiguous; none, or one without a pool, is no disk. */
  lemma NotChosenMeaning(devices: Devices)
    requires SelectRootDisk(devices).Failure?
    ensures SelectRootDisk(devices).error ==
            if exists a, b :: a in Candidates(devices) && b in Candidates(devices) && a != b then
              Error(502, "INCUS_PROFILE_ROOT_DISK_AMBIGUOUS", "incus default profile root disk is ambiguous")
            else
              Error(502, "INCUS_PROFILE_ROOT_DISK_UNAVAILABLE", "incus default profile root disk unavailable")
  {
    TwoMembers(Candidates(devices));
  }

  lemma TwoMembers(s: set<Text>)
    ensures |s| > 1 <==> exists a, b :: a in s && b in s && a != b
  {
    if |s| > 1 {
      var a :| a in s;
      assert |s - {a}| == |s| - 1;
      var b :| b in s - {a};
    }
    forall a, b | a in s && b in s && a != b ensures |s| > 1 {
      assert |s - {a}| == |s| - 1 && b in s - {a};
    }
  }

  method CopyDevice(device: Device) returns (copied: Device)
    ensures copied == device
  {
    copied := map[];
    var rest := device.Keys;
    while rest != {}
      invariant rest <= device.Keys
      invariant copied == map k | k in device && k !in rest :: device[k]
      decreases rest
    {
      var k :| k in rest;
      copied, rest := copied[k := device[k]], rest - {k};
    }
  }

  /** deviceWithSize: the profile's own map is left alone, and only "size" differs. */
  method CopyDeviceWithSize(disk: RootDisk, size: Text) returns (device: Device)
    ensures device == DeviceWithSize(disk.device, size)
    ensures forall key | key != "size" :: key in device <==> key in disk.device
    ensures forall key | key != "size" && key in device :: device[key] == disk.device[key]
    ensures Field(device, "size") == size
  {
    device := CopyDevice(disk.device);
    device := device["size" := size];
  }

  /** The matches are the devices called `names`, each once, in whatever order they were met. */
  ghost predicate Collected(matches: seq<RootDisk>, devices: Devices, names: set<Text>) {
    && names <= devices.Keys
    && |matches| == |names|
    && (forall i | 0 <= i < |matches| :: matches[i].name in names)
    && (forall i | 0 <= i < |matches| :: matches[i].name in devices && matches[i].device == devices[matches[i].name])
  }

  lemma CollectedOne(matches: seq<RootDisk>, devices: Devices)
    requires Collected(matches, devices, Candidates(devices)) && |matches| == 1
    ensures SelectRootDisk(devices) ==
            if Field(matches[0].device, "pool") == "" then Failure(DISK_UNAVAILABLE) else Success(matches[0])
  {
    SingletonSet(Candidates(devices), matches[0].name);
  }

  lemma CollectedStep(matches: seq<RootDisk>, devices: Devices, names: set<Text>, name: Text)
    requires Collected(matches, devices, names) && name in devices && name !in names
    ensures Collected(matches + [RootDisk(name, devices[name])], devices, names + {name})
  {
    var more := matches + [RootDisk(name, devices[name])];
    forall i | 0 <= i < |more|
      ensures more[i].name in names + {name} && more[i].name in devices && more[i].device == devices[more[i].name]
    {
      if i < |matches| { assert more[i] == matches[i]; }
    }
  }

  /** One turn of the loop: a device that could be the root disk is copied into the matches. */
  method TakeDevice(devices: Devices, matches: seq<RootDisk>, ghost found: set<Text>, name: Text)
    returns (matches': seq<RootDisk>)
    requires Collected(matches, devices, found) && name in devices && name !in found
    ensures Collected(matches', devices, if IsRootDisk(devices[name]) then found + {name} else found)
  {
    var device := devices[name];
    if !IsRootDisk(device) {
      return matches;
    }
    var copied := CopyDevice(device);
    CollectedStep(matches, devices, found, name);
    return matches + [RootDisk(name, copied)];
  }

  lemma MetSoFar<T>(wanted: set<T>, rest: set<T>, next: T)
    requires next in rest
    ensures wanted - (rest - {next}) == if next in wanted then wanted - rest + {next} else wanted - rest
  {
  }

  /** The loop over the devices, in any order; `candidates` are those that could be the root disk. */
  method CollectMatches(devices: Devices, ghost candidates: set<Text>) returns (matches: seq<RootDisk>)
    requires candidates <= devices.Keys
    requires forall name | name in devices :: name in candidates <==> IsRootDisk(devices[name])
    ensures Collected(matches, devices, candidates)
  {
    matches := [];
    var rest := devices.Keys;
    while rest != {}
      invariant rest <= devices.Keys
      invariant Collected(matches, devices, candidates - rest)
      decreases rest
    {
      var name :| name in rest;
      MetSoFar(candidates, rest, name);
      matches := TakeDevice(devices, matches, candidates - rest, name);
      rest := rest - {name};
    }
    assert candidates - rest == candidates;
  }

  /** Walks the profile's devices in an arbitrary order; every order gives the same answer. */
  method SelectProfileRootDisk(devices: Devices) returns (result: Outcome<RootDisk>)
    ensures result == SelectRootDisk(devices)
  {
    var matches := CollectMatches(devices, Candidates(devices));
    if |matches| == 0 {
      return Failure(DISK_UNAVAILABLE);
    }
    if |matches| > 1 {
      return Failure(DISK_AMBIGUOUS);
    }
    CollectedOne(matches, devices);
    var root := matches[0];
    if Field(root.device, "pool") == "" {
      return Failure(DISK_UNAVAILABLE);
    }
    return Success(root);
  }

  /** rootDiskFromDefaultProfileResponse */
  ghost function RootDiskFromProfile(resp: Response): Outcome<RootDisk> {
    if resp.body.bytes == [] || !resp.body.profileOk || resp.body.devices.None? then Failure(PROFILE_MALFORMED)
    else SelectRootDisk(resp.body.devices.value)
  }

  /** The profile stage of create: the disk, or why the request stops there. */
  ghost function ProfileStage(answer: Answer): Outcome<RootDisk> {
    if answer.None? then Failure(Error(UNAVAILABLE, "INCUS_PROFILE_UNAVAILABLE", "incus default profile unavailable"))
    else if !Is2xx(answer.value.status) then
      Failure(Error(BAD_GATEWAY, "INCUS_PROFILE_UNAVAILABLE", "incus default profile unavailable"))
    else RootDiskFromProfile(answer.value)
  }
}
