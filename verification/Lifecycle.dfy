/** Requests of the VM lifecycle protocol: validation, decoding, paths, and the Incus requests
    they are turned into. */
module Lifecycle {
  import opened Strings
  import opened Decimal
  import opened PathEscaping
  import opened Incus

  datatype Action = Create | Start | Stop | Restart | Delete

  function ActionText(action: Action): Text {
    match action
    case Create => "create"
    case Start => "start"
    case Stop => "stop"
    case Restart => "restart"
    case Delete => "delete"
  }

  datatype Error = Error(status: int, code: string, message: string)

  datatype Outcome<+T> = Success(value: T) | Failure(error: Error)

  datatype CreateRequest = CreateRequest(
    name: Text, image: Text, cpuCount: int, memoryBytes: int, rootDiskBytes: int, secureBoot: bool)

  datatype RootDisk = RootDisk(name: Text, device: Device)

  // ---------------------------------------------------------------- validation

  const MAX_BODY_BYTES := 0x10_0000
  const MAX_INSTANCE_LEN := 63
  const MAX_IMAGE_LEN := 128
  const MAX_CPU_COUNT := 1024
  const MAX_MEMORY_BYTES := 0x1000_0000_0000
  const MAX_ROOT_DISK_BYTES := 0x1000_0000_0000

  predicate IsNameHead(c: Byte) {
    'a' <= c <= 'z' || '0' <= c <= '9'
  }

  /** ^[a-z0-9][a-z0-9-]{0,62}$ */
  predicate MatchesNamePattern(name: Text) {
    1 <= |name| <= 63 && IsNameHead(name[0])
    && forall i | 0 <= i < |name| :: IsNameHead(name[i]) || name[i] == '-'
  }

  predicate IsImageByte(c: Byte) {
    IsAlphanumeric(c) || c in ['.', '_', ':', '/', '+', '-']
  }

  /** ^[a-zA-Z0-9][a-zA-Z0-9._:/+-]{0,127}$ */
  predicate MatchesImagePattern(image: Text) {
    1 <= |image| <= 128 && IsAlphanumeric(image[0]) && forall i | 0 <= i < |image| :: IsImageByte(image[i])
  }

  function Invalid(code: string, message: string): Option<Error> {
    Some(Error(BAD_REQUEST, code, message))
  }

  function ValidateInstanceName(name: Text): Option<Error> {
    if name == "" then Invalid("INVALID_INSTANCE_NAME", "instance name is required")
    else if |name| > MAX_INSTANCE_LEN then Invalid("INVALID_INSTANCE_NAME", "instance name too long")
    else if HasDotDot(name) then Invalid("INVALID_INSTANCE_NAME", "instance name must not contain path traversal")
    else if !MatchesNamePattern(name) then Invalid("INVALID_INSTANCE_NAME", "instance name is not allowed")
    else None
  }

  function ValidateImage(image: Text): Option<Error> {
    if image == "" then Invalid("INVALID_IMAGE", "image is required")
    else if |image| > MAX_IMAGE_LEN then Invalid("INVALID_IMAGE", "image too long")
    else if HasDotDot(image) then Invalid("INVALID_IMAGE", "image must not contain path traversal")
    else if !MatchesImagePattern(image) then Invalid("INVALID_IMAGE", "image is not allowed")
    else None
  }

  function ValidateCreate(req: CreateRequest): Option<Error> {
    if ValidateInstanceName(req.name).Some? then ValidateInstanceName(req.name)
    else if ValidateImage(req.image).Some? then ValidateImage(req.image)
    else if req.cpuCount < 1 || req.cpuCount > MAX_CPU_COUNT then Invalid("INVALID_LIMITS", "cpuCount out of range")
    else if req.memoryBytes < 1 || req.memoryBytes > MAX_MEMORY_BYTES then
      Invalid("INVALID_LIMITS", "memoryBytes out of range")
    else if req.rootDiskBytes < 1 || req.rootDiskBytes > MAX_ROOT_DISK_BYTES then
      Invalid("INVALID_LIMITS", "rootDiskBytes out of range")
    else None
  }

  /** The length and ".." checks reject nothing that the name pattern lets through; for images the
      ".." check does matter. */
  lemma ValidationMeaning(name: Text, image: Text)
    ensures ValidateInstanceName(name).None? <==> MatchesNamePattern(name)
    ensures ValidateImage(image).None? <==> MatchesImagePattern(image) && !HasDotDot(image)
  {
    if MatchesNamePattern(name) {
      assert forall i | 0 <= i < |name| :: name[i] != '.';
    }
  }

  /** The two patterns, byte by byte. */
  lemma PatternMeaning(name: Text, image: Text)
    ensures MatchesNamePattern(name) <==>
              && 1 <= |name| <= 63 && name[0] != '-'
              && forall i | 0 <= i < |name| :: 'a' <= name[i] <= 'z' || '0' <= name[i] <= '9' || name[i] == '-'
    ensures MatchesImagePattern(image) <==>
              && 1 <= |image| <= 128
              && (forall i | 0 <= i < |image| ::
                    || 'a' <= image[i] <= 'z' || 'A' <= image[i] <= 'Z' || '0' <= image[i] <= '9'
                    || image[i] == '.' || image[i] == '_' || image[i] == ':' || image[i] == '/'
                    || image[i] == '+' || image[i] == '-')
              && image[0] != '.' && image[0] != '_' && image[0] != ':' && image[0] != '/'
              && image[0] != '+' && image[0] != '-'
  {
  }

  /** What a create may ask for. */
  lemma CreateMeaning(q: CreateRequest)
    ensures ValidateCreate(q).None? <==>
              && MatchesNamePattern(q.name) && MatchesImagePattern(q.image) && !HasDotDot(q.image)
              && 1 <= q.cpuCount <= 1024
              && 1 <= q.memoryBytes <= 17592186044416 && 1 <= q.rootDiskBytes <= 17592186044416
  {
    ValidationMeaning(q.name, q.image);
  }

  /** A valid name needs no percent-encoding. */
  lemma ValidNameEscapesToItself(name: Text)
    requires ValidateInstanceName(name).None?
    ensures PathEscape(name) == name
  {
    EscapeIdentity(name);
  }

  // ---------------------------------------------------------------- decoding

  /** What strict JSON decoding of a request body yields. */
  datatype Decoded<+T> = Decoded(value: T) | UnknownField | NotJson | TrailingData

  /** A request body: its size and its strictly decoded views as each request type. */
  datatype RequestBody = RequestBody(
    size: nat, create: Decoded<CreateRequest>, force: Decoded<bool>, confirm: Decoded<bool>)

  function DecodeStrict<T>(size: nat, view: Decoded<T>, absent: T): Outcome<T> {
    if size == 0 then Success(absent)
    else if size > MAX_BODY_BYTES then Failure(Error(BAD_REQUEST, "BODY_TOO_LARGE", "request body too large"))
    else match view
      case Decoded(v) => Success(v)
      case UnknownField => Failure(Error(BAD_REQUEST, "INVALID_BODY", "request body contains an unknown field"))
      case NotJson => Failure(Error(BAD_REQUEST, "INVALID_BODY", "request body is not valid JSON"))
      case TrailingData => Failure(Error(BAD_REQUEST, "INVALID_BODY", "request body must be a single object"))
  }

  function DecodeCreate(body: RequestBody): Outcome<CreateRequest> {
    if body.size == 0 then Failure(Error(BAD_REQUEST, "MISSING_BODY", "missing request body"))
    else
      var decoded := DecodeStrict(body.size, body.create, CreateRequest("", "", 0, 0, 0, false));
      if decoded.Success? && ValidateCreate(decoded.value).Some? then Failure(ValidateCreate(decoded.value).value)
      else decoded
  }

  function DecodeDelete(body: RequestBody): Outcome<()> {
    var unconfirmed := Error(BAD_REQUEST, "DELETE_NOT_CONFIRMED", "delete requires explicit confirmation");
    if body.size == 0 then Failure(unconfirmed)
    else match DecodeStrict(body.size, body.confirm, false)
      case Failure(e) => Failure(e)
      case Success(confirm) => if confirm then Success(()) else Failure(unconfirmed)
  }

  // ---------------------------------------------------------------- paths

  const PATH_CAPABILITIES: Text := "/agent/v1/lifecycle/capabilities"
  const PATH_CREATE: Text := "/agent/v1/lifecycle/instances/create"
  const PATH_INSTANCES: Text := "/agent/v1/lifecycle/instances/"

  /** A parsed path; the name is empty for create. */
  datatype Route = Route(action: Action, name: Text)

  function ActionFromString(s: Text): Option<Action> {
    if s == "start" then Some(Start)
    else if s == "stop" then Some(Stop)
    else if s == "restart" then Some(Restart)
    else if s == "delete" then Some(Delete)
    else None
  }

  /** The part of a path after "instances/": a name segment, one slash, an action. */
  function ParseInstanceRest(rest: Text): Option<Route> {
    if rest == "" || HasDotDot(rest) then None
    else
      var cut := IndexOf(rest, '/');
      if cut == |rest| then None
      else
        var segment, suffix := rest[..cut], rest[cut + 1..];
        if segment == "" || suffix == "" || '/' in suffix then None
        else
          var name := PathUnescape(segment);
          var action := ActionFromString(suffix);
          if name.None? || action.None? then None else Some(Route(action.value, name.value))
  }

  function ParseLifecyclePath(path: Text): Option<Route> {
    if path == PATH_CREATE then Some(Route(Create, ""))
    else if !(PATH_INSTANCES <= path) then None
    else ParseInstanceRest(path[|PATH_INSTANCES|..])
  }

  function InstancePath(segment: Text, action: Action): Text {
    PATH_INSTANCES + (segment + ['/'] + ActionText(action))
  }

  /** The action of an instance path: any but create. */
  predicate IsInstanceAction(action: Action) {
    action != Create
  }

  /** A segment that names an instance in a path: slash-free, without "..", decoding to `name`. */
  predicate SegmentNames(segment: Text, name: Text) {
    segment != "" && '/' !in segment && !HasDotDot(segment) && PathUnescape(segment) == Some(name)
  }

  lemma ActionTextPlain(action: Action)
    requires IsInstanceAction(action)
    ensures ActionFromString(ActionText(action)) == Some(action)
    ensures ActionText(action) != "" && '/' !in ActionText(action) && '.' !in ActionText(action)
  {
  }

  lemma ParseRestOf(segment: Text, action: Action)
    requires IsInstanceAction(action) && '/' !in segment
    ensures ParseInstanceRest(segment + ['/'] + ActionText(action)) ==
            if segment == "" || HasDotDot(segment) || PathUnescape(segment).None? then None
            else Some(Route(action, PathUnescape(segment).value))
  {
    var suffix := ActionText(action);
    var rest := segment + ['/'] + suffix;
    ActionTextPlain(action);
    IndexOfAfter(segment, suffix, '/');
    DotDotBeforeSlash(segment, suffix);
    assert rest[..|segment|] == segment && rest[|segment| + 1..] == suffix;
  }

  lemma ParsedRestShape(rest: Text) returns (segment: Text)
    requires ParseInstanceRest(rest).Some?
    ensures var route := ParseInstanceRest(rest).value;
            && IsInstanceAction(route.action)
            && rest == segment + ['/'] + ActionText(route.action)
            && SegmentNames(segment, route.name)
  {
    var cut := IndexOf(rest, '/');
    segment := rest[..cut];
    var suffix := rest[cut + 1..];
    var route := ParseInstanceRest(rest).value;
    assert rest == segment + ['/'] + suffix;
    assert ActionText(route.action) == suffix;
    DotDotBeforeSlash(segment, suffix);
  }

  lemma InstancePathIsNotCreate(segment: Text, action: Action)
    requires IsInstanceAction(action)
    ensures PATH_INSTANCES <= InstancePath(segment, action)
    ensures InstancePath(segment, action)[|PATH_INSTANCES|..] == segment + ['/'] + ActionText(action)
    ensures InstancePath(segment, action) != PATH_CREATE
  {
    var rest := segment + ['/'] + ActionText(action);
    assert rest[|segment|] == '/';
    assert '/' in rest && '/' !in PATH_CREATE[|PATH_INSTANCES|..];
  }

  /** The exact language of instance paths: a segment naming the instance, then one of the four
      actions. */
  lemma ParseMeaning(path: Text, route: Route)
    requires IsInstanceAction(route.action)
    ensures ParseLifecyclePath(path) == Some(route) <==>
            exists segment: Text :: path == InstancePath(segment, route.action) && SegmentNames(segment, route.name)
  {
    if ParseLifecyclePath(path) == Some(route) {
      var segment := ParsedRestShape(path[|PATH_INSTANCES|..]);
      assert path == PATH_INSTANCES + path[|PATH_INSTANCES|..];
      assert path == InstancePath(segment, route.action) && SegmentNames(segment, route.name);
    }
    forall segment: Text | path == InstancePath(segment, route.action) && SegmentNames(segment, route.name)
      ensures ParseLifecyclePath(path) == Some(route)
    {
      InstancePathIsNotCreate(segment, route.action);
      ParseRestOf(segment, route.action);
    }
  }

  /** Create is reached by its own path only, which names no instance. */
  lemma ParseCreate(path: Text)
    ensures ParseLifecyclePath(path).Some? && ParseLifecyclePath(path).value.action == Create <==>
              path == "/agent/v1/lifecycle/instances/create"
    ensures ParseLifecyclePath("/agent/v1/lifecycle/instances/create") == Some(Route(Create, []))
  {
  }

  /** The actions as they are written in paths, in Incus's requests and in replies. */
  lemma ActionWords()
    ensures ActionText(Create) == "create" && ActionText(Delete) == "delete"
    ensures ActionText(Start) == "start" && ActionText(Stop) == "stop" && ActionText(Restart) == "restart"
  {
  }

  /** For every byte string, the path made of its escape parses back to it exactly when it is
      nonempty and holds no "..". */
  lemma PathRoundTrip(name: Text, action: Action)
    requires IsInstanceAction(action)
    ensures ParseLifecyclePath(InstancePath(PathEscape(name), action)) == Some(Route(action, name))
            <==> name != "" && !HasDotDot(name)
  {
    UnescapeEscape(name);
    EscapeHasNoSlash(name);
    EscapeDotDot(name);
    EscapeNonempty(name);
    InstancePathIsNotCreate(PathEscape(name), action);
    ParseRestOf(PathEscape(name), action);
  }

  // ---------------------------------------------------------------- building Incus requests

  /** The payload handed to the builder, Go's `interface{}`. */
  datatype ActionPayload =
    | CreatePayload(request: CreateRequest, rootDisk: RootDisk)
    | StatePayload(force: bool)
    | OtherPayload

  function FormatSecureBoot(enabled: bool): Text {
    if enabled then "true" else "false"
  }

  function DeviceWithSize(device: Device, size: Text): Device {
    device["size" := size]
  }

  const LIMITS_CPU: Text := "limits.cpu"
  const LIMITS_MEMORY: Text := "limits.memory"
  const SECURE_BOOT: Text := "security.secureboot"
  const VIRTUAL_MACHINE: Text := "virtual-machine"

  function CreateConfig(req: CreateRequest): map<Text, Text> {
    map[LIMITS_CPU := FormatInt(req.cpuCount),
        LIMITS_MEMORY := FormatInt(req.memoryBytes),
        SECURE_BOOT := FormatSecureBoot(req.secureBoot)]
  }

  function BuildCreate(payload: ActionPayload): Outcome<Request> {
    if !payload.CreatePayload? then Failure(Error(INTERNAL_ERROR, "INTERNAL", "invalid create payload"))
    else
      var req := payload.request;
      if ValidateCreate(req).Some? then Failure(ValidateCreate(req).value)
      else
          var device := DeviceWithSize(payload.rootDisk.device, FormatInt(req.rootDiskBytes));
        Success(Request("", "POST", "/1.0/instances",
          InstanceCreate(req.name, VIRTUAL_MACHINE, "image", req.image, CreateConfig(req),
                         map[payload.rootDisk.name := device])))
  }

  function BuildState(encodedName: Text, action: Action, payload: ActionPayload): Request {
    var force := payload.StatePayload? && payload.force;
    Request("", "PUT", "/1.0/instances/" + encodedName + "/state", StateChange(ActionText(action), force))
  }

  function BuildDelete(encodedName: Text): Request {
    Request("", "DELETE", "/1.0/instances/" + encodedName, NoPayload)
  }

  function BuildIncusRequest(action: Action, name: Text, payload: ActionPayload): Outcome<Request> {
    if ValidateInstanceName(name).Some? then Failure(ValidateInstanceName(name).value)
    else
      var encoded := PathEscape(name);
      match action
      case Create => BuildCreate(payload)
      case Delete => Success(BuildDelete(encoded))
      case _ => Success(BuildState(encoded, action, payload))
  }

  /** Once a request has been validated, building cannot fail, whatever the root disk. */
  lemma BuildNeverFails(action: Action, name: Text, payload: ActionPayload)
    requires ValidateInstanceName(name).None?
    requires action == Create ==> payload.CreatePayload? && ValidateCreate(payload.request).None?
    ensures BuildIncusRequest(action, name, payload).Success?
  {
  }

  /** A validated command with the payload its handler builds. */
  predicate IsCommand(action: Action, name: Text, payload: ActionPayload) {
    && ValidateInstanceName(name).None?
    && (match action
        case Create => payload.CreatePayload? && payload.request.name == name && ValidateCreate(payload.request).None?
        case Delete => payload == OtherPayload
        case _ => payload.StatePayload?)
  }

  lemma BodyOfCommand(action: Action, name: Text, payload: ActionPayload)
    requires IsCommand(action, name, payload)
    ensures BuildIncusRequest(action, name, payload).Success?
    ensures var body := BuildIncusRequest(action, name, payload).value.body;
            match action
            case Create => body.InstanceCreate?
            case Delete => body == NoPayload
            case _ => body == StateChange(ActionText(action), payload.force)
  {
    BuildNeverFails(action, name, payload);
  }

  lemma PathOfCommand(action: Action, name: Text, payload: ActionPayload)
    requires IsCommand(action, name, payload) && action != Create
    ensures BuildIncusRequest(action, name, payload).Success?
    ensures BuildIncusRequest(action, name, payload).value.path ==
            if action == Delete then "/1.0/instances/" + name else "/1.0/instances/" + name + "/state"
  {
    ValidNameEscapesToItself(name);
  }

  lemma SameMiddle(prefix: Text, n1: Text, n2: Text, suffix: Text)
    requires prefix + n1 + suffix == prefix + n2 + suffix
    ensures n1 == n2
  {
    assert |n1| == |n2|;
    assert (prefix + n1 + suffix)[|prefix|..|prefix| + |n1|] == n1;
    assert (prefix + n2 + suffix)[|prefix|..|prefix| + |n2|] == n2;
  }

  lemma ActionTextInjective(a1: Action, a2: Action)
    requires ActionText(a1) == ActionText(a2)
    ensures a1 == a2
  {
  }

  lemma SameNameInPath(action: Action, n1: Text, p1: ActionPayload, n2: Text, p2: ActionPayload)
    requires action != Create && IsCommand(action, n1, p1) && IsCommand(action, n2, p2)
    requires BuildIncusRequest(action, n1, p1) == BuildIncusRequest(action, n2, p2)
    ensures n1 == n2
  {
    PathOfCommand(action, n1, p1);
    PathOfCommand(action, n2, p2);
    if action == Delete {
      assert "/1.0/instances/" + n1 + [] == "/1.0/instances/" + n2 + [];
      SameMiddle("/1.0/instances/", n1, n2, []);
    } else {
      SameMiddle("/1.0/instances/", n1, n2, "/state");
    }
  }

  /** Different commands become different Incus requests: the request tells the action, the name,
      the force flag of a state change and all of a create but the size its root disk had before. */
  lemma CommandsStayDistinct(a1: Action, n1: Text, p1: ActionPayload, a2: Action, n2: Text, p2: ActionPayload)
    requires IsCommand(a1, n1, p1) && IsCommand(a2, n2, p2)
    requires BuildIncusRequest(a1, n1, p1) == BuildIncusRequest(a2, n2, p2)
    ensures a1 == a2 && n1 == n2
    ensures a1 != Create ==> p1 == p2
    ensures a1 == Create ==> p1.request == p2.request && SameButSize(p1.rootDisk, p2.rootDisk)
  {
    BodyOfCommand(a1, n1, p1);
    BodyOfCommand(a2, n2, p2);
    if a1.Create? {
      CreateBodyDeterminesRequest(p1.request, p1.rootDisk, p2.request, p2.rootDisk);
    } else {
      if !a1.Delete? { ActionTextInjective(a1, a2); }
      SameNameInPath(a1, n1, p1, n2, p2);
    }
  }

  predicate SameButSize(d1: RootDisk, d2: RootDisk) {
    d1.name == d2.name && d1.device - {"size"} == d2.device - {"size"}
  }

  lemma LimitsInBody(q: CreateRequest, disk: RootDisk)
    requires ValidateCreate(q).None?
    ensures BuildCreate(CreatePayload(q, disk)).Success?
    ensures var body := BuildCreate(CreatePayload(q, disk)).value.body;
            && body.InstanceCreate? && body.name == q.name && body.alias == q.image
            && body.config == CreateConfig(q)
            && body.devices == map[disk.name := DeviceWithSize(disk.device, FormatInt(q.rootDiskBytes))]
  {
  }

  /** The three keys are different, so each keeps its own value. */
  lemma ConfigValues(q: CreateRequest)
    ensures CreateConfig(q)[LIMITS_CPU] == FormatInt(q.cpuCount)
    ensures CreateConfig(q)[LIMITS_MEMORY] == FormatInt(q.memoryBytes)
    ensures CreateConfig(q)[SECURE_BOOT] == FormatSecureBoot(q.secureBoot)
  {
    assert |LIMITS_CPU| == 10 && |LIMITS_MEMORY| == 13 && |SECURE_BOOT| == 19;
  }

  lemma SecureBootInjective(b1: bool, b2: bool)
    requires FormatSecureBoot(b1) == FormatSecureBoot(b2)
    ensures b1 == b2
  {
    assert |FormatSecureBoot(true)| != |FormatSecureBoot(false)|;
  }

  lemma ResizedDevices(n1: Text, d1: Device, s1: Text, n2: Text, d2: Device, s2: Text)
    requires map[n1 := DeviceWithSize(d1, s1)] == map[n2 := DeviceWithSize(d2, s2)]
    ensures n1 == n2 && s1 == s2 && d1 - {"size"} == d2 - {"size"}
  {
    var m1 := map[n1 := DeviceWithSize(d1, s1)];
    assert n1 in m1.Keys && n2 in m1.Keys;
    var r1, r2 := DeviceWithSize(d1, s1), DeviceWithSize(d2, s2);
    assert m1[n1] == r1 && r1 == r2;
    assert r1["size"] == s1 && r2["size"] == s2;
    assert d1 - {"size"} == r1 - {"size"} && d2 - {"size"} == r2 - {"size"};
  }

  /** The create body determines the request it was built from, and the root disk but for its size. */
  lemma CreateBodyDeterminesRequest(q1: CreateRequest, disk1: RootDisk, q2: CreateRequest, disk2: RootDisk)
    requires ValidateCreate(q1).None? && ValidateCreate(q2).None?
    requires BuildCreate(CreatePayload(q1, disk1)) == BuildCreate(CreatePayload(q2, disk2))
    ensures q1 == q2 && SameButSize(disk1, disk2)
  {
    LimitsInBody(q1, disk1);
    LimitsInBody(q2, disk2);
    ConfigValues(q1);
    ConfigValues(q2);
    ResizedDevices(disk1.name, disk1.device, FormatInt(q1.rootDiskBytes), disk2.name, disk2.device,
                   FormatInt(q2.rootDiskBytes));
    FormatIntInjective(q1.cpuCount, q2.cpuCount);
    FormatIntInjective(q1.memoryBytes, q2.memoryBytes);
    FormatIntInjective(q1.rootDiskBytes, q2.rootDiskBytes);
    SecureBootInjective(q1.secureBoot, q2.secureBoot);
  }

  /** Every value that validation lets through is printed so that it reads back unchanged. */
  lemma LimitsReadBack(q: CreateRequest, disk: RootDisk)
    requires ValidateCreate(q).None?
    ensures var body := BuildCreate(CreatePayload(q, disk)).value.body;
            && ParseInt64(body.config[LIMITS_CPU]) == Some(q.cpuCount)
            && ParseInt64(body.config[LIMITS_MEMORY]) == Some(q.memoryBytes)
            && body.devices.Keys == {disk.name}
            && ParseInt64(body.devices[disk.name]["size"]) == Some(q.rootDiskBytes)
            && forall key | key != "size" ::
                 Field(body.devices[disk.name], key) == Field(disk.device, key)
                 && (key in body.devices[disk.name] <==> key in disk.device)
  {
    LimitsInBody(q, disk);
    ConfigValues(q);
    FormatIntParses(q.cpuCount);
    FormatIntParses(q.memoryBytes);
    FormatIntParses(q.rootDiskBytes);
  }
}
