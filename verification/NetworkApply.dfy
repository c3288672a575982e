/** Validation and planning of managed network changes. */
module NetworkApply {
  import opened Strings
  import opened Decimal
  import opened PathEscaping

  const MAX_PEERS := 256
  const MAX_ADDRESSES := 32
  const MAX_ALLOWED_IPS := 64
  const MAX_FIELD_BYTES := 0x4000
  const MAX_PEER_PUBLIC_KEY := 64
  const MAX_BODY_BYTES := 0x10_0000

  datatype InterfaceSpec = InterfaceSpec(name: Text, listenPort: int, addresses: seq<Text>)

  datatype PeerSpec = PeerSpec(publicKey: Text, presharedKey: Text, allowedIps: seq<Text>)

  datatype RoutingSpec = RoutingSpec(ipv4Forwarding: bool, ipv6Forwarding: bool)

  datatype ApplyRequest = ApplyRequest(mode: Text, iface: InterfaceSpec, peers: seq<PeerSpec>, routing: RoutingSpec)

  datatype ApplyResponse = ApplyResponse(
    mode: Text, status: Text, iface: InterfaceSpec, peerCount: nat, routing: RoutingSpec, summary: string)

  datatype ApplyError =
    | Cancelled | MissingBody | BodyTooLarge | UnknownField | NotJson | TrailingData
    | UnsupportedMode | UnmanagedName | PortOutOfRange | TooManyAddresses | AddressTooLong | AddressInvalid
    | TooManyPeers | MissingKey(i: nat) | KeyTooLong(i: nat) | DuplicateKey
    | TooManyAllowedIps(i: nat) | AllowedIpTooLong(i: nat) | AllowedIpInvalid(i: nat)
  {
    /** The status reported with the error. */
    function Status(): int {
      if Cancelled? then 503 else 400
    }
  }

  /** net.ParseCIDR accepts the text. */
  type CidrCheck = Text -> bool

  // ---------------------------------------------------------------- peers

  /** The first bad entry of an allowed-IP list, by the first check it fails. */
  function AllowedIpError(isCidr: CidrCheck, i: nat, ips: seq<Text>): Option<ApplyError> {
    if ips == [] then None
    else if |ips[0]| > MAX_FIELD_BYTES then Some(AllowedIpTooLong(i))
    else if !isCidr(ips[0]) then Some(AllowedIpInvalid(i))
    else AllowedIpError(isCidr, i, ips[1..])
  }

  /** The public keys of the peers before index `i`. */
  function KeysBefore(peers: seq<PeerSpec>, i: nat): set<Text>
    requires i <= |peers|
  {
    set j | 0 <= j < i :: peers[j].publicKey
  }

  /** The first check peer `i` fails, given the peers before it. */
  function PeerError(isCidr: CidrCheck, peers: seq<PeerSpec>, i: nat): Option<ApplyError>
    requires i < |peers|
  {
    var peer := peers[i];
    if peer.publicKey == "" then Some(MissingKey(i))
    else if |peer.publicKey| > MAX_PEER_PUBLIC_KEY then Some(KeyTooLong(i))
    else if peer.publicKey in KeysBefore(peers, i) then Some(DuplicateKey)
    else if |peer.allowedIps| > MAX_ALLOWED_IPS then Some(TooManyAllowedIps(i))
    else AllowedIpError(isCidr, i, peer.allowedIps)
  }

  method ValidateAllowedIps(isCidr: CidrCheck, i: nat, ips: seq<Text>) returns (error: Option<ApplyError>)
    ensures error == AllowedIpError(isCidr, i, ips)
  {
    var k := 0;
    while k < |ips|
      invariant 0 <= k <= |ips|
      invariant AllowedIpError(isCidr, i, ips) == AllowedIpError(isCidr, i, ips[k..])
    {
      if |ips[k]| > MAX_FIELD_BYTES {
        return Some(AllowedIpTooLong(i));
      }
      if !isCidr(ips[k]) {
        return Some(AllowedIpInvalid(i));
      }
      k := k + 1;
    }
    return None;
  }

  /** The error, if any, is the first failing check of the first failing peer. */
  method ValidatePeers(isCidr: CidrCheck, peers: seq<PeerSpec>) returns (error: Option<ApplyError>)
    ensures |peers| > MAX_PEERS ==> error == Some(TooManyPeers)
    ensures |peers| <= MAX_PEERS && error.None? ==> forall i | 0 <= i < |peers| :: PeerError(isCidr, peers, i).None?
    ensures |peers| <= MAX_PEERS && error.Some? ==> exists i ::
              && 0 <= i < |peers| && error == PeerError(isCidr, peers, i)
              && forall j | 0 <= j < i :: PeerError(isCidr, peers, j).None?
  {
    if |peers| > MAX_PEERS {
      return Some(TooManyPeers);
    }
    var seen: set<Text> := {};
    var i := 0;
    while i < |peers|
      invariant 0 <= i <= |peers|
      invariant seen == KeysBefore(peers, i)
      invariant forall j | 0 <= j < i :: PeerError(isCidr, peers, j).None?
    {
      var peer := peers[i];
      ghost var expected := PeerError(isCidr, peers, i);
      if peer.publicKey == "" {
        return Some(MissingKey(i));
      }
      if |peer.publicKey| > MAX_PEER_PUBLIC_KEY {
        return Some(KeyTooLong(i));
      }
      if peer.publicKey in seen {
        return Some(DuplicateKey);
      }
      seen := seen + {peer.publicKey};
      if |peer.allowedIps| > MAX_ALLOWED_IPS {
        return Some(TooManyAllowedIps(i));
      }
      error := ValidateAllowedIps(isCidr, i, peer.allowedIps);
      if error.Some? {
        assert error == expected;
        return;
      }
      assert KeysBefore(peers, i + 1) == KeysBefore(peers, i) + {peer.publicKey};
      i := i + 1;
    }
    return None;
  }

  lemma {:induction false} AllowedIpsMeaning(isCidr: CidrCheck, i: nat, ips: seq<Text>)
    ensures AllowedIpError(isCidr, i, ips).None? <==>
            forall k | 0 <= k < |ips| :: |ips[k]| <= MAX_FIELD_BYTES && isCidr(ips[k])
  {
    if ips != [] {
      AllowedIpsMeaning(isCidr, i, ips[1..]);
      assert forall k | 0 < k < |ips| :: ips[k] == ips[1..][k - 1];
    }
  }

  /** Peers are accepted exactly when keys are nonempty, bounded and pairwise distinct, and every
      allowed-IP list is bounded and well formed. */
  lemma PeersMeaning(isCidr: CidrCheck, peers: seq<PeerSpec>)
    ensures (forall i | 0 <= i < |peers| :: PeerError(isCidr, peers, i).None?) <==>
            && (forall i | 0 <= i < |peers| :: 1 <= |peers[i].publicKey| <= 64)
            && (forall i, j | 0 <= i < j < |peers| :: peers[i].publicKey != peers[j].publicKey)
            && (forall i | 0 <= i < |peers| :: |peers[i].allowedIps| <= 64)
            && (forall i, k | 0 <= i < |peers| && 0 <= k < |peers[i].allowedIps| ::
                  |peers[i].allowedIps[k]| <= 16384 && isCidr(peers[i].allowedIps[k]))
  {
    forall i | 0 <= i < |peers|
      ensures PeerError(isCidr, peers, i).None? <==>
              && 1 <= |peers[i].publicKey| <= 64
              && (forall j | 0 <= j < i :: peers[j].publicKey != peers[i].publicKey)
              && |peers[i].allowedIps| <= 64
              && (forall k | 0 <= k < |peers[i].allowedIps| ::
                    |peers[i].allowedIps[k]| <= 16384 && isCidr(peers[i].allowedIps[k]))
    {
      AllowedIpsMeaning(isCidr, i, peers[i].allowedIps);
    }
  }

  // ---------------------------------------------------------------- the interface and the request

  predicate IsManagedInterfaceName(prefix: Text, name: Text) {
    && name != "" && prefix <= name
    && |name| > |prefix| && forall i | |prefix| <= i < |name| :: IsAlphanumeric(name[i])
  }

  function AddressError(isCidr: CidrCheck, addresses: seq<Text>): Option<ApplyError> {
    if addresses == [] then None
    else if |addresses[0]| > MAX_FIELD_BYTES then Some(AddressTooLong)
    else if !isCidr(addresses[0]) then Some(AddressInvalid)
    else AddressError(isCidr, addresses[1..])
  }

  function InterfaceError(prefix: Text, isCidr: CidrCheck, spec: InterfaceSpec): Option<ApplyError> {
    if !IsManagedInterfaceName(prefix, spec.name) then Some(UnmanagedName)
    else if spec.listenPort < 1 || spec.listenPort > 65535 then Some(PortOutOfRange)
    else if |spec.addresses| > MAX_ADDRESSES then Some(TooManyAddresses)
    else AddressError(isCidr, spec.addresses)
  }

  method ValidateInterface(prefix: Text, isCidr: CidrCheck, spec: InterfaceSpec) returns (error: Option<ApplyError>)
    ensures error == InterfaceError(prefix, isCidr, spec)
  {
    if !IsManagedInterfaceName(prefix, spec.name) {
      return Some(UnmanagedName);
    }
    if spec.listenPort < 1 || spec.listenPort > 65535 {
      return Some(PortOutOfRange);
    }
    if |spec.addresses| > MAX_ADDRESSES {
      return Some(TooManyAddresses);
    }
    var k := 0;
    while k < |spec.addresses|
      invariant 0 <= k <= |spec.addresses|
      invariant AddressError(isCidr, spec.addresses) == AddressError(isCidr, spec.addresses[k..])
    {
      if |spec.addresses[k]| > MAX_FIELD_BYTES {
        return Some(AddressTooLong);
      }
      if !isCidr(spec.addresses[k]) {
        return Some(AddressInvalid);
      }
      k := k + 1;
    }
    return None;
  }

  /** The error of the first failing peer from index `i` on. */
  function PeersErrorFrom(isCidr: CidrCheck, peers: seq<PeerSpec>, i: nat): Option<ApplyError>
    requires i <= |peers|
    decreases |peers| - i
  {
    if i == |peers| then None
    else if PeerError(isCidr, peers, i).Some? then PeerError(isCidr, peers, i)
    else PeersErrorFrom(isCidr, peers, i + 1)
  }

  function PeersError(isCidr: CidrCheck, peers: seq<PeerSpec>): Option<ApplyError> {
    if |peers| > MAX_PEERS then Some(TooManyPeers) else PeersErrorFrom(isCidr, peers, 0)
  }

  lemma {:induction false} FirstPeerError(isCidr: CidrCheck, peers: seq<PeerSpec>, i: nat, first: nat)
    requires i <= first <= |peers|
    requires forall j | i <= j < first :: PeerError(isCidr, peers, j).None?
    ensures PeersErrorFrom(isCidr, peers, i) == PeersErrorFrom(isCidr, peers, first)
    decreases first - i
  {
    if i < first {
      FirstPeerError(isCidr, peers, i + 1, first);
    }
  }

  const DRY_RUN: Text := "DRY_RUN"
  const APPLY: Text := "APPLY"

  function RequestError(prefix: Text, isCidr: CidrCheck, req: ApplyRequest): Option<ApplyError> {
    if req.mode != DRY_RUN && req.mode != APPLY then Some(UnsupportedMode)
    else if InterfaceError(prefix, isCidr, req.iface).Some? then InterfaceError(prefix, isCidr, req.iface)
    else PeersError(isCidr, req.peers)
  }

  /** A request body: its size, and what strict decoding makes of it. */
  datatype ApplyBody = ApplyBody(size: nat, decoded: DecodedApply)

  datatype DecodedApply = IsRequest(req: ApplyRequest) | HasUnknownField | IsNotJson | HasTrailingData

  datatype ApplyOutcome = Planned(response: ApplyResponse) | Rejected(error: ApplyError)

  function Summary(req: ApplyRequest): string {
    var count := FormatNat(|req.peers|);
    if req.mode == APPLY then
      "validated and planned " + req.iface.name + " with " + count
          + " peer(s); apply execution deferred to managed service"
    else
      "validated " + req.iface.name + " with " + count + " peer(s); dry-run, no host mutation"
  }

  function Plan(req: ApplyRequest): ApplyResponse {
    ApplyResponse(req.mode, if req.mode == APPLY then "APPLY_PLANNED" else "VALIDATED",
      req.iface, |req.peers|, req.routing, Summary(req))
  }

  function ApplyResult(prefix: Text, isCidr: CidrCheck, cancelled: bool, body: ApplyBody): ApplyOutcome {
    if cancelled then Rejected(Cancelled)
    else if body.size == 0 then Rejected(MissingBody)
    else if body.size > MAX_BODY_BYTES then Rejected(BodyTooLarge)
    else match body.decoded
      case HasUnknownField => Rejected(UnknownField)
      case IsNotJson => Rejected(NotJson)
      case HasTrailingData => Rejected(TrailingData)
      case IsRequest(req) =>
        var error := RequestError(prefix, isCidr, req);
        if error.Some? then Rejected(error.value) else Planned(Plan(req))
  }

  method ValidateRequest(prefix: Text, isCidr: CidrCheck, req: ApplyRequest) returns (error: Option<ApplyError>)
    ensures error == RequestError(prefix, isCidr, req)
  {
    if req.mode != DRY_RUN && req.mode != APPLY {
      return Some(UnsupportedMode);
    }
    error := ValidateInterface(prefix, isCidr, req.iface);
    if error.Some? {
      return;
    }
    error := ValidatePeers(isCidr, req.peers);
    if |req.peers| <= MAX_PEERS {
      if error.Some? {
        var i :| 0 <= i < |req.peers| && error == PeerError(isCidr, req.peers, i)
              && forall j | 0 <= j < i :: PeerError(isCidr, req.peers, j).None?;
        FirstPeerError(isCidr, req.peers, 0, i);
      } else {
        FirstPeerError(isCidr, req.peers, 0, |req.peers|);
      }
    }
  }

  /** Validate, then render the plan; nothing is executed in either mode. */
  method Apply(prefix: Text, isCidr: CidrCheck, cancelled: bool, body: ApplyBody) returns (outcome: ApplyOutcome)
    ensures outcome == ApplyResult(prefix, isCidr, cancelled, body)
  {
    if cancelled {
      return Rejected(Cancelled);
    }
    if body.size == 0 {
      return Rejected(MissingBody);
    }
    if body.size > MAX_BODY_BYTES {
      return Rejected(BodyTooLarge);
    }
    match body.decoded
    case HasUnknownField => return Rejected(UnknownField);
    case IsNotJson => return Rejected(NotJson);
    case HasTrailingData => return Rejected(TrailingData);
    case IsRequest(req) =>
      var error := ValidateRequest(prefix, isCidr, req);
      if error.Some? {
        return Rejected(error.value);
      }
      var status: Text := "VALIDATED";
      if req.mode == APPLY {
        status := "APPLY_PLANNED";
      }
      outcome := Planned(ApplyResponse(req.mode, status, req.iface, |req.peers|, req.routing, Summary(req)));
  }

  // ---------------------------------------------------------------- what the outcome depends on

  predicate SamePublicPeers(p: seq<PeerSpec>, q: seq<PeerSpec>) {
    |p| == |q| && forall i | 0 <= i < |p| :: p[i].publicKey == q[i].publicKey && p[i].allowedIps == q[i].allowedIps
  }

  lemma {:induction false} SamePeersError(isCidr: CidrCheck, p: seq<PeerSpec>, q: seq<PeerSpec>, i: nat)
    requires SamePublicPeers(p, q) && i <= |p|
    ensures PeersErrorFrom(isCidr, p, i) == PeersErrorFrom(isCidr, q, i)
    decreases |p| - i
  {
    if i < |p| {
      assert KeysBefore(p, i) == KeysBefore(q, i);
      SamePeersError(isCidr, p, q, i + 1);
    }
  }

  /** Preshared keys change neither the response nor the error. */
  lemma PresharedKeysStayIn(prefix: Text, isCidr: CidrCheck, cancelled: bool, size: nat, r1: ApplyRequest,
                            r2: ApplyRequest)
    requires r1.mode == r2.mode && r1.iface == r2.iface && r1.routing == r2.routing
               && SamePublicPeers(r1.peers, r2.peers)
    ensures ApplyResult(prefix, isCidr, cancelled, ApplyBody(size, IsRequest(r1)))
         == ApplyResult(prefix, isCidr, cancelled, ApplyBody(size, IsRequest(r2)))
  {
    SamePeersError(isCidr, r1.peers, r2.peers, 0);
  }

  /** A dry run and an apply of the same change fail alike, and succeed with answers that differ in
      mode, status and summary only. */
  lemma DryRunPredictsApply(prefix: Text, isCidr: CidrCheck, cancelled: bool, size: nat, req: ApplyRequest)
    ensures var dry := ApplyResult(prefix, isCidr, cancelled, ApplyBody(size, IsRequest(req.(mode := DRY_RUN))));
            var wet := ApplyResult(prefix, isCidr, cancelled, ApplyBody(size, IsRequest(req.(mode := APPLY))));
            if dry.Rejected? then wet == dry
            else
              && wet.Planned?
              && dry.response.mode == "DRY_RUN" && wet.response.mode == "APPLY"
              && dry.response.status == "VALIDATED" && wet.response.status == "APPLY_PLANNED"
              && dry.response.(mode := wet.response.mode, status := wet.response.status,
                               summary := wet.response.summary) == wet.response
  {
    assert DRY_RUN != APPLY;
  }

  /** The prefix, then at least one letter or digit and nothing else. */
  predicate IsManagedName(prefix: Text, name: Text) {
    && |name| > |prefix| && name[..|prefix|] == prefix
    && forall i | |prefix| <= i < |name| ::
         'a' <= name[i] <= 'z' || 'A' <= name[i] <= 'Z' || '0' <= name[i] <= '9'
  }

  lemma ManagedNameMeaning(prefix: Text, name: Text)
    ensures IsManagedInterfaceName(prefix, name) <==> IsManagedName(prefix, name)
  {
  }

  /** What the operator is told: the interface, the number of peers, and what was not done. */
  predicate IsSummaryOf(summary: string, req: ApplyRequest) {
    summary ==
      if req.mode == "APPLY" then
        "validated and planned " + req.iface.name + " with " + FormatNat(|req.peers|)
        + " peer(s); apply execution deferred to managed service"
      else
        "validated " + req.iface.name + " with " + FormatNat(|req.peers|) + " peer(s); dry-run, no host mutation"
  }

  lemma SummaryMeaning(req: ApplyRequest)
    ensures IsSummaryOf(Summary(req), req)
  {
  }

  /** A request whose interface and peers may be planned for. */
  ghost predicate IsPlannable(prefix: Text, isCidr: CidrCheck, req: ApplyRequest) {
    && (req.mode == "DRY_RUN" || req.mode == "APPLY")
    && IsManagedName(prefix, req.iface.name) && 1 <= req.iface.listenPort <= 65535
    && |req.iface.addresses| <= 32
    && (forall k | 0 <= k < |req.iface.addresses| ::
        |req.iface.addresses[k]| <= 16384 && isCidr(req.iface.addresses[k]))
    && |req.peers| <= 256
    && forall i | 0 <= i < |req.peers| :: PeerError(isCidr, req.peers, i).None?
  }

  lemma {:induction false} NoPeerErrorIff(isCidr: CidrCheck, peers: seq<PeerSpec>, i: nat)
    requires i <= |peers|
    ensures PeersErrorFrom(isCidr, peers, i).None? <==> forall j | i <= j < |peers| :: PeerError(isCidr, peers, j).None?
    decreases |peers| - i
  {
    if i < |peers| {
      NoPeerErrorIff(isCidr, peers, i + 1);
    }
  }

  /** A change is planned exactly when the request was not cancelled, its body is one object of an
      accepted size, its mode is known, its interface is managed and in range, and no peer fails. */
  lemma PlannedIff(prefix: Text, isCidr: CidrCheck, cancelled: bool, body: ApplyBody)
    ensures ApplyResult(prefix, isCidr, cancelled, body).Planned? <==>
            && !cancelled && 0 < body.size <= 1048576
            && body.decoded.IsRequest? && IsPlannable(prefix, isCidr, body.decoded.req)
    ensures ApplyResult(prefix, isCidr, cancelled, body).Planned? ==>
              var req, r := body.decoded.req, ApplyResult(prefix, isCidr, cancelled, body).response;
              && r.mode == req.mode && r.iface == req.iface && r.peerCount == |req.peers| && r.routing == req.routing
              && r.status == (if req.mode == "APPLY" then "APPLY_PLANNED" else "VALIDATED")
              && IsSummaryOf(r.summary, req)
  {
    if body.decoded.IsRequest? {
      ManagedNameMeaning(prefix, body.decoded.req.iface.name);
      SummaryMeaning(body.decoded.req);
      AddressesMeaning(isCidr, body.decoded.req.iface.addresses);
      NoPeerErrorIff(isCidr, body.decoded.req.peers, 0);
    }
  }

  lemma {:induction false} AddressErrorStatus(isCidr: CidrCheck, addresses: seq<Text>)
    ensures AddressError(isCidr, addresses).Some? ==> AddressError(isCidr, addresses).value.Status() == 400
  {
    if addresses != [] { AddressErrorStatus(isCidr, addresses[1..]); }
  }

  lemma {:induction false} AllowedIpErrorStatus(isCidr: CidrCheck, i: nat, ips: seq<Text>)
    ensures AllowedIpError(isCidr, i, ips).Some? ==> AllowedIpError(isCidr, i, ips).value.Status() == 400
  {
    if ips != [] { AllowedIpErrorStatus(isCidr, i, ips[1..]); }
  }

  lemma {:induction false} PeersErrorStatus(isCidr: CidrCheck, peers: seq<PeerSpec>, i: nat)
    requires i <= |peers|
    ensures PeersErrorFrom(isCidr, peers, i).Some? ==> PeersErrorFrom(isCidr, peers, i).value.Status() == 400
    decreases |peers| - i
  {
    if i < |peers| {
      AllowedIpErrorStatus(isCidr, i, peers[i].allowedIps);
      PeersErrorStatus(isCidr, peers, i + 1);
    }
  }

  /** A rejection has status 503 exactly when the request was cancelled, and otherwise 400. */
  lemma RejectionStatus(prefix: Text, isCidr: CidrCheck, cancelled: bool, body: ApplyBody)
    requires ApplyResult(prefix, isCidr, cancelled, body).Rejected?
    ensures ApplyResult(prefix, isCidr, cancelled, body).error.Status() == if cancelled then 503 else 400
  {
    if body.decoded.IsRequest? {
      AddressErrorStatus(isCidr, body.decoded.req.iface.addresses);
      PeersErrorStatus(isCidr, body.decoded.req.peers, 0);
    }
  }

  lemma {:induction false} AddressesMeaning(isCidr: CidrCheck, addresses: seq<Text>)
    ensures AddressError(isCidr, addresses).None? <==>
            forall k | 0 <= k < |addresses| :: |addresses[k]| <= MAX_FIELD_BYTES && isCidr(addresses[k])
  {
    if addresses != [] {
      AddressesMeaning(isCidr, addresses[1..]);
      assert forall k | 0 < k < |addresses| :: addresses[k] == addresses[1..][k - 1];
    }
  }
}
