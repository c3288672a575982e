# A verified model of the Anvil agent

The Anvil agent runs on a host, talks to the local Incus daemon over its Unix socket, and serves a small
WebSocket protocol to a control plane.  This project models the parts of the agent that decide what reaches
Incus and what is answered, and proves properties of them over every input, every backend and every
interleaving.

## How it is organised

* **Lifecycle protocol** (`Lifecycle`, `RootDiskSelection`, `Operations`, `LifecycleProtocol`,
  `LifecycleTheorems`, `LifecycleMeaning`, `LifecycleProgress`, `LifecycleSecrecy`, `LifecycleService`).  A
  request becomes a conversation with Incus: read the profile, mutate, wait, verify.  A conversation is a
  `Program` (module `Programs`) that polls its context, calls Incus and returns; a log of events records one
  run.  The backend is an adversary: theorems quantify over all logs, so Incus may answer anything, including
  nil, and the context may be cancelled at any poll.  The class `Service` makes the calls in the order of the Go methods, on
  a stateful `Environment` (module `Environments`); each of its methods is proved to perform a run of the
  matching program, so every theorem about programs holds of it.
* **Server** (`ReadPaths`, `Handlers`, `Requests`, `RequestsTheorems`, `RequestsProgress`,
  `ServerTheorems`, `ServerReplies`, `ProxyClient`, `Server`).  A machine of interleaved steps: one reader per
  connection, one goroutine per request in flight, any number of each.  The class `Server` updates the shared state as the Go methods do, and each method is proved to perform steps
  of this machine or of the event machine.  A valid `Server` is in a reachable state of both, so their theorems
  are stated on the object too.
* **Events** (`Events`).  The listener with its retry, the bounded channel, the forwarder, and one write
  goroutine per client and broadcast.
* **State report** (`StateReport`, `StateReporter`) and readiness.
* **WireGuard** (`WireGuard`, `WireGuardDump`).  The dump parser over a map of mutable interfaces, its
  declarative meaning, a printer, and the address table joined in afterwards.
* **Network changes** (`NetworkApply`), **identity** (`Identity`), **request bodies** (`BodyReader`).
* **Text** (`Strings`, `Decimal`, `PathEscaping`).  Byte strings, split and join, white space, decimal
  numbers, and percent-encoding (section 2.1 of RFC 3986), written out rather than assumed.

A `Text` is a sequence of bytes, as a Go string is.  `strings.TrimSpace` is modelled on the UTF-8 encodings of
white space.

## Where the code and its comments disagree

The model follows the code.

* `internal/network/parsers.go:63-64` says that a peer seen before its interface line is not lost.  The
  interface line, when it comes, replaces the placeholder that holds the peer (lines 46-56).
  `WireGuardDump.EarlyPeerExample` is a dump that shows it, `WireGuardDump.EarlyPeerIsLost` says it of every
  such dump, and `WireGuard.AllPeersKeptIff` says exactly when all peers are kept.
* `internal/lifecycle/lifecycle.go:460` says that a normalized operation id never contains path traversal.
  The ids `..` and `.` pass: `Operations.TraversalExample` shows them in the path the agent then waits on, and
  `Operations.DotSegmentIff` and `Operations.TraversalInId` say exactly when.
* `bytesReader.Read` (`internal/incus/proxy.go:60`) never advances, so a body read in several pieces arrives
  as copies of its front.  `BodyReader.WrongBytesExample` shows it; `BodyReader.DeliversBodyIff` and
  `BodyReader.DeliversForEveryScheduleIff` say exactly when the body arrives.

The validator and the client also read a raw path differently: `url.ParseRequestURI` knows no fragment, and the
client cuts the path at `#`.  The theorems about allowed paths are about the path validated;
`ReadPaths.SentAsValidatedIff` says when that is the path sent, and `ReadPaths.FragmentExample` shows a difference.

## Model

| member | source | states |
|---|---|---|
| `LifecycleTheorems.HandleSucceedsIff` | internal/lifecycle/lifecycle.go:287-396 | Handle succeeds if and only if the mutating call was answered 2xx, any operation it referred to (mandatory on 202) has a nonempty id and exactly that id was waited for and seen to complete, a created instance was read back, and no cancellation check fired; the reply then has status 200 and names, field by field, the action of the path, the instance asked for, the id waited for, "async" and "operation-completed" or "sync" and "sync-ok" |
| `LifecycleMeaning.OutcomeMeaning` | internal/lifecycle/lifecycle.go:162-396 | the exact error of every run, status, code and message: cancelled before it was looked at, refused by the first check the request fails, or decided by the last event of its conversation (each nil, failing, malformed, missing or failed answer has its own error); no error otherwise |
| `LifecycleMeaning.AcceptsMeaning` | internal/lifecycle/lifecycle.go:184-248 | which requests are accepted, with the paths, patterns, bounds and body rules written out |
| `Incus.SuccessStatuses` | internal/lifecycle/lifecycle.go:288-290 | success is the 200 class |
| `LifecycleTheorems.EveryConversation` | internal/lifecycle/lifecycle.go:162-256 | with any backend, whole or cut short, either nothing is called or the request was an accepted command (POST, valid name, confirmed when it deletes), the calls follow its protocol, and every field of the one mutation sent is fixed: verb, path and force flag, or the create body with its kind, source, alias, limits, "true" or "false" for secure boot as asked, and the profile's only root disk resized |
| `LifecycleTheorems.FollowsCallOrder` | internal/lifecycle/lifecycle.go:184-256 | the calls of a conversation that follows the protocol are a prefix of profile, mutate, wait, verify, with profile and verify for create only |
| `LifecycleProgress.RefusedIffNotAccepted` | internal/lifecycle/lifecycle.go:162-256 | on every run, whatever Incus answers, the agent refuses a request by itself exactly when it is not an accepted command (and was not cancelled first): none of the repeated validations ever turns down what the first one let through |
| `LifecycleProgress.AcceptedIffCanSucceed` | internal/lifecycle/lifecycle.go:162-256 | some backend and some run make a request succeed exactly when it is an accepted command |
| `LifecycleTheorems.SettleResult` | internal/lifecycle/lifecycle.go:309-336 | after an accepted mutation, success means one wait on exactly the id referred to, answered as completed, and then a verified create |
| `LifecycleSecrecy.HandleIsNoninterfering` | internal/lifecycle/lifecycle.go:275-373 | two backends that agree call by call on nil, status, operation reference, wait status code and profile devices make Handle issue the same calls and return the same result, whatever else the bodies hold |
| `LifecycleSecrecy.ResultStatus` | internal/lifecycle/lifecycle.go:287-396 | a success has status 200 and a body; an error never carries a success status |
| `LifecycleSecrecy.NotFoundMeaning` | internal/lifecycle/lifecycle.go:345-396 | a 404 is reported exactly when the path is unknown or Incus answered 404 to the mutating call; a missing operation or created instance is another error |
| `LifecycleService.Service.Handle` | internal/lifecycle/lifecycle.go:162-182 | its calls and result are a run of the protocol's program, on any backend and with cancellation at any moment |
| `LifecycleService.Service.HandleCreate` | internal/lifecycle/lifecycle.go:184-204 | performs the create program: decode, poll, profile, mutate, settle, in that order |
| `LifecycleService.Service.HandleState` | internal/lifecycle/lifecycle.go:206-224 | performs the program of start, stop and restart, each error in the order of its check |
| `LifecycleService.Service.HandleDelete` | internal/lifecycle/lifecycle.go:226-248 | performs the delete program; nothing is called without confirmation |
| `LifecycleService.Service.Command` | internal/lifecycle/lifecycle.go:250-256 | performs one mutating call and settles its answer |
| `LifecycleService.Service.Settle` | internal/lifecycle/lifecycle.go:345-373 | waits for the operation referred to before anything is reported |
| `LifecycleService.Service.Verify` | internal/lifecycle/lifecycle.go:375-396 | reads a created instance back before reporting success |
| `LifecycleService.Service.ReadProfile` | internal/lifecycle/lifecycle.go:258-281 | the profile stage of create, whatever the iteration order of the devices |
| `Environments.Environment.Cancelled` | internal/lifecycle/lifecycle.go:163-165 | once the context is cancelled every later poll sees it |
| `Lifecycle.BuildNeverFails` | internal/lifecycle/incus_request.go:51-67 | after the first validation the builder's own validations cannot fail |
| `Lifecycle.CommandsStayDistinct` | internal/lifecycle/incus_request.go:51-130 | different commands, create included, become different Incus requests: the request tells the action, the name, the force flag of a state change and all of a create but the size its root disk had in the profile |
| `Lifecycle.CreateBodyDeterminesRequest` | internal/lifecycle/incus_request.go:69-102 | the create body determines the request it was built from, and the root disk but for its size |
| `Lifecycle.LimitsReadBack` | internal/lifecycle/incus_request.go:69-102 | CPU, memory and disk limits read back as the same numbers over the whole accepted range, and the device differs from the profile's in its size only |
| `Lifecycle.ValidationMeaning` | internal/lifecycle/lifecycle.go:641-683 | a name is accepted exactly when it matches the name pattern, an image exactly when it matches its pattern and has no `..` |
| `Lifecycle.PatternMeaning` | internal/lifecycle/lifecycle.go:641-644 | the two regular expressions, byte by byte |
| `Lifecycle.CreateMeaning` | internal/lifecycle/lifecycle.go:622-639 | the bounds of a create: up to 1024 CPUs, up to 16 TiB of memory and of disk, at least 1 of each |
| `Lifecycle.ValidNameEscapesToItself` | internal/lifecycle/incus_request.go:51-67 | escaping is the identity on valid names |
| `Lifecycle.ParseMeaning` | internal/lifecycle/lifecycle.go:522-567 | the exact language of instance paths: a slash-free segment without `..` that decodes to the name, then one of four actions |
| `Lifecycle.ParseCreate` | internal/lifecycle/lifecycle.go:522-531 | create is reached by its own path only |
| `Lifecycle.ActionWords` | internal/lifecycle/lifecycle.go:29-38 | the five actions as they are written |
| `Lifecycle.PathRoundTrip` | internal/lifecycle/lifecycle.go:522-567 | for every byte string, the path made of its escape parses back to it exactly when it is nonempty and has no `..` |
| `RootDiskSelection.SelectProfileRootDisk` | internal/lifecycle/lifecycle.go:423-446 | every iteration order of the device map gives the same answer, a function of the set of candidates |
| `RootDiskSelection.SelectMeaning` | internal/lifecycle/lifecycle.go:423-446 | a disk is chosen exactly when it is the only candidate and has a pool |
| `RootDiskSelection.ChosenMeaning` | internal/lifecycle/lifecycle.go:423-446 | a disk is chosen exactly when it is the only device of type disk mounted at `/` without a source, and has a pool |
| `RootDiskSelection.NotChosenMeaning` | internal/lifecycle/lifecycle.go:437-444 | two such devices are ambiguous; none, or one without a pool, is unavailable |
| `LifecycleTheorems.ProfileStageMeaning` | internal/lifecycle/lifecycle.go:258-281 | the profile stage passes exactly on a 2xx answer that decodes to devices with such a disk |
| `RootDiskSelection.CopyDeviceWithSize` | internal/lifecycle/lifecycle.go:448-455 | the copy agrees with the profile's device on every key but `size` |
| `Strings.SpaceIsRune` | internal/lifecycle/lifecycle.go:462-469 | what trimming takes off is the UTF-8 encoding of a white-space code point |
| `Strings.SpaceRuneIsSeenInFront` | internal/lifecycle/lifecycle.go:462-469 | every such encoding is taken off |
| `Strings.SpaceRuneIsSeenAtBack` | internal/lifecycle/lifecycle.go:462-469 | at the back too |
| `Strings.DotDotMeaning` | internal/lifecycle/lifecycle.go:530-530 | the `..` test finds two dots next to each other, anywhere, and nothing else |
| `Operations.NormalizedIsClean` | internal/lifecycle/lifecycle.go:457-474 | a normalized id is a stretch of the reference with no slash, no outer white space and at most 128 bytes |
| `Operations.NormalizeIdempotent` | internal/lifecycle/lifecycle.go:457-474 | normalizing twice changes nothing |
| `Operations.NormalizeMeaning` | internal/lifecycle/lifecycle.go:457-474 | the id is the trimmed last segment of the reference itself, or empty when that is too long: the outer trim changes nothing |
| `Operations.DotSegmentIff` | internal/lifecycle/lifecycle.go:457-474 | the id is `.` or `..` exactly when the trimmed last segment of the reference is |
| `Operations.TraversalInId` | internal/lifecycle/lifecycle.go:457-474 | an id keeps a `..` exactly when the last segment of the reference holds one and is not dropped for its length |
| `Operations.TraversalExample` | internal/lifecycle/lifecycle.go:345-352 | references whose normalized ids are `..` and `.`, and the wait paths `/1.0/operations/../wait` and `/1.0/operations/./wait` they lead to |
| `PathEscaping.UnescapeEscape` | internal/lifecycle/lifecycle.go:543-546 | percent-decoding undoes percent-encoding on every byte string |
| `PathEscaping.EscapeByteMeaning` | internal/lifecycle/incus_request.go:55-55 | which bytes stand for themselves, and how the others are encoded |
| `PathEscaping.UnescapeAccepts` | internal/lifecycle/lifecycle.go:543-546 | a segment decodes exactly when every `%` is followed by two hexadecimal digits |
| `PathEscaping.UnescapeFirst` | internal/lifecycle/lifecycle.go:543-546 | other bytes decode to themselves, and two hexadecimal digits to the byte they denote |
| `PathEscaping.HexCases` | internal/lifecycle/lifecycle.go:543-546 | digits of either case denote the same |
| `PathEscaping.EscapeDotDot` | internal/lifecycle/lifecycle.go:528-546 | escaping neither hides nor makes a `..` |
| `Decimal.ParseOfFormat` | internal/network/parsers.go:138-152 | parsing undoes decimal printing on all 64-bit values and gives 0, never a wrapped value, outside them |
| `Decimal.ParseMeaning` | internal/network/parsers.go:138-152 | digits with at most one sign denote their number when it has 64 bits |
| `Decimal.ParsedShape` | internal/network/parsers.go:138-152 | nothing else is a number |
| `ReadPaths.AllowedMeaning` | internal/proxy/validation.go:49-101 | the exact language of the reads passed through: without a query the root, the three lists and the objects in them, and the images with exactly `recursion=1` |
| `ReadPaths.ValidationErrors` | internal/proxy/validation.go:12-38 | the first failing check decides the error, each with its text |
| `ReadPaths.ValidatedIsAgentOrRead` | internal/proxy/validation.go:12-38 | a request passes validation exactly when it has an id and a known method and is the agent's own or a GET of an allowed Incus path; the server's own test and the validator split every path the same way |
| `ReadPaths.DetailShapeMeaning` | internal/proxy/validation.go:76-101 | the exact shape of a detail path: `/1.0/`, one of three families, and a slash-free segment decoding to a nonempty slash-free name other than `.` and `..` |
| `ReadPaths.EscapedNamesAreAllowed` | internal/proxy/validation.go:76-101 | every such name, once escaped, is accepted, and no other name is |
| `ReadPaths.SentAsValidatedIff` | internal/incus/client.go:36-40 | the path sent is the path validated exactly when it holds no `#`, where the client cuts and the validator does not |
| `ReadPaths.FragmentExample` | internal/incus/client.go:36-40 | a path validated as the object `a#b` and sent as the object `a` |
| `StateReport.ReadinessAgreesWithCreate` | internal/lifecycle/readiness.go:44-53 | given the same profile answer, readiness reports available exactly when create would pass its profile stage |
| `StateReport.SumTakingAny` | internal/state/report.go:225-229 | the sum over the operation lists does not depend on which key is taken first |
| `StateReport.CountOperations` | internal/state/report.go:225-229 | the loop over the map computes that sum in any iteration order |
| `StateReport.ReportReadsOnly` | internal/state/report.go:144-230 | whatever Incus answers, a report only reads five fixed paths |
| `StateReport.ReportDescribesAnswers` | internal/state/report.go:144-258 | each total is the length of the list answered in this run, 0 when there is none to read; the root's status and availability are those answered; WireGuard is claimed exactly when its binary was found; the profile is read exactly when the detector is wired, its context live and KVM present, and the lifecycle capability claimed exactly when that profile would let a create through |
| `StateReporter.Reporter.Report` | internal/state/report.go:144-198 | the calls and the report are a run of the report program |
| `StateReporter.Reporter.ReportVm` | internal/lifecycle/readiness.go:21-53 | the profile is read only when the context is live and KVM is present |
| `StateReporter.Reporter.ReportRoot` | internal/state/report.go:232-258 | nothing is counted unless the root was answered 2xx |
| `StateReporter.Reporter.ReportCounts` | internal/state/report.go:194-230 | the three totals come from three reads, in order |
| `RequestsTheorems.RepliesAreConserved` | internal/proxy/server.go:189-237 | in every interleaving, per connection, messages read equal replies attempted plus requests in flight; every message is in flight or answered once, never both, and on its own connection |
| `RequestsTheorems.ReachedIsSound` | internal/proxy/server.go:189-237 | in every reachable state, what a request did is a run of its own program and its reply is the one that run ends with |
| `RequestsProgress.RequestsAreShort` | internal/proxy/server.go:211-301 | in every interleaving, whatever Incus answers, no request makes more than eight polls and calls in all, and what is left of one in flight ends within the rest |
| `RequestsProgress.NeverStuck` | internal/proxy/server.go:211-237 | a request in flight can always poll, or make its call whatever is answered, or write its reply |
| `RequestsProgress.CancellableInFlight` | internal/proxy/server.go:212-213 | a request may be cancelled exactly while it is in flight |
| `RequestsProgress.EveryMessageCanBeAnswered` | internal/proxy/server.go:189-237 | from every reachable state, every message read and not yet answered has a continuation that ends in its reply |
| `ServerTheorems.RepliesCarryTheirID` | internal/proxy/server.go:352-387 | every reply carries its own message's id on every branch; only an answer passed through from a backend that does not copy ids can carry another |
| `ProxyClient.ClientKeepsIDs` | internal/incus/proxy.go:24-56 | with the agent's own client, which copies the request's id into every answer, every reply carries the id of the message it answers |
| `ProxyClient.ExecuteMeaning` | internal/incus/proxy.go:33-55 | 503 when the exchange fails, 500 when its body cannot be read, and otherwise the status and body of Incus |
| `ServerTheorems.EveryCallIsAllowed` | internal/proxy/server.go:189-278 | in every interleaved run of any clients and requests, every call that reaches Incus belongs to the message it serves: a GET of a path in the language of `AllowedMeaning`, a fixed read of a state report, or a call of an accepted lifecycle command (exactly the mutation its message and profile come to, the profile and instance reads of a create, a wait on the slash-free id its mutation was answered with); other agent paths make no call |
| `ServerTheorems.LifecycleProjection` | internal/proxy/server.go:239-278 | the global trace projected to one lifecycle request is a prefix of that request's call grammar, with at most four calls and at most one mutating call, which is exactly the request its own message comes to |
| `ServerTheorems.StatusIsNeverReplaced` | internal/proxy/server.go:260-277 | the branch that replaces a zero status is never taken |
| `ServerTheorems.LifecycleReplyMeaning` | internal/proxy/server.go:239-278 | in every reachable state a lifecycle reply says 200 only if the whole conversation made for its message observed completion, and if it did the reply names its action, instance, operation, kind and status, or could not be marshalled |
| `ServerReplies.LifecycleErrorReply` | internal/proxy/server.go:260-268 | in every reachable state a failed lifecycle request is answered with the status and message of its exact error and nothing else |
| `ServerReplies.LifecycleReplyFields` | internal/proxy/server.go:260-277 | the reply made of a result, field by field, a missing status becoming 503 |
| `ServerReplies.ForwardedReply` | internal/proxy/server.go:220-221 | in every reachable state the reply to a request passed through carries the id, status, body and error text of the answer to its one call, or says that there was none or that it did not marshal |
| `ServerReplies.InvalidReply` | internal/proxy/server.go:196-204 | in every reachable state an invalid message is answered 400 under its own id with the first check it fails |
| `ServerReplies.ReportReply` | internal/proxy/server.go:280-301 | in every reachable state a state request is answered with the report of its own run |
| `ServerReplies.DirectReply` | internal/proxy/server.go:224-258 | in every reachable state a request that runs no program is answered as its path, method and configuration say, each case with its status and text |
| `ServerReplies.DispatchMeaning` | internal/proxy/server.go:211-237 | which paths go through to Incus, to the lifecycle service, to the reporter, or straight to a reply |
| `Server.ServerConservesReplies` | internal/proxy/server.go:189-237 | on every valid server object, per connection, messages read equal replies handed over plus goroutines in flight plus a protocol error being written |
| `Server.ServerCallsAreAllowed` | internal/proxy/server.go:189-278 | every call the object's goroutines made to Incus was allowed for the message it served |
| `Server.ServerKeepsEventOrder` | internal/proxy/server.go:389-412 | on every valid server object the events broadcast, in hand and on its channel are those sent, in order; its channel stays within 64; at most one of its listeners has not ended |
| `Server.ServerWritesOnce` | internal/proxy/server.go:414-436 | every event write attempted is for a client of its broadcast's snapshot, and none is repeated |
| `Server.ServerReachesSnapshot` | internal/proxy/server.go:414-436 | the clients of a broadcast's snapshot are exactly those with a write goroutine still to run or an attempt made, never both |
| `Server.Server.Register` | internal/proxy/server.go:174-177 | a connection joins both machines before its first read |
| `Server.Server.Unregister` | internal/proxy/server.go:179-184 | a connection leaves both machines when its reader has returned |
| `Server.Server.ReadMessage` | internal/proxy/server.go:189-209 | one turn of the loop spawns exactly one goroutine for a valid message, and otherwise writes exactly one protocol error |
| `Server.Server.SendProtocolError` | internal/proxy/server.go:383-387 | one reply, to the connection the message came from |
| `Server.Server.CancelRequest` | internal/proxy/server.go:211-213 | a request's context, once done, stays done |
| `Server.Server.PollContext` | internal/lifecycle/lifecycle.go:163-165 | a goroutine's poll sees exactly whether its own context is done |
| `Server.Server.Execute` | internal/proxy/server.go:220-220 | a goroutine makes the call its program is at, and gets whatever Incus answers |
| `Server.Server.ForwardRequest` | internal/proxy/server.go:211-222 | a request passed through, when nothing runs in between, makes exactly one call, for its own message, and ends with exactly one reply that carries the answer's id, status, body and error text |
| `Server.Server.WriteResponse` | internal/proxy/server.go:352-371 | ends one goroutine with exactly one reply, also when the response is nil or does not marshal |
| `Server.Server.ReceiveEvent` | internal/incus/events.go:30-39 | a listener that has read an event must send it before it reads another |
| `Server.Server.ListenFails` | internal/incus/events.go:31-39 | a failed dial, read or decode ends ListenEvents and starts the wait for a retry |
| `Server.Server.SendEvent` | internal/incus/events.go:41-42 | a send appends to the channel, and needs room in its buffer |
| `Server.Server.AbandonSend` | internal/incus/events.go:43-44 | only a done context makes a listener drop the event it holds |
| `Server.Server.RetryListening` | internal/proxy/server.go:396-397 | the retry ends one listener as it starts the next |
| `Server.Server.GiveUpListening` | internal/proxy/server.go:394-395 | only a done context ends the last listener |
| `Server.Server.ForwardEvent` | internal/proxy/server.go:403-412 | takes the oldest event of the channel and broadcasts it |
| `Server.Server.StopForwarding` | internal/proxy/server.go:406-407 | forwarding ends only once the context is done, and never with an event in hand |
| `Server.Server.BroadcastEvent` | internal/proxy/server.go:414-436 | one write goroutine per client of the snapshot, whatever the order of the snapshot |
| `Server.Server.WriteEvent` | internal/proxy/server.go:427-435 | a write goroutine makes one attempt, whether or not its client is still connected |
| `Server.Server.RelayEvent` | internal/proxy/server.go:389-436 | an event received while nothing else runs is sent, taken and broadcast to the clients connected then |
| `Events.PipelineKeepsOrder` | internal/incus/events.go:30-46 | in every interleaving the events broadcast, the one in hand and those on the channel are exactly the events sent, in order, and the channel never exceeds 64 |
| `Events.ListenerIsUnique` | internal/proxy/server.go:389-401 | at most one listener goroutine has not ended, and until cancellation there is one that listens or waits to retry |
| `Events.BroadcastReachesSnapshot` | internal/proxy/server.go:414-436 | each broadcast is written at most once to each client of its snapshot, to nobody else, and once its goroutines are done exactly once to each |
| `WireGuard.ParseWireGuardDump` | internal/network/parsers.go:27-85 | on arbitrary bytes the loop over mutable interfaces reports what the lines mean |
| `WireGuard.ClassifyMeaning` | internal/network/parsers.go:33-97 | on arbitrary fields, which lines are an interface's, which are a peer's and which are skipped, and which field goes where; a handshake of 0 or less is no time |
| `WireGuard.NamesMeaning` | internal/network/parsers.go:31-56 | names are distinct, are those of the recognised lines, and come in order of first line |
| `WireGuard.LastInterface` | internal/network/parsers.go:44-58 | the interface line that counts is the last one for the name |
| `WireGuard.InterfaceForSnoc` | internal/network/parsers.go:44-71 | one more line about an interface replaces its entry or appends one peer, and changes no other interface |
| `WireGuard.AllPeersKeptIff` | internal/network/parsers.go:46-71 | every peer of an interface is reported exactly when no interface line for it follows one of its peer lines |
| `WireGuard.ReportedHavePrefix` | internal/network/parsers.go:39-42 | only interfaces with the managed prefix are reported |
| `WireGuardDump.EarlyPeerIsLost` | internal/network/parsers.go:46-71 | in every printed dump where an interface line comes after a peer line of the same interface, that interface is reported with fewer peers than the dump has lines for |
| `WireGuardDump.EarlyPeerExample` | internal/network/parsers.go:60-71 | a dump of two lines whose peer is lost |
| `WireGuardDump.PrintThenParse` | internal/network/parsers.go:19-97 | printing interfaces and peers, with the lines of different interfaces interleaved in any way that keeps each one's own order, and parsing the text gives exactly the managed ones, each once and in order of first line, with key and port as configured and the peers in order with key, byte counts and handshake as configured |
| `WireGuardDump.IgnoredFieldsStayIn` | internal/network/parsers.go:44-97 | changing private keys, preshared keys, endpoints and the other ignored fields of any lines leaves the parse unchanged |
| `WireGuardDump.IgnoredFieldsStayInListed` | internal/network/capabilities.go:220-239 | the same of the address-enriched interfaces |
| `WireGuardDump.ListManagedInterfaces` | internal/network/capabilities.go:212-240 | nothing when the dump fails, the parsed interfaces when the address table fails, and otherwise each joined with the last entry for its name |
| `WireGuardDump.EnrichInPlace` | internal/network/capabilities.go:231-238 | every slot of the slice is enriched in place, and only from its own entry |
| `WireGuardDump.ParseAddresses` | internal/network/parsers.go:106-136 | the table holds exactly the names with the prefix, each with its last entry: the state in upper case or UNKNOWN, and every address with its prefix length |
| `NetworkApply.ValidatePeers` | internal/network/apply.go:239-268 | rejects by the first failing check of the least failing peer, where a duplicate is a key of an earlier peer |
| `NetworkApply.PeersMeaning` | internal/network/apply.go:239-268 | no peer fails exactly when keys are nonempty, bounded and pairwise distinct and allowed-IP lists are bounded and well formed |
| `NetworkApply.ValidateInterface` | internal/network/apply.go:218-237 | rejects by the first failing check of the name, port and addresses |
| `NetworkApply.ValidateRequest` | internal/network/apply.go:205-216 | the error is that of the mode, else of the interface, else of the first failing peer |
| `NetworkApply.Apply` | internal/network/apply.go:132-203 | the outcome, error branches included, is a function of the decoded request alone |
| `NetworkApply.PlannedIff` | internal/network/apply.go:132-237 | a change is planned exactly when not cancelled, with one object of an accepted size, a known mode, a name that is the prefix and then letters and digits, a port and addresses in range, at most 256 peers and no failing peer; the plan's mode, status, interface, counts and summary are those of the request |
| `NetworkApply.RejectionStatus` | internal/network/apply.go:132-268 | a rejection has status 503 exactly when cancelled, and otherwise 400 |
| `NetworkApply.PresharedKeysStayIn` | internal/network/apply.go:164-268 | preshared keys change neither the response nor the error |
| `NetworkApply.DryRunPredictsApply` | internal/network/apply.go:164-203 | a dry run and an apply of the same change fail alike, and succeed with answers that differ in mode, status and summary only |
| `Identity.NewUUID` | internal/state/identity.go:76-95 | the masking and the five groups of digits are written in place as the text form of the masked bytes |
| `Identity.UUIDRoundTrip` | internal/state/identity.go:76-99 | for all 16 bytes the text is a UUID (section 5.4 of RFC 9562) whose digits give the bytes back with only the six version and variant bits changed |
| `Identity.UUIDMeaning` | internal/state/identity.go:17-17 | the regular expression of a UUID, group by group |
| `Identity.ParseIdentityMeaning` | internal/state/identity.go:58-74 | a file is accepted exactly when it decodes, its id is a UUID, its time is set and its schema version is 1; otherwise the first failing check is the error |
| `Identity.FreshMeaning` | internal/state/identity.go:42-46 | a new identity carries the random id, the time of the clock in UTC, and schema version 1 |
| `Identity.StateDirectory.LoadIdentity` | internal/state/identity.go:25-56 | one run's result and the file it leaves, on every branch |
| `Identity.IdentityIsStable` | internal/state/identity.go:25-74 | once a run has succeeded no later run rewrites the file, and every later run that can read it returns the same identity |
| `BodyReader.LimitedReader.Read` | internal/incus/proxy.go:58-66 | every read copies from the front of the body, as many bytes as the buffer and the countdown allow |
| `BodyReader.Consume` | internal/incus/proxy.go:25-31 | what a consumer with given buffer sizes receives |
| `BodyReader.DeliversLength` | internal/incus/proxy.go:25-66 | every schedule of positive buffers delivers exactly as many bytes as the body has |
| `BodyReader.DeliversBodyIff` | internal/incus/proxy.go:58-66 | a schedule delivers the body exactly when each chunk repeats the front of the body |
| `BodyReader.OneBigBufferDelivers` | internal/incus/proxy.go:58-66 | a first buffer that holds the whole body delivers it |
| `BodyReader.DeliversForEveryScheduleIff` | internal/incus/proxy.go:58-66 | every schedule delivers the body if and only if all its bytes are equal |
| `BodyReader.WrongBytesExample` | internal/incus/proxy.go:58-66 | a body and buffer sizes that deliver the wrong bytes |
| `BodyReader.CursorDelivers` | internal/incus/proxy.go:58-66 | a reader that kept its position would deliver the body under every schedule |

## Left out

* JSON encoding and decoding.  A body is its bytes together with what each decoder of the agent reads from
  them, as arbitrary values; the first lifecycle answer is read even when decoding failed, the wait answer is
  not.  Encoding the agent's own structures cannot fail, so the branches for such failures are absent, except
  in `writeResponse`, where marshalling may fail.
* Texts of wrapped errors (malformed JSON, marshalling, host name): the status and the branch are modelled,
  the Go error text after the prefix is not.  Of a rejected network change the failing check and the peer are
  modelled, not the sentence.
* The contents of the lifecycle capabilities, a constant list.
* `url.ParseRequestURI`, `net.ParseCIDR` and `strings.ToUpper` are arbitrary functions given as parameters;
  `url.PathEscape`, `url.PathUnescape`, `strings.TrimSpace`, `strings.Split` and the number parsers are
  written out.
* `strconv.Atoi` is taken to read 64-bit integers, as on a 64-bit host.
* The Unix-socket client, the WebSocket library, the HTTP mux, the bearer token, the health endpoint,
  configuration and logging.  A timeout is a cancellation; a failed write is a write attempt.
* The exchange behind `Client.Execute`: it may fail, or answer anything.  Except in `ProxyClient` the
  theorems allow any answer at all, nil included.
* The host side of network requests inside the server's machine is reduced to its outcome; what `Apply` does
  is modelled on its own.
* What the client sends for a raw path that holds a `#`: calls are recorded with the raw path.
* Delivery order of events at a client: every write has its own goroutine, so the code promises none.
* Capability detection and forwarding flags, the versions and timestamps of a report: no property beyond
  reading one body.
* Randomness quality, file permissions, and the time format: the timestamp in the identity file is taken to
  read back as it was written.  `newUUID` panics when the random source fails; only runs in which it does not
  are modelled.
* Fairness: the theorems say what every finite run keeps, that requests are short and that none is ever stuck,
  not that the scheduler will take the next step or that Incus will answer.
