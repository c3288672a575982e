/** The messages exchanged with the Incus daemon.  A response body is kept as its bytes together
    with what each JSON decoder of the agent reads from them. */
module Incus {
  import opened Strings

  type Device = map<Text, Text>
  type Devices = map<Text, Device>

  /** Reading a Go map with a missing key gives the empty string. */
  function Field(device: Device, key: Text): Text {
    if key in device then device[key] else ""
  }

  /** The JSON body of a request: none, forwarded bytes, or one the agent builds. */
  datatype Payload =
    | NoPayload
    | Forwarded(bytes: Text)
    | StateChange(action: Text, force: bool)
    | InstanceCreate(name: Text, kind: Text, sourceKind: Text, alias: Text, config: map<Text, Text>, devices: Devices)

  datatype Request = Request(id: Text, verb: Text, path: Text, body: Payload)

  /** The decoded views of one body.  `envelope` holds what the decoder filled in even when
      decoding then failed; the flags say whether it failed. */
  datatype Body = Body(
    bytes: Text,
    operation: Text, statusCode: int, envelopeOk: bool,
    devices: Option<Devices>, profileOk: bool,
    listLength: Option<nat>, operations: Option<map<Text, nat>>)

  datatype Response = Response(id: Text, status: int, body: Body, error: string)

  /** What a backend answers; `None` is Go's nil response. */
  type Answer = Option<Response>

  predicate Is2xx(status: int) {
    200 <= status < 300
  }

  const OK := 200
  const ACCEPTED := 202
  const BAD_REQUEST := 400
  const NOT_FOUND := 404
  const CONFLICT := 409
  const INTERNAL_ERROR := 500
  const BAD_GATEWAY := 502
  const UNAVAILABLE := 503

  /** The success statuses are those of the 200 class. */
  lemma SuccessStatuses(status: int)
    ensures Is2xx(status) <==> status / 100 == 2
  {
  }

  /** A key that is absent reads as the empty string, and only then or when it was set to it. */
  lemma FieldMeaning(device: Device, key: Text, value: Text)
    ensures value != [] ==> (Field(device, key) == value <==> key in device && device[key] == value)
    ensures Field(device, key) == [] <==> key !in device || device[key] == []
  {
  }
}
