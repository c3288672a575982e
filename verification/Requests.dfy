/** The server's request handling as a machine of interleaved steps: one reader per connection and
    one goroutine per request in flight, against a backend that may answer anything. */
module Requests {
  import opened Incus
  import opened Programs
  import opened Handlers

  /** How messages are treated: which get a goroutine, what it does, and how others are refused. */
  datatype Machine = Machine(valid: Message -> bool, start: Message -> Task, refuse: Message -> Reply)

  type Client = nat

  datatype Incoming = Incoming(client: Client, message: Message)

  /** A connection's reader: waiting for the next message, or writing a protocol error first. */
  datatype Reader = Idle | Rejecting(n: nat, reply: Reply)

  /** One attempt to write a reply to message number `n`. */
  datatype Attempt = Attempt(n: nat, client: Client, reply: Reply)

  datatype State = State(
    received: seq<Incoming>,           // every message read, in order; its index is its number
    readers: map<Client, Reader>,    // the open connections
    tasks: map<nat, Task>,           // the goroutines in flight, by message number
    cancelled: set<nat>,             // those whose context is done
    trace: seq<(nat, Event)>,        // what every goroutine did, interleaved
    attempts: seq<Attempt>)

  const INITIAL := State([], map[], map[], {}, [], [])

  datatype Step =
    | Connect(client: Client)
    | Disconnect(client: Client)
    | Read(client: Client, message: Message)
    | Reject(client: Client)
    | Cancel(n: nat)
    | DoPoll(n: nat)
    | DoCall(n: nat, kind: CallKind, req: Request, answer: Answer)
    | Finish(n: nat, marshals: bool)

  ghost predicate Enabled(s: State, step: Step) {
    match step
    case Connect(c) => c !in s.readers
    case Disconnect(c) => c in s.readers && s.readers[c].Idle?
    case Read(c, _) => c in s.readers && s.readers[c].Idle?
    case Reject(c) => c in s.readers && s.readers[c].Rejecting?
    case Cancel(n) => n in s.tasks
    case DoPoll(n) => n in s.tasks && Polls(s.tasks[n])
    case DoCall(n, kind, req, _) => n in s.tasks && CallsNow(s.tasks[n], kind, req)
    case Finish(n, _) => n in s.tasks && n < |s.received| && Returned(s.tasks[n])
  }

  ghost function Advance(s: State, n: nat, e: Event): State
    requires n in s.tasks && TaskAfter(s.tasks[n], [e]).Some?
  {
    s.(tasks := s.tasks[n := TaskAfter(s.tasks[n], [e]).value], trace := s.trace + [(n, e)])
  }

  ghost function Next(h: Machine, s: State, step: Step): State
    requires Enabled(s, step)
  {
    match step
    case Connect(c) => s.(readers := s.readers[c := Idle])
    case Disconnect(c) => s.(readers := s.readers - {c})
    case Read(c, m) =>
      var n := |s.received|;
      var s := s.(received := s.received + [Incoming(c, m)]);
      if h.valid(m) then s.(tasks := s.tasks[n := h.start(m)])
      else s.(readers := s.readers[c := Rejecting(n, h.refuse(m))])
    case Reject(c) =>
      s.(readers := s.readers[c := Idle], attempts := s.attempts + [Attempt(s.readers[c].n, c, s.readers[c].reply)])
    case Cancel(n) => s.(cancelled := s.cancelled + {n})
    case DoPoll(n) =>
      var e := Polled(n in s.cancelled);
      OneEvent(s.tasks[n], e);
      Advance(s, n, e)
    case DoCall(n, kind, req, answer) =>
      var e := Called(kind, req, answer);
      OneEvent(s.tasks[n], e);
      Advance(s, n, e)
    case Finish(n, marshals) =>
      var incoming := s.received[n];
      var id := MessageID(incoming.message);
      s.(tasks := s.tasks - {n},
         attempts := s.attempts + [Attempt(n, incoming.client, Written(id, ResponseOf(id, s.tasks[n]), marshals))])
  }

  /** The states after some finite sequence of enabled steps. */
  ghost predicate Reaches(h: Machine, s: State, steps: seq<Step>, t: State)
    decreases |steps|
  {
    if steps == [] then s == t
    else
      var last := steps[|steps| - 1];
      exists mid :: Reaches(h, s, steps[..|steps| - 1], mid) && Enabled(mid, last) && t == Next(h, mid, last)
  }

  ghost predicate Reachable(h: Machine, t: State) {
    exists steps :: Reaches(h, INITIAL, steps, t)
  }

  lemma InitialIsReachable(h: Machine)
    ensures Reachable(h, INITIAL)
  {
    assert Reaches(h, INITIAL, [], INITIAL);
  }

  /** One more step stays reachable. */
  lemma StaysReachable(h: Machine, s: State, step: Step)
    requires Reachable(h, s) && Enabled(s, step)
    ensures Reachable(h, Next(h, s, step))
  {
    var steps :| Reaches(h, INITIAL, steps, s);
    var more := steps + [step];
    var last := more[|more| - 1];
    assert more[..|more| - 1] == steps;
    assert Reaches(h, INITIAL, more[..|more| - 1], s) && Enabled(s, last) && Next(h, s, step) == Next(h, s, last);
    assert Reaches(h, INITIAL, more, Next(h, s, step));
  }
}
