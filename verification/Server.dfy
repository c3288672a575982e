/** The server's shared state as the code updates it.  Each method is one stretch of code between
    two points where goroutines interleave; its contract says which steps of the two machines it
    performs.  A valid server is in a reachable state of both machines, so their theorems hold of it. */
module Server {
  import opened Strings
  import opened Incus
  import opened Programs
  import opened ReadPaths
  import opened Handlers
  import opened Requests
  import opened RequestsTheorems
  import opened ServerTheorems
  import opened ServerReplies
  import Events

  function Handed(attempts: seq<Attempt>): (replies: seq<(Client, Reply)>)
    ensures |replies| == |attempts|
  {
    seq(|attempts|, i requires 0 <= i < |attempts| => (attempts[i].client, attempts[i].reply))
  }

  class Server {
    const cfg: Config
    var clients: set<Client>                  // s.clients, guarded by s.mu
    var messageCount: nat                     // messages read so far
    var contextsDone: set<nat>                // the requests whose context is done
    var replies: seq<(Client, Reply)>         // what was handed to conn.Write for requests
    var listeners: seq<Events.Listener>       // the listenEvents goroutines, in order of start
    var eventCh: seq<Events.Notice>           // the buffered channel
    var forwarding: bool                      // forwardEvents has not returned
    var stopping: bool                        // the server's own context is done
    var broadcastCount: nat
    var eventWriters: set<(nat, Client)>      // write goroutines started by broadcasts, not yet done
    var eventWrites: seq<(nat, Client)>       // the writes they attempted
    ghost const machine: Machine              // how this server treats messages
    ghost var requests: Requests.State
    ghost var events: Events.State

    ghost predicate ValidRequests()
      reads this`clients, this`messageCount, this`contextsDone, this`replies, this`requests
    {
      && clients == requests.readers.Keys
      && messageCount == |requests.received|
      && contextsDone == requests.cancelled
      && replies == Handed(requests.attempts)
      && Requests.Reachable(machine, requests)
    }

    ghost predicate ValidEvents()
      reads this`clients, this`listeners, this`eventCh, this`forwarding, this`stopping
      reads this`broadcastCount, this`eventWriters, this`eventWrites, this`events
    {
      && clients == events.clients
      && listeners == events.listeners
      && eventCh == events.channel
      && forwarding == events.forwarding && stopping == events.cancelled
      && broadcastCount == |events.broadcasts|
      && eventWriters == events.pending
      && eventWrites == events.written
      && Events.Reachable(events)
    }

    /** The machine is that of the configuration; both are constant. */
    ghost predicate Configured() {
      machine == MachineOf(cfg)
    }

    /** Methods for requests keep one half and methods for events the other; neither touches a field
        the other half reads. */
    ghost predicate Valid()
      reads this
    {
      Configured() && ValidRequests() && ValidEvents()
    }

    constructor (cfg: Config)
      ensures Valid() && this.cfg == cfg
      ensures requests == Requests.INITIAL && events == Events.INITIAL
    {
      this.cfg, this.machine := cfg, MachineOf(cfg);
      clients, messageCount, contextsDone, replies := {}, 0, {}, [];
      listeners, eventCh, forwarding, stopping := [Events.Reading], [], true, false;
      broadcastCount, eventWriters, eventWrites := 0, {}, [];
      requests, events := Requests.INITIAL, Events.INITIAL;
      new;
      Requests.InitialIsReachable(machine);
      Events.InitialIsReachable();
    }

    ghost method StepRequests(step: Requests.Step)
      requires Requests.Reachable(machine, requests) && Requests.Enabled(requests, step)
      modifies this`requests
      ensures requests == Requests.Next(machine, old(requests), step)
      ensures Requests.Reachable(machine, requests)
    {
      Requests.StaysReachable(machine, requests, step);
      requests := Requests.Next(machine, requests, step);
    }

    ghost method StepEvents(step: Events.Step)
      requires Events.Reachable(events) && Events.Enabled(events, step)
      modifies this`events
      ensures events == Events.Next(old(events), step)
      ensures Events.Reachable(events)
    {
      Events.StaysReachable(events, step);
      events := Events.Next(events, step);
    }

    // ---------------------------------------------------------------- connections

    /** handleWebSocket: the connection joins before its first read */
    method Register(c: Client)
      requires Valid() && c !in clients
      modifies this
      ensures Valid() && clients == old(clients) + {c}
      ensures requests == Requests.Next(machine, old(requests), Connect(c))
      ensures events == Events.Next(old(events), Events.Join(c))
    {
      clients := clients + {c};
      StepRequests(Connect(c));
      StepEvents(Events.Join(c));
    }

    /** handleWebSocket's deferred cleanup, when readLoop has returned */
    method Unregister(c: Client)
      requires Valid() && Requests.Enabled(requests, Disconnect(c))
      modifies this
      ensures Valid() && clients == old(clients) - {c}
      ensures requests == Requests.Next(machine, old(requests), Disconnect(c))
      ensures events == Events.Next(old(events), Events.Leave(c))
    {
      clients := clients - {c};
      StepRequests(Disconnect(c));
      StepEvents(Events.Leave(c));
    }

    /** One turn of readLoop after conn.Read has returned a message; the number it is given. */
    method ReadMessage(c: Client, message: Message) returns (n: nat, spawned: bool)
      requires Configured() && ValidRequests() && Requests.Enabled(requests, Read(c, message))
      modifies this`requests, this`messageCount, this`replies
      ensures ValidRequests() && (old(ValidEvents()) ==> ValidEvents())
      ensures n == old(messageCount) && spawned == IsValid(cfg, message)
      ensures var mid := Requests.Next(machine, old(requests), Read(c, message));
              if spawned then requests == mid
              else Requests.Enabled(mid, Reject(c)) && requests == Requests.Next(machine, mid, Reject(c))
    {
      n := messageCount;
      messageCount := messageCount + 1;
      StepRequests(Read(c, message));
      assert requests.readers.Keys == clients;
      var refusal := Validate(message);
      if refusal.Some? {
        SendProtocolError(c, n, refusal.value);
      }
      spawned := refusal.None?;
    }

    /** The protocol error a message is answered with, if it does not pass validation. */
    method Validate(message: Message) returns (refusal: Option<Reply>)
      ensures refusal.None? <==> IsValid(cfg, message)
      ensures refusal.Some? ==> refusal.value == ProtocolError(cfg, message)
    {
      if message.Malformed? {
        return Some(Reply("", BAD_REQUEST, NoBody, "invalid request"));
      }
      var req := message.req;
      var error := ValidateProxyRequest(cfg.parse, req.id, req.verb, req.path);
      if error.None? {
        return None;
      }
      return Some(Reply(req.id, BAD_REQUEST, NoBody, error.value));
    }

    method SendProtocolError(c: Client, ghost n: nat, reply: Reply)
      requires ValidRequests() && c in requests.readers && requests.readers[c] == Rejecting(n, reply)
      modifies this`requests, this`replies
      ensures ValidRequests() && (old(ValidEvents()) ==> ValidEvents())
      ensures replies == old(replies) + [(c, reply)]
      ensures requests == Requests.Next(machine, old(requests), Reject(c))
    {
      replies := replies + [(c, reply)];
      StepRequests(Reject(c));
      assert replies == Handed(requests.attempts);
      assert requests.readers.Keys == clients;
    }

    // ---------------------------------------------------------------- one request's goroutine

    /** The context of request `n` is done: its timeout, or the end of its connection. */
    method CancelRequest(n: nat)
      requires ValidRequests() && Requests.Enabled(requests, Cancel(n))
      modifies this`requests, this`contextsDone
      ensures ValidRequests() && (old(ValidEvents()) ==> ValidEvents())
      ensures requests == Requests.Next(machine, old(requests), Cancel(n))
    {
      contextsDone := contextsDone + {n};
      StepRequests(Cancel(n));
    }

    /** ctx.Err() != nil, asked by the goroutine of request `n` */
    method PollContext(n: nat) returns (cancelled: bool)
      requires ValidRequests() && Requests.Enabled(requests, DoPoll(n))
      modifies this`requests
      ensures ValidRequests() && (old(ValidEvents()) ==> ValidEvents())
      ensures cancelled == (n in contextsDone)
      ensures requests == Requests.Next(machine, old(requests), DoPoll(n))
      ensures requests.trace == old(requests.trace) + [(n, Polled(cancelled))]
    {
      cancelled := n in contextsDone;
      StepRequests(DoPoll(n));
    }

    /** s.incus.Execute, called by the goroutine of request `n`; `answer` is what comes back. */
    method Execute(ghost n: nat, ghost kind: CallKind, req: Request, answer: Answer) returns (resp: Answer)
      requires ValidRequests() && Requests.Enabled(requests, DoCall(n, kind, req, answer))
      modifies this`requests
      ensures ValidRequests() && (old(ValidEvents()) ==> ValidEvents())
      ensures resp == answer
      ensures requests == Requests.Next(machine, old(requests), DoCall(n, kind, req, answer))
      ensures requests.trace == old(requests.trace) + [(n, Called(kind, req, answer))]
    {
      StepRequests(DoCall(n, kind, req, answer));
      return answer;
    }

    /** writeResponse, called by the goroutine of message `n` with the response it ended with. */
    method WriteResponse(ghost n: nat, c: Client, id: Text, resp: Option<Reply>, marshals: bool)
      requires ValidRequests() && Requests.Enabled(requests, Finish(n, marshals))
      requires requests.received[n].client == c && MessageID(requests.received[n].message) == id
      requires resp == ResponseOf(id, requests.tasks[n])
      modifies this`requests, this`replies
      ensures ValidRequests() && (old(ValidEvents()) ==> ValidEvents())
      ensures replies == old(replies) + [(c, Written(id, resp, marshals))]
      ensures requests == Requests.Next(machine, old(requests), Finish(n, marshals))
    {
      var reply := Reply(id, INTERNAL_ERROR, NoBody, "empty response");
      if resp.Some? {
        reply := resp.value;
        if !marshals {
          reply := Reply(id, INTERNAL_ERROR, NoBody, "marshal response");
        }
      }
      replies := replies + [(c, reply)];
      StepRequests(Finish(n, marshals));
      assert replies == Handed(requests.attempts);
    }

    /** handleRequest for a request passed through to Incus, when nothing runs in between. */
    method ForwardRequest(ghost n: nat, c: Client, req: AgentRequest, answer: Answer, marshals: bool)
      requires Configured() && ValidRequests() && n < |requests.received| && n in requests.tasks
      requires requests.received[n] == Incoming(c, Decoded(req)) && requests.tasks[n] == StartTask(cfg, req)
      requires !IsAgentRequest(req.path)
      modifies this`requests, this`replies
      ensures ValidRequests() && (old(ValidEvents()) ==> ValidEvents())
      ensures n !in requests.tasks
      ensures requests.trace == old(requests.trace) + [(n, Called(ForwardCall, ForwardedRequest(req), answer))]
      ensures |replies| == |old(replies)| + 1 && replies[..|old(replies)|] == old(replies)
      ensures replies[|old(replies)|].0 == c
      ensures IsPassedOn(replies[|old(replies)|].1, req.id, answer, marshals)
    {
      StartedPrograms(cfg, req);
      ForwardedOnce(req, answer);
      var resp := Execute(n, ForwardCall, ForwardedRequest(req), answer);
      assert requests.tasks[n] == Forwarding(Return(answer));
      WriteResponse(n, c, req.id, PassedThrough(resp), marshals);
      PassedOn(req.id, answer, marshals);
    }

    // ---------------------------------------------------------------- events

    /** ListenEvents: a message was read and decoded */
    method ReceiveEvent(l: nat, event: Events.Notice)
      requires ValidEvents() && Events.Enabled(events, Events.Receive(l, event))
      modifies this`events, this`listeners
      ensures ValidEvents() && (old(ValidRequests()) ==> ValidRequests())
      ensures events == Events.Next(old(events), Events.Receive(l, event))
    {
      listeners := listeners[l := Events.Sending(event)];
      StepEvents(Events.Receive(l, event));
    }

    /** ListenEvents returned an error: the goroutine waits before it retries */
    method ListenFails(l: nat)
      requires ValidEvents() && Events.Enabled(events, Events.ListenFails(l))
      modifies this`events, this`listeners
      ensures ValidEvents() && (old(ValidRequests()) ==> ValidRequests())
      ensures events == Events.Next(old(events), Events.ListenFails(l))
    {
      listeners := listeners[l := Events.BackingOff];
      StepEvents(Events.ListenFails(l));
    }

    /** ch <- event, possible only while the buffer has room */
    method SendEvent(l: nat)
      requires ValidEvents() && Events.Enabled(events, Events.Send(l))
      modifies this`events, this`listeners, this`eventCh
      ensures ValidEvents() && (old(ValidRequests()) ==> ValidRequests())
      ensures events == Events.Next(old(events), Events.Send(l))
    {
      eventCh := eventCh + [listeners[l].event];
      listeners := listeners[l := Events.Reading];
      StepEvents(Events.Send(l));
    }

    /** <-ctx.Done() while sending: the event is dropped and ListenEvents returns */
    method AbandonSend(l: nat)
      requires ValidEvents() && Events.Enabled(events, Events.SendCancelled(l))
      modifies this`events, this`listeners
      ensures ValidEvents() && (old(ValidRequests()) ==> ValidRequests())
      ensures events == Events.Next(old(events), Events.SendCancelled(l))
    {
      listeners := listeners[l := Events.BackingOff];
      StepEvents(Events.SendCancelled(l));
    }

    /** listenEvents: time to retry, in a goroutine of its own */
    method RetryListening(l: nat)
      requires ValidEvents() && Events.Enabled(events, Events.Retry(l))
      modifies this`events, this`listeners
      ensures ValidEvents() && (old(ValidRequests()) ==> ValidRequests())
      ensures events == Events.Next(old(events), Events.Retry(l))
    {
      listeners := listeners[l := Events.Gone] + [Events.Reading];
      StepEvents(Events.Retry(l));
    }

    /** listenEvents: the context was done before the retry */
    method GiveUpListening(l: nat)
      requires ValidEvents() && Events.Enabled(events, Events.GiveUp(l))
      modifies this`events, this`listeners
      ensures ValidEvents() && (old(ValidRequests()) ==> ValidRequests())
      ensures events == Events.Next(old(events), Events.GiveUp(l))
    {
      listeners := listeners[l := Events.Gone];
      StepEvents(Events.GiveUp(l));
    }

    /** The server's context is done. */
    method Stop()
      requires ValidEvents()
      modifies this`events, this`stopping
      ensures ValidEvents() && (old(ValidRequests()) ==> ValidRequests())
      ensures events == Events.Next(old(events), Events.CancelAll)
    {
      stopping := true;
      StepEvents(Events.CancelAll);
    }

    /** forwardEvents returns once the context is done */
    method StopForwarding()
      requires ValidEvents() && Events.Enabled(events, Events.StopForwarding)
      modifies this`events, this`forwarding
      ensures ValidEvents() && (old(ValidRequests()) ==> ValidRequests())
      ensures events == Events.Next(old(events), Events.StopForwarding)
    {
      forwarding := false;
      StepEvents(Events.StopForwarding);
    }

    /** One turn of forwardEvents: receive from the channel, then broadcast. */
    method ForwardEvent(marshals: bool)
      requires ValidEvents() && Events.Enabled(events, Events.Take)
      modifies this`events, this`eventCh, this`broadcastCount, this`eventWriters
      ensures ValidEvents() && (old(ValidRequests()) ==> ValidRequests())
      ensures var taken := Events.Next(old(events), Events.Take);
              Events.Enabled(taken, Events.DoBroadcast(marshals))
              && events == Events.Next(taken, Events.DoBroadcast(marshals))
    {
      var event := eventCh[0];
      eventCh := eventCh[1..];
      StepEvents(Events.Take);
      BroadcastEvent(event, marshals);
    }

    /** broadcastEvent: a snapshot of the clients, then one write goroutine for each. */
    method BroadcastEvent(event: Events.Notice, marshals: bool)
      requires ValidEvents() && events.hand == Some(event)
      modifies this`events, this`broadcastCount, this`eventWriters
      ensures ValidEvents() && (old(ValidRequests()) ==> ValidRequests())
      ensures events == Events.Next(old(events), Events.DoBroadcast(marshals))
    {
      var snapshot := Snapshot();
      var k := broadcastCount;
      broadcastCount := broadcastCount + 1;
      if marshals {
        StartWriters(k, snapshot);
      }
      StepEvents(Events.DoBroadcast(marshals));
    }

    /** The clients, in whatever order the map is walked. */
    method Snapshot() returns (snapshot: seq<Client>)
      ensures forall c :: c in snapshot <==> c in clients
    {
      snapshot := [];
      var rest := clients;
      while rest != {}
        invariant rest <= clients
        invariant forall c :: c in snapshot <==> c in clients - rest
        decreases rest
      {
        var c :| c in rest;
        snapshot, rest := snapshot + [c], rest - {c};
      }
    }

    method StartWriters(k: nat, snapshot: seq<Client>)
      requires forall c :: c in snapshot <==> c in clients
      modifies this`eventWriters
      ensures eventWriters == old(eventWriters) + Events.Writers(k, clients)
    {
      var i := 0;
      while i < |snapshot|
        invariant 0 <= i <= |snapshot|
        invariant eventWriters == old(eventWriters) + (set c | c in snapshot[..i] :: (k, c))
      {
        eventWriters := eventWriters + {(k, snapshot[i])};
        i := i + 1;
      }
      assert snapshot[..i] == snapshot;
      assert (set c | c in snapshot :: (k, c)) == Events.Writers(k, clients);
    }

    /** One write goroutine of a broadcast: a single attempt, whether or not the client is still there. */
    method WriteEvent(k: nat, c: Client)
      requires ValidEvents() && Events.Enabled(events, Events.Write(k, c))
      modifies this`events, this`eventWriters, this`eventWrites
      ensures ValidEvents() && (old(ValidRequests()) ==> ValidRequests())
      ensures events == Events.Next(old(events), Events.Write(k, c))
    {
      eventWriters := eventWriters - {(k, c)};
      eventWrites := eventWrites + [(k, c)];
      StepEvents(Events.Write(k, c));
    }

    /** One event's way through listener, channel and forwarder, when nothing runs in between. */
    method RelayEvent(l: nat, event: Events.Notice, marshals: bool)
      requires ValidEvents() && Events.Enabled(events, Events.Receive(l, event))
      requires eventCh == [] && forwarding && events.hand.None?
      modifies this`events, this`listeners, this`eventCh, this`broadcastCount, this`eventWriters
      ensures ValidEvents() && (old(ValidRequests()) ==> ValidRequests())
      ensures eventCh == [] && listeners == old(listeners)
      ensures events.sent == old(events.sent) + [event]
      ensures events.broadcasts == old(events.broadcasts) + [Events.Broadcast(event, clients, marshals)]
    {
      Events.RelayedSteps(events, l, event, marshals);
      ReceiveEvent(l, event);
      SendEvent(l);
      ForwardEvent(marshals);
    }
  }

  // ---------------------------------------------------------------- what holds of every valid server

  function CountReplies(replies: seq<(Client, Reply)>, c: Client): nat {
    if replies == [] then 0
    else CountReplies(replies[..|replies| - 1], c) + (if replies[|replies| - 1].0 == c then 1 else 0)
  }

  lemma {:induction false} CountHanded(attempts: seq<Attempt>, c: Client)
    ensures CountReplies(Handed(attempts), c) == CountAttempts(attempts, c)
  {
    if attempts != [] {
      CountHanded(attempts[..|attempts| - 1], c);
      assert Handed(attempts)[..|attempts| - 1] == Handed(attempts[..|attempts| - 1]);
    }
  }

  /** Per connection, the messages read are those answered, those in flight, and one whose protocol
      error is being written. */
  lemma ServerConservesReplies(server: Server, c: Client)
    requires server.ValidRequests()
    ensures CountReceived(server.requests.received, c) ==
            CountReplies(server.replies, c) + |InFlight(server.requests, c)| + Rejections(server.requests, c)
    ensures |server.requests.received| == server.messageCount
  {
    RepliesAreConserved(server.machine, server.requests);
    CountHanded(server.requests.attempts, c);
  }

  /** Nothing is lost or reordered between what the listeners sent and what was broadcast, and the
      channel stays within its buffer. */
  lemma ServerKeepsEventOrder(server: Server)
    requires server.ValidEvents()
    ensures Events.EventsOf(server.events.broadcasts) + Events.InHand(server.events) + server.eventCh
              == server.events.sent
    ensures |server.eventCh| <= 64
    ensures forall i, j | 0 <= i < |server.listeners| && 0 <= j < |server.listeners| ::
              !server.listeners[i].Gone? && !server.listeners[j].Gone? ==> i == j
  {
    Events.PipelineKeepsOrder(server.events);
    Events.ListenerIsUnique(server.events);
  }

  /** Every event write attempted is for a client of its broadcast's snapshot, and none is repeated. */
  lemma ServerWritesOnce(server: Server, i: nat)
    requires server.ValidEvents() && i < |server.eventWrites|
    ensures var (k, c) := server.eventWrites[i];
            k < server.broadcastCount && c in Events.Audience(server.events.broadcasts[k])
    ensures forall j | 0 <= j < |server.eventWrites| && j != i :: server.eventWrites[j] != server.eventWrites[i]
  {
    var steps :| Events.Reaches(Events.INITIAL, steps, server.events);
    Events.ReachedIsSound(steps, server.events);
  }

  /** Each client of a broadcast's snapshot has a write goroutine, or its one attempt was made. */
  lemma ServerReachesSnapshot(server: Server, k: nat, c: Client)
    requires server.ValidEvents() && k < server.broadcastCount
    ensures c in Events.Audience(server.events.broadcasts[k]) <==>
              (k, c) in server.eventWriters || (k, c) in server.eventWrites
    ensures !((k, c) in server.eventWriters && (k, c) in server.eventWrites)
  {
    var steps :| Events.Reaches(Events.INITIAL, steps, server.events);
    Events.ReachedIsSound(steps, server.events);
    assert Events.Attempted(server.events, k, c) <==> (k, c) in server.eventWrites;
  }

  /** Every call the server's goroutines made to Incus was allowed for the message it served. */
  lemma ServerCallsAreAllowed(server: Server, i: nat)
    requires server.Configured() && server.ValidRequests() && i < |server.requests.trace|
               && server.requests.trace[i].1.Called?
    ensures var (n, e) := server.requests.trace[i];
            && n < server.messageCount
            && IsAllowedCall(server.cfg, server.requests.received[n].message, LocalLog(server.requests.trace, n),
                             e.kind, e.req)
  {
    EveryCallIsAllowed(server.cfg, server.requests, i);
  }
}
