/** The event pipeline as a machine of interleaved steps: a listener that retries, a bounded
    channel, one forwarder, and one write goroutine per client and broadcast. */
module Events {
  import opened Strings

  datatype Notice = Notice(kind: Text, data: Text)

  type Client = nat

  const CHANNEL_CAPACITY := 64

  /** A listenEvents goroutine: inside ListenEvents reading or sending, waiting to retry, ended. */
  datatype Listener = Reading | Sending(event: Notice) | BackingOff | Gone

  /** One broadcast: the event, the clients in the snapshot, and whether the event marshalled. */
  datatype Broadcast = Broadcast(event: Notice, audience: set<Client>, marshals: bool)

  datatype State = State(
    clients: set<Client>,
    listeners: seq<Listener>,
    channel: seq<Notice>,
    hand: Option<Notice>,                // received by the forwarder, not yet broadcast
    forwarding: bool,
    cancelled: bool,
    sent: seq<Notice>,                   // everything ever put on the channel
    broadcasts: seq<Broadcast>,
    pending: set<(nat, Client)>,         // write goroutines not yet done
    written: seq<(nat, Client)>)         // write attempts, in order

  const INITIAL := State({}, [Reading], [], None, true, false, [], [], {}, [])

  datatype Step =
    | Join(client: Client)
    | Leave(client: Client)
    | CancelAll
    | Receive(l: nat, event: Notice)     // a message was read and decoded
    | ListenFails(l: nat)                // dialing, reading or decoding failed
    | Send(l: nat)
    | SendCancelled(l: nat)
    | Retry(l: nat)
    | GiveUp(l: nat)
    | Take
    | DoBroadcast(marshals: bool)
    | StopForwarding
    | Write(k: nat, client: Client)

  predicate Enabled(s: State, step: Step) {
    match step
    case Join(c) => c !in s.clients
    case Leave(c) => c in s.clients
    case CancelAll => true
    case Receive(l, _) => l < |s.listeners| && s.listeners[l].Reading?
    case ListenFails(l) => l < |s.listeners| && s.listeners[l].Reading?
    case Send(l) => l < |s.listeners| && s.listeners[l].Sending? && |s.channel| < CHANNEL_CAPACITY
    case SendCancelled(l) => l < |s.listeners| && s.listeners[l].Sending? && s.cancelled
    case Retry(l) => l < |s.listeners| && s.listeners[l].BackingOff?
    case GiveUp(l) => l < |s.listeners| && s.listeners[l].BackingOff? && s.cancelled
    case Take => s.forwarding && s.hand.None? && s.channel != []
    case DoBroadcast(_) => s.hand.Some?
    case StopForwarding => s.forwarding && s.hand.None? && s.cancelled
    case Write(k, c) => (k, c) in s.pending
  }

  function Writers(k: nat, audience: set<Client>): set<(nat, Client)> {
    set c | c in audience :: (k, c)
  }

  function Next(s: State, step: Step): State
    requires Enabled(s, step)
  {
    match step
    case Join(c) => s.(clients := s.clients + {c})
    case Leave(c) => s.(clients := s.clients - {c})
    case CancelAll => s.(cancelled := true)
    case Receive(l, e) => s.(listeners := s.listeners[l := Sending(e)])
    case ListenFails(l) => s.(listeners := s.listeners[l := BackingOff])
    case Send(l) =>
      var e := s.listeners[l].event;
      s.(listeners := s.listeners[l := Reading], channel := s.channel + [e], sent := s.sent + [e])
    case SendCancelled(l) => s.(listeners := s.listeners[l := BackingOff])
    case Retry(l) => s.(listeners := s.listeners[l := Gone] + [Reading])
    case GiveUp(l) => s.(listeners := s.listeners[l := Gone])
    case Take => s.(hand := Some(s.channel[0]), channel := s.channel[1..])
    case DoBroadcast(marshals) =>
      s.(hand := None,
         broadcasts := s.broadcasts + [Broadcast(s.hand.value, s.clients, marshals)],
         pending := s.pending + (if marshals then Writers(|s.broadcasts|, s.clients) else {}))
    case StopForwarding => s.(forwarding := false)
    case Write(k, c) => s.(pending := s.pending - {(k, c)}, written := s.written + [(k, c)])
  }

  ghost predicate Reaches(s: State, steps: seq<Step>, t: State)
    decreases |steps|
  {
    if steps == [] then s == t
    else
      var last := steps[|steps| - 1];
      exists mid :: Reaches(s, steps[..|steps| - 1], mid) && Enabled(mid, last) && t == Next(mid, last)
  }

  ghost predicate Reachable(t: State) {
    exists steps :: Reaches(INITIAL, steps, t)
  }

  lemma InitialIsReachable()
    ensures Reachable(INITIAL)
  {
    assert Reaches(INITIAL, [], INITIAL);
  }

  /** One more step stays reachable. */
  lemma StaysReachable(s: State, step: Step)
    requires Reachable(s) && Enabled(s, step)
    ensures Reachable(Next(s, step))
  {
    var steps :| Reaches(INITIAL, steps, s);
    var more := steps + [step];
    var last := more[|more| - 1];
    assert more[..|more| - 1] == steps;
    assert Reaches(INITIAL, more[..|more| - 1], s) && Enabled(s, last) && Next(s, step) == Next(s, last);
    assert Reaches(INITIAL, more, Next(s, step));
  }

  /** The steps one event takes when nothing runs in between, and all they change. */
  lemma RelayedSteps(s: State, l: nat, event: Notice, marshals: bool)
    requires Enabled(s, Receive(l, event)) && s.channel == [] && s.forwarding && s.hand.None?
    ensures var s1 := Next(s, Receive(l, event));
            Enabled(s1, Send(l)) &&
            var s2 := Next(s1, Send(l));
            Enabled(s2, Take) &&
            var s3 := Next(s2, Take);
            Enabled(s3, DoBroadcast(marshals)) &&
            Next(s3, DoBroadcast(marshals)) ==
            s.(sent := s.sent + [event],
               broadcasts := s.broadcasts + [Broadcast(event, s.clients, marshals)],
               pending := s.pending + (if marshals then Writers(|s.broadcasts|, s.clients) else {}))
  {
  }

  // ---------------------------------------------------------------- invariants

  function EventsOf(broadcasts: seq<Broadcast>): seq<Notice> {
    if broadcasts == [] then [] else EventsOf(broadcasts[..|broadcasts| - 1]) + [broadcasts[|broadcasts| - 1].event]
  }

  function InHand(s: State): seq<Notice> {
    if s.hand.None? then [] else [s.hand.value]
  }

  /** Nothing is lost, duplicated or reordered between the listener and the broadcasts. */
  predicate InOrder(s: State) {
    && EventsOf(s.broadcasts) + InHand(s) + s.channel == s.sent
    && |s.channel| <= CHANNEL_CAPACITY
  }

  predicate Listening(l: Listener) {
    l.Reading? || l.Sending?
  }

  /** Every listener goroutine but the newest has ended; the newest lives on until cancellation. */
  predicate OneListener(s: State) {
    && s.listeners != []
    && (forall i | 0 <= i < |s.listeners| - 1 :: s.listeners[i].Gone?)
    && (!s.cancelled ==> !s.listeners[|s.listeners| - 1].Gone?)
  }

  /** The clients a broadcast is written to: the whole snapshot, or nobody if it did not marshal. */
  function Audience(b: Broadcast): set<Client> {
    if b.marshals then b.audience else {}
  }

  predicate Attempted(s: State, k: nat, c: Client) {
    exists i | 0 <= i < |s.written| :: s.written[i] == (k, c)
  }

  /** Per broadcast, each client of the snapshot has one write: still to come, or attempted once. */
  ghost predicate OneWriteEach(s: State) {
    && (forall k, c | (k, c) in s.pending ::
        k < |s.broadcasts| && c in Audience(s.broadcasts[k]) && !Attempted(s, k, c))
    && (forall i | 0 <= i < |s.written| ::
          s.written[i].0 < |s.broadcasts| && s.written[i].1 in Audience(s.broadcasts[s.written[i].0]))
    && (forall i, j | 0 <= i < j < |s.written| :: s.written[i] != s.written[j])
    && (forall k, c | 0 <= k < |s.broadcasts| && c in Audience(s.broadcasts[k]) ::
        (k, c) in s.pending || Attempted(s, k, c))
  }

  ghost predicate Sound(s: State) {
    InOrder(s) && OneListener(s) && OneWriteEach(s)
  }

  lemma SentAndQueued(a: seq<Notice>, b: seq<Notice>, e: Notice)
    ensures a + (b + [e]) == a + b + [e]
  {
  }

  lemma TakenFromQueue(a: seq<Notice>, b: seq<Notice>)
    requires b != []
    ensures a + [] + b == a + [b[0]] + b[1..]
  {
  }

  lemma BroadcastInOrder(s: State, marshals: bool)
    requires InOrder(s) && Enabled(s, DoBroadcast(marshals))
    ensures InOrder(Next(s, DoBroadcast(marshals)))
  {
    var t := Next(s, DoBroadcast(marshals));
    assert t.broadcasts[..|s.broadcasts|] == s.broadcasts;
    assert EventsOf(t.broadcasts) + InHand(t) == EventsOf(s.broadcasts) + InHand(s);
  }

  lemma InOrderStep(s: State, step: Step)
    requires InOrder(s) && Enabled(s, step)
    ensures InOrder(Next(s, step))
  {
    var t := Next(s, step);
    match step
    case Send(l) => SentAndQueued(EventsOf(s.broadcasts) + InHand(s), s.channel, s.listeners[l].event);
    case Take => TakenFromQueue(EventsOf(s.broadcasts), s.channel);
    case DoBroadcast(marshals) => BroadcastInOrder(s, marshals);
    case _ =>
  }

  lemma OneListenerStep(s: State, step: Step)
    requires OneListener(s) && Enabled(s, step)
    ensures OneListener(Next(s, step))
  {
  }

  lemma BroadcastWrites(s: State, marshals: bool)
    requires OneWriteEach(s) && Enabled(s, DoBroadcast(marshals))
    ensures OneWriteEach(Next(s, DoBroadcast(marshals)))
  {
    var t := Next(s, DoBroadcast(marshals));
    var n := |s.broadcasts|;
    assert forall k | 0 <= k < n :: t.broadcasts[k] == s.broadcasts[k];
    assert forall k, c :: Attempted(t, k, c) <==> Attempted(s, k, c);
    forall c ensures !Attempted(s, n, c) {
    }
  }

  lemma WriteWrites(s: State, k: nat, c: Client)
    requires OneWriteEach(s) && Enabled(s, Write(k, c))
    ensures OneWriteEach(Next(s, Write(k, c)))
  {
    var t := Next(s, Write(k, c));
    forall j: nat, d: Client ensures Attempted(t, j, d) <==> Attempted(s, j, d) || (j, d) == (k, c) {
      if Attempted(s, j, d) {
        var i :| 0 <= i < |s.written| && s.written[i] == (j, d);
        assert t.written[i] == (j, d);
      }
      assert t.written[|s.written|] == (k, c);
    }
  }

  lemma OneWriteStep(s: State, step: Step)
    requires OneWriteEach(s) && Enabled(s, step)
    ensures OneWriteEach(Next(s, step))
  {
    match step
    case DoBroadcast(marshals) => BroadcastWrites(s, marshals);
    case Write(k, c) => WriteWrites(s, k, c);
    case _ =>
      assert forall k, c :: Attempted(Next(s, step), k, c) <==> Attempted(s, k, c);
  }

  lemma {:induction false} ReachedIsSound(steps: seq<Step>, t: State)
    requires Reaches(INITIAL, steps, t)
    ensures Sound(t)
    decreases |steps|
  {
    if steps != [] {
      var last := steps[|steps| - 1];
      var mid :| Reaches(INITIAL, steps[..|steps| - 1], mid) && Enabled(mid, last) && t == Next(mid, last);
      ReachedIsSound(steps[..|steps| - 1], mid);
      InOrderStep(mid, last);
      OneListenerStep(mid, last);
      OneWriteStep(mid, last);
    }
  }

  /** In every interleaving: the events broadcast, then the one in hand, then those on the channel,
      are exactly the events sent, in order; and the channel never exceeds its capacity. */
  lemma PipelineKeepsOrder(s: State)
    requires Reachable(s)
    ensures EventsOf(s.broadcasts) + InHand(s) + s.channel == s.sent
    ensures EventsOf(s.broadcasts) <= s.sent
    ensures |s.channel| <= 64
  {
    var steps :| Reaches(INITIAL, steps, s);
    ReachedIsSound(steps, s);
  }

  /** At most one goroutine is ever inside ListenEvents, and until cancellation exactly one listens
      or waits to retry. */
  lemma ListenerIsUnique(s: State)
    requires Reachable(s)
    ensures forall i, j | 0 <= i < |s.listeners| && 0 <= j < |s.listeners| ::
              !s.listeners[i].Gone? && !s.listeners[j].Gone? ==> i == j
    ensures !s.cancelled ==>
              exists i :: 0 <= i < |s.listeners| && (Listening(s.listeners[i]) || s.listeners[i].BackingOff?)
  {
    var steps :| Reaches(INITIAL, steps, s);
    ReachedIsSound(steps, s);
    assert s.listeners[|s.listeners| - 1].Gone? || Listening(s.listeners[|s.listeners| - 1])
        || s.listeners[|s.listeners| - 1].BackingOff?;
  }

  /** Each broadcast is written at most once to each client of its snapshot, to nobody else, and
      once its goroutines are done exactly once to every one. */
  lemma BroadcastReachesSnapshot(s: State, k: nat)
    requires Reachable(s) && k < |s.broadcasts|
    ensures forall c :: Attempted(s, k, c) ==> c in Audience(s.broadcasts[k])
    ensures forall i, j | 0 <= i < j < |s.written| :: s.written[i] != s.written[j]
    ensures (forall c :: (k, c) !in s.pending) ==> forall c :: c in Audience(s.broadcasts[k]) <==> Attempted(s, k, c)
  {
    var steps :| Reaches(INITIAL, steps, s);
    ReachedIsSound(steps, s);
  }
}
