/** What holds of the request machine in every interleaving. */
module RequestsTheorems {
  import opened Strings
  import opened Programs
  import opened Handlers
  import opened Requests

  // ---------------------------------------------------------------- the events of one request

  function LocalLog(trace: seq<(nat, Event)>, n: nat): seq<Event> {
    if trace == [] then []
    else
      var last := trace[|trace| - 1];
      LocalLog(trace[..|trace| - 1], n) + (if last.0 == n then [last.1] else [])
  }

  lemma LocalLogSnoc(trace: seq<(nat, Event)>, n: nat, e: Event, m: nat)
    ensures LocalLog(trace + [(n, e)], m) == LocalLog(trace, m) + (if m == n then [e] else [])
  {
    var longer := trace + [(n, e)];
    assert longer[..|longer| - 1] == trace;
  }

  lemma {:induction false} LocalLogHolds(trace: seq<(nat, Event)>, i: nat)
    requires i < |trace|
    ensures trace[i].1 in LocalLog(trace, trace[i].0)
  {
    if i < |trace| - 1 {
      LocalLogHolds(trace[..|trace| - 1], i);
    }
  }

  // ---------------------------------------------------------------- accounting

  predicate HasReply(s: State, n: nat) {
    exists i | 0 <= i < |s.attempts| :: s.attempts[i].n == n
  }

  predicate BeingRejected(s: State, n: nat) {
    && n < |s.received|
    && s.received[n].client in s.readers
    && s.readers[s.received[n].client].Rejecting?
    && s.readers[s.received[n].client].n == n
  }

  /** Every message is in exactly one place: in flight, being rejected, or answered once. */
  ghost predicate Accounted(s: State) {
    && (forall n | n in s.tasks :: n < |s.received| && !BeingRejected(s, n) && !HasReply(s, n))
    && (forall n | BeingRejected(s, n) :: !HasReply(s, n))
    && (forall c | c in s.readers && s.readers[c].Rejecting? ::
          s.readers[c].n < |s.received| && s.received[s.readers[c].n].client == c)
    && (forall i | 0 <= i < |s.attempts| ::
          s.attempts[i].n < |s.received| && s.attempts[i].client == s.received[s.attempts[i].n].client)
    && (forall i, j | 0 <= i < j < |s.attempts| :: s.attempts[i].n != s.attempts[j].n)
    && (forall n | 0 <= n < |s.received| :: n in s.tasks || BeingRejected(s, n) || HasReply(s, n))
  }

  lemma AttemptAdded(s: State, t: State, a: Attempt)
    requires t.attempts == s.attempts + [a]
    ensures forall n :: HasReply(t, n) <==> HasReply(s, n) || n == a.n
  {
    forall n ensures HasReply(t, n) <==> HasReply(s, n) || n == a.n {
      if HasReply(s, n) {
        var i :| 0 <= i < |s.attempts| && s.attempts[i].n == n;
        assert t.attempts[i].n == n;
      }
      if n == a.n {
        assert t.attempts[|s.attempts|].n == n;
      }
    }
  }

  lemma AccountedReject(h: Machine, s: State, c: Client)
    requires Accounted(s) && Enabled(s, Reject(c))
    ensures Accounted(Next(h, s, Reject(c)))
  {
    var t := Next(h, s, Reject(c));
    var n := s.readers[c].n;
    assert BeingRejected(s, n);
    AttemptAdded(s, t, Attempt(n, c, s.readers[c].reply));
    assert forall k :: BeingRejected(t, k) <==> BeingRejected(s, k) && k != n;
  }

  lemma AccountedFinish(h: Machine, s: State, n: nat, marshals: bool)
    requires Accounted(s) && Enabled(s, Finish(n, marshals))
    ensures Accounted(Next(h, s, Finish(n, marshals)))
  {
    var t := Next(h, s, Finish(n, marshals));
    AttemptAdded(s, t, t.attempts[|s.attempts|]);
    assert forall k :: BeingRejected(t, k) <==> BeingRejected(s, k);
  }

  lemma AccountedRead(h: Machine, s: State, c: Client, m: Message)
    requires Accounted(s) && Enabled(s, Read(c, m))
    ensures Accounted(Next(h, s, Read(c, m)))
  {
    var t := Next(h, s, Read(c, m));
    var next := |s.received|;
    assert forall n | 0 <= n < next :: t.received[n] == s.received[n];
    assert forall n :: HasReply(t, n) <==> HasReply(s, n);
    assert !HasReply(s, next) && next !in s.tasks;
    if h.valid(m) {
      assert forall n :: BeingRejected(t, n) <==> BeingRejected(s, n);
    } else {
      assert forall n :: BeingRejected(t, n) <==> BeingRejected(s, n) || n == next;
    }
  }

  lemma AccountedStep(h: Machine, s: State, step: Step)
    requires Accounted(s) && Enabled(s, step)
    ensures Accounted(Next(h, s, step))
  {
    var t := Next(h, s, step);
    match step
    case Read(c, m) => AccountedRead(h, s, c, m);
    case Reject(c) => AccountedReject(h, s, c);
    case Finish(n, marshals) => AccountedFinish(h, s, n, marshals);
    case _ =>
      assert forall n :: BeingRejected(t, n) <==> BeingRejected(s, n);
      assert forall n :: HasReply(t, n) <==> HasReply(s, n);
  }

  // ---------------------------------------------------------------- conservation per connection

  function CountReceived(received: seq<Incoming>, c: Client): nat {
    if received == [] then 0
    else CountReceived(received[..|received| - 1], c) + (if received[|received| - 1].client == c then 1 else 0)
  }

  function CountAttempts(attempts: seq<Attempt>, c: Client): nat {
    if attempts == [] then 0
    else CountAttempts(attempts[..|attempts| - 1], c) + (if attempts[|attempts| - 1].client == c then 1 else 0)
  }

  /** The goroutines working for a connection. */
  function InFlight(s: State, c: Client): set<nat> {
    set n | n in s.tasks && n < |s.received| && s.received[n].client == c
  }

  function Rejections(s: State, c: Client): nat {
    if c in s.readers && s.readers[c].Rejecting? then 1 else 0
  }

  /** Messages read equal replies attempted plus requests still in flight. */
  ghost predicate Conserved(s: State, c: Client) {
    CountReceived(s.received, c) == CountAttempts(s.attempts, c) + |InFlight(s, c)| + Rejections(s, c)
  }

  lemma CountsAfterRead(s: State, c: Client, incoming: Incoming)
    ensures CountReceived(s.received + [incoming], c)
              == CountReceived(s.received, c) + (if incoming.client == c then 1 else 0)
  {
    assert (s.received + [incoming])[..|s.received|] == s.received;
  }

  lemma CountsAfterAttempt(s: State, c: Client, a: Attempt)
    ensures CountAttempts(s.attempts + [a], c) == CountAttempts(s.attempts, c) + (if a.client == c then 1 else 0)
  {
    assert (s.attempts + [a])[..|s.attempts|] == s.attempts;
  }

  /** Every goroutine works for a message that has been read. */
  ghost predicate TasksNumbered(s: State) {
    forall n | n in s.tasks :: n < |s.received|
  }

  lemma InFlightAfterRead(s: State, t: State, c: Client, incoming: Incoming, spawned: bool)
    requires TasksNumbered(s) && t.received == s.received + [incoming]
    requires t.tasks.Keys == s.tasks.Keys + (if spawned then {|s.received|} else {})
    ensures |InFlight(t, c)| == |InFlight(s, c)| + (if spawned && incoming.client == c then 1 else 0)
  {
    var n := |s.received|;
    var added := if spawned && incoming.client == c then {n} else {};
    forall k ensures k in InFlight(t, c) <==> k in InFlight(s, c) + added {
      if k < n && k in t.tasks.Keys {
        assert t.received[k] == s.received[k];
      }
    }
    assert InFlight(t, c) == InFlight(s, c) + added;
    assert n !in InFlight(s, c);
  }

  lemma InFlightSame(s: State, t: State, c: Client)
    requires t.tasks.Keys == s.tasks.Keys && t.received == s.received
    ensures InFlight(t, c) == InFlight(s, c)
  {
    forall k ensures k in InFlight(t, c) <==> k in InFlight(s, c) {
      assert k in t.tasks.Keys <==> k in s.tasks.Keys;
    }
  }

  lemma InFlightAfterFinish(s: State, t: State, c: Client, n: nat)
    requires n in s.tasks && n < |s.received| && t.received == s.received
    requires t.tasks.Keys == s.tasks.Keys - {n}
    ensures |InFlight(s, c)| == |InFlight(t, c)| + (if s.received[n].client == c then 1 else 0)
  {
    var gone := if s.received[n].client == c then {n} else {};
    forall k ensures k in InFlight(s, c) <==> k in InFlight(t, c) + gone {
      assert k in t.tasks.Keys <==> k in s.tasks.Keys && k != n;
    }
    assert InFlight(s, c) == InFlight(t, c) + gone;
    assert n !in InFlight(t, c);
  }

  /** What one step does to the four counts of a connection. */
  lemma CountsBalance(s: State, t: State, c: Client, read: nat, attempted: nat)
    requires Conserved(s, c)
    requires CountReceived(t.received, c) == CountReceived(s.received, c) + read
    requires CountAttempts(t.attempts, c) == CountAttempts(s.attempts, c) + attempted
    requires |InFlight(t, c)| + Rejections(t, c) + attempted == |InFlight(s, c)| + Rejections(s, c) + read
    ensures Conserved(t, c)
  {
  }

  lemma ConservedRead(h: Machine, s: State, d: Client, m: Message, c: Client)
    requires TasksNumbered(s) && Conserved(s, c) && Enabled(s, Read(d, m))
    ensures Conserved(Next(h, s, Read(d, m)), c)
  {
    var t := Next(h, s, Read(d, m));
    CountsAfterRead(s, c, Incoming(d, m));
    if h.valid(m) {
      assert t.tasks.Keys == s.tasks.Keys + {|s.received|};
      assert t.readers == s.readers;
    } else {
      assert t.tasks.Keys == s.tasks.Keys + {};
      assert Rejections(t, c) == Rejections(s, c) + (if d == c then 1 else 0);
    }
    InFlightAfterRead(s, t, c, Incoming(d, m), h.valid(m));
    CountsBalance(s, t, c, if d == c then 1 else 0, 0);
  }

  lemma ConservedFinish(h: Machine, s: State, n: nat, marshals: bool, c: Client)
    requires Conserved(s, c) && Enabled(s, Finish(n, marshals))
    ensures Conserved(Next(h, s, Finish(n, marshals)), c)
  {
    var t := Next(h, s, Finish(n, marshals));
    var a := t.attempts[|s.attempts|];
    CountsAfterAttempt(s, c, a);
    assert t.tasks.Keys == s.tasks.Keys - {n};
    InFlightAfterFinish(s, t, c, n);
    CountsBalance(s, t, c, 0, if a.client == c then 1 else 0);
  }

  lemma RejectAttempt(h: Machine, s: State, d: Client, c: Client)
    requires Enabled(s, Reject(d))
    ensures var t := Next(h, s, Reject(d));
            && CountAttempts(t.attempts, c) == CountAttempts(s.attempts, c) + (if d == c then 1 else 0)
            && Rejections(s, c) == Rejections(t, c) + (if d == c then 1 else 0)
  {
    var t := Next(h, s, Reject(d));
    CountsAfterAttempt(s, c, t.attempts[|s.attempts|]);
  }

  lemma ConservedReject(h: Machine, s: State, d: Client, c: Client)
    requires Conserved(s, c) && Enabled(s, Reject(d))
    ensures Conserved(Next(h, s, Reject(d)), c)
  {
    RejectAttempt(h, s, d, c);
    InFlightSame(s, Next(h, s, Reject(d)), c);
    CountsBalance(s, Next(h, s, Reject(d)), c, 0, if d == c then 1 else 0);
  }

  lemma ConservedStep(h: Machine, s: State, step: Step, c: Client)
    requires TasksNumbered(s) && Conserved(s, c) && Enabled(s, step)
    ensures Conserved(Next(h, s, step), c)
  {
    match step
    case Read(d, m) => ConservedRead(h, s, d, m, c);
    case Finish(n, marshals) => ConservedFinish(h, s, n, marshals, c);
    case Reject(d) => ConservedReject(h, s, d, c);
    case _ =>
      var t := Next(h, s, step);
      assert t.tasks.Keys == s.tasks.Keys;
      InFlightSame(s, t, c);
      CountsBalance(s, t, c, 0, 0);
  }

  // ---------------------------------------------------------------- provenance

  /** The run of message `n` so far, as what its goroutine has left to do. */
  ghost function Ran(h: Machine, s: State, n: nat): Option<Task>
    requires n < |s.received| && h.valid(s.received[n].message)
  {
    TaskAfter(h.start(s.received[n].message), LocalLog(s.trace, n))
  }

  /** Whatever a goroutine did, it did as the program its own message started. */
  ghost predicate Traced(h: Machine, s: State, n: nat) {
    n in s.tasks || LocalLog(s.trace, n) != [] ==>
      && n < |s.received| && h.valid(s.received[n].message)
      && Ran(h, s, n).Some?
      && (n in s.tasks ==> Ran(h, s, n) == Some(s.tasks[n]))
  }

  /** Each reply is the one its own message called for: the protocol error of an invalid message,
      or what writeResponse makes of the response its goroutine ended with. */
  ghost predicate RightReply(h: Machine, s: State, a: Attempt) {
    && a.n < |s.received|
    && (var m := s.received[a.n].message;
        if !h.valid(m) then a.reply == h.refuse(m)
        else
          && Ran(h, s, a.n).Some? && Returned(Ran(h, s, a.n).value)
          && exists marshals ::
              a.reply == Written(MessageID(m), ResponseOf(MessageID(m), Ran(h, s, a.n).value), marshals))
  }

  ghost predicate RightReplies(h: Machine, s: State) {
    && (forall i | 0 <= i < |s.attempts| :: RightReply(h, s, s.attempts[i]))
    && (forall c | c in s.readers && s.readers[c].Rejecting? ::
          var n := s.readers[c].n;
          && n < |s.received| && !h.valid(s.received[n].message)
          && s.readers[c].reply == h.refuse(s.received[n].message))
  }

  ghost predicate Sound(h: Machine, s: State) {
    Accounted(s) && (forall n :: Traced(h, s, n)) && RightReplies(h, s)
  }

  lemma NothingRan(task: Task)
    ensures TaskAfter(task, []) == Some(task)
  {
  }

  lemma AdvanceTraced(h: Machine, s: State, n: nat, e: Event)
    requires Sound(h, s)
    requires n in s.tasks && TaskAfter(s.tasks[n], [e]).Some?
    ensures forall m :: Traced(h, Advance(s, n, e), m)
    ensures forall m | m != n :: LocalLog(Advance(s, n, e).trace, m) == LocalLog(s.trace, m)
  {
    var t := Advance(s, n, e);
    forall m ensures Traced(h, t, m) && (m != n ==> LocalLog(t.trace, m) == LocalLog(s.trace, m)) {
      LocalLogSnoc(s.trace, n, e, m);
      assert Traced(h, s, m);
      if m == n {
        TaskAfterConcat(h.start(s.received[n].message), LocalLog(s.trace, n), [e]);
      } else {
        assert LocalLog(s.trace, m) + [] == LocalLog(s.trace, m);
      }
    }
  }

  lemma AdvanceSound(h: Machine, s: State, n: nat, e: Event)
    requires Sound(h, s)
    requires n in s.tasks && TaskAfter(s.tasks[n], [e]).Some?
    requires Accounted(Advance(s, n, e))
    ensures Sound(h, Advance(s, n, e))
  {
    var t := Advance(s, n, e);
    AdvanceTraced(h, s, n, e);
    forall i | 0 <= i < |t.attempts| ensures RightReply(h, t, t.attempts[i]) {
      assert RightReply(h, s, s.attempts[i]);
      assert HasReply(s, s.attempts[i].n);
    }
  }

  lemma ReadSound(h: Machine, s: State, c: Client, m: Message)
    requires Sound(h, s) && Enabled(s, Read(c, m))
    ensures Sound(h, Next(h, s, Read(c, m)))
  {
    var t := Next(h, s, Read(c, m));
    AccountedRead(h, s, c, m);
    assert forall n | 0 <= n < |s.received| :: t.received[n] == s.received[n];
    forall n ensures Traced(h, t, n) {
      assert Traced(h, s, n);
      if n == |s.received| && h.valid(m) { NothingRan(h.start(m)); }
    }
    forall i | 0 <= i < |t.attempts| ensures RightReply(h, t, t.attempts[i]) {
      assert RightReply(h, s, s.attempts[i]);
    }
  }

  lemma FinishSound(h: Machine, s: State, n: nat, marshals: bool)
    requires Sound(h, s) && Enabled(s, Finish(n, marshals))
    ensures Sound(h, Next(h, s, Finish(n, marshals)))
  {
    var t := Next(h, s, Finish(n, marshals));
    AccountedStep(h, s, Finish(n, marshals));
    assert Traced(h, s, n);
    forall m ensures Traced(h, t, m) {
      assert Traced(h, s, m);
    }
    forall i | 0 <= i < |t.attempts| ensures RightReply(h, t, t.attempts[i]) {
      if i < |s.attempts| {
        assert t.attempts[i] == s.attempts[i];
        assert RightReply(h, s, s.attempts[i]);
      } else {
        var id := MessageID(s.received[n].message);
        assert t.attempts[i].reply == Written(id, ResponseOf(id, s.tasks[n]), marshals);
      }
    }
  }

  lemma RejectSound(h: Machine, s: State, c: Client)
    requires Sound(h, s) && Enabled(s, Reject(c))
    ensures Sound(h, Next(h, s, Reject(c)))
  {
    var t := Next(h, s, Reject(c));
    AccountedStep(h, s, Reject(c));
    forall m ensures Traced(h, t, m) { assert Traced(h, s, m); }
    forall i | 0 <= i < |t.attempts| ensures RightReply(h, t, t.attempts[i]) {
      if i < |s.attempts| {
        assert t.attempts[i] == s.attempts[i];
        assert RightReply(h, s, s.attempts[i]);
      }
    }
  }

  lemma SoundStep(h: Machine, s: State, step: Step)
    requires Sound(h, s) && Enabled(s, step)
    ensures Sound(h, Next(h, s, step))
  {
    var t := Next(h, s, step);
    AccountedStep(h, s, step);
    match step
    case Read(c, m) => ReadSound(h, s, c, m);
    case Reject(c) => RejectSound(h, s, c);
    case Finish(n, marshals) => FinishSound(h, s, n, marshals);
    case DoPoll(n) =>
      OneEvent(s.tasks[n], Polled(n in s.cancelled));
      AdvanceSound(h, s, n, Polled(n in s.cancelled));
    case DoCall(n, kind, req, answer) =>
      OneEvent(s.tasks[n], Called(kind, req, answer));
      AdvanceSound(h, s, n, Called(kind, req, answer));
    case _ =>
      forall m ensures Traced(h, t, m) { assert Traced(h, s, m); }
      forall i | 0 <= i < |t.attempts| ensures RightReply(h, t, t.attempts[i]) {
        assert RightReply(h, s, s.attempts[i]);
      }
  }

  // ---------------------------------------------------------------- every reachable state

  lemma {:induction false} ReachedIsSound(h: Machine, steps: seq<Step>, t: State)
    requires Reaches(h, INITIAL, steps, t)
    ensures Sound(h, t) && forall c :: Conserved(t, c)
    decreases |steps|
  {
    if steps == [] {
      assert forall n :: Traced(h, INITIAL, n);
      forall c ensures Conserved(INITIAL, c) {
        assert InFlight(INITIAL, c) == {};
      }
    } else {
      var last := steps[|steps| - 1];
      var mid :| Reaches(h, INITIAL, steps[..|steps| - 1], mid) && Enabled(mid, last) && t == Next(h, mid, last);
      ReachedIsSound(h, steps[..|steps| - 1], mid);
      SoundStep(h, mid, last);
      forall c ensures Conserved(t, c) { ConservedStep(h, mid, last, c); }
    }
  }

  /** In every interleaving, on every connection, messages read equal replies attempted plus
      requests in flight (a protocol error being written is in flight too); no message has two
      replies, and each goes to the connection its message came from. */
  lemma RepliesAreConserved(h: Machine, s: State)
    requires Reachable(h, s)
    ensures forall c ::
              CountReceived(s.received, c) == CountAttempts(s.attempts, c) + |InFlight(s, c)| + Rejections(s, c)
    ensures forall i, j | 0 <= i < j < |s.attempts| :: s.attempts[i].n != s.attempts[j].n
    ensures forall i | 0 <= i < |s.attempts| ::
              s.attempts[i].n < |s.received| && s.attempts[i].client == s.received[s.attempts[i].n].client
    ensures forall n | 0 <= n < |s.received| ::
              (if n in s.tasks then 1 else 0) + (if BeingRejected(s, n) then 1 else 0)
                  + (if HasReply(s, n) then 1 else 0) == 1
  {
    var steps :| Reaches(h, INITIAL, steps, s);
    ReachedIsSound(h, steps, s);
    forall c
      ensures CountReceived(s.received, c) == CountAttempts(s.attempts, c) + |InFlight(s, c)| + Rejections(s, c)
    {
      assert Conserved(s, c);
    }
  }
}
