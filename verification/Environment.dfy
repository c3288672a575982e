/** The outside world of one request, and what it means for code to perform a program on it. */
module Environments {
  import opened Incus
  import opened Strings
  import opened Programs

  /** The outside of one request: a backend that may answer anything, and a context that may be
      cancelled at any moment and then stays cancelled.  The log records what was asked of it. */
  class Environment {
    const answers: nat -> Answer
    const cancelledFrom: Option<nat>
    var now: nat
    ghost var log: seq<Event>

    constructor (answers: nat -> Answer, cancelledFrom: Option<nat>)
      ensures log == []
    {
      this.answers := answers;
      this.cancelledFrom := cancelledFrom;
      now, log := 0, [];
    }

    /** ctx.Err() != nil */
    method Cancelled() returns (cancelled: bool)
      modifies this
      ensures log == old(log) + [Polled(cancelled)]
      ensures cancelled <==> cancelledFrom.Some? && cancelledFrom.value <= old(now)
      ensures now > old(now)
    {
      cancelled := cancelledFrom.Some? && cancelledFrom.value <= now;
      now := now + 1;
      log := log + [Polled(cancelled)];
    }

    method Execute(ghost kind: CallKind, req: Request) returns (answer: Answer)
      modifies this
      ensures log == old(log) + [Called(kind, req, answer)]
      ensures now > old(now)
    {
      answer := answers(now);
      now := now + 1;
      log := log + [Called(kind, req, answer)];
    }
  }

  /** From `before` on, the log records a run of `p` that returns `r`. */
  ghost predicate Performed<R>(p: Program<R>, before: seq<Event>, log: seq<Event>, r: R) {
    before <= log && Runs(p, log[|before|..], r)
  }

  lemma PerformedReturn<R>(before: seq<Event>, r: R)
    ensures Performed(Return(r), before, before, r)
  {
  }

  /** One event, then a run of what follows it, is a run of the whole. */
  lemma PerformedStep<R>(p: Program<R>, q: Program<R>, e: Event, before: seq<Event>, log: seq<Event>, r: R)
    requires Performed(q, before + [e], log, r)
    requires if p.Poll? then e.Polled? && q == p.onPoll(e.cancelled)
             else p.Call? && e.Called? && e.kind == p.kind && e.req == p.req && q == p.onAnswer(e.answer)
    ensures Performed(p, before, log, r)
  {
    var tail := log[|before|..];
    assert log[|before|] == (before + [e])[|before|] == e;
    assert tail[0] == e && tail[1..] == log[|before + [e]|..];
  }
}
