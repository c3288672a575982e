/** Request handlers as programs that talk to the outside: they poll their context, call Incus, and
    return.  A log records one run; everything said about "every backend" quantifies over logs. */
module Programs {
  import opened Strings
  import opened Incus

  /** The call sites that reach Incus. */
  datatype CallKind =
    | ProfileCall | MutateCall | WaitCall | VerifyCall
    | ForwardCall
    | RootCall | ListCall | OperationsCall

  datatype Event =
    | Polled(cancelled: bool)
    | Called(kind: CallKind, req: Request, answer: Answer)

  datatype Program<R> =
    | Return(result: R)
    | Poll(onPoll: bool -> Program<R>)
    | Call(kind: CallKind, req: Request, onAnswer: Answer -> Program<R>)

  /** What is left of `p` after the events of `log`; None when `p` would not have done them. */
  ghost function After<R>(p: Program<R>, log: seq<Event>): Option<Program<R>>
    decreases |log|
  {
    if log == [] then Some(p)
    else match p
      case Return(_) => None
      case Poll(onPoll) => if log[0].Polled? then After(onPoll(log[0].cancelled), log[1..]) else None
      case Call(kind, req, onAnswer) =>
        if log[0].Called? && log[0].kind == kind && log[0].req == req then After(onAnswer(log[0].answer), log[1..])
        else None
  }

  /** `log` is a complete run of `p` that returns `r`. */
  ghost predicate Runs<R>(p: Program<R>, log: seq<Event>, r: R) {
    After(p, log).Some? && After(p, log).value.Return? && After(p, log).value.result == r
  }

  /** The first event of a log, and the program that remains to explain the others. */
  lemma Step<R>(p: Program<R>, log: seq<Event>) returns (q: Program<R>)
    requires After(p, log).Some? && log != []
    ensures !p.Return?
    ensures p.Poll? ==> log[0].Polled? && q == p.onPoll(log[0].cancelled)
    ensures p.Call? ==> log[0].Called? && log[0].kind == p.kind && log[0].req == p.req && q == p.onAnswer(log[0].answer)
    ensures After(q, log[1..]) == After(p, log)
  {
    q := if p.Poll? then p.onPoll(log[0].cancelled) else p.onAnswer(log[0].answer);
  }

  lemma {:induction false} AfterConcat<R>(p: Program<R>, log1: seq<Event>, log2: seq<Event>)
    ensures After(p, log1 + log2) ==
            if After(p, log1).None? then None else After(After(p, log1).value, log2)
    decreases |log1|
  {
    if log1 == [] {
      assert log1 + log2 == log2;
    } else {
      var log := log1 + log2;
      assert log[0] == log1[0] && log[1..] == log1[1..] + log2;
      match p
      case Return(_) =>
      case Poll(onPoll) =>
        if log[0].Polled? { AfterConcat(onPoll(log[0].cancelled), log1[1..], log2); }
      case Call(kind, req, onAnswer) =>
        if log[0].Called? && log[0].kind == kind && log[0].req == req {
          AfterConcat(onAnswer(log[0].answer), log1[1..], log2);
        }
    }
  }

  // ---------------------------------------------------------------- reading a log

  /** The kinds of the calls, in order. */
  function Kinds(log: seq<Event>): seq<CallKind> {
    if log == [] then [] else (if log[0].Called? then [log[0].kind] else []) + Kinds(log[1..])
  }

  /** The answers to the calls of one kind, in order. */
  function Answers(log: seq<Event>, kind: CallKind): seq<Answer> {
    if log == [] then []
    else (if log[0].Called? && log[0].kind == kind then [log[0].answer] else []) + Answers(log[1..], kind)
  }

  /** The requests made by the calls of one kind, in order. */
  function RequestsOf(log: seq<Event>, kind: CallKind): seq<Request> {
    if log == [] then []
    else (if log[0].Called? && log[0].kind == kind then [log[0].req] else []) + RequestsOf(log[1..], kind)
  }

  predicate Uncancelled(log: seq<Event>) {
    log == [] || ((log[0].Polled? ==> !log[0].cancelled) && Uncancelled(log[1..]))
  }

  lemma Unfold(log: seq<Event>)
    ensures log == [] ==>
              && Kinds(log) == [] && Uncancelled(log)
              && forall kind :: Answers(log, kind) == [] && RequestsOf(log, kind) == []
    ensures log != [] && log[0].Polled? ==>
              && Kinds(log) == Kinds(log[1..])
              && (Uncancelled(log) <==> !log[0].cancelled && Uncancelled(log[1..]))
              && (forall kind :: Answers(log, kind) == Answers(log[1..], kind))
              && (forall kind :: RequestsOf(log, kind) == RequestsOf(log[1..], kind))
    ensures log != [] && log[0].Called? ==>
              && Kinds(log) == [log[0].kind] + Kinds(log[1..])
              && (Uncancelled(log) <==> Uncancelled(log[1..]))
              && Answers(log, log[0].kind) == [log[0].answer] + Answers(log[1..], log[0].kind)
              && RequestsOf(log, log[0].kind) == [log[0].req] + RequestsOf(log[1..], log[0].kind)
              && (forall kind | kind != log[0].kind :: Answers(log, kind) == Answers(log[1..], kind))
              && (forall kind | kind != log[0].kind :: RequestsOf(log, kind) == RequestsOf(log[1..], kind))
  {
  }
}
