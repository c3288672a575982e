/** The agent's own client of Incus, and what its answers mean for the replies of the server. */
module ProxyClient {
  import opened Strings
  import opened Incus
  import opened Programs
  import opened Handlers
  import opened Requests
  import opened RequestsTheorems
  import opened ServerTheorems

  /** How the exchange over the socket ends. */
  datatype Exchange = DoFailed(reason: string) | ReadFailed(reason: string) | Answered(status: int, body: Body)

  const NO_BODY := Body([], [], 0, false, None, false, None, None)

  /** Client.Execute: every branch answers, and under the request's own identifier. */
  function Execute(req: Request, exchange: Exchange): (resp: Response)
    ensures resp.id == req.id
    ensures resp.error != "" ==> !Is2xx(resp.status)
  {
    match exchange
    case DoFailed(reason) => Response(req.id, UNAVAILABLE, NO_BODY, reason)
    case ReadFailed(reason) => Response(req.id, INTERNAL_ERROR, NO_BODY, reason)
    case Answered(status, body) => Response(req.id, status, body, "")
  }

  /** What the client answers: 503 when the exchange fails, 500 when its body cannot be read, and
      otherwise what Incus answered. */
  lemma ExecuteMeaning(req: Request, exchange: Exchange)
    ensures Execute(req, exchange).id == req.id
    ensures match exchange
            case DoFailed(reason) =>
              && Execute(req, exchange).status == 503 && Execute(req, exchange).error == reason
              && Execute(req, exchange).body.bytes == []
            case ReadFailed(reason) =>
              && Execute(req, exchange).status == 500 && Execute(req, exchange).error == reason
              && Execute(req, exchange).body.bytes == []
            case Answered(status, body) =>
              && Execute(req, exchange).status == status && Execute(req, exchange).error == ""
              && Execute(req, exchange).body == body
  {
  }

  /** Every answer of this log came through the client. */
  ghost predicate ThroughClient(log: seq<Event>) {
    forall i | 0 <= i < |log| && log[i].Called? ::
      exists exchange :: log[i].answer == Some(Execute(log[i].req, exchange))
  }

  /** With the agent's own client every reply, on every branch, carries the identifier of the
      message it answers. */
  lemma ClientKeepsIDs(cfg: Config, s: State, i: nat)
    requires Reachable(MachineOf(cfg), s) && i < |s.attempts|
    requires ThroughClient(LocalLog(s.trace, s.attempts[i].n))
    ensures s.attempts[i].n < |s.received|
    ensures s.attempts[i].reply.id == MessageID(s.received[s.attempts[i].n].message)
  {
    var log := LocalLog(s.trace, s.attempts[i].n);
    forall k | 0 <= k < |log| && log[k].Called? && log[k].answer.Some?
      ensures log[k].answer.value.id == log[k].req.id
    {
      var exchange :| log[k].answer == Some(Execute(log[k].req, exchange));
    }
    RepliesCarryTheirID(cfg, s, i);
  }
}
