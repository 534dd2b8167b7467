/** The retrying round trip: breaker, body rewinding, closing of the responses it drops. */
module ResilientTransports {
  import opened CircuitBreakers
  import opened LimiterOps

  /** A body reader: a position in its bytes, and how often it was closed. */
  class Body {
    const content: seq<int>
    var position: nat
    var closes: nat

    constructor (content: seq<int>)
      ensures this.content == content && position == 0 && closes == 0
    {
      this.content := content;
      this.position, this.closes := 0, 0;
    }

    function Remaining(): seq<int>
      reads this
    {
      if position <= |content| then content[position..] else []
    }
  }

  class Response {
    const status: int
    const hasBody: bool
    var closes: nat

    constructor (status: int, hasBody: bool)
      ensures this.status == status && this.hasBody == hasBody && closes == 0
    {
      this.status, this.hasBody, this.closes := status, hasBody, 0;
    }
  }

  /** `rewind` is the request's GetBody: if present, it makes a new reader over those bytes. */
  class Request {
    const verb: string
    var body: Body?
    var rewind: Option<seq<int>>

    constructor (verb: string, body: Body?, rewind: Option<seq<int>>)
      ensures this.verb == verb && this.body == body && this.rewind == rewind
    {
      this.verb, this.body, this.rewind := verb, body, rewind;
    }

    function Payload(): Option<seq<int>>
      reads this, body
    {
      if body == null then None else Some(body.Remaining())
    }

    /** What net/http asks of a GetBody: a new copy of the body. */
    predicate RewindsToBody()
      reads this, body
    {
      rewind.Some? ==> rewind == Payload()
    }
  }

  datatype Outcome = Fails | Replies(status: int, hasBody: bool)

  /** What the world does at one attempt: whether the context is found done while waiting
      for it, how much of the body the upstream reads, and what comes of it. */
  datatype Turn = Turn(cancelled: bool, consumes: nat, outcome: Outcome)

  datatype Failure = NoFailure | BreakerOpen | BodyUnreadable | ContextDone | UpstreamFailed

  predicate Idempotent(verb: string) {
    verb == "GET" || verb == "HEAD" || verb == "PUT" || verb == "DELETE"
  }

  function Limit(verb: string): nat {
    if Idempotent(verb) then 3 else 1
  }

  predicate Good(o: Outcome) {
    o.Replies? && o.status < 500
  }

  datatype Ending = Returned(attempt: nat) | Cancelled(before: nat)

  /** How the attempts from k on end. */
  function Ends(limit: nat, turns: seq<Turn>, k: nat): Ending
    requires k < limit <= |turns|
    decreases limit - k
  {
    if k > 0 && turns[k].cancelled then Cancelled(k)
    else if Good(turns[k].outcome) || k + 1 == limit then Returned(k)
    else Ends(limit, turns, k + 1)
  }

  /** The attempts up to k ran, none before k was good, and the context outlived the waits. */
  predicate Reaches(turns: seq<Turn>, k: nat)
    requires k < |turns|
  {
    (forall i :: 0 <= i < k ==> !Good(turns[i].outcome)) && (forall i :: 0 < i < k ==> !turns[i].cancelled)
  }

  /** The result is the first good attempt, else the last; the only other end is a context
      found done before an attempt that would otherwise have been made. */
  lemma {:induction false} EndsAtFirstGoodElseLast(limit: nat, turns: seq<Turn>, k: nat, from: nat)
    requires from <= k < limit <= |turns|
    requires Reaches(turns, from)
    ensures Ends(limit, turns, from) == Returned(k) <==>
      Reaches(turns, k) && (k == 0 || !turns[k].cancelled) && (Good(turns[k].outcome) || k + 1 == limit)
    ensures Ends(limit, turns, from) == Cancelled(k) <==> Reaches(turns, k) && k > 0 && turns[k].cancelled
    decreases limit - from
  {
    if !(from > 0 && turns[from].cancelled) && !Good(turns[from].outcome) && from + 1 < limit {
      if from < k {
        EndsAtFirstGoodElseLast(limit, turns, k, from + 1);
      } else {
        EndsLater(limit, turns, from + 1);
      }
    }
  }

  lemma {:induction false} EndsLater(limit: nat, turns: seq<Turn>, k: nat)
    requires k < limit <= |turns|
    ensures match Ends(limit, turns, k) case Returned(i) => k <= i < limit case Cancelled(i) => k <= i < limit
    decreases limit - k
  {
    if !(k > 0 && turns[k].cancelled) && !Good(turns[k].outcome) && k + 1 < limit {
      EndsLater(limit, turns, k + 1);
    }
  }

  function Owned(req: Request): set<object>
    reads req
  {
    if req.body == null then {} else {req.body}
  }

  /** The wrapped transport: it may read any part of the body, and replies or fails. */
  method Forward(req: Request, turn: Turn) returns (resp: Response?)
    modifies req.body
    ensures resp == null <==> turn.outcome.Fails?
    ensures resp != null ==>
      fresh(resp) && resp.closes == 0 && turn.outcome == Replies(resp.status, resp.hasBody)
  {
    if req.body != null {
      req.body.position := req.body.position + turn.consumes;
    }
    resp := null;
    if turn.outcome.Replies? {
      resp := new Response(turn.outcome.status, turn.outcome.hasBody);
    }
  }

  /** Buffer a body that could not be replayed. */
  method BufferBody(req: Request)
    requires req.body != null && req.rewind.None?
    modifies req, req.body
    ensures req.body != null && fresh(req.body)
    ensures req.Payload() == old(req.Payload()) && req.rewind == old(req.Payload())
    ensures old(req.body).closes == old(req.body.closes) + 1
  {
    var bytes := req.body.Remaining();
    req.body.position := |req.body.content|;
    req.body.closes := req.body.closes + 1;
    req.rewind := Some(bytes);
    req.body := new Body(bytes);
  }

  /** How often to try, with the body made replayable if there may be a second time. */
  method PrepareRetries(req: Request, readFails: bool) returns (maxRetries: nat, unreadable: bool)
    modifies req, Owned(req)
    ensures maxRetries == Limit(req.verb) == if req.verb in {"GET", "HEAD", "PUT", "DELETE"} then 3 else 1
    ensures unreadable <==>
      readFails && req.verb in {"GET", "HEAD", "PUT", "DELETE"} && old(req.body) != null && old(req.rewind).None?
    ensures req.body == old(req.body) || fresh(req.body)
    ensures !unreadable ==>
      && req.Payload() == old(req.Payload()) && (old(req.RewindsToBody()) ==> req.RewindsToBody())
      && (maxRetries == 1 || req.body == null || req.rewind.Some?)
  {
    maxRetries, unreadable := 1, false;
    if Idempotent(req.verb) {
      maxRetries := 3;
      if req.body != null && req.rewind.None? {
        if readFails {
          return maxRetries, true;
        }
        BufferBody(req);
      }
    }
  }

  /** The reply is what the turn says it is. */
  predicate Matches(turn: Turn, reply: Response?) {
    if reply == null then turn.outcome.Fails? else turn.outcome == Replies(reply.status, reply.hasBody)
  }

  /** A reply that is not handed on has had its body closed exactly once. */
  predicate Dropped(reply: Response?)
    reads reply
  {
    reply != null ==> reply.closes == if reply.hasBody then 1 else 0
  }

  /** The replies to the first attempts, all different objects. */
  ghost predicate Log(turns: seq<Turn>, replies: seq<Response?>) {
    && |replies| <= |turns|
    && (forall i :: 0 <= i < |replies| ==> Matches(turns[i], replies[i]))
    && (forall i, j :: 0 <= i < j < |replies| && replies[i] != null ==> replies[i] != replies[j])
  }

  ghost predicate AllDropped(replies: seq<Response?>)
    reads set i | 0 <= i < |replies| :: replies[i]
  {
    forall i :: 0 <= i < |replies| ==> Dropped(replies[i])
  }

  lemma LogGrows(turns: seq<Turn>, replies: seq<Response?>, reply: Response?)
    requires Log(turns, replies) && |replies| < |turns| && Matches(turns[|replies|], reply)
    requires reply == null || reply !in replies
    ensures Log(turns, replies + [reply])
  {
  }

  /** One attempt, after the first with a new reader if the request can make one. A reply
      that will not be returned is closed. */
  method TryOnce(req: Request, turn: Turn, first: bool, isLast: bool)
    returns (resp: Response?, stop: bool, ghost given: Option<seq<int>>)
    modifies req, Owned(req)
    ensures req.rewind == old(req.rewind)
    ensures req.body == old(req.body) || (fresh(req.body) && req.rewind.Some?)
    ensures given == if first || req.rewind.None? then old(req.Payload()) else req.rewind
    ensures Matches(turn, resp) && (resp != null ==> fresh(resp))
    ensures stop <==> Good(turn.outcome) || isLast
    ensures if stop then resp != null ==> resp.closes == 0 else Dropped(resp)
  {
    if !first && req.rewind.Some? {
      req.body := new Body(req.rewind.value);
    }
    given := req.Payload();
    resp := Forward(req, turn);
    stop := (resp != null && resp.status < 500) || isLast;
    if !stop && resp != null && resp.hasBody {
      resp.closes := resp.closes + 1;
    }
  }

  /** The k-th attempt is given the body as it came, or for a retry a new copy of it. */
  predicate Offer(k: int, first: Option<seq<int>>, rewind: Option<seq<int>>, given: Option<seq<int>>) {
    if k == 0 then given == first
    else (rewind.Some? ==> given == rewind) && (rewind.None? && first.None? ==> given.None?)
  }

  /** The retry loop: `offered` is the payload each attempt was given and `replies` what
      each got back, null standing for an error. */
  method Attempts(req: Request, maxRetries: nat, turns: seq<Turn>)
    returns (resp: Response?, cancelled: bool, ghost offered: seq<Option<seq<int>>>, ghost replies: seq<Response?>)
    requires 0 < maxRetries <= |turns|
    modifies req, Owned(req)
    ensures Log(turns, replies) && |offered| == |replies| <= maxRetries
    ensures cancelled ==> resp == null && Ends(maxRetries, turns, 0) == Cancelled(|replies|) && AllDropped(replies)
    ensures !cancelled ==>
      && |replies| > 0 && Ends(maxRetries, turns, 0) == Returned(|replies| - 1)
      && resp == replies[|replies| - 1] && (resp != null ==> resp.closes == 0)
      && AllDropped(replies[..|replies| - 1])
    ensures forall i :: 0 <= i < |offered| ==> Offer(i, old(req.Payload()), old(req.rewind), offered[i])
  {
    offered, replies := [], [];
    ghost var given;
    var attempt, stop := 0, false;
    while true
      invariant 0 <= attempt < maxRetries && |offered| == |replies| == attempt
      invariant Ends(maxRetries, turns, 0) == Ends(maxRetries, turns, attempt)
      invariant req.rewind == old(req.rewind)
      invariant req.body == old(req.body) || (fresh(req.body) && req.rewind.Some?)
      invariant attempt == 0 ==> req.Payload() == old(req.Payload())
      invariant forall i :: 0 <= i < attempt ==> Offer(i, old(req.Payload()), old(req.rewind), offered[i])
      invariant Log(turns, replies) && AllDropped(replies)
      invariant forall i :: 0 <= i < attempt && replies[i] != null ==> fresh(replies[i])
      decreases maxRetries - attempt
    {
      if attempt > 0 && turns[attempt].cancelled {
        return null, true, offered, replies;
      }
      resp, stop, given := TryOnce(req, turns[attempt], attempt == 0, attempt == maxRetries - 1);
      ghost var earlier := replies;
      assert AllDropped(earlier);
      LogGrows(turns, earlier, resp);
      offered, replies := offered + [given], earlier + [resp];
      if stop {
        assert replies[..|replies| - 1] == earlier;
        return resp, false, offered, replies;
      }
      attempt := attempt + 1;
    }
  }

  /** An attempt that was made and failed: an error, or a status of 500 or more. */
  predicate Failed(reply: Response?) {
    reply == null || reply.status >= 500
  }

  /** In the loop's log, only the last attempt may have succeeded, and no wait between two
      was cut short. */
  lemma RetriesFollowFailures(limit: nat, turns: seq<Turn>, replies: seq<Response?>)
    requires 0 < limit <= |turns| && 0 < |replies| <= limit && Log(turns, replies)
    requires Ends(limit, turns, 0) == Returned(|replies| - 1)
    ensures forall i :: 0 <= i < |replies| - 1 ==> Failed(replies[i])
    ensures forall i :: 0 < i < |replies| ==> !turns[i].cancelled
    ensures Failed(replies[|replies| - 1]) ==> |replies| == limit
  {
    var last := |replies| - 1;
    EndsAtFirstGoodElseLast(limit, turns, last, 0);
    assert Matches(turns[last], replies[last]);
    forall i | 0 <= i < last ensures Failed(replies[i]) {
      assert Matches(turns[i], replies[i]) && !Good(turns[i].outcome);
    }
  }

  lemma CancelledAfterFailures(limit: nat, turns: seq<Turn>, replies: seq<Response?>)
    requires 0 < limit <= |turns| && |replies| <= limit && Log(turns, replies)
    requires Ends(limit, turns, 0) == Cancelled(|replies|)
    ensures 0 < |replies| < limit && turns[|replies|].cancelled
    ensures forall i :: 0 <= i < |replies| ==> Failed(replies[i])
    ensures forall i :: 0 < i < |replies| ==> !turns[i].cancelled
  {
    EndsLater(limit, turns, 0);
    EndsAtFirstGoodElseLast(limit, turns, |replies|, 0);
    forall i | 0 <= i < |replies| ensures Failed(replies[i]) {
      assert Matches(turns[i], replies[i]) && !Good(turns[i].outcome);
    }
  }

  /** One round trip. */
  method RoundTrip(cb: CircuitBreaker, req: Request, turns: seq<Turn>, readFails: bool, asked: int, done: int)
    returns (resp: Response?, failure: Failure, ghost offered: seq<Option<seq<int>>>, ghost replies: seq<Response?>)
    requires |turns| >= 3
    modifies cb, req, Owned(req)
    ensures Log(turns, replies) && |offered| == |replies| <= Limit(req.verb)
    // refused by the breaker, or the body could not be read: no attempt, no record
    ensures failure == BreakerOpen <==> !Permits(cb.S(), old(cb.Value()), asked)
    ensures failure == BodyUnreadable <==>
      && Permits(cb.S(), old(cb.Value()), asked) && readFails
      && req.verb in {"GET", "HEAD", "PUT", "DELETE"} && old(req.body) != null && old(req.rewind).None?
    ensures failure == BreakerOpen || failure == BodyUnreadable ==> replies == []
    // the early returns record nothing
    ensures failure == BreakerOpen || failure == BodyUnreadable || failure == ContextDone ==>
      resp == null && cb.Value() == Asked(cb.S(), old(cb.Value()), asked)
    ensures failure == ContextDone ==>
      Ends(Limit(req.verb), turns, 0) == Cancelled(|replies|) && AllDropped(replies)
    // a completed call returns the reply of its last attempt, still open, and records once
    ensures failure == NoFailure || failure == UpstreamFailed ==>
      && |replies| > 0 && Ends(Limit(req.verb), turns, 0) == Returned(|replies| - 1)
      && resp == replies[|replies| - 1] && (resp != null ==> resp.closes == 0)
      && (failure == UpstreamFailed <==> resp == null)
      && AllDropped(replies[..|replies| - 1])
      && cb.Value() == Recorded(cb.S(), Asked(cb.S(), old(cb.Value()), asked),
                                resp != null && resp.status < 500, done)
    // only the four methods are retried
    ensures req.verb !in {"GET", "HEAD", "PUT", "DELETE"} ==> |replies| <= 1 && failure != ContextDone
    // a retry follows a failed attempt and a wait that was not cut short
    ensures forall i :: 0 <= i < |replies| - 1 ==> replies[i] == null || replies[i].status >= 500
    ensures forall i :: 0 < i < |replies| ==> !turns[i].cancelled
    ensures failure == ContextDone ==>
      && 0 < |replies| < 3 && turns[|replies|].cancelled
      && (replies[|replies| - 1] == null || replies[|replies| - 1].status >= 500)
    // and there is one until an attempt succeeds or the third has failed
    ensures (failure == NoFailure || failure == UpstreamFailed) && (resp == null || resp.status >= 500) ==>
      |replies| == if req.verb in {"GET", "HEAD", "PUT", "DELETE"} then 3 else 1
    // every attempt is given the whole original body
    ensures old(req.RewindsToBody()) ==>
      forall i :: 0 <= i < |offered| ==> offered[i] == old(req.Payload())
  {
    resp, failure, offered, replies := null, NoFailure, [], [];
    var allowed := cb.Allow(asked);
    if !allowed {
      failure := BreakerOpen;
      return;
    }
    var maxRetries, unreadable := PrepareRetries(req, readFails);
    if unreadable {
      failure := BodyUnreadable;
      return;
    }
    var cancelled;
    resp, cancelled, offered, replies := Attempts(req, maxRetries, turns);
    if cancelled {
      CancelledAfterFailures(maxRetries, turns, replies);
      failure := ContextDone;
      return;
    }
    RetriesFollowFailures(maxRetries, turns, replies);
    cb.RecordResult(resp != null && resp.status < 500, done);
    if resp == null {
      failure := UpstreamFailed;
    }
  }
}
