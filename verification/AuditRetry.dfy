/** retryHTTPClient.Do of internal/audit/audit.go: a request is tried up to four times, with a fresh
    body whenever it can make one, and the body of every response that is not returned is closed. */
module AuditRetry {
  import opened Metrics

  class Response {
    const status: int
    const hasBody: bool
    var closed: bool

    constructor (status: int, hasBody: bool)
      ensures this.status == status && this.hasBody == hasBody && !closed
    {
      this.status, this.hasBody, closed := status, hasBody, false;
    }
  }

  /** What a client returns; either part, or both, may be missing. */
  datatype Reply = Reply(response: Response?, error: Option<string>)

  type Body = seq<char>

  const RETRIES := 3

  const TOO_MANY_REQUESTS := 429

  const INTERNAL_SERVER_ERROR := 500

  predicate ShouldRetryHTTP(r: Reply) {
    r.error.Some? ||
    (r.response != null && (r.response.status == TOO_MANY_REQUESTS || r.response.status >= INTERNAL_SERVER_ERROR))
  }

  /** Another try is worth it after any error, after 429 and after a status of the 500s or above. */
  lemma RetryExactly(r: Reply)
    ensures ShouldRetryHTTP(r) <==>
              match r.error
              case Some(_) => true
              case None => r.response != null && (r.response.status == 429 || r.response.status / 100 >= 5)
  {
  }

  ghost function Responses(replies: seq<Reply>): set<object> {
    set i | 0 <= i < |replies| && replies[i].response != null :: replies[i].response
  }

  ghost predicate Apart(replies: seq<Reply>) {
    forall i, j :: 0 <= i < j < |replies| && replies[i].response != null ==> replies[i].response != replies[j].response
  }

  /** A request may know how to make its body again; one that does not lends its only body to every
      attempt. */
  type GetBody = nat -> Result<Body, string>

  /** What attempt n hands to the client: a fresh body, or the shared one. */
  datatype Handed = FreshBody(body: Body) | SharedBody

  function Handing(getBody: Option<GetBody>, n: nat): Result<Handed, string> {
    match getBody
    case None => Ok(SharedBody)
    case Some(make) => match make(n) case Ok(b) => Ok(FreshBody(b)) case Err(e) => Err(e)
  }

  /** The context was done during the wait before attempt n. */
  predicate DoneBefore(done: seq<bool>, n: nat) {
    1 <= n <= |done| && done[n - 1]
  }

  /** How the call ended after the attempts numbered below n were given up: no body could be made,
      the context was done during the wait after the last of them, or attempt n was final. */
  ghost predicate Ended(replies: seq<Reply>, getBody: Option<GetBody>, done: seq<bool>, n: nat, r: Reply)
    requires |replies| == RETRIES + 1 && |done| == RETRIES
  {
    || (n <= RETRIES && !DoneBefore(done, n) && Handing(getBody, n).Err? && r == Reply(null, Some(Handing(getBody, n).error)))
    || (DoneBefore(done, n) && r == Reply(null, Some("context done")))
    || (n <= RETRIES && !DoneBefore(done, n) && Handing(getBody, n).Ok? && r == replies[n] && (n == RETRIES || !ShouldRetryHTTP(r)))
  }

  /** replies, getBody and done are what the network, the request and the context do. sent are the
      bodies handed to the client; givenUp counts the attempts whose response was thrown away. */
  method Do(replies: seq<Reply>, getBody: Option<GetBody>, done: seq<bool>)
    returns (r: Reply, ghost sent: seq<Handed>, ghost givenUp: nat)
    requires |replies| == RETRIES + 1 && |done| == RETRIES && Apart(replies)
    modifies Responses(replies)
    ensures givenUp <= RETRIES && Ended(replies, getBody, done, givenUp, r)
    ensures |sent| <= 4 && givenUp <= |sent| <= givenUp + 1 && forall i :: 0 <= i < |sent| ==> Handing(getBody, i) == Ok(sent[i])
    ensures forall i :: 0 <= i < givenUp ==> ShouldRetryHTTP(replies[i]) && (i + 1 < givenUp ==> !done[i])
    ensures forall i :: 0 <= i < |replies| && replies[i].response != null ==>
              replies[i].response.closed ==
              if i < givenUp && replies[i].response.hasBody then true else old(replies[i].response.closed)
  {
    sent, givenUp := [], 0;
    var attempt := 0;
    while attempt <= RETRIES
      invariant attempt <= RETRIES && givenUp == |sent| == attempt
      invariant forall i :: 0 <= i < |sent| ==> Handing(getBody, i) == Ok(sent[i])
      invariant forall i :: 0 <= i < attempt ==> ShouldRetryHTTP(replies[i]) && !done[i]
      invariant forall i :: 0 <= i < |replies| && replies[i].response != null ==>
                  replies[i].response.closed ==
                  if i < attempt && replies[i].response.hasBody then true else old(replies[i].response.closed)
    {
      var handed := SharedBody;
      if getBody.Some? {
        var body := getBody.value(attempt);
        if body.Err? {
          return Reply(null, Some(body.error)), sent, givenUp;
        }
        handed := FreshBody(body.value);
      }
      sent := sent + [handed];
      var reply := replies[attempt];
      if !ShouldRetryHTTP(reply) || attempt == RETRIES {
        return reply, sent, givenUp;
      }
      if reply.response != null && reply.response.hasBody {
        reply.response.closed := true;
      }
      givenUp := givenUp + 1;
      if done[attempt] {
        return Reply(null, Some("context done")), sent, givenUp;
      }
      attempt := attempt + 1;
    }
    assert false;
  }
}
