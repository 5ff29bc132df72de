/**
 * How one health probe's outcome becomes a verdict (utils/health.ts:19-47).
 * The network request itself (fetch with a browser User-Agent, aborted by a
 * timer after 5000 ms) is not modelled: what it produced is an input.
 */
module Classification {
  import opened BotDetection

  /** What the network delivered for one probe.  `Failed` is any exception
      caught at utils/health.ts:45: a transport error, the abort fired by the
      timeout, or a failure while reading the body text.  `Response` is a
      response whose status line arrived and, when the status is ok, whose
      whole body text was read. */
  datatype Outcome = Failed | Response(status: int, body: string)

  /** `Response.ok`: a status in the range 200-299. */
  predicate IsOk(status: int) {
    200 <= status <= 299
  }

  /** The verdict of `checkInstanceHealth` once it gets past the cache. */
  function Classify(o: Outcome): (healthy: bool)
    ensures o.Failed? ==> !healthy
    ensures o.Response? && !IsOk(o.status) ==> !healthy
    ensures healthy <==>
              (o.Response? && IsOk(o.status) &&
               forall n :: 0 <= n < |BotPhrases| ==> !OccursInWindow(o.body, BotPhrases[n]))
  {
    match o
    case Failed => false
    case Response(status, body) => IsOk(status) && BodyLooksHealthy(body)
  }

  /** A non-ok status is unhealthy whatever the body holds: the body is never
      consulted. */
  lemma NonOkIgnoresBody(status: int, body1: string, body2: string)
    requires !IsOk(status)
    ensures Classify(Response(status, body1)) == Classify(Response(status, body2)) == false
  {
  }

  /** An ok status with a challenge page is unhealthy (a 2xx is not
      enough). */
  lemma OkChallengeUnhealthy(status: int, rest: string)
    requires IsOk(status)
    ensures !Classify(Response(status, "JUST A MOMENT" + rest))
  {
    ChallengePageRejected(rest);
  }

  /** An ok status with an application-level error page is healthy. */
  lemma OkNotFoundHealthy()
    ensures Classify(Response(200, "Tweet not found"))
  {
    NotFoundPageAccepted();
  }
}
