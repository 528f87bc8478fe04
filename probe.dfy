/** What the HTTP transport reports for one request, and the UP/DOWN
    classification of it (app.py, checkEndpoint). */
module Probe {

  /** A response slower than this many milliseconds counts as DOWN. */
  const LatencyLimitMs: int := 500

  /** The outcome of one request: a response with its status code and the
      whole milliseconds elapsed since the request started, or an exception
      (timeout, connection error, DNS failure and the like). */
  datatype Outcome = Responded(status: int, elapsedMs: int) | Raised

  /** An endpoint is UP when it answered with a 2xx status in under 500 ms. */
  predicate IsUp(p: Outcome) {
    p.Responded? && 200 <= p.status < 300 && p.elapsedMs < LatencyLimitMs
  }

  /** The classification agrees with the status-class reading "the status
      is in the 2xx family": status div 100 is 2. */
  lemma IsUpStatusClass(p: Outcome)
    ensures IsUp(p) <==> p.Responded? && p.status / 100 == 2 && p.elapsedMs < LatencyLimitMs
  {
  }

  /** Raising is always DOWN, and a response is DOWN as soon as either the
      status leaves the 2xx range or the latency reaches 500 ms. */
  lemma IsUpBoundaries(status: int, elapsedMs: int)
    ensures !IsUp(Raised)
    ensures !(200 <= status < 300) ==> !IsUp(Responded(status, elapsedMs))
    ensures elapsedMs >= LatencyLimitMs ==> !IsUp(Responded(status, elapsedMs))
    ensures 200 <= status < 300 && elapsedMs < LatencyLimitMs ==> IsUp(Responded(status, elapsedMs))
  {
  }

  lemma IsUpExamples()
    ensures IsUp(Responded(200, 100)) && IsUp(Responded(299, 499)) && IsUp(Responded(204, 0))
    ensures !IsUp(Responded(200, 600)) && !IsUp(Responded(200, 500))
    ensures !IsUp(Responded(503, 50)) && !IsUp(Responded(300, 10)) && !IsUp(Responded(199, 10))
  {
  }
}
