/** The poll budget of a run: how many status checks `execute` makes before it
    gives up and stops the task (nodes/BrowserAct/BrowserAct.node.ts:267-268). */
module Budget {
  import opened Wrappers

  /** Delay between two status checks, in milliseconds. */
  const QUERY_DELAY: int := 5000
  /** Most status checks per run: the service stops tasks after 24 hours,
      and 16560 checks of 5 seconds are 23 hours. */
  const QUERY_LIMIT: int := 16560
  /** Timeout, in seconds, used when the parameter is missing, zero or not a number. */
  const DEFAULT_TIMEOUT: int := 3600

  /** `Number(timeout) || 3600`, with the timeout taken as a whole number of
      seconds: `None` stands for a value that is not a number. The result is
      never zero, and it is the given timeout unless that was missing or zero. */
  function EffectiveTimeout(timeout: Option<int>): (t: int)
    ensures t != 0
    ensures t == DEFAULT_TIMEOUT <==> timeout in {None, Some(0), Some(DEFAULT_TIMEOUT)}
    ensures t != DEFAULT_TIMEOUT ==> timeout == Some(t)
  {
    match timeout
    case None => DEFAULT_TIMEOUT
    case Some(x) => if x == 0 then DEFAULT_TIMEOUT else x
  }

  /** `Math.ceil(a / b)` for a positive divisor (Dafny's `/` rounds down here). */
  function CeilDiv(a: int, b: int): int
    requires b > 0
  {
    (a + b - 1) / b
  }

  /** `Math.min(Math.ceil(timeout * 1000 / QUERY_DELAY), QUERY_LIMIT)`: the least
      number of delays that cover the timeout, capped at QUERY_LIMIT. It reaches
      the cap exactly when the timeout is longer than QUERY_LIMIT - 1 delays. */
  function PollLimit(timeout: Option<int>): (limit: int)
    ensures limit <= QUERY_LIMIT
    ensures limit < QUERY_LIMIT ==>
      (limit - 1) * QUERY_DELAY < EffectiveTimeout(timeout) * 1000 <= limit * QUERY_DELAY
    ensures limit == QUERY_LIMIT <==>
      EffectiveTimeout(timeout) * 1000 > (QUERY_LIMIT - 1) * QUERY_DELAY
  {
    var polls := CeilDiv(EffectiveTimeout(timeout) * 1000, QUERY_DELAY);
    if polls < QUERY_LIMIT then polls else QUERY_LIMIT
  }

  /** A missing, zero or non-numeric timeout gives an hour of 5-second polls. */
  lemma DefaultLimit()
    ensures PollLimit(None) == 720 && PollLimit(Some(0)) == 720
  {
  }

  /** A negative timeout leaves no poll at all; a timeout of ten seconds gives
      two polls; a day-long timeout is cut down to the cap. */
  lemma LimitExamples(t: int)
    ensures t < 0 ==> PollLimit(Some(t)) <= 0
    ensures PollLimit(Some(10)) == 2
    ensures PollLimit(Some(86400)) == QUERY_LIMIT
  {
  }

  /** A longer timeout never gives fewer polls. */
  lemma {:induction false} LimitMonotone(t1: int, t2: int)
    requires t1 != 0 && t2 != 0 && t1 <= t2
    ensures PollLimit(Some(t1)) <= PollLimit(Some(t2))
  {
    var a, b := t1 * 1000 + QUERY_DELAY - 1, t2 * 1000 + QUERY_DELAY - 1;
    assert a / QUERY_DELAY <= b / QUERY_DELAY;
  }
}
