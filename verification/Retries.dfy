/** The HTTP retry transport: a bounded loop with exponential backoff, jitter and Retry-After. */
module Retries {
  import opened Wrappers

  /** What a Retry-After header says: nothing, seconds, the seconds until a date, or unreadable text. */
  datatype RetryAfter = NoHeader | Seconds(n: nat) | Date(difference: real) | Unreadable

  /** What a send gives: a response, an httpx error, or any other exception. */
  datatype Reply = Response(status: int, retryAfter: RetryAfter) | HttpError(error: int) | OtherError(error: int)

  /** A fraction as `random.random()` gives it. */
  type Fraction = u: real | 0.0 <= u < 1.0 witness 0.0

  datatype Backoff = Backoff(base: real, cap: real, jitter: real, respectRetryAfter: bool)

  ghost predicate Sensible(b: Backoff) {
    b.base >= 0.0 && b.cap >= 0.0 && b.jitter >= 0.0
  }

  const RETRYABLE_METHODS := {"HEAD", "GET", "PUT", "DELETE", "OPTIONS", "TRACE"}
  const RETRYABLE_STATUS_CODES := {429, 502, 503, 504, 401, 400}

  /** strategies.py, `should_retry`, with the default methods and status codes. */
  predicate ShouldRetry(httpMethod: string, reply: Reply) {
    && httpMethod in RETRYABLE_METHODS
    && match reply
       case Response(status, _) => status in RETRYABLE_STATUS_CODES
       case HttpError(_) => true
       case OtherError(_) => false
  }

  /** Sent again are exactly requests with one of six methods that got one of six statuses or an httpx error. */
  lemma RetriedExactlyWhen(httpMethod: string, reply: Reply)
    ensures ShouldRetry(httpMethod, reply) <==>
            && (httpMethod == "HEAD" || httpMethod == "GET" || httpMethod == "PUT" || httpMethod == "DELETE"
                || httpMethod == "OPTIONS" || httpMethod == "TRACE")
            && (reply.HttpError?
                || (reply.Response? && (reply.status == 400 || reply.status == 401 || reply.status == 429
                                        || 502 <= reply.status <= 504)))
  {
  }

  function Pow2(n: nat): real {
    if n == 0 then 1.0 else 2.0 * Pow2(n - 1)
  }

  /** The delay before jitter. */
  function PlainDelay(b: Backoff, attempt: nat): real
    requires attempt >= 1
  {
    RealMin(b.cap, b.base * Pow2(attempt - 1))
  }

  function Jittered(delay: real, jitter: real, u: Fraction): real {
    var amount := (u * 2.0 - 1.0) * jitter * delay;
    RealMax(0.0, delay + amount)
  }

  /** utils/backoff.py, `ExponentialBackoffWithJitter.next_delay`. */
  function NextDelay(b: Backoff, attempt: nat, u: Fraction): real
    requires attempt >= 1
  {
    Jittered(PlainDelay(b, attempt), b.jitter, u)
  }

  /** retry/backoff.py, `calculate_sleep`. */
  function CalculateSleep(b: Backoff, attempt: nat, header: RetryAfter, u: Fraction): real
    requires attempt >= 1
  {
    if !b.respectRetryAfter then NextDelay(b, attempt, u)
    else
      match header
      case Seconds(n) => RealMin(n as real, b.cap)
      case Date(difference) => RealMin(RealMax(difference, 0.0), b.cap)
      case _ => NextDelay(b, attempt, u)
  }

  /** How the loop ends; `Exhausted` returns the last response seen, if any. */
  datatype Ending = Returned(reply: Reply) | Raised(reply: Reply) | Exhausted(last: Option<Reply>)

  /** Attempt `i` (from 0) ends the loop. */
  predicate EndsAt(methods: nat -> string, replies: nat -> Reply, i: nat) {
    !ShouldRetry(methods(i), replies(i))
  }

  /** The latest response among the first `n` replies. */
  function LastResponse(replies: nat -> Reply, n: nat): Option<Reply> {
    if n == 0 then None
    else if replies(n - 1).Response? then Some(replies(n - 1))
    else LastResponse(replies, n - 1)
  }

  /** The Retry-After the loop sees after `n` replies: that of the last response, also after an error. */
  function HeaderAfter(replies: nat -> Reply, n: nat): RetryAfter {
    match LastResponse(replies, n)
    case Some(r) => if r.Response? then r.retryAfter else NoHeader
    case None => NoHeader
  }

  // ----- How long it sleeps -----

  function Total(sleeps: seq<real>): real {
    if sleeps == [] then 0.0 else Total(sleeps[..|sleeps| - 1]) + sleeps[|sleeps| - 1]
  }

  lemma {:induction false} Pow2Positive(n: nat)
    ensures Pow2(n) >= 1.0
  {
    if n > 0 { Pow2Positive(n - 1); }
  }

  lemma Product(x: real, y: real)
    requires x >= 0.0 && y >= 0.0
    ensures x * y >= 0.0
  {
  }

  lemma PlainDelayBounds(b: Backoff, attempt: nat)
    requires attempt >= 1 && Sensible(b)
    ensures 0.0 <= PlainDelay(b, attempt) <= b.cap && PlainDelay(b, attempt) <= b.base * Pow2(attempt - 1)
  {
    Pow2Positive(attempt - 1);
    Product(b.base, Pow2(attempt - 1));
  }

  lemma JitterBounds(delay: real, jitter: real, u: Fraction)
    requires jitter >= 0.0 && delay >= 0.0
    ensures 0.0 <= Jittered(delay, jitter, u) <= (1.0 + jitter) * delay
  {
    Product(jitter, delay);
    Product(2.0 - u * 2.0, jitter * delay);
    var amount := (u * 2.0 - 1.0) * jitter * delay;
    assert jitter * delay - amount == (2.0 - u * 2.0) * (jitter * delay);
    assert delay + jitter * delay == (1.0 + jitter) * delay;
    assert amount <= jitter * delay;
    assert 0.0 <= jitter * delay;
    assert RealMax(0.0, delay + amount) <= delay + jitter * delay;
    assert Jittered(delay, jitter, u) == RealMax(0.0, delay + amount);
  }

  lemma NextDelayBounds(b: Backoff, attempt: nat, u: Fraction)
    requires attempt >= 1 && Sensible(b)
    ensures 0.0 <= NextDelay(b, attempt, u) <= (1.0 + b.jitter) * PlainDelay(b, attempt)
  {
    PlainDelayBounds(b, attempt);
    JitterBounds(PlainDelay(b, attempt), b.jitter, u);
  }

  /** Every sleep lies in [0, (1 + jitter) * cap], whatever Retry-After says. */
  lemma SleepInRange(b: Backoff, attempt: nat, header: RetryAfter, u: Fraction)
    requires attempt >= 1 && Sensible(b)
    ensures 0.0 <= CalculateSleep(b, attempt, header, u) <= (1.0 + b.jitter) * b.cap
  {
    NextDelayBounds(b, attempt, u);
    PlainDelayBounds(b, attempt);
    Scale(b.jitter, PlainDelay(b, attempt), b.cap);
    Product(b.jitter, b.cap);
    assert (1.0 + b.jitter) * b.cap == b.cap + b.jitter * b.cap;
  }

  lemma Scale(jitter: real, x: real, y: real)
    requires jitter >= 0.0 && x <= y
    ensures (1.0 + jitter) * x <= (1.0 + jitter) * y
  {
    Product(1.0 + jitter, y - x);
    assert (1.0 + jitter) * y - (1.0 + jitter) * x == (1.0 + jitter) * (y - x);
  }

  /** What n sleeps take at most when each takes its longest. */
  ghost function LongestCapped(b: Backoff, n: nat): real {
    (1.0 + b.jitter) * (n as real * b.cap)
  }

  ghost function LongestDoubling(b: Backoff, n: nat): real {
    (1.0 + b.jitter) * (b.base * (Pow2(n) - 1.0))
  }

  lemma LongestGrow(b: Backoff, n: nat)
    requires Sensible(b)
    ensures LongestCapped(b, n) + (1.0 + b.jitter) * PlainDelay(b, n + 1) <= LongestCapped(b, n + 1)
    ensures LongestDoubling(b, n) + (1.0 + b.jitter) * PlainDelay(b, n + 1) <= LongestDoubling(b, n + 1)
  {
    PlainDelayBounds(b, n + 1);
    Scale(b.jitter, PlainDelay(b, n + 1), b.cap);
    Scale(b.jitter, PlainDelay(b, n + 1), b.base * Pow2(n));
    AddOne(b.jitter, b.cap, n);
    AddPower(b.jitter, b.base, Pow2(n));
  }

  /** Terms that stay below the growth of a bound add up to no more than the bound. */
  lemma {:induction false} TotalBelow(sleeps: seq<real>, bound: nat -> real)
    requires bound(0) == 0.0
    requires forall i: nat | i < |sleeps| :: 0.0 <= sleeps[i] && bound(i) + sleeps[i] <= bound(i + 1)
    ensures 0.0 <= Total(sleeps) <= bound(|sleeps|)
    decreases |sleeps|
  {
    if sleeps != [] {
      TotalBelow(sleeps[..|sleeps| - 1], bound);
    }
  }

  lemma SleepGrows(b: Backoff, n: nat, u: Fraction)
    requires Sensible(b)
    ensures 0.0 <= NextDelay(b, n + 1, u)
    ensures LongestCapped(b, n) + NextDelay(b, n + 1, u) <= LongestCapped(b, n + 1)
    ensures LongestDoubling(b, n) + NextDelay(b, n + 1, u) <= LongestDoubling(b, n + 1)
  {
    NextDelayBounds(b, n + 1, u);
    LongestGrow(b, n);
  }

  /** A sleep that Retry-After does not decide. */
  predicate Undirected(b: Backoff, header: RetryAfter) {
    !b.respectRetryAfter || header.NoHeader? || header.Unreadable?
  }

  /** The loop's sleeps each lie in [0, (1 + jitter) * cap]; and n of them that Retry-After does not decide
      take at most (1 + jitter) * min(n * cap, base * (2^n - 1)). */
  lemma SleepsBounded(b: Backoff, sleeps: seq<real>, headers: nat -> RetryAfter, fractions: nat -> Fraction)
    requires Sensible(b)
    requires forall i: nat | i < |sleeps| :: sleeps[i] == CalculateSleep(b, i + 1, headers(i), fractions(i))
    ensures forall i | 0 <= i < |sleeps| :: 0.0 <= sleeps[i] <= (1.0 + b.jitter) * b.cap
    ensures (forall i: nat | i < |sleeps| :: Undirected(b, headers(i))) ==>
              0.0 <= Total(sleeps) <= RealMin(LongestCapped(b, |sleeps|), LongestDoubling(b, |sleeps|))
  {
    forall i: nat | i < |sleeps| ensures 0.0 <= sleeps[i] <= (1.0 + b.jitter) * b.cap {
      SleepInRange(b, i + 1, headers(i), fractions(i));
    }
    if forall i: nat | i < |sleeps| :: Undirected(b, headers(i)) {
      TotalSleepBound(b, sleeps, fractions);
    }
  }

  lemma TotalSleepBound(b: Backoff, sleeps: seq<real>, fractions: nat -> Fraction)
    requires Sensible(b)
    requires forall i: nat | i < |sleeps| :: sleeps[i] == NextDelay(b, i + 1, fractions(i))
    ensures 0.0 <= Total(sleeps) <= LongestCapped(b, |sleeps|)
    ensures Total(sleeps) <= LongestDoubling(b, |sleeps|)
  {
    var capped := (n: nat) => LongestCapped(b, n);
    var doubling := (n: nat) => LongestDoubling(b, n);
    forall i: nat | i < |sleeps|
      ensures 0.0 <= sleeps[i] && capped(i) + sleeps[i] <= capped(i + 1) && doubling(i) + sleeps[i] <= doubling(i + 1)
    {
      SleepGrows(b, i, fractions(i));
    }
    TotalBelow(sleeps, capped);
    TotalBelow(sleeps, doubling);
  }

  lemma AddOne(jitter: real, cap: real, n: nat)
    ensures (1.0 + jitter) * ((n + 1) as real * cap) == (1.0 + jitter) * (n as real * cap) + (1.0 + jitter) * cap
  {
    assert (n + 1) as real * cap == n as real * cap + cap;
  }

  lemma AddPower(jitter: real, base: real, p: real)
    ensures (1.0 + jitter) * (base * (2.0 * p - 1.0))
         == (1.0 + jitter) * (base * (p - 1.0)) + (1.0 + jitter) * (base * p)
  {
    assert base * (2.0 * p - 1.0) == base * (p - 1.0) + base * p;
  }

  // ----- How long it sleeps at least, and what Retry-After decides -----

  /** A sleep that honours a Retry-After, or lies within the jitter around the capped doubling delay. */
  ghost predicate SleepFits(b: Backoff, i: nat, header: RetryAfter, sleep: real) {
    var delay := RealMin(b.cap, b.base * Pow2(i));
    match header
    case Seconds(n) =>
      if b.respectRetryAfter then sleep == (if n as real < b.cap then n as real else b.cap)
      else Around(delay, b.jitter, sleep)
    case Date(d) =>
      if b.respectRetryAfter then sleep == (if d < 0.0 then 0.0 else if d < b.cap then d else b.cap)
      else Around(delay, b.jitter, sleep)
    case _ => Around(delay, b.jitter, sleep)
  }

  ghost predicate Around(delay: real, jitter: real, sleep: real) {
    && sleep >= 0.0
    && (1.0 - jitter) * delay <= sleep <= (1.0 + jitter) * delay
  }

  lemma JitterAtLeast(delay: real, jitter: real, u: Fraction)
    requires jitter >= 0.0 && delay >= 0.0
    ensures (1.0 - jitter) * delay <= Jittered(delay, jitter, u)
  {
    var amount := (u * 2.0 - 1.0) * jitter * delay;
    var spread := jitter * delay;
    Product(jitter, delay);
    Product(u * 2.0, spread);
    assert amount == (u * 2.0) * spread - spread;
    assert amount >= -spread;
    var least := (1.0 - jitter) * delay;
    assert least == delay - spread;
    assert least <= RealMax(0.0, delay + amount);
    assert Jittered(delay, jitter, u) == RealMax(0.0, delay + amount);
  }

  /** What one sleep is, said without the formula. */
  lemma SleepMeans(b: Backoff, attempt: nat, header: RetryAfter, u: Fraction)
    requires attempt >= 1 && Sensible(b)
    ensures SleepFits(b, attempt - 1, header, CalculateSleep(b, attempt, header, u))
  {
    PlainDelayBounds(b, attempt);
    JitterBounds(PlainDelay(b, attempt), b.jitter, u);
    JitterAtLeast(PlainDelay(b, attempt), b.jitter, u);
    hide Jittered;
  }

  /** Without jitter the sleep is the delay; with it, every length around the delay is drawn by some fraction. */
  lemma JitterCovers(delay: real, jitter: real, sleep: real) returns (u: Fraction)
    requires 0.0 <= jitter <= 1.0 && delay >= 0.0
    requires jitter == 0.0 || delay == 0.0 ==> sleep == delay
    requires jitter > 0.0 && delay > 0.0 ==> (1.0 - jitter) * delay <= sleep < (1.0 + jitter) * delay
    ensures Jittered(delay, jitter, u) == sleep
  {
    if jitter == 0.0 || delay == 0.0 {
      u := 0.0;
      assert (u * 2.0 - 1.0) * jitter * delay == 0.0;
    } else {
      var spread := jitter * delay;
      assert spread > 0.0;
      u := DrawFor(delay, jitter, spread, sleep);
      Product(1.0 - jitter, delay);
    }
  }

  lemma DrawFor(delay: real, jitter: real, spread: real, sleep: real) returns (u: Fraction)
    requires spread == jitter * delay && spread > 0.0
    requires (1.0 - jitter) * delay <= sleep < (1.0 + jitter) * delay
    ensures delay + (u * 2.0 - 1.0) * jitter * delay == sleep
  {
    var x := (sleep - delay + spread) / (2.0 * spread);
    assert (1.0 - jitter) * delay == delay - spread && (1.0 + jitter) * delay == delay + spread;
    assert x * (2.0 * spread) == sleep - delay + spread;
    assert 0.0 <= x < 1.0;
    u := x;
    assert (u * 2.0 - 1.0) * jitter * delay == (u * 2.0 - 1.0) * spread;
    assert (u * 2.0 - 1.0) * spread == u * (2.0 * spread) - spread;
  }

  /** The powers double. */
  lemma PowersOfTwo(n: nat)
    ensures Pow2(0) == 1.0 && Pow2(n + 1) == Pow2(n) + Pow2(n) && Pow2(5) == 32.0
  {
  }

  // ----- The loop -----

  /** The last of the first `n` replies that is a response is the `j`-th. */
  ghost predicate LastIs(replies: nat -> Reply, n: nat, j: nat) {
    && j < n && replies(j).Response?
    && forall k: nat | j < k < n :: !replies(k).Response?
  }

  lemma {:induction false} LastIsLast(replies: nat -> Reply, n: nat, j: nat)
    ensures LastIs(replies, n, j) ==> LastResponse(replies, n) == Some(replies(j))
    ensures (forall k: nat | k < n :: !replies(k).Response?) ==> LastResponse(replies, n) == None
  {
    if n > 0 { LastIsLast(replies, n - 1, j); }
  }

  /** Each sleep fits the Retry-After of the last response seen before it, or no header if there was none. */
  ghost predicate SleepsFit(b: Backoff, replies: nat -> Reply, sleeps: seq<real>) {
    forall i: nat | i < |sleeps| ::
      && (forall j | LastIs(replies, i + 1, j) :: SleepFits(b, i, replies(j).retryAfter, sleeps[i]))
      && ((forall j: nat | j <= i :: !replies(j).Response?) ==> SleepFits(b, i, NoHeader, sleeps[i]))
  }

  lemma FormulaFits(b: Backoff, replies: nat -> Reply, fractions: nat -> Fraction, sleeps: seq<real>)
    requires forall i: nat | i < |sleeps| ::
               sleeps[i] == CalculateSleep(b, i + 1, HeaderAfter(replies, i + 1), fractions(i))
    ensures Sensible(b) ==> SleepsFit(b, replies, sleeps)
  {
    hide SleepFits, CalculateSleep;
    if Sensible(b) {
      forall i: nat | i < |sleeps|
        ensures forall j | LastIs(replies, i + 1, j) :: SleepFits(b, i, replies(j).retryAfter, sleeps[i])
        ensures (forall j: nat | j <= i :: !replies(j).Response?) ==> SleepFits(b, i, NoHeader, sleeps[i])
      {
        SleepMeans(b, i + 1, HeaderAfter(replies, i + 1), fractions(i));
        forall j | LastIs(replies, i + 1, j) ensures SleepFits(b, i, replies(j).retryAfter, sleeps[i]) {
          LastIsLast(replies, i + 1, j);
        }
        LastIsLast(replies, i + 1, 0);
      }
    }
  }

  /** retry/transport.py, `_sync_retry_loop`. The loop sends at most `maxAttempts` times and hands back the
      first reply that is not to be retried: a response is returned, an exception raised. `methods` is the
      HTTP method of each request, which the observer may have replaced; `fractions` the random draws. */
  method RetryLoop(maxAttempts: int, methods: nat -> string, replies: nat -> Reply,
                   backoff: Backoff, fractions: nat -> Fraction)
    returns (ending: Ending, sends: nat, sleeps: seq<real>)
    ensures sends <= Max(0, maxAttempts)
    ensures forall i | 0 <= i < |sleeps| :: !EndsAt(methods, replies, i)
    ensures forall i: nat | i < |sleeps| ::
              sleeps[i] == CalculateSleep(backoff, i + 1, HeaderAfter(replies, i + 1), fractions(i))
    ensures Sensible(backoff) ==> SleepsFit(backoff, replies, sleeps)
    ensures !ending.Exhausted? ==> sends >= 1 && |sleeps| == sends - 1 && EndsAt(methods, replies, sends - 1)
    ensures !ending.Exhausted? ==>
              ending == if replies(sends - 1).Response? then Returned(replies(sends - 1))
                        else Raised(replies(sends - 1))
    ensures ending.Exhausted? <==> forall i | 0 <= i < maxAttempts :: !EndsAt(methods, replies, i)
    ensures maxAttempts >= 1 && methods(0) !in RETRYABLE_METHODS ==> sends == 1 && !ending.Exhausted?
    ensures ending.Exhausted? ==> |sleeps| == sends == Max(0, maxAttempts)
    ensures ending.Exhausted? ==> ending.last == LastResponse(replies, sends)
  {
    sends, sleeps := 0, [];
    assert methods(0) !in RETRYABLE_METHODS ==> EndsAt(methods, replies, 0);
    var response: Option<Reply> := None;
    for attempt := 1 to Max(0, maxAttempts) + 1
      invariant sends == |sleeps| == attempt - 1
      invariant response == LastResponse(replies, sends)
      invariant forall i | 0 <= i < |sleeps| :: !EndsAt(methods, replies, i)
      invariant forall i: nat | i < |sleeps| ::
                  sleeps[i] == CalculateSleep(backoff, i + 1, HeaderAfter(replies, i + 1), fractions(i))
    {
      var httpMethod := methods(sends);
      var reply := replies(sends);
      sends := sends + 1;
      if reply.Response? {
        response := Some(reply);
        if !ShouldRetry(httpMethod, reply) {
          assert EndsAt(methods, replies, sends - 1);
          FormulaFits(backoff, replies, fractions, sleeps);
          return Returned(reply), sends, sleeps;
        }
      } else if !ShouldRetry(httpMethod, reply) {
        assert EndsAt(methods, replies, sends - 1);
        FormulaFits(backoff, replies, fractions, sleeps);
        return Raised(reply), sends, sleeps;
      }
      var header := match response
        case Some(r) => if r.Response? then r.retryAfter else NoHeader
        case None => NoHeader;
      var sleep := CalculateSleep(backoff, attempt, header, fractions(sends - 1));
      sleeps := sleeps + [sleep];
    }
    FormulaFits(backoff, replies, fractions, sleeps);
    ending := Exhausted(response);
  }
}
