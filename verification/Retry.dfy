/** HTTP retry budgets (argus_mcp/bridge/retry.py). */
module Retry {
  import opened Common

  datatype Config = Config(maxRetries: int, baseDelay: real, backoff: real, maxDelay: real, jitter: real) {
    /** The documented ranges: no negative durations, jitter a fraction. The constructor does not check them. */
    predicate Documented() {
      baseDelay >= 0.0 && backoff >= 0.0 && maxDelay >= 0.0 && 0.0 <= jitter <= 1.0
    }
  }

  /** What one request brings back; `retryAfter` is the parsed header in seconds. */
  datatype Reply = TransportError | Response(status: int, retryAfter: Option<real>)

  datatype Outcome =
    | Success(attempt: nat)
    | NonRetryable(status: int)
    | Exhausted(lastStatus: int, attempts: int)
    | TransportFailed

  const RETRYABLE := {408, 429, 502, 503, 504}

  predicate Retryable(r: Reply) {
    r.TransportError? || r.status in RETRYABLE
  }

  function Pow(b: real, n: nat): real {
    if n == 0 then 1.0 else b * Pow(b, n - 1)
  }

  function Min(a: real, b: real): real { if a <= b then a else b }

  function Max(a: real, b: real): real { if a >= b then a else b }

  /** The wait after attempt number `attempt`; `noise`, between -1 and 1, is the draw that jitter scales. */
  function Delay(cfg: Config, attempt: nat, retryAfter: Option<real>, noise: real): real
    requires attempt >= 1
  {
    if retryAfter.Some? && retryAfter.value > 0.0 then Min(retryAfter.value, cfg.maxDelay)
    else Max(0.01, Backoff(cfg, attempt) + Times(JitterAmount(cfg, attempt), noise))
  }

  /** How far jitter can move the wait, either way. */
  function JitterAmount(cfg: Config, attempt: nat): real
    requires attempt >= 1
  {
    Times(Backoff(cfg, attempt), cfg.jitter)
  }

  /** Exponential backoff, capped. */
  function Backoff(cfg: Config, attempt: nat): real
    requires attempt >= 1
  {
    Min(Times(cfg.baseDelay, Pow(cfg.backoff, attempt - 1)), cfg.maxDelay)
  }

  function Times(a: real, b: real): (c: real)
    ensures a >= 0.0 && b >= 0.0 ==> c >= 0.0
  {
    a * b
  }

  function RetryAfterOf(r: Reply): Option<real> {
    if r.Response? then r.retryAfter else None
  }

  /** The end of a call whose last request, number `attempt`, brought `r`. */
  function Verdict(r: Reply, attempt: nat): Outcome {
    if r.TransportError? then TransportFailed
    else if 200 <= r.status < 300 then Success(attempt)
    else if r.status in RETRYABLE then Exhausted(r.status, attempt)
    else NonRetryable(r.status)
  }

  /** The requests of a call: the first that is not retryable ends it, and so does the last one allowed. */
  ghost predicate IsLast(cfg: Config, server: nat -> Reply, n: nat) {
    && 1 <= n <= cfg.maxRetries + 1
    && (forall i :: 1 <= i < n ==> Retryable(server(i)))
    && (Retryable(server(n)) ==> n == cfg.maxRetries + 1)
  }

  /** Sends requests until one settles the matter or the budget is spent. */
  method Execute(cfg: Config, server: nat -> Reply, noise: nat -> real)
      returns (outcome: Outcome, requests: nat, waits: seq<real>)
    ensures cfg.maxRetries < 0 ==> requests == 0 && outcome == Exhausted(0, cfg.maxRetries + 1)
    ensures cfg.maxRetries >= 0 ==> IsLast(cfg, server, requests) && outcome == Verdict(server(requests), requests)
    ensures if requests == 0 then waits == [] else waits == WaitsOf(cfg, server, noise, requests)
  {
    requests, waits := 0, [];
    var attempt := 1;
    while attempt < cfg.maxRetries + 2
      invariant 1 <= attempt && requests == attempt - 1 == |waits| && (attempt == 1 || attempt <= cfg.maxRetries + 1)
      invariant forall i :: 1 <= i < attempt ==> Retryable(server(i))
      invariant forall i :: 0 <= i < |waits| ==>
                waits[i] == Delay(cfg, i + 1, RetryAfterOf(server(i + 1)), noise(i + 1))
      decreases cfg.maxRetries + 2 - attempt
    {
      var reply := server(attempt);
      requests := requests + 1;
      if reply.Response? && 200 <= reply.status < 300 {
        return Success(attempt), requests, waits;
      }
      if reply.Response? && reply.status !in RETRYABLE {
        return NonRetryable(reply.status), requests, waits;
      }
      if attempt > cfg.maxRetries {
        return if reply.TransportError? then TransportFailed else Exhausted(reply.status, attempt), requests, waits;
      }
      waits := waits + [Delay(cfg, attempt, RetryAfterOf(reply), noise(attempt))];
      attempt := attempt + 1;
    }
    return Exhausted(0, cfg.maxRetries + 1), requests, waits;
  }

  /** The number of the last request is determined by the replies. */
  lemma LastIsUnique(cfg: Config, server: nat -> Reply, m: nat, n: nat)
    requires IsLast(cfg, server, m) && IsLast(cfg, server, n)
    ensures m == n
  {
    assert m < n ==> Retryable(server(m));
    assert n < m ==> Retryable(server(n));
  }

  /** Transport errors and five statuses are retried. */
  lemma RetryableExactly(r: Reply)
    ensures Retryable(r) <==>
              || r.TransportError?
              || r.status == 408 || r.status == 429 || r.status == 502 || r.status == 503 || r.status == 504
  {
  }

  /** How a call ends is decided by its last reply: the response is returned, the transport error is raised, a retryable
      status exhausted the retries, and any other status is not retryable. */
  lemma VerdictExactly(r: Reply, n: nat)
    ensures Verdict(r, n) == TransportFailed <==> r.TransportError?
    ensures Verdict(r, n) == Success(n) <==> r.Response? && 200 <= r.status <= 299
    ensures forall status ::
              Verdict(r, n) == NonRetryable(status) <==>
              r.Response? && r.status == status && !(200 <= status <= 299) && !Retryable(r)
    ensures forall status, k ::
              Verdict(r, n) == Exhausted(status, k) <==> r.Response? && r.status == status && Retryable(r) && k == n
  {
  }

  // ---------------------------------------------------------------------------------------------
  // What one wait is

  /** A positive Retry-After is waited exactly, up to `max_delay`; any other is ignored. */
  lemma RetryAfterHonoured(cfg: Config, k: nat, seconds: real, noise: real)
    requires k >= 1
    ensures 0.0 < seconds <= cfg.maxDelay ==> Delay(cfg, k, Some(seconds), noise) == seconds
    ensures seconds > 0.0 && seconds > cfg.maxDelay ==> Delay(cfg, k, Some(seconds), noise) == cfg.maxDelay
    ensures seconds <= 0.0 ==> Delay(cfg, k, Some(seconds), noise) == Delay(cfg, k, None, noise)
  {
  }

  /** Backoff starts at the base delay and is multiplied by the factor from one attempt to the next, below the cap; with
      a factor of at least 1 it stays at the cap. */
  lemma BackoffGrows(cfg: Config, k: nat)
    requires k >= 1
    ensures Backoff(cfg, 1) == Min(cfg.baseDelay, cfg.maxDelay)
    ensures Backoff(cfg, k) < cfg.maxDelay ==>
              Backoff(cfg, k + 1) == Min(Times(cfg.backoff, Backoff(cfg, k)), cfg.maxDelay)
    ensures Backoff(cfg, k) == cfg.maxDelay && cfg.baseDelay >= 0.0 && cfg.backoff >= 1.0 ==>
              Backoff(cfg, k + 1) == cfg.maxDelay
  {
    Regroup3(cfg.baseDelay, cfg.backoff, Pow(cfg.backoff, k - 1));
    if cfg.baseDelay >= 0.0 && cfg.backoff >= 1.0 {
      PowNotNegative(cfg.backoff, k - 1);
      AtLeast(Times(cfg.baseDelay, Pow(cfg.backoff, k - 1)), cfg.backoff);
    }
    assert Pow(cfg.backoff, 0) == 1.0;
  }

  lemma Regroup3(a: real, b: real, c: real)
    ensures Times(a, b * c) == Times(b, Times(a, c))
  {
  }

  lemma AtLeast(x: real, factor: real)
    requires x >= 0.0 && factor >= 1.0
    ensures Times(factor, x) >= x
  {
    Scale(1.0, factor, x);
  }

  /** Without noise a wait is the backoff, and noise moves it by at most the jitter fraction either way; 0.01 s is the
      floor. */
  lemma JitterIsSymmetric(cfg: Config, k: nat)
    requires k >= 1
    ensures Delay(cfg, k, None, 0.0) == Max(0.01, Backoff(cfg, k))
    ensures Delay(cfg, k, None, 1.0) == Max(0.01, Backoff(cfg, k) + Times(Backoff(cfg, k), cfg.jitter))
    ensures Delay(cfg, k, None, -1.0) == Max(0.01, Backoff(cfg, k) - Times(Backoff(cfg, k), cfg.jitter))
  {
    var a := JitterAmount(cfg, k);
    assert Times(a, 0.0) == 0.0 && Times(a, 1.0) == a && Times(a, -1.0) == -a;
  }

  // ---------------------------------------------------------------------------------------------
  // How long one wait can be, whatever the configuration

  function Abs(x: real): real { if x >= 0.0 then x else -x }

  /** The longest wait with backoff and jitter after attempt number `k`; never less than 0.01 s. */
  function Top(cfg: Config, k: nat): real
    requires k >= 1
  {
    Max(0.01, Backoff(cfg, k) + Abs(JitterAmount(cfg, k)))
  }

  /** The longest wait after attempt number `k`: a Retry-After header can ask for up to `maxDelay`. */
  function Longest(cfg: Config, k: nat): real
    requires k >= 1
  {
    Max(Top(cfg, k), cfg.maxDelay)
  }

  lemma Scale(x: real, y: real, z: real)
    requires 0.0 <= x <= y && 0.0 <= z
    ensures 0.0 <= x * z <= y * z
  {
  }

  lemma NoiseIsCapped(a: real, noise: real)
    requires -1.0 <= noise <= 1.0
    ensures Times(a, noise) <= Abs(a)
  {
    if a >= 0.0 {
      Scale(0.0, 1.0 - noise, a);
      assert (1.0 - noise) * a == a - a * noise;
    } else {
      Scale(0.0, 1.0 + noise, -a);
      assert (1.0 + noise) * (-a) == -a - a * noise;
    }
  }

  lemma WaitIsCapped(cfg: Config, k: nat, retryAfter: Option<real>, noise: real)
    requires k >= 1 && -1.0 <= noise <= 1.0
    ensures Delay(cfg, k, retryAfter, noise) <= Longest(cfg, k)
    ensures retryAfter.Some? && retryAfter.value > 0.0 ==> Delay(cfg, k, retryAfter, noise) <= cfg.maxDelay
    ensures !(retryAfter.Some? && retryAfter.value > 0.0) ==> 0.01 <= Delay(cfg, k, retryAfter, noise) <= Top(cfg, k)
  {
    NoiseIsCapped(JitterAmount(cfg, k), noise);
  }

  /** The draw for which jitter lengthens a wait most. */
  function WorstNoise(cfg: Config, k: nat): real
    requires k >= 1
  {
    if JitterAmount(cfg, k) >= 0.0 then 1.0 else -1.0
  }

  lemma TopIsReached(cfg: Config, k: nat)
    requires k >= 1
    ensures Delay(cfg, k, None, WorstNoise(cfg, k)) == Top(cfg, k)
  {
    var a := JitterAmount(cfg, k);
    assert Times(a, 1.0) == a && Times(a, -1.0) == -a;
  }

  /** The reply after which a wait can be longest. */
  function WorstReply(cfg: Config, k: nat): Reply
    requires k >= 1
  {
    if cfg.maxDelay > Top(cfg, k) then Response(503, Some(cfg.maxDelay)) else TransportError
  }

  lemma LongestIsReached(cfg: Config, k: nat)
    requires k >= 1
    ensures Delay(cfg, k, RetryAfterOf(WorstReply(cfg, k)), WorstNoise(cfg, k)) == Longest(cfg, k)
    ensures Retryable(WorstReply(cfg, k)) && -1.0 <= WorstNoise(cfg, k) <= 1.0
  {
    TopIsReached(cfg, k);
  }

  // ---------------------------------------------------------------------------------------------
  // When waits stay within `max_delay`

  /** The waits of a call that made `n` requests. */
  ghost function WaitsOf(cfg: Config, server: nat -> Reply, noise: nat -> real, n: nat): (waits: seq<real>)
    requires n >= 1
    ensures |waits| == n - 1
  {
    seq(n - 1, i requires 0 <= i < n - 1 => Delay(cfg, i + 1, RetryAfterOf(server(i + 1)), noise(i + 1)))
  }

  ghost predicate FairNoise(noise: nat -> real) {
    forall i :: -1.0 <= noise(i) <= 1.0
  }

  /** Every wait of every call is at most `max_delay`. */
  ghost predicate KeepsMaxDelay(cfg: Config) {
    forall server, noise, n | FairNoise(noise) && IsLast(cfg, server, n) ::
      forall i :: 0 <= i < n - 1 ==> WaitsOf(cfg, server, noise, n)[i] <= cfg.maxDelay
  }

  /** The replies and draws that make every wait of a call as long as it can be. */
  lemma WorstCall(cfg: Config) returns (server: nat -> Reply, noise: nat -> real)
    requires cfg.maxRetries >= 0
    ensures FairNoise(noise) && IsLast(cfg, server, cfg.maxRetries + 1)
    ensures forall k :: 1 <= k ==> server(k) == WorstReply(cfg, k) && noise(k) == WorstNoise(cfg, k)
  {
    server := k => if k >= 1 then WorstReply(cfg, k) else TransportError;
    noise := k => if k >= 1 then WorstNoise(cfg, k) else 0.0;
    forall k: nat | k >= 1 ensures Retryable(server(k)) { LongestIsReached(cfg, k); }
  }

  /** Waits stay within `max_delay` exactly when backoff with full jitter does, and `max_delay` is not below 0.01 s. */
  lemma MaxDelayKeptExactlyWhen(cfg: Config)
    ensures KeepsMaxDelay(cfg) <==> forall k :: 1 <= k <= cfg.maxRetries ==> Top(cfg, k) <= cfg.maxDelay
  {
    if forall k :: 1 <= k <= cfg.maxRetries ==> Top(cfg, k) <= cfg.maxDelay {
      forall server, noise, n: nat, i | FairNoise(noise) && IsLast(cfg, server, n) && 0 <= i < n - 1
        ensures WaitsOf(cfg, server, noise, n)[i] <= cfg.maxDelay
      {
        assert Top(cfg, i + 1) <= cfg.maxDelay;
        OneWait(cfg, server, noise, i + 1);
      }
    } else {
      var k :| 1 <= k <= cfg.maxRetries && Top(cfg, k) > cfg.maxDelay;
      var server, noise := WorstCall(cfg);
      LongestIsReached(cfg, k);
      var waits := WaitsOf(cfg, server, noise, cfg.maxRetries + 1);
      assert waits[k - 1] == Longest(cfg, k);
    }
  }

  lemma OneWait(cfg: Config, server: nat -> Reply, noise: nat -> real, k: nat)
    requires FairNoise(noise) && k >= 1
    ensures Delay(cfg, k, RetryAfterOf(server(k)), noise(k)) <= Longest(cfg, k)
  {
    var draw := noise(k);
    assert -1.0 <= draw <= 1.0;
    WaitIsCapped(cfg, k, RetryAfterOf(server(k)), draw);
  }

  /** In the documented ranges the condition reads: floor and backoff with full jitter are within `max_delay`. */
  lemma TopWhenDocumented(cfg: Config, k: nat)
    requires cfg.Documented() && k >= 1
    ensures Top(cfg, k) <= cfg.maxDelay <==>
            0.01 <= cfg.maxDelay && Backoff(cfg, k) * (1.0 + cfg.jitter) <= cfg.maxDelay
  {
    BackoffIsCapped(cfg, k);
    WithJitter(Backoff(cfg, k), cfg.jitter);
  }

  /** Jitter comes on top of `max_delay`: capped at 60 s, the first wait can take 90 s. */
  lemma JitterExceedsMaxDelay()
    ensures var cfg := Config(1, 60.0, 2.0, 60.0, 0.5);
            cfg.Documented() && Delay(cfg, 1, None, 1.0) == 90.0 && !KeepsMaxDelay(cfg)
  {
    var cfg := Config(1, 60.0, 2.0, 60.0, 0.5);
    MaxDelayKeptExactlyWhen(cfg);
    assert Pow(2.0, 0) == 1.0 && Backoff(cfg, 1) == 60.0;
    assert Top(cfg, 1) == 90.0;
  }

  // ---------------------------------------------------------------------------------------------
  // How long a call can sleep in total

  /** Sleeping for a negative time takes none. */
  function Slept(wait: real): real { Max(0.0, wait) }

  ghost function TotalSlept(waits: seq<real>): real {
    if waits == [] then 0.0 else TotalSlept(waits[..|waits| - 1]) + Slept(waits[|waits| - 1])
  }

  /** The longest waits after attempts 1 to `n`, added up. */
  ghost function LongestTotal(cfg: Config, n: nat): real {
    if n == 0 then 0.0 else LongestTotal(cfg, n - 1) + Longest(cfg, n)
  }

  lemma {:induction false} LongestTotalGrows(cfg: Config, j: nat, k: nat)
    requires j <= k
    ensures LongestTotal(cfg, j) <= LongestTotal(cfg, k)
  {
    if j < k { LongestTotalGrows(cfg, j, k - 1); }
  }

  lemma {:induction false} TotalIsCapped(cfg: Config, waits: seq<real>)
    requires forall i :: 0 <= i < |waits| ==> waits[i] <= Longest(cfg, i + 1)
    ensures TotalSlept(waits) <= LongestTotal(cfg, |waits|)
  {
    if waits == [] {
    } else {
      TotalIsCapped(cfg, waits[..|waits| - 1]);
    }
  }

  lemma {:induction false} TotalIsReached(cfg: Config, waits: seq<real>)
    requires forall i :: 0 <= i < |waits| ==> waits[i] == Longest(cfg, i + 1)
    ensures TotalSlept(waits) == LongestTotal(cfg, |waits|)
  {
    if waits == [] {
    } else {
      TotalIsReached(cfg, waits[..|waits| - 1]);
    }
  }

  /** A call sleeps in total at most the longest waits of all its retries. */
  lemma SleepIsBounded(cfg: Config, server: nat -> Reply, noise: nat -> real, n: nat)
    requires FairNoise(noise) && IsLast(cfg, server, n)
    ensures TotalSlept(WaitsOf(cfg, server, noise, n)) <= LongestTotal(cfg, cfg.maxRetries)
  {
    var waits := WaitsOf(cfg, server, noise, n);
    forall i | 0 <= i < |waits| ensures waits[i] <= Longest(cfg, i + 1) { OneWait(cfg, server, noise, i + 1); }
    TotalIsCapped(cfg, waits);
    LongestTotalGrows(cfg, |waits|, cfg.maxRetries);
  }

  /** The bound is met by some call. */
  lemma SleepBoundIsReached(cfg: Config) returns (server: nat -> Reply, noise: nat -> real)
    requires cfg.maxRetries >= 0
    ensures FairNoise(noise) && IsLast(cfg, server, cfg.maxRetries + 1)
    ensures TotalSlept(WaitsOf(cfg, server, noise, cfg.maxRetries + 1)) == LongestTotal(cfg, cfg.maxRetries)
  {
    server, noise := WorstCall(cfg);
    var waits := WaitsOf(cfg, server, noise, cfg.maxRetries + 1);
    forall i | 0 <= i < |waits| ensures waits[i] == Longest(cfg, i + 1) { LongestIsReached(cfg, i + 1); }
    TotalIsReached(cfg, waits);
  }

  /** The longest wait the delay cap and the jitter allow for. */
  ghost function Nominal(cfg: Config): real {
    cfg.maxDelay * (1.0 + cfg.jitter)
  }

  /** `n` times `x`. */
  ghost function Budget(n: nat, x: real): (b: real) {
    if n == 0 then 0.0 else Budget(n - 1, x) + x
  }

  lemma {:induction false} BudgetIsProduct(n: nat, x: real)
    ensures Budget(n, x) == (n as real) * x
  {
    if n == 0 {
    } else {
      BudgetIsProduct(n - 1, x);
      assert (n as real) * x == ((n - 1) as real) * x + x;
    }
  }

  /** Every call sleeps at most `bound` in total. */
  ghost predicate SleepsAtMost(cfg: Config, bound: real) {
    forall server, noise, n | FairNoise(noise) && IsLast(cfg, server, n) ::
      TotalSlept(WaitsOf(cfg, server, noise, n)) <= bound
  }

  /** The longest waits of all retries are the exact bound; without a first request there is nothing to bound. */
  lemma SleepsAtMostExactlyWhen(cfg: Config, bound: real)
    ensures SleepsAtMost(cfg, bound) <==> cfg.maxRetries < 0 || LongestTotal(cfg, cfg.maxRetries) <= bound
  {
    if cfg.maxRetries < 0 {
    } else if LongestTotal(cfg, cfg.maxRetries) <= bound {
      forall server, noise, n: nat | FairNoise(noise) && IsLast(cfg, server, n)
        ensures TotalSlept(WaitsOf(cfg, server, noise, n)) <= bound
      {
        SleepIsBounded(cfg, server, noise, n);
      }
    } else {
      var server, noise := SleepBoundIsReached(cfg);
    }
  }

  // ---------------------------------------------------------------------------------------------
  // The same in the documented ranges

  lemma {:induction false} PowNotNegative(b: real, n: nat)
    requires b >= 0.0
    ensures Pow(b, n) >= 0.0
  {
    if n == 0 {
    } else {
      PowNotNegative(b, n - 1);
    }
  }

  lemma BackoffIsCapped(cfg: Config, k: nat)
    requires cfg.Documented() && k >= 1
    ensures 0.0 <= Backoff(cfg, k) <= cfg.maxDelay
  {
    PowNotNegative(cfg.backoff, k - 1);
  }

  lemma WithJitter(d: real, jitter: real)
    requires d >= 0.0 && jitter >= 0.0
    ensures d * (1.0 + jitter) == d + Times(d, jitter) == d + Abs(Times(d, jitter))
  {
    Scale(0.0, d, jitter);
  }

  lemma JitterGrows(d: real, top: real, jitter: real)
    requires 0.0 <= d <= top && jitter >= 0.0
    ensures d + Abs(Times(d, jitter)) <= top * (1.0 + jitter)
    ensures top <= top * (1.0 + jitter)
  {
    Scale(d, top, jitter);
    WithJitter(top, jitter);
    Scale(0.0, d, jitter);
  }

  /** One wait is at most the larger of 0.01 s and `max_delay` with full jitter. */
  lemma LongestWhenDocumented(cfg: Config, k: nat)
    requires cfg.Documented() && k >= 1
    ensures 0.01 <= Longest(cfg, k) <= Max(0.01, Nominal(cfg))
  {
    BackoffIsCapped(cfg, k);
    JitterGrows(Backoff(cfg, k), cfg.maxDelay, cfg.jitter);
    LargestWithin(Backoff(cfg, k) + Abs(JitterAmount(cfg, k)), cfg.maxDelay, Nominal(cfg));
  }

  lemma LargestWithin(a: real, b: real, top: real)
    requires a <= top && b <= top
    ensures 0.01 <= Max(Max(0.01, a), b) <= Max(0.01, top)
  {
  }

  lemma {:induction false} TotalWithin(cfg: Config, n: nat, x: real)
    requires forall k :: 1 <= k <= n ==> Longest(cfg, k) <= x
    ensures LongestTotal(cfg, n) <= Budget(n, x)
  {
    if n == 0 {
    } else {
      TotalWithin(cfg, n - 1, x);
    }
  }

  lemma {:induction false} TotalBeyond(cfg: Config, n: nat, x: real)
    requires n >= 1 && forall k :: 1 <= k <= n ==> Longest(cfg, k) > x
    ensures LongestTotal(cfg, n) > Budget(n, x)
  {
    if n == 1 {
      assert LongestTotal(cfg, 0) == Budget(0, x);
    } else {
      TotalBeyond(cfg, n - 1, x);
    }
  }

  lemma TotalWhenDocumented(cfg: Config, n: nat)
    requires cfg.Documented()
    ensures LongestTotal(cfg, n) <= Budget(n, Max(0.01, Nominal(cfg)))
    ensures LongestTotal(cfg, n) <= Budget(n, Nominal(cfg)) <==> n == 0 || 0.01 <= Nominal(cfg)
  {
    var x, cap := Nominal(cfg), Max(0.01, Nominal(cfg));
    forall k | 1 <= k <= n ensures 0.01 <= Longest(cfg, k) <= cap { LongestWhenDocumented(cfg, k); }
    TotalWithin(cfg, n, cap);
    if n >= 1 && x < 0.01 { TotalBeyond(cfg, n, x); }
  }

  /** In the documented ranges a call sleeps at most `max_retries` times the larger of 0.01 s and the nominal longest
      wait, and at most `max_retries` times the nominal longest wait exactly when that is not below the floor. */
  lemma NominalBoundWhenDocumented(cfg: Config)
    requires cfg.Documented()
    ensures SleepsAtMost(cfg, (cfg.maxRetries as real) * Max(0.01, Nominal(cfg)))
    ensures SleepsAtMost(cfg, (cfg.maxRetries as real) * Nominal(cfg)) <==> cfg.maxRetries <= 0 || 0.01 <= Nominal(cfg)
  {
    BoundIsProduct(cfg, Nominal(cfg));
    BoundIsProduct(cfg, Max(0.01, Nominal(cfg)));
    if cfg.maxRetries >= 0 { TotalWhenDocumented(cfg, cfg.maxRetries); }
  }

  lemma BoundIsProduct(cfg: Config, x: real)
    ensures SleepsAtMost(cfg, (cfg.maxRetries as real) * x) <==>
            cfg.maxRetries < 0 || LongestTotal(cfg, cfg.maxRetries) <= Budget(cfg.maxRetries, x)
  {
    var bound := (cfg.maxRetries as real) * x;
    if cfg.maxRetries >= 0 { BudgetIsProduct(cfg.maxRetries, x); }
    BoundIsBudget(cfg, x, bound);
  }

  lemma BoundIsBudget(cfg: Config, x: real, bound: real)
    requires cfg.maxRetries >= 0 ==> bound == Budget(cfg.maxRetries, x)
    ensures SleepsAtMost(cfg, bound) <==>
            cfg.maxRetries < 0 || LongestTotal(cfg, cfg.maxRetries) <= Budget(cfg.maxRetries, x)
  {
    SleepsAtMostExactlyWhen(cfg, bound);
  }
}
