/** The bounded in-client retry of an OTLP export. Times are nanoseconds. */
module OtlpRetry {
  import opened Wrappers

  const MINUTE: Int64 := 60_000_000_000

  // ----- classification of a failed attempt -----

  // An HTTP response with its parsed Retry-After, a gRPC status with the delay of its RetryInfo
  // detail, if any, or any other error.
  datatype Failure = Http(status: int, retryAfter: nat) | Grpc(code: nat, retryInfo: Option<int>) | Other

  datatype Verdict = Verdict(retryable: bool, wait: nat)

  const OK := 0
  const CANCELLED := 1
  const DEADLINE_EXCEEDED := 4
  const RESOURCE_EXHAUSTED := 8
  const ABORTED := 10
  const OUT_OF_RANGE := 11
  const UNAVAILABLE := 14
  const DATA_LOSS := 15

  function Info(retryInfo: Option<int>): nat {
    if retryInfo.Some? && retryInfo.value > 0 then retryInfo.value else 0
  }

  function Classify(f: Failure): (v: Verdict)
    ensures !v.retryable ==> v.wait == 0
  {
    match f
    case Http(status, retryAfter) =>
      if status in {429, 502, 503, 504} then Verdict(true, retryAfter) else Verdict(false, 0)
    case Grpc(code, retryInfo) =>
      if code == OK then Verdict(true, 0)
      else if code in {CANCELLED, DEADLINE_EXCEEDED, ABORTED, OUT_OF_RANGE, UNAVAILABLE, DATA_LOSS} then
        Verdict(true, Info(retryInfo))
      else if code == RESOURCE_EXHAUSTED && retryInfo.Some? then Verdict(true, Info(retryInfo))
      else Verdict(false, 0)
    case Other => Verdict(true, 0)
  }

  // ----- backoff -----

  // d doubled k times in 64 bits, stopping at a minute.
  function Doubled(d: Int64, k: nat): Int64
    decreases k
  {
    if k == 0 then d
    else
      var e := Wrap(2 * d);
      if e > MINUTE then MINUTE else Doubled(e, k - 1)
  }

  function BackoffDelay(base: Int64, n: int): Int64 {
    if base <= 0 || n <= 0 then 0 else Doubled(base, n - 1)
  }

  method Backoff(base: Int64, n: int) returns (d: Int64)
    ensures d == BackoffDelay(base, n)
  {
    if base <= 0 || n <= 0 {
      return 0;
    }
    d := base;
    for i := 1 to n
      invariant Doubled(d, n - i) == Doubled(base, n - 1)
    {
      d := Wrap(2 * d);
      if d > MINUTE {
        return MINUTE;
      }
    }
  }

  function Min(a: int, b: int): int {
    if a < b then a else b
  }

  lemma {:induction false} DoublingIsIdeal(d: Int64, k: nat)
    requires 0 < d <= MINUTE
    ensures Doubled(d, k) == Min(d * Pow2(k), MINUTE)
    decreases k
  {
    if k > 0 {
      assert Wrap(2 * d) == 2 * d;
      var e: int, p := 2 * d, Pow2(k - 1);
      Regroup(d, e, p);
      if e <= MINUTE {
        DoublingIsIdeal(e, k - 1);
      }
    }
  }

  lemma Regroup(d: int, e: int, p: int)
    requires d > 0 && e == 2 * d && p >= 1
    ensures d * (2 * p) == e * p >= e
  {
    assert e * p == e + e * (p - 1);
  }

  // From a base within a minute the delay doubles per retry up to a minute.
  lemma BackoffIsCappedDoubling(base: Int64, n: int)
    requires 0 < base <= MINUTE && n >= 1
    ensures BackoffDelay(base, n) == Min(base * Pow2(n - 1), MINUTE)
  {
    DoublingIsIdeal(base, n - 1);
  }

  lemma WrapMultiple(a: int, q: int)
    ensures Wrap(a + q * TWO_64) == Wrap(a)
  {
    assert (a + q * TWO_64) % TWO_64 == a % TWO_64;
  }

  lemma WrapDouble(x: int)
    ensures Wrap(2 * Wrap(x)) == Wrap(2 * x)
  {
    var q := (x - Wrap(x)) / TWO_64;
    assert Wrap(x) == x + -q * TWO_64;
    WrapMultiple(2 * x, -2 * q);
  }

  // x doubled j times left the minute behind.
  predicate Passes(x: int, j: nat) {
    Wrap(x * Pow2(j)) > MINUTE
  }

  lemma {:induction false} DoubledIs(x: int, k: nat)
    ensures Doubled(Wrap(x), k) ==
            if exists j :: 1 <= j <= k && Passes(x, j) then MINUTE else Wrap(x * Pow2(k))
    decreases k
  {
    if k == 0 {
      assert x * Pow2(0) == x;
    } else {
      WrapDouble(x);
      assert x * Pow2(1) == 2 * x by {
        assert Pow2(1) == 2;
      }
      DoubledIs(2 * x, k - 1);
      forall j: nat
        ensures Passes(2 * x, j) <==> Passes(x, j + 1)
      {
        DoubleShift(x, Pow2(j));
      }
      DoubleShift(x, Pow2(k - 1));
      if exists j :: 1 <= j <= k && Passes(x, j) {
        var j: nat :| 1 <= j <= k && Passes(x, j);
        assert j > 1 ==> Passes(2 * x, j - 1);
        assert j == 1 ==> Wrap(2 * x) > MINUTE;
      } else {
        assert !Passes(x, 1);
        forall j: nat | 1 <= j <= k - 1
          ensures !Passes(2 * x, j)
        {
          assert !Passes(x, j + 1);
        }
      }
    }
  }

  lemma DoubleShift(x: int, p: int)
    ensures 2 * x * p == x * (2 * p)
  {
  }

  // For every base the delay is a minute once a doubling passed it, and before that base * 2^(n - 1)
  // in 64 bits; a base of 2^62 or more turns negative with the first doubling.
  lemma BackoffIsExactly(base: Int64, n: int)
    requires base > 0 && n >= 1
    ensures BackoffDelay(base, n) ==
            if exists j :: 1 <= j <= n - 1 && Passes(base, j) then MINUTE else Wrap(base * Pow2(n - 1))
  {
    assert Wrap(base) == base;
    DoubledIs(base, n - 1);
  }

  // The bound on the base is exact: a longer one is used as it is for the first retry, and from 2^62 on the
  // second retry is not delayed at all, its delay being negative.
  lemma BackoffIsCappedIff(base: Int64)
    requires base > 0
    ensures BackoffDelay(base, 1) <= MINUTE <==> base <= MINUTE
    ensures base > MINUTE ==>
              ((forall n :: n >= 2 ==> BackoffDelay(base, n) == MINUTE) <==> base < 0x4000_0000_0000_0000)
    ensures base >= 0x4000_0000_0000_0000 ==> BackoffDelay(base, 2) == 2 * base - TWO_64 < 0
  {
    if MINUTE < base < 0x4000_0000_0000_0000 {
      forall n: int | n >= 2
        ensures BackoffDelay(base, n) == MINUTE
      {
        assert Wrap(2 * base) == 2 * base;
      }
    } else if base >= 0x4000_0000_0000_0000 {
      var doubled: int := 2 * base;
      assert Wrap(doubled) == doubled - TWO_64;
      assert BackoffDelay(base, 2) == Doubled(Wrap(doubled), 0);
    }
  }

  // ----- the loop -----

  datatype Config = Config(timeout: int, attempts: nat, backoff: Int64)

  // What Validate accepts.
  predicate Valid(cfg: Config) {
    cfg.timeout > 0 && cfg.backoff >= 0
  }

  // The caller's context: when it is done, if ever, and its deadline, if it has one.
  datatype Context = Context(done: Option<int>, deadline: Option<int>)

  predicate Over(ctx: Context, now: int) {
    ctx.done.Some? && ctx.done.value <= now
  }

  // One attempt: how long it took and how it failed, None when it was accepted.
  datatype Attempt = Attempt(took: nat, failure: Option<Failure>)

  // One round of the loop: when the attempt began, how it went, and the wait after it.
  datatype Round = Round(at: int, attempt: Attempt, wait: int)

  datatype Outcome = Accepted | ContextDone | Permanent(after: nat, cause: Failure) | GaveUp(after: nat, cause: Failure)

  // The delay the n-th failure, counted from 1, is followed by.
  function Delay(cfg: Config, f: Failure, n: nat): int {
    var v := Classify(f);
    if v.wait == 0 then BackoffDelay(cfg.backoff, n) else v.wait
  }

  predicate TooLong(cfg: Config, ctx: Context, now: int, delay: int) {
    (ctx.deadline.Some? && ctx.deadline.value - now <= delay) || delay > cfg.timeout
  }

  // Round i failed in a way worth retrying, and its wait neither exceeds one attempt's budget
  // nor reaches the caller's deadline.
  predicate Retried(cfg: Config, ctx: Context, r: Round, i: nat) {
    && r.attempt.failure.Some? && Classify(r.attempt.failure.value).retryable
    && r.wait == Delay(cfg, r.attempt.failure.value, i + 1)
    && r.wait <= cfg.timeout
    && (ctx.deadline.Some? ==> r.at + r.attempt.took + r.wait < ctx.deadline.value)
    && !Over(ctx, r.at)
  }

  // The statuses and codes that no retry follows, of OTLP/HTTP and OTLP/gRPC. RESOURCE_EXHAUSTED is one unless
  // the server says when to retry.
  predicate EndsForGood(f: Failure) {
    match f
    case Http(status, _) => status != 429 && status != 502 && status != 503 && status != 504
    case Grpc(code, info) =>
      && code != 0                   // no error status: a failure of the transport
      && code != 1                   // CANCELLED
      && code != 4                   // DEADLINE_EXCEEDED
      && (code != 8 || info.None?)   // RESOURCE_EXHAUSTED
      && code != 10                  // ABORTED
      && code != 11                  // OUT_OF_RANGE
      && code != 14                  // UNAVAILABLE
      && code != 15                  // DATA_LOSS
    case Other => false
  }

  lemma EndsUnlessRetryable(f: Failure)
    ensures EndsForGood(f) <==> !Classify(f).retryable
  {
  }

  // The wait after the n-th failure, counted from 1: the server's Retry-After or RetryInfo when it gave one,
  // else the backoff.
  function AskedWait(cfg: Config, f: Failure, n: nat): int {
    match f
    case Http(_, retryAfter) => if retryAfter > 0 then retryAfter else BackoffDelay(cfg.backoff, n)
    case Grpc(code, Some(d)) => if d > 0 && code != 0 then d else BackoffDelay(cfg.backoff, n)
    case _ => BackoffDelay(cfg.backoff, n)
  }

  lemma DelayIsAskedWait(cfg: Config, f: Failure, n: nat)
    requires !EndsForGood(f)
    ensures Delay(cfg, f, n) == AskedWait(cfg, f, n)
  {
  }

  // Round i was worth retrying, within the caller's deadline and one attempt's timeout.
  predicate RetriedAsSpecified(cfg: Config, ctx: Context, r: Round, i: nat) {
    && r.attempt.failure.Some? && !EndsForGood(r.attempt.failure.value)
    && r.wait == AskedWait(cfg, r.attempt.failure.value, i + 1) <= cfg.timeout
    && (ctx.deadline.Some? ==> r.at + r.attempt.took + r.wait < ctx.deadline.value)
  }

  lemma RetriedIsAsSpecified(cfg: Config, ctx: Context, r: Round, i: nat)
    requires Retried(cfg, ctx, r, i)
    ensures RetriedAsSpecified(cfg, ctx, r, i)
  {
    EndsUnlessRetryable(r.attempt.failure.value);
    DelayIsAskedWait(cfg, r.attempt.failure.value, i + 1);
  }

  // Every attempt ends within its timeout.
  ghost predicate Prompt(cfg: Config, world: (nat, int) -> Attempt) {
    forall n, t :: world(n, t).took <= cfg.timeout
  }

  function WaitOf(d: int): nat {
    if d <= 0 then 0 else d
  }

  // Each round follows the one before by its duration and its wait.
  ghost predicate Timed(log: seq<Round>, start: int, now: int) {
    if log == [] then start == now
    else
      var r := log[|log| - 1];
      Timed(log[..|log| - 1], start, r.at) && now == r.at + r.attempt.took + WaitOf(r.wait)
  }

  lemma {:induction false} TimeIsBounded(cfg: Config, ctx: Context, log: seq<Round>, start: int, now: int)
    requires Timed(log, start, now)
    requires forall i :: 0 <= i < |log| ==> Retried(cfg, ctx, log[i], i) && log[i].attempt.took <= cfg.timeout
    requires cfg.timeout > 0
    ensures start <= now <= start + 2 * |log| * cfg.timeout
  {
    if log != [] {
      var n := |log| - 1;
      assert Retried(cfg, ctx, log[n], n);
      TimeIsBounded(cfg, ctx, log[..n], start, log[n].at);
      assert 2 * |log| * cfg.timeout == 2 * n * cfg.timeout + 2 * cfg.timeout;
    }
  }

  // While attempts are prompt, the rounds allowed leave time for one more attempt.
  lemma InTime(cfg: Config, ctx: Context, world: (nat, int) -> Attempt, log: seq<Round>, start: int, now: int)
    requires Valid(cfg) && |log| <= cfg.attempts && Timed(log, start, now)
    requires AllRetried(cfg, ctx, world, log)
    ensures Prompt(cfg, world) ==> start <= now && now + cfg.timeout <= start + (2 * cfg.attempts + 1) * cfg.timeout
  {
    if Prompt(cfg, world) {
      TimeIsBounded(cfg, ctx, log, start, now);
      OneMoreFits(|log|, cfg.attempts, cfg.timeout);
    }
  }

  lemma OneMoreFits(n: nat, attempts: nat, timeout: int)
    requires n <= attempts && timeout > 0
    ensures 2 * n * timeout + timeout <= (2 * attempts + 1) * timeout
  {
    Scale(2 * n + 1, 2 * attempts + 1, timeout);
    assert (2 * n + 1) * timeout == 2 * n * timeout + timeout;
  }

  // Every round of the log was an attempt of the world's and was worth retrying.
  ghost predicate AllRetried(cfg: Config, ctx: Context, world: (nat, int) -> Attempt, log: seq<Round>) {
    forall i :: 0 <= i < |log| ==> Retried(cfg, ctx, log[i], i) && log[i].attempt == world(i, log[i].at)
  }

  lemma NothingYet(cfg: Config, ctx: Context, world: (nat, int) -> Attempt)
    ensures AllRetried(cfg, ctx, world, [])
  {
  }

  lemma OneMoreRound(cfg: Config, ctx: Context, world: (nat, int) -> Attempt, log: seq<Round>, r: Round, start: int)
    requires AllRetried(cfg, ctx, world, log) && Timed(log, start, r.at)
    requires Retried(cfg, ctx, r, |log|) && r.attempt == world(|log|, r.at)
    ensures AllRetried(cfg, ctx, world, log + [r])
    ensures Timed(log + [r], start, r.at + r.attempt.took + WaitOf(r.wait))
  {
    assert (log + [r])[..|log|] == log;
  }

  // Sleep until the wait is over or the context is done, whichever comes first.
  method Sleep(ctx: Context, now: int, delay: int) returns (ok: bool, after: int)
    ensures now <= after <= now + WaitOf(delay)
    ensures ok ==> after == now + WaitOf(delay)
    ensures !ok ==> Over(ctx, after)
  {
    if delay <= 0 {
      return !Over(ctx, now), now;
    }
    if ctx.done.Some? && ctx.done.value <= now + delay {
      var tie: bool := *;
      if ctx.done.value < now + delay || tie {
        return false, if ctx.done.value < now then now else ctx.done.value;
      }
    }
    return true, now + delay;
  }

  // log holds the retried rounds before the last attempt; last is that attempt, if one was made.
  method Export(cfg: Config, ctx: Context, world: (nat, int) -> Attempt, start: int)
    returns (out: Outcome, log: seq<Round>, last: Option<Round>, end: int)
    requires Valid(cfg)
    ensures |log| + (if last.Some? then 1 else 0) <= cfg.attempts + 1
    ensures AllRetried(cfg, ctx, world, log)
    ensures last.Some? ==> last.value.attempt == world(|log|, last.value.at) && !Over(ctx, last.value.at)
    ensures last.Some? ==> Timed(log, start, last.value.at) && end == last.value.at + last.value.attempt.took
    ensures Ended(cfg, ctx, out, log, last, end)
    ensures last.None? ==> Over(ctx, end)
    ensures last.Some? && !Over(ctx, end) ==>
              (out.Permanent? <==>
                 last.value.attempt.failure.Some? && !Classify(last.value.attempt.failure.value).retryable)
    ensures Prompt(cfg, world) ==> start <= end <= start + (2 * cfg.attempts + 1) * cfg.timeout
  {
    hide Classify, BackoffDelay, AllRetried;
    NothingYet(cfg, ctx, world);
    log, last, end := [], None, start;
    var n := 0;
    while true
      invariant n == |log| <= cfg.attempts && last.None?
      invariant AllRetried(cfg, ctx, world, log)
      invariant Timed(log, start, end)
      decreases cfg.attempts - n
    {
      InTime(cfg, ctx, world, log, start, end);
      if Over(ctx, end) {
        return ContextDone, log, last, end;
      }
      var at := end;
      var attempt := world(n, at);
      end := at + attempt.took;
      if attempt.failure.None? {
        return Accepted, log, Some(Round(at, attempt, 0)), end;
      }
      var f := attempt.failure.value;
      if !Classify(f).retryable || n >= cfg.attempts {
        out := Finalize(ctx, end, n + 1, f);
        return out, log, Some(Round(at, attempt, 0)), end;
      }
      var delay := Delay(cfg, f, n + 1);
      if TooLong(cfg, ctx, end, delay) {
        out := Finalize(ctx, end, n + 1, f);
        return out, log, Some(Round(at, attempt, 0)), end;
      }
      var ok, after := Sleep(ctx, end, delay);
      OneMoreRound(cfg, ctx, world, log, Round(at, attempt, delay), start);
      log := log + [Round(at, attempt, delay)];
      n, end := n + 1, after;
      if !ok {
        InTime(cfg, ctx, world, log, start, at + attempt.took + WaitOf(delay));
        return ContextDone, log, last, end;
      }
    }
  }

  function Finalize(ctx: Context, now: int, attempts: nat, f: Failure): Outcome {
    if Over(ctx, now) then ContextDone
    else if Classify(f).retryable then GaveUp(attempts, f)
    else Permanent(attempts, f)
  }

  // How the outcome follows from the last attempt.
  predicate Ended(cfg: Config, ctx: Context, out: Outcome, log: seq<Round>, last: Option<Round>, end: int) {
    if last.None? then out == ContextDone && Over(ctx, end)
    else if last.value.attempt.failure.None? then out == Accepted
    else
      var f := last.value.attempt.failure.value;
      if Over(ctx, end) then out == ContextDone
      else if !Classify(f).retryable then out == Permanent(|log| + 1, f)
      else
        && out == GaveUp(|log| + 1, f)
        && (|log| == cfg.attempts || TooLong(cfg, ctx, end, Delay(cfg, f, |log| + 1)))
  }

  // What Export did, by the specification: only failures it calls retryable were retried, each after the wait the
  // server asked for or else the backoff; the others ended it for good; and it gave up on a retryable one only
  // out of attempts, or when the wait would exceed a timeout or reach the caller's deadline.
  lemma ExportIsAsSpecified(cfg: Config, ctx: Context, world: (nat, int) -> Attempt, out: Outcome, log: seq<Round>,
                            last: Option<Round>, end: int)
    requires AllRetried(cfg, ctx, world, log) && Ended(cfg, ctx, out, log, last, end)
    ensures forall i :: 0 <= i < |log| ==> RetriedAsSpecified(cfg, ctx, log[i], i)
    ensures last.Some? && !Over(ctx, end) && last.value.attempt.failure.Some? ==>
              (out.Permanent? <==> EndsForGood(last.value.attempt.failure.value))
    ensures out.Permanent? || out.GaveUp? ==> last.Some? && last.value.attempt.failure == Some(out.cause)
    ensures out.GaveUp? ==>
              var wait := AskedWait(cfg, out.cause, |log| + 1);
              || |log| == cfg.attempts || wait > cfg.timeout
              || (ctx.deadline.Some? && ctx.deadline.value - end <= wait)
  {
    hide EndsForGood, AskedWait, Delay, Classify, BackoffDelay;
    forall i | 0 <= i < |log|
      ensures RetriedAsSpecified(cfg, ctx, log[i], i)
    {
      RetriedIsAsSpecified(cfg, ctx, log[i], i);
    }
    if last.Some? && last.value.attempt.failure.Some? {
      var f := last.value.attempt.failure.value;
      EndsUnlessRetryable(f);
      if !EndsForGood(f) {
        DelayIsAskedWait(cfg, f, |log| + 1);
      }
    }
  }

  // With the default policy an unreachable collector is waited for half a second, then for one second.
  lemma DefaultWaits(r: Round, s: Round, cfg: Config, ctx: Context)
    requires cfg.backoff == 500_000_000 && Retried(cfg, ctx, r, 0) && Retried(cfg, ctx, s, 1)
    requires r.attempt.failure == Some(Other) && s.attempt.failure == Some(Other)
    ensures r.wait == 500_000_000 && s.wait == 1_000_000_000
  {
    BackoffIsCappedDoubling(cfg.backoff, 1);
    BackoffIsCappedDoubling(cfg.backoff, 2);
    assert Pow2(1) == 2;
  }
}
