/**
 Model of the retry loop in agentsfleet/src/lib/http-retry.ts and of its copy for the dashboard,
 ui/packages/app/lib/api/retry.ts. The server's replies and the random draws are arbitrary functions of
 the attempt number, so every statement is about every script of replies and draws.
 */
module Retry {
  import opened Wrappers
  import Text

  /** The two copies. */
  datatype Side = Cli | Dashboard

  /**
   What a failed attempt throws. `optOut` is whether the body's error.retry_after_seconds is 0. A dashboard
   ApiError always has a status.
   */
  datatype Err =
    | ApiError(status: Option<int>, code: string, optOut: bool, retryAfterMs: Option<real>)
    | TypeError(message: string, sysCode: Option<string>)
    | OtherError(sysCode: Option<string>)

  datatype Reply = Answer | Failure(err: Err)

  datatype Reason = Timeout | TooManyRequests | ServerError | Network

  const RETRYABLE_STATUSES: set<int> := {408, 425, 429, 502, 503, 504}

  predicate Contains(s: string, part: string) {
    exists i :: 0 <= i <= |s| - |part| && part <= s[i..]
  }

  predicate NetworkCode(code: Option<string>) {
    code == Some("ECONNRESET") || code == Some("ETIMEDOUT") || code == Some("ENOTFOUND")
  }

  function Classify(side: Side, err: Err): Option<Reason> {
    match err
    case ApiError(status, code, optOut, _) =>
      if code == "TIMEOUT" then Some(Timeout)
      else if status.Some? && status.value in RETRYABLE_STATUSES then
        if side == Cli && optOut then None
        else if status.value == 429 then Some(TooManyRequests)
        else Some(ServerError)
      else None
    case TypeError(message, sysCode) =>
      if Contains(Text.ToLower(message), "fetch failed") || NetworkCode(sysCode) then Some(Network) else None
    case OtherError(sysCode) =>
      if NetworkCode(sysCode) then Some(Network) else None
  }

  function StatusOf(err: Err): Option<int> {
    if err.ApiError? then err.status else None
  }

  predicate IsIdempotent(httpMethod: string) {
    Text.ToUpper(httpMethod) in {"GET", "PUT", "DELETE", "HEAD"}
  }

  // ---------------------------------------------------------------- backoff

  function Pow2(n: nat): real {
    if n == 0 then 1.0 else 2.0 * Pow2(n - 1)
  }

  function MinReal(a: real, b: real): real {
    if a < b then a else b
  }

  /** The delay before jitter. */
  function BaseDelay(attempt: nat, base: real, cap: real): real
    requires attempt >= 1
  {
    MinReal(base * Pow2(attempt - 1), cap)
  }

  predicate HasFloor(retryAfterMs: Option<real>) {
    retryAfterMs.Some? && retryAfterMs.value > 0.0
  }

  function BackoffDelay(attempt: nat, base: real, cap: real, retryAfterMs: Option<real>, draw: real): real
    requires attempt >= 1
  {
    if HasFloor(retryAfterMs) then retryAfterMs.value + retryAfterMs.value * 0.2 * draw
    else
      var b := BaseDelay(attempt, base, cap);
      var d := b + b * 0.2 * (draw * 2.0 - 1.0);
      if d < 0.0 then 0.0 else d
  }

  predicate IsDraw(draw: real) {
    0.0 <= draw < 1.0
  }

  lemma ProductWithin(b: real, x: real, lo: real, hi: real)
    requires b >= 0.0 && lo <= x <= hi
    ensures b * lo <= b * x <= b * hi
    ensures b > 0.0 && x < hi ==> b * x < b * hi
  {
    assert b * (x - lo) >= 0.0;
    assert b * (hi - x) >= 0.0;
    if b > 0.0 && x < hi {
      assert b * (hi - x) > 0.0;
    }
  }

  /** Without a floor the delay is within 20 % of the capped exponential. */
  lemma BackoffIsNearBase(attempt: nat, base: real, cap: real, retryAfterMs: Option<real>, draw: real)
    requires attempt >= 1 && IsDraw(draw) && !HasFloor(retryAfterMs) && BaseDelay(attempt, base, cap) >= 0.0
    ensures var b, d := BaseDelay(attempt, base, cap), BackoffDelay(attempt, base, cap, retryAfterMs, draw);
            0.8 * b <= d <= 1.2 * b && (b > 0.0 ==> d < 1.2 * b)
  {
    var b := BaseDelay(attempt, base, cap);
    ProductWithin(b, draw, 0.0, 1.0);
    assert b * 1.0 == b && b * 0.0 == 0.0;
    assert b * 0.2 * (draw * 2.0 - 1.0) == 0.4 * (b * draw) - 0.2 * b;
  }

  /** With a floor it is never below the floor, and less than 20 % above it. */
  lemma BackoffRespectsFloor(attempt: nat, base: real, cap: real, retryAfterMs: Option<real>, draw: real)
    requires attempt >= 1 && IsDraw(draw) && HasFloor(retryAfterMs)
    ensures retryAfterMs.value <= BackoffDelay(attempt, base, cap, retryAfterMs, draw) < 1.2 * retryAfterMs.value
  {
    var r := retryAfterMs.value;
    ProductWithin(r, draw, 0.0, 1.0);
    assert r * 1.0 == r && r * 0.0 == 0.0;
    assert r * 0.2 * draw == 0.2 * (r * draw);
  }

  lemma {:induction false} Pow2Grows(n: nat)
    ensures Pow2(0) == 1.0 && Pow2(n) >= 1.0 && Pow2(n + 1) == 2.0 * Pow2(n)
  {
    if n > 0 {
      Pow2Grows(n - 1);
    }
  }

  lemma BaseDoublesBelowCap(attempt: nat, base: real, cap: real)
    requires attempt >= 1 && base > 0.0 && base * Pow2(attempt) <= cap
    ensures 0.0 < BaseDelay(attempt, base, cap)
    ensures BaseDelay(attempt + 1, base, cap) == 2.0 * BaseDelay(attempt, base, cap)
  {
    Pow2Grows(attempt - 1);
    var p := Pow2(attempt - 1);
    assert base * (2.0 * p) == 2.0 * (base * p);
    ProductWithin(base, p, 1.0, p);
    assert base * 1.0 == base;
  }

  /** Any two draws of attempts `n` and `n + 1` give increasing delays. */
  ghost predicate Increases(n: nat, base: real, cap: real)
    requires n >= 1
  {
    forall one, two :: IsDraw(one) && IsDraw(two) ==>
      BackoffDelay(n, base, cap, None, one) < BackoffDelay(n + 1, base, cap, None, two)
  }

  lemma BaseDelayGrows(n: nat, base: real, cap: real)
    requires n >= 1
    ensures BaseDelay(n, base, cap) > 0.0 ==> BaseDelay(n + 1, base, cap) >= BaseDelay(n, base, cap)
    ensures BaseDelay(n, base, cap) <= 0.0 ==> BaseDelay(n + 1, base, cap) <= 0.0
  {
    Pow2Grows(n - 1);
    var p := Pow2(n - 1);
    assert base * (2.0 * p) == 2.0 * (base * p);
    if base > 0.0 {
      ProductWithin(base, p, 1.0, p);
      assert base * 1.0 == base;
    } else {
      ProductWithin(-base, p, 1.0, p);
      assert (-base) * p == -(base * p);
    }
  }

  lemma NoDelay(n: nat, base: real, cap: real, draw: real)
    requires n >= 1 && IsDraw(draw) && BaseDelay(n, base, cap) <= 0.0
    ensures BackoffDelay(n, base, cap, None, draw) == 0.0
  {
    var b := BaseDelay(n, base, cap);
    ProductWithin(-b, draw, 0.0, 1.0);
    assert (-b) * draw == -(b * draw) && (-b) * 1.0 == -b && (-b) * 0.0 == 0.0;
    assert b * 0.2 * (draw * 2.0 - 1.0) == 0.4 * (b * draw) - 0.2 * b;
  }

  lemma DelayOf(n: nat, base: real, cap: real, draw: real)
    requires n >= 1 && IsDraw(draw) && BaseDelay(n, base, cap) > 0.0
    ensures var b := BaseDelay(n, base, cap); BackoffDelay(n, base, cap, None, draw) == 0.8 * b + 0.4 * (b * draw)
  {
    var b := BaseDelay(n, base, cap);
    ProductWithin(b, draw, 0.0, 1.0);
    assert b * 0.0 == 0.0;
    assert b * 0.2 * (draw * 2.0 - 1.0) == 0.4 * (b * draw) - 0.2 * b;
  }

  /** The delays strictly increase, whatever the two draws, exactly if the capped base grows by half at least. */
  lemma BackoffIncreasesExactlyWhen(n: nat, base: real, cap: real)
    requires n >= 1
    ensures Increases(n, base, cap)
            <==> BaseDelay(n, base, cap) > 0.0 && 3.0 * BaseDelay(n, base, cap) <= 2.0 * BaseDelay(n + 1, base, cap)
  {
    var b, c := BaseDelay(n, base, cap), BaseDelay(n + 1, base, cap);
    BaseDelayGrows(n, base, cap);
    if b <= 0.0 {
      NoDelay(n, base, cap, 0.0);
      NoDelay(n + 1, base, cap, 0.0);
      assert IsDraw(0.0) && BackoffDelay(n, base, cap, None, 0.0) == BackoffDelay(n + 1, base, cap, None, 0.0);
    } else if 3.0 * b <= 2.0 * c {
      forall one, two | IsDraw(one) && IsDraw(two)
        ensures BackoffDelay(n, base, cap, None, one) < BackoffDelay(n + 1, base, cap, None, two)
      {
        BackoffIsNearBase(n, base, cap, None, one);
        BackoffIsNearBase(n + 1, base, cap, None, two);
      }
    } else {
      var one := 2.0 * (c - b) / b;
      assert b * one == 2.0 * (c - b);
      DrawBetween(one, b, c);
      DelayOf(n, base, cap, one);
      DelayOf(n + 1, base, cap, 0.0);
      assert c * 0.0 == 0.0 && IsDraw(0.0);
      assert BackoffDelay(n, base, cap, None, one) == BackoffDelay(n + 1, base, cap, None, 0.0);
    }
  }

  lemma DrawBetween(x: real, b: real, c: real)
    requires b > 0.0 && b * x == 2.0 * (c - b) && b <= c && 2.0 * c < 3.0 * b
    ensures IsDraw(x)
  {
  }

  /** Below the cap the delays strictly increase, whatever the two draws. */
  lemma BackoffIncreasesBelowCap(attempt: nat, base: real, cap: real, one: real, two: real)
    requires attempt >= 1 && base > 0.0 && base * Pow2(attempt) <= cap && IsDraw(one) && IsDraw(two)
    ensures BackoffDelay(attempt, base, cap, None, one) < BackoffDelay(attempt + 1, base, cap, None, two)
  {
    BaseDoublesBelowCap(attempt, base, cap);
    BackoffIsNearBase(attempt, base, cap, None, one);
    BackoffIsNearBase(attempt + 1, base, cap, None, two);
  }

  // ---------------------------------------------------------------- the loop

  const DEFAULT_MAX_ATTEMPTS := 3.0
  const DEFAULT_BASE_DELAY_MS := 250.0
  const DEFAULT_CAP_DELAY_MS := 2000.0
  const MAX_ATTEMPTS_HARD_CAP := 10.0

  /** The caller's options; `noRetry` is whether ZOMBIE_NO_RETRY is "1" or "true". */
  datatype Options = Options(maxAttempts: Option<real>, baseDelayMs: Option<real>, capDelayMs: Option<real>,
                             noRetry: bool, httpMethod: Option<string>)

  datatype Config = Config(maxAttempts: nat, baseDelayMs: real, capDelayMs: real, httpMethod: string)

  predicate ValidLimit(x: real) {
    x == x.Floor as real && 1.0 <= x <= MAX_ATTEMPTS_HARD_CAP
  }

  /** None is the CONFIG_INVALID error. */
  function Resolve(o: Options): (r: Option<Config>)
    ensures r.Some? <==> ValidLimit(Or(o.maxAttempts, DEFAULT_MAX_ATTEMPTS))
    ensures r.Some? ==> 1 <= r.value.maxAttempts <= 10
  {
    var raw := Or(o.maxAttempts, DEFAULT_MAX_ATTEMPTS);
    if !ValidLimit(raw) then None
    else Some(Config(if o.noRetry then 1 else raw.Floor, Or(o.baseDelayMs, DEFAULT_BASE_DELAY_MS),
                     Or(o.capDelayMs, DEFAULT_CAP_DELAY_MS), Or(o.httpMethod, "GET")))
  }

  /** What can be observed, in order: requests sent, onRetry calls, sleeps, and onAttempt calls. */
  datatype Event =
    | Sent(attempt: nat)
    | OnRetry(attempt: nat, status: Option<int>, reason: Reason)
    | Slept(ms: real)
    | OnAttempt(attempt: nat, status: Option<int>, retryCount: nat, terminal: bool)

  datatype Outcome = Returned | Threw(err: Err) | ConfigInvalid

  /** The gate: a server error may have been processed, so only idempotent methods are replayed. */
  predicate UnsafeReplay(cfg: Config, reason: Reason, status: Option<int>) {
    reason == ServerError && status.Some? && status.value >= 500 && !IsIdempotent(cfg.httpMethod)
  }

  /** The reason to retry after `err` on attempt `n`, if there is one. */
  function Plan(side: Side, cfg: Config, n: nat, err: Err): Option<Reason> {
    var reason := Classify(side, err);
    if reason.None? || UnsafeReplay(cfg, reason.value, StatusOf(err)) || n >= cfg.maxAttempts then None else reason
  }

  function DelayAfter(cfg: Config, n: nat, err: Err, draw: real): real
    requires n >= 1
  {
    BackoffDelay(n, cfg.baseDelayMs, cfg.capDelayMs, if err.ApiError? then err.retryAfterMs else None, draw)
  }

  /** The run from attempt `n` on. */
  function RunFrom(side: Side, cfg: Config, replies: nat -> Reply, draws: nat -> real, n: nat)
    : (seq<Event>, Outcome)
    requires n >= 1
    decreases cfg.maxAttempts - n
  {
    match replies(n)
    case Answer => ([Sent(n), OnAttempt(n, Some(200), n - 1, true)], Returned)
    case Failure(err) =>
      var reason := Plan(side, cfg, n, err);
      if reason.None? then ([Sent(n), OnAttempt(n, StatusOf(err), n - 1, true)], Threw(err))
      else
        var rest := RunFrom(side, cfg, replies, draws, n + 1);
        ([Sent(n), OnRetry(n, StatusOf(err), reason.value), Slept(DelayAfter(cfg, n, err, draws(n)))] + rest.0, rest.1)
  }

  lemma AppendTwo(trace: seq<Event>, a: Event, b: Event)
    ensures trace + [a] + [b] == trace + [a, b]
  {
  }

  lemma AppendThree(trace: seq<Event>, a: Event, b: Event, c: Event, rest: seq<Event>)
    ensures trace + [a] + [b] + [c] + rest == trace + ([a, b, c] + rest)
  {
  }

  method RequestWithRetry(side: Side, options: Options, replies: nat -> Reply, draws: nat -> real)
    returns (trace: seq<Event>, outcome: Outcome)
    ensures Resolve(options).None? ==> trace == [] && outcome == ConfigInvalid
    ensures Resolve(options).Some? ==> (trace, outcome) == RunFrom(side, Resolve(options).value, replies, draws, 1)
  {
    var resolved := Resolve(options);
    trace := [];
    if resolved.None? {
      return trace, ConfigInvalid;
    }
    var cfg := resolved.value;
    ghost var whole := RunFrom(side, cfg, replies, draws, 1);
    assert [] + whole.0 == whole.0;
    var attempt := 0;
    while true
      invariant attempt < cfg.maxAttempts
      invariant whole.0 == trace + RunFrom(side, cfg, replies, draws, attempt + 1).0
      invariant whole.1 == RunFrom(side, cfg, replies, draws, attempt + 1).1
      decreases cfg.maxAttempts - attempt
    {
      ghost var before := trace;
      attempt := attempt + 1;
      trace := trace + [Sent(attempt)];
      var reply := replies(attempt);
      if reply.Answer? {
        AppendTwo(before, Sent(attempt), OnAttempt(attempt, Some(200), attempt - 1, true));
        trace := trace + [OnAttempt(attempt, Some(200), attempt - 1, true)];
        return trace, Returned;
      }
      var status := StatusOf(reply.err);
      var reason := Plan(side, cfg, attempt, reply.err);
      if reason.Some? {
        trace := trace + [OnRetry(attempt, status, reason.value)];
        var ms := DelayAfter(cfg, attempt, reply.err, draws(attempt));
        trace := trace + [Slept(ms)];
        AppendThree(before, Sent(attempt), OnRetry(attempt, status, reason.value), Slept(ms),
                    RunFrom(side, cfg, replies, draws, attempt + 1).0);
        continue;
      }
      AppendTwo(before, Sent(attempt), OnAttempt(attempt, status, attempt - 1, true));
      trace := trace + [OnAttempt(attempt, status, attempt - 1, true)];
      return trace, Threw(reply.err);
    }
  }

  // ---------------------------------------------------------------- shape of every run

  predicate Retries(side: Side, cfg: Config, replies: nat -> Reply, n: nat) {
    replies(n).Failure? && Plan(side, cfg, n, replies(n).err).Some?
  }

  /** The number of the last attempt of a run that has reached attempt `n`. */
  function LastAttempt(side: Side, cfg: Config, replies: nat -> Reply, n: nat): (k: nat)
    ensures n <= k && !Retries(side, cfg, replies, k)
    ensures forall j :: n <= j < k ==> Retries(side, cfg, replies, j)
    ensures n <= cfg.maxAttempts ==> k <= cfg.maxAttempts
    decreases cfg.maxAttempts - n
  {
    if Retries(side, cfg, replies, n) then LastAttempt(side, cfg, replies, n + 1) else n
  }

  /** Attempt j of a trace that begins with attempt n: sent, announced by onRetry, slept off. */
  ghost predicate RetriedAt(side: Side, cfg: Config, replies: nat -> Reply, draws: nat -> real, trace: seq<Event>,
                            n: nat, j: nat)
    requires 1 <= n <= j
  {
    var i := 3 * (j - n);
    && i + 2 < |trace| && replies(j).Failure?
    && trace[i] == Sent(j)
    && Classify(side, replies(j).err).Some?
    && trace[i + 1] == OnRetry(j, StatusOf(replies(j).err), Classify(side, replies(j).err).value)
    && trace[i + 2] == Slept(DelayAfter(cfg, j, replies(j).err, draws(j)))
  }

  /** Attempts n..k: all but the last followed by its onRetry and one sleep, the last by one onAttempt. */
  ghost predicate Shape(side: Side, cfg: Config, replies: nat -> Reply, draws: nat -> real, trace: seq<Event>,
                        n: nat, k: nat)
    requires 1 <= n <= k
  {
    && |trace| == 3 * (k - n) + 2
    && (forall j :: n <= j < k ==> RetriedAt(side, cfg, replies, draws, trace, n, j))
    && trace[|trace| - 2] == Sent(k)
    && trace[|trace| - 1]
       == OnAttempt(k, if replies(k).Answer? then Some(200) else StatusOf(replies(k).err), k - 1, true)
  }

  lemma {:induction false} ShapeFrom(side: Side, cfg: Config, replies: nat -> Reply, draws: nat -> real, n: nat)
    requires n >= 1
    ensures var r, k := RunFrom(side, cfg, replies, draws, n), LastAttempt(side, cfg, replies, n);
            && Shape(side, cfg, replies, draws, r.0, n, k)
            && r.1 == if replies(k).Answer? then Returned else Threw(replies(k).err)
    decreases cfg.maxAttempts - n
  {
    if Retries(side, cfg, replies, n) {
      ShapeFrom(side, cfg, replies, draws, n + 1);
      ShapeStep(side, cfg, replies, draws, n);
    }
  }

  lemma ShapeStep(side: Side, cfg: Config, replies: nat -> Reply, draws: nat -> real, n: nat)
    requires n >= 1 && Retries(side, cfg, replies, n)
    requires Shape(side, cfg, replies, draws, RunFrom(side, cfg, replies, draws, n + 1).0, n + 1,
                   LastAttempt(side, cfg, replies, n + 1))
    ensures Shape(side, cfg, replies, draws, RunFrom(side, cfg, replies, draws, n).0, n,
                  LastAttempt(side, cfg, replies, n))
  {
    var rest := RunFrom(side, cfg, replies, draws, n + 1).0;
    var all := RunFrom(side, cfg, replies, draws, n).0;
    var k := LastAttempt(side, cfg, replies, n);
    assert all[3..] == rest && |all| == |rest| + 3;
    forall j | n <= j < k ensures RetriedAt(side, cfg, replies, draws, all, n, j) {
      if j > n {
        assert RetriedAt(side, cfg, replies, draws, rest, n + 1, j);
        var i := 3 * (j - n - 1);
        assert all[i + 3] == rest[i] && all[i + 4] == rest[i + 1] && all[i + 5] == rest[i + 2];
      }
    }
  }

  /**
   For every script: the run ends with attempt k, at most the limit; k is the first attempt that is not
   retried; there are exactly k - 1 onRetry calls and sleeps, numbered 1 to k - 1, and one terminal
   onAttempt, for attempt k with retry count k - 1. What is returned or thrown is the last reply.
   */
  lemma EveryRun(side: Side, cfg: Config, replies: nat -> Reply, draws: nat -> real)
    requires cfg.maxAttempts >= 1
    ensures var r, k := RunFrom(side, cfg, replies, draws, 1), LastAttempt(side, cfg, replies, 1);
            && 1 <= k <= cfg.maxAttempts
            && Shape(side, cfg, replies, draws, r.0, 1, k)
            && r.1 == if replies(k).Answer? then Returned else Threw(replies(k).err)
  {
    ShapeFrom(side, cfg, replies, draws, 1);
  }

  /** The message says so at `i`, in any letter case. */
  predicate FetchFailedAt(message: string, i: int) {
    0 <= i && i + 12 <= |message| && Text.ToLower(message[i..i + 12]) == "fetch failed"
  }

  /** The failures that are worth another attempt, with the gate: a status of 500 or more is not for every method. */
  ghost predicate Retryable(side: Side, httpMethod: string, err: Err) {
    match err
    case ApiError(status, code, optOut, _) =>
      || code == "TIMEOUT"
      || (&& status.Some? && status.value in {408, 425, 429, 502, 503, 504}
          && !(side == Cli && optOut)
          && (status.value >= 500 ==> IsIdempotent(httpMethod)))
    case TypeError(message, sysCode) =>
      || (exists i :: FetchFailedAt(message, i))
      || (sysCode.Some? && sysCode.value in {"ECONNRESET", "ETIMEDOUT", "ENOTFOUND"})
    case OtherError(sysCode) => sysCode.Some? && sysCode.value in {"ECONNRESET", "ETIMEDOUT", "ENOTFOUND"}
  }

  lemma FetchFailed(message: string)
    ensures Contains(Text.ToLower(message), "fetch failed") <==> exists i :: FetchFailedAt(message, i)
  {
    var lower := Text.ToLower(message);
    assert |"fetch failed"| == 12;
    forall i | 0 <= i && i + 12 <= |message|
      ensures "fetch failed" <= lower[i..] <==> FetchFailedAt(message, i)
    {
      assert lower[i..][..12] == Text.ToLower(message[i..i + 12]);
    }
    if i :| FetchFailedAt(message, i) {
      assert 0 <= i <= |lower| - 12 && "fetch failed" <= lower[i..];
    }
  }

  /** What onRetry is told: the code TIMEOUT first, then 429, then any other retryable status, else the network. */
  lemma ReasonIs(side: Side, cfg: Config, n: nat, err: Err)
    requires Plan(side, cfg, n, err).Some?
    ensures Plan(side, cfg, n, err).value
         == if err.ApiError? then
              if err.code == "TIMEOUT" then Timeout
              else if err.status == Some(429) then TooManyRequests
              else ServerError
            else Network
  {
  }

  predicate Letter(c: char, upper: char) {
    c == upper || (c as int == upper as int + 32 && 'A' <= upper <= 'Z')
  }

  /** The methods that are sent again after a status of 500 or more: four, in any letter case. */
  lemma IdempotentExactlyWhen(m: string)
    ensures IsIdempotent(m)
            <==>
            || (|m| == 3 && ((Letter(m[0], 'G') && Letter(m[1], 'E') && Letter(m[2], 'T'))
                             || (Letter(m[0], 'P') && Letter(m[1], 'U') && Letter(m[2], 'T'))))
            || (|m| == 4 && Letter(m[0], 'H') && Letter(m[1], 'E') && Letter(m[2], 'A') && Letter(m[3], 'D'))
            || (|m| == 6 && Letter(m[0], 'D') && Letter(m[1], 'E') && Letter(m[2], 'L') && Letter(m[3], 'E')
                && Letter(m[4], 'T') && Letter(m[5], 'E'))
  {
    var u := Text.ToUpper(m);
    assert |u| == |m|;
    if |m| == 3 {
      assert u == "GET" <==> u[0] == 'G' && u[1] == 'E' && u[2] == 'T';
      assert u == "PUT" <==> u[0] == 'P' && u[1] == 'U' && u[2] == 'T';
    } else if |m| == 4 {
      assert u == "HEAD" <==> u[0] == 'H' && u[1] == 'E' && u[2] == 'A' && u[3] == 'D';
    } else if |m| == 6 {
      assert u == "DELETE"
             <==> u[0] == 'D' && u[1] == 'E' && u[2] == 'L' && u[3] == 'E' && u[4] == 'T' && u[5] == 'E';
    }
  }

  /** Each setting has its own default, and ZOMBIE_NO_RETRY allows one attempt whatever the limit. */
  lemma SettingsAre(maxAttempts: Option<real>, base: real, cap: real, noRetry: bool, httpMethod: string)
    requires maxAttempts.Some? ==> ValidLimit(maxAttempts.value)
    ensures var limit := if noRetry then 1 else if maxAttempts.Some? then maxAttempts.value.Floor else 3;
            && Resolve(Options(maxAttempts, None, None, noRetry, None)) == Some(Config(limit, 250.0, 2000.0, "GET"))
            && Resolve(Options(maxAttempts, Some(base), Some(cap), noRetry, Some(httpMethod)))
               == Some(Config(limit, base, cap, httpMethod))
  {
  }

  /** A limit is refused exactly if it is no whole number from 1 to 10. */
  lemma LimitsAre(limit: real, base: Option<real>, cap: Option<real>, noRetry: bool, httpMethod: Option<string>)
    ensures Resolve(Options(Some(limit), base, cap, noRetry, httpMethod)).Some?
            <==> limit in {1.0, 2.0, 3.0, 4.0, 5.0, 6.0, 7.0, 8.0, 9.0, 10.0}
  {
    var whole := limit.Floor;
    assert 1.0 <= limit <= 10.0 ==> 1 <= whole <= 10;
  }

  /**
   The sleep after attempt j: with a positive Retry-After r, r and up to 20 % more; without, the base doubled
   j - 1 times, but at most the cap, give or take 20 %; and none at all if that is negative.
   */
  predicate SleepIs(ms: real, cfg: Config, j: nat, err: Err, u: real)
    requires j >= 1
  {
    var full := cfg.baseDelayMs * Pow2(j - 1);
    var b := if full < cfg.capDelayMs then full else cfg.capDelayMs;
    if err.ApiError? && err.retryAfterMs.Some? && err.retryAfterMs.value > 0.0 then
      var r := err.retryAfterMs.value;
      ms == r * (1.0 + 0.2 * u) && r <= ms < 1.2 * r
    else if b >= 0.0 then ms == b * (0.8 + 0.4 * u) && 0.8 * b <= ms <= 1.2 * b
    else ms == 0.0
  }

  /** In every run it follows every attempt before the last, and the next attempt follows it. */
  lemma EverySleepIs(side: Side, cfg: Config, replies: nat -> Reply, draws: nat -> real, j: nat)
    requires cfg.maxAttempts >= 1 && 1 <= j < LastAttempt(side, cfg, replies, 1) && IsDraw(draws(j))
    ensures var trace, i := RunFrom(side, cfg, replies, draws, 1).0, 3 * (j - 1);
            && i + 3 < |trace| && trace[i] == Sent(j) && trace[i + 2].Slept? && trace[i + 3] == Sent(j + 1)
            && replies(j).Failure? && SleepIs(trace[i + 2].ms, cfg, j, replies(j).err, draws(j))
  {
    var trace, k := RunFrom(side, cfg, replies, draws, 1).0, LastAttempt(side, cfg, replies, 1);
    EveryRun(side, cfg, replies, draws);
    assert RetriedAt(side, cfg, replies, draws, trace, 1, j);
    NextIsSent(side, cfg, replies, draws, j);
    SleepValue(cfg, j, replies(j).err, draws(j));
  }

  lemma NextIsSent(side: Side, cfg: Config, replies: nat -> Reply, draws: nat -> real, j: nat)
    requires cfg.maxAttempts >= 1 && 1 <= j < LastAttempt(side, cfg, replies, 1)
    ensures var trace, i := RunFrom(side, cfg, replies, draws, 1).0, 3 * j;
            i < |trace| && trace[i] == Sent(j + 1)
  {
    var trace, k := RunFrom(side, cfg, replies, draws, 1).0, LastAttempt(side, cfg, replies, 1);
    EveryRun(side, cfg, replies, draws);
    if j + 1 < k {
      assert RetriedAt(side, cfg, replies, draws, trace, 1, j + 1);
    }
  }

  lemma SleepValue(cfg: Config, j: nat, err: Err, u: real)
    requires j >= 1 && IsDraw(u)
    ensures SleepIs(DelayAfter(cfg, j, err, u), cfg, j, err, u)
  {
    var after := if err.ApiError? then err.retryAfterMs else None;
    var b := BaseDelay(j, cfg.baseDelayMs, cfg.capDelayMs);
    if HasFloor(after) {
      var r := after.value;
      BackoffRespectsFloor(j, cfg.baseDelayMs, cfg.capDelayMs, after, u);
      assert r * (1.0 + 0.2 * u) == r + r * 0.2 * u;
    } else if b >= 0.0 {
      BackoffIsNearBase(j, cfg.baseDelayMs, cfg.capDelayMs, after, u);
      assert b * 0.2 * (u * 2.0 - 1.0) == 0.4 * (b * u) - 0.2 * b;
      assert b * (0.8 + 0.4 * u) == 0.8 * b + 0.4 * (b * u);
    } else {
      NoDelay(j, cfg.baseDelayMs, cfg.capDelayMs, u);
    }
  }

  lemma RetriedExactlyWhen(side: Side, cfg: Config, n: nat, err: Err)
    ensures Plan(side, cfg, n, err).Some? <==> n < cfg.maxAttempts && Retryable(side, cfg.httpMethod, err)
  {
    if err.TypeError? {
      FetchFailed(err.message);
    }
  }

  lemma {:induction false} SentExactly(side: Side, cfg: Config, replies: nat -> Reply, draws: nat -> real,
                                       n: nat, j: nat)
    requires n >= 1
    ensures Sent(j) in RunFrom(side, cfg, replies, draws, n).0 <==> n <= j <= LastAttempt(side, cfg, replies, n)
    decreases cfg.maxAttempts - n
  {
    if Retries(side, cfg, replies, n) {
      SentExactly(side, cfg, replies, draws, n + 1, j);
    }
  }

  /** In every run, an attempt is followed by another exactly if it failed retryably with attempts left. */
  lemma ResentExactlyWhen(side: Side, cfg: Config, replies: nat -> Reply, draws: nat -> real, j: nat)
    requires Sent(j) in RunFrom(side, cfg, replies, draws, 1).0
    ensures Sent(j + 1) in RunFrom(side, cfg, replies, draws, 1).0
            <==> replies(j).Failure? && j < cfg.maxAttempts && Retryable(side, cfg.httpMethod, replies(j).err)
  {
    SentExactly(side, cfg, replies, draws, 1, j);
    SentExactly(side, cfg, replies, draws, 1, j + 1);
    assert Retries(side, cfg, replies, j) <==> j < LastAttempt(side, cfg, replies, 1);
    if replies(j).Failure? {
      RetriedExactlyWhen(side, cfg, j, replies(j).err);
    }
  }

  /**
   A method that is not idempotent is sent again after a status of 500 or more exactly if the error's code is
   TIMEOUT, which is classified before its status is looked at, and attempts are left.
   */
  lemma UnsafeReplayExactlyWhen(side: Side, cfg: Config, replies: nat -> Reply, draws: nat -> real, j: nat)
    requires Sent(j) in RunFrom(side, cfg, replies, draws, 1).0 && !IsIdempotent(cfg.httpMethod)
    requires replies(j).Failure? && replies(j).err.ApiError?
    requires replies(j).err.status.Some? && replies(j).err.status.value >= 500
    ensures Sent(j + 1) in RunFrom(side, cfg, replies, draws, 1).0
            <==> replies(j).err.code == "TIMEOUT" && j < cfg.maxAttempts
  {
    ResentExactlyWhen(side, cfg, replies, draws, j);
  }

  /** A POST answered with status 504 and code TIMEOUT is sent until the attempts run out. */
  lemma TimeoutCodeIsReplayed(side: Side, base: real, cap: real, draws: nat -> real)
    ensures var cfg := Config(3, base, cap, "POST");
            var replies := (_: nat) => Failure(ApiError(Some(504), "TIMEOUT", false, None));
            && !IsIdempotent(cfg.httpMethod)
            && Sent(2) in RunFrom(side, cfg, replies, draws, 1).0
            && Sent(3) in RunFrom(side, cfg, replies, draws, 1).0
            && Sent(4) !in RunFrom(side, cfg, replies, draws, 1).0
  {
    var cfg := Config(3, base, cap, "POST");
    var replies := (_: nat) => Failure(ApiError(Some(504), "TIMEOUT", false, None));
    NotIdempotent();
    SentExactly(side, cfg, replies, draws, 1, 1);
    ResentExactlyWhen(side, cfg, replies, draws, 1);
    ResentExactlyWhen(side, cfg, replies, draws, 2);
    ResentExactlyWhen(side, cfg, replies, draws, 3);
  }

  lemma NotIdempotent()
    ensures !IsIdempotent("POST")
  {
    assert Text.ToUpper("POST")[1] == 'O' && "PUT"[1] == 'U';
  }

  function SleepOf(e: Event): real {
    if e.Slept? then e.ms else 0.0
  }

  function TotalSleep(trace: seq<Event>): real {
    if trace == [] then 0.0 else SleepOf(trace[0]) + TotalSleep(trace[1..])
  }

  lemma SleepCons(e: Event, rest: seq<Event>)
    ensures TotalSleep([e] + rest) == SleepOf(e) + TotalSleep(rest)
  {
    assert ([e] + rest)[1..] == rest;
  }

  lemma SleepStep(a: Event, b: Event, c: Event, rest: seq<Event>)
    ensures TotalSleep([a, b, c] + rest) == SleepOf(a) + SleepOf(b) + SleepOf(c) + TotalSleep(rest)
  {
    assert [a, b, c] + rest == [a] + ([b] + ([c] + rest));
    SleepCons(a, [b] + ([c] + rest));
    SleepCons(b, [c] + rest);
    SleepCons(c, rest);
  }

  lemma SleepEnd(a: Event, b: Event)
    ensures TotalSleep([a, b]) == SleepOf(a) + SleepOf(b)
  {
    assert [a, b] == [a] + ([b] + []);
    SleepCons(a, [b] + []);
    SleepCons(b, []);
  }

  lemma OneSleep(cfg: Config, n: nat, err: Err, draw: real)
    requires n >= 1 && cfg.baseDelayMs >= 0.0 && cfg.capDelayMs >= 0.0 && IsDraw(draw)
    requires err.ApiError? ==> !HasFloor(err.retryAfterMs)
    ensures 0.0 <= DelayAfter(cfg, n, err, draw) <= 1.2 * cfg.capDelayMs
  {
    Pow2Grows(n - 1);
    ProductWithin(cfg.baseDelayMs, Pow2(n - 1), 1.0, Pow2(n - 1));
    BackoffIsNearBase(n, cfg.baseDelayMs, cfg.capDelayMs, if err.ApiError? then err.retryAfterMs else None, draw);
  }

  /** What `left` sleeps may take. */
  function Allowance(cap: real, left: nat): real {
    1.2 * (left as real) * cap
  }

  lemma OneMoreSleep(cap: real, left: nat)
    requires cap >= 0.0
    ensures 0.0 <= Allowance(cap, left) && Allowance(cap, left + 1) == 1.2 * cap + Allowance(cap, left)
  {
    ProductWithin(cap, left as real, 0.0, left as real);
    assert 1.2 * (left as real) * cap == 1.2 * (cap * (left as real));
    assert (left + 1) as real == left as real + 1.0;
    assert 1.2 * (left as real + 1.0) * cap == 1.2 * cap + 1.2 * (left as real) * cap;
  }

  /** With no floor from the server, all sleeps together take at most 1.2 * (attempts left) * cap. */
  lemma {:induction false} SleepIsBounded(side: Side, cfg: Config, replies: nat -> Reply, draws: nat -> real, n: nat)
    requires 1 <= n <= cfg.maxAttempts && cfg.baseDelayMs >= 0.0 && cfg.capDelayMs >= 0.0
    requires forall j :: IsDraw(draws(j))
    requires forall j :: replies(j).Failure? && replies(j).err.ApiError? ==> !HasFloor(replies(j).err.retryAfterMs)
    ensures 0.0 <= TotalSleep(RunFrom(side, cfg, replies, draws, n).0) <= Allowance(cfg.capDelayMs, cfg.maxAttempts - n)
    decreases cfg.maxAttempts - n
  {
    if Retries(side, cfg, replies, n) {
      var err := replies(n).err;
      SleepIsBounded(side, cfg, replies, draws, n + 1);
      OneSleep(cfg, n, err, draws(n));
      SleepStep(Sent(n), OnRetry(n, StatusOf(err), Plan(side, cfg, n, err).value),
                Slept(DelayAfter(cfg, n, err, draws(n))), RunFrom(side, cfg, replies, draws, n + 1).0);
      OneMoreSleep(cfg.capDelayMs, cfg.maxAttempts - n - 1);
    } else {
      var end := RunFrom(side, cfg, replies, draws, n).0;
      SleepEnd(end[0], end[1]);
      assert end == [end[0], end[1]];
      OneMoreSleep(cfg.capDelayMs, cfg.maxAttempts - n);
    }
  }

  // ---------------------------------------------------------------- parity of the copies

  /** An opt-out that matters: the dashboard, which does not look for it, would retry here. */
  predicate OptOutDecides(cfg: Config, n: nat, reply: Reply) {
    && reply.Failure? && reply.err.ApiError? && reply.err.optOut && reply.err.code != "TIMEOUT"
    && reply.err.status.Some? && reply.err.status.value in RETRYABLE_STATUSES
    && n < cfg.maxAttempts
    && (reply.err.status.value < 500 || IsIdempotent(cfg.httpMethod))
  }

  lemma {:induction false} ParityFrom(cfg: Config, replies: nat -> Reply, draws: nat -> real, n: nat)
    requires n >= 1
    ensures var k := LastAttempt(Cli, cfg, replies, n);
            RunFrom(Cli, cfg, replies, draws, n) == RunFrom(Dashboard, cfg, replies, draws, n)
            <==> !OptOutDecides(cfg, k, replies(k))
    decreases cfg.maxAttempts - n
  {
    if Retries(Cli, cfg, replies, n) {
      ParityFrom(cfg, replies, draws, n + 1);
      var err := replies(n).err;
      var head := [Sent(n), OnRetry(n, StatusOf(err), Plan(Cli, cfg, n, err).value),
                   Slept(DelayAfter(cfg, n, err, draws(n)))];
      var cli, dashboard := RunFrom(Cli, cfg, replies, draws, n + 1), RunFrom(Dashboard, cfg, replies, draws, n + 1);
      assert Plan(Dashboard, cfg, n, err) == Plan(Cli, cfg, n, err);
      assert (head + cli.0)[3..] == cli.0 && (head + dashboard.0)[3..] == dashboard.0;
    } else if Retries(Dashboard, cfg, replies, n) {
      assert OptOutDecides(cfg, n, replies(n));
      assert RunFrom(Cli, cfg, replies, draws, n).0[1].OnAttempt?;
      assert RunFrom(Dashboard, cfg, replies, draws, n).0[1].OnRetry?;
    } else {
      assert !OptOutDecides(cfg, n, replies(n));
    }
  }

  /**
   The two copies show the same attempts, callbacks, sleeps and outcome exactly when the reply the CLI
   stops at is not one whose opt-out made it stop.
   */
  lemma CopiesAgreeExactlyWhen(cfg: Config, replies: nat -> Reply, draws: nat -> real)
    ensures var k := LastAttempt(Cli, cfg, replies, 1);
            RunFrom(Cli, cfg, replies, draws, 1) == RunFrom(Dashboard, cfg, replies, draws, 1)
            <==> !OptOutDecides(cfg, k, replies(k))
  {
    ParityFrom(cfg, replies, draws, 1);
  }

  /** So on every script without opt-outs they are the same program. */
  lemma CopiesAgreeWithoutOptOut(cfg: Config, replies: nat -> Reply, draws: nat -> real)
    requires forall j :: replies(j).Failure? && replies(j).err.ApiError? ==> !replies(j).err.optOut
    ensures RunFrom(Cli, cfg, replies, draws, 1) == RunFrom(Dashboard, cfg, replies, draws, 1)
  {
    ParityFrom(cfg, replies, draws, 1);
  }

  /** One reply that does: a 429 whose body asks for no retry ends the CLI's run and not the dashboard's. */
  lemma OptOutSeparatesTheCopies(base: real, cap: real, httpMethod: string, draws: nat -> real)
    ensures var cfg := Config(3, base, cap, httpMethod);
            var replies := (n: nat) => if n == 1 then Failure(ApiError(Some(429), "HTTP_429", true, None)) else Answer;
            && RunFrom(Cli, cfg, replies, draws, 1).1.Threw?
            && RunFrom(Dashboard, cfg, replies, draws, 1).1 == Returned
  {
  }
}
