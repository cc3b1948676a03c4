/**
 Token buckets: one per session plus one shared by the whole bus, coupled all-or-nothing.
 `real` stands in for the source's double-precision numbers; times are seconds.
 */
module RateLimits {
  import opened Types
  import opened Limits

  const DEFAULT_RATE_PER_MIN: nat := 20
  const DEFAULT_BURST: nat := 10
  const GLOBAL_BURST: nat := 2 * MAX_TEAM_SIZE * DEFAULT_BURST
  const GLOBAL_RATE_PER_MIN: nat := 2 * MAX_TEAM_SIZE * DEFAULT_RATE_PER_MIN
  const GLOBAL_RETRY_AFTER_FLOOR_MS: nat := 250

  datatype Bucket = Bucket(tokens: real, lastRefill: real)

  datatype Limiter = Limiter(
    rate: real, burst: real, buckets: map<SessionId, Bucket>,
    globalRate: real, globalBurst: real, global: Option<Bucket>)

  /** Why a call ended as it did. The source reports both refusals as the same error. */
  datatype Verdict = Admitted | SessionRefused(ms: nat) | GlobalRefused(ms: nat)

  function Reply(session: SessionId, v: Verdict): Result<Unit, BusError> {
    match v
    case Admitted => Ok(Unit)
    case SessionRefused(ms) => Err(RateLimited(session, ms))
    case GlobalRefused(ms) => Err(RateLimited(session, ms))
  }

  function New(ratePerMin: nat, burst: nat, globalRatePerMin: nat, globalBurst: nat): (st: Limiter)
    ensures Valid(st)
  {
    Limiter(ratePerMin as real / 60.0, burst as real, map[], globalRatePerMin as real / 60.0, globalBurst as real, None)
  }

  function Default(): (st: Limiter)
    ensures Valid(st)
  {
    New(DEFAULT_RATE_PER_MIN, DEFAULT_BURST, GLOBAL_RATE_PER_MIN, GLOBAL_BURST)
  }

  /** `duration_since`, saturating at zero when the clock reads earlier than the mark. */
  function Elapsed(now: real, mark: real): real {
    if now <= mark then 0.0 else now - mark
  }

  function Refill(b: Bucket, now: real, rate: real, burst: real): Bucket {
    Bucket(Min(b.tokens + Elapsed(now, b.lastRefill) * rate, burst), now)
  }

  function Ceil(x: real): int {
    -((-x).Floor)
  }

  /** Milliseconds until `tokens` reaches one, cast the way the source casts: a zero rate divides to
      infinity, which saturates. */
  function RetryAfterMs(tokens: real, rate: real): (ms: nat)
    requires tokens < 1.0 && rate >= 0.0
  {
    if rate == 0.0 then U64_MAX
    else
      RetryIsNonNegative(tokens, rate);
      var ms := Ceil((1.0 - tokens) / rate * 1000.0);
      if ms > U64_MAX then U64_MAX else ms
  }

  lemma {:induction false} RetryIsNonNegative(tokens: real, rate: real)
    requires tokens < 1.0 && rate > 0.0
    ensures (1.0 - tokens) / rate * 1000.0 >= 0.0
  {
  }

  function SessionBucket(st: Limiter, s: SessionId, now: real): Bucket {
    Refill(if s in st.buckets then st.buckets[s] else Bucket(st.burst, now), now, st.rate, st.burst)
  }

  function GlobalBucket(st: Limiter, now: real): Bucket {
    Refill(if st.global.Some? then st.global.value else Bucket(st.globalBurst, now), now, st.globalRate, st.globalBurst)
  }

  function Spend(b: Bucket): Bucket {
    b.(tokens := b.tokens - 1.0)
  }

  ghost predicate Sane(b: Bucket, burst: real) {
    0.0 <= b.tokens <= burst
  }

  ghost predicate Valid(st: Limiter) {
    && st.rate >= 0.0 && st.burst >= 0.0 && st.globalRate >= 0.0 && st.globalBurst >= 0.0
    && (forall s :: s in st.buckets ==> Sane(st.buckets[s], st.burst))
    && (st.global.Some? ==> Sane(st.global.value, st.globalBurst))
  }

  /** One call: the new state and the verdict. A refusal still leaves the refilled buckets behind. */
  ghost function Acquire(st: Limiter, s: SessionId, now: real, skipGlobal: bool): (r: (Limiter, Verdict))
    requires Valid(st)
    ensures Valid(r.0)
  {
    BucketsSane(st, s, now);
    var b := SessionBucket(st, s, now);
    var refilled := st.(buckets := st.buckets[s := b]);
    var spent := st.(buckets := st.buckets[s := Spend(b)]);
    if b.tokens < 1.0 then (refilled, SessionRefused(RetryAfterMs(b.tokens, st.rate)))
    else if skipGlobal then (spent, Admitted)
    else
      var g := GlobalBucket(st, now);
      if g.tokens < 1.0 then
        var ms := RetryAfterMs(g.tokens, st.globalRate);
        (refilled.(global := Some(g)),
         GlobalRefused(if ms < GLOBAL_RETRY_AFTER_FLOOR_MS then GLOBAL_RETRY_AFTER_FLOOR_MS else ms))
      else (spent.(global := Some(Spend(g))), Admitted)
  }

  class RateLimiter {
    const rate: real
    const burst: real
    const globalRate: real
    const globalBurst: real
    var buckets: map<SessionId, Bucket>
    var global: Option<Bucket>

    ghost function State(): Limiter
      reads this
    {
      Limiter(rate, burst, buckets, globalRate, globalBurst, global)
    }

    constructor (ratePerMin: nat, burst: nat, globalRatePerMin: nat, globalBurst: nat)
      ensures State() == New(ratePerMin, burst, globalRatePerMin, globalBurst)
    {
      this.rate := ratePerMin as real / 60.0;
      this.burst := burst as real;
      this.globalRate := globalRatePerMin as real / 60.0;
      this.globalBurst := globalBurst as real;
      this.buckets := map[];
      this.global := None;
    }

    method TryAcquire(session: SessionId, now: real) returns (r: Result<Unit, BusError>)
      requires Valid(State())
      modifies this
      ensures State() == Acquire(old(State()), session, now, false).0
      ensures r == Reply(session, Acquire(old(State()), session, now, false).1)
      ensures Valid(State())
    {
      r := TryAcquireInner(session, now, false);
    }

    method TryAcquireSessionOnly(session: SessionId, now: real) returns (r: Result<Unit, BusError>)
      requires Valid(State())
      modifies this
      ensures State() == Acquire(old(State()), session, now, true).0
      ensures r == Reply(session, Acquire(old(State()), session, now, true).1)
      ensures Valid(State())
    {
      r := TryAcquireInner(session, now, true);
    }

    method TryAcquireInner(session: SessionId, now: real, skipGlobal: bool) returns (r: Result<Unit, BusError>)
      requires Valid(State())
      modifies this
      ensures State() == Acquire(old(State()), session, now, skipGlobal).0
      ensures r == Reply(session, Acquire(old(State()), session, now, skipGlobal).1)
      ensures Valid(State())
    {
      if session !in buckets {
        buckets := buckets[session := Bucket(burst, now)];
      }
      var b := Refill(buckets[session], now, rate, burst);
      buckets := buckets[session := b];
      if b.tokens < 1.0 {
        return Err(RateLimited(session, RetryAfterMs(b.tokens, rate)));
      }
      if skipGlobal {
        buckets := buckets[session := Spend(b)];
        return Ok(Unit);
      }
      if global.None? {
        global := Some(Bucket(globalBurst, now));
      }
      var g := Refill(global.value, now, globalRate, globalBurst);
      global := Some(g);
      if g.tokens < 1.0 {
        var ms := RetryAfterMs(g.tokens, globalRate);
        if ms < GLOBAL_RETRY_AFTER_FLOOR_MS {
          ms := GLOBAL_RETRY_AFTER_FLOOR_MS;
        }
        return Err(RateLimited(session, ms));
      }
      buckets := buckets[session := Spend(b)];
      global := Some(Spend(g));
      return Ok(Unit);
    }
  }

  lemma {:induction false} MulNonNeg(a: real, b: real)
    requires a >= 0.0 && b >= 0.0
    ensures a * b >= 0.0
  {
  }

  lemma {:induction false} Distribute(a: real, b: real, r: real)
    ensures (a + b) * r == a * r + b * r
  {
  }

  lemma {:induction false} RefillSane(b: Bucket, now: real, rate: real, burst: real)
    requires Sane(b, burst) && rate >= 0.0
    ensures Sane(Refill(b, now, rate, burst), burst)
  {
    MulNonNeg(Elapsed(now, b.lastRefill), rate);
  }

  lemma {:induction false} BucketsSane(st: Limiter, s: SessionId, now: real)
    requires Valid(st)
    ensures Sane(SessionBucket(st, s, now), st.burst) && Sane(GlobalBucket(st, now), st.globalBurst)
  {
    if s in st.buckets { RefillSane(st.buckets[s], now, st.rate, st.burst); }
    if st.global.Some? { RefillSane(st.global.value, now, st.globalRate, st.globalBurst); }
  }

  // ----- runs -----

  datatype Call = Call(session: SessionId, now: real, skipGlobal: bool)

  /** The clock never runs backwards, starting from `t`. */
  ghost predicate Ordered(t: real, calls: seq<Call>)
    decreases |calls|
  {
    calls != [] ==> t <= calls[0].now && Ordered(calls[0].now, calls[1..])
  }

  ghost function Apply(st: Limiter, c: Call): (r: (Limiter, Verdict))
    requires Valid(st)
    ensures Valid(r.0)
  {
    Acquire(st, c.session, c.now, c.skipGlobal)
  }

  ghost function After(st: Limiter, calls: seq<Call>): (r: Limiter)
    requires Valid(st)
    ensures Valid(r)
    decreases |calls|
  {
    if calls == [] then st else After(Apply(st, calls[0]).0, calls[1..])
  }

  ghost function Verdicts(st: Limiter, calls: seq<Call>): (r: seq<Verdict>)
    requires Valid(st)
    ensures |r| == |calls|
    decreases |calls|
  {
    if calls == [] then [] else [Apply(st, calls[0]).1] + Verdicts(Apply(st, calls[0]).0, calls[1..])
  }

  lemma {:induction false} VerdictsSplit(st: Limiter, a: seq<Call>, b: seq<Call>)
    requires Valid(st)
    ensures Verdicts(st, a + b) == Verdicts(st, a) + Verdicts(After(st, a), b)
    ensures After(st, a + b) == After(After(st, a), b)
    decreases |a|
  {
    if a == [] {
      assert a + b == b;
    } else {
      assert (a + b)[0] == a[0] && (a + b)[1..] == a[1..] + b;
      VerdictsSplit(Apply(st, a[0]).0, a[1..], b);
    }
  }

  // ----- the damper -----

  type DamperKey = (SessionId, SessionId, string)

  const DAMPER_LIMIT: nat := 3

  function Count(damper: map<DamperKey, nat>, k: DamperKey): nat {
    if k in damper then damper[k] else 0
  }

  class RepetitionDamper {
    var counts: map<DamperKey, nat>

    constructor ()
      ensures counts == map[]
    {
      counts := map[];
    }

    method CheckAndRecord(from: SessionId, to: SessionId, subject: string) returns (r: Result<Unit, BusError>)
      modifies this
      ensures var n := Count(old(counts), (from, to, subject));
              && r == (if n < 3 then Ok(Unit) else Err(Repetitive(to, subject)))
              && counts == old(counts)[(from, to, subject) := if r.Ok? then n + 1 else n]
    {
      var key := (from, to, subject);
      if key !in counts {
        counts := counts[key := 0];
      }
      if counts[key] >= DAMPER_LIMIT {
        return Err(Repetitive(to, subject));
      }
      counts := counts[key := counts[key] + 1];
      return Ok(Unit);
    }

    method NoteStateChange(from: SessionId, to: SessionId, subject: string)
      modifies this
      ensures counts == old(counts) - {(from, to, subject)}
    {
      counts := counts - {(from, to, subject)};
    }
  }
}
