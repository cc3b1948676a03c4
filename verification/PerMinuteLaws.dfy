/**
 The limiter in the numbers it is configured with: calls a minute and burst, for a session and for the whole bus. A
 minute has 60 seconds, and times are seconds.
*/
module PerMinuteLaws {
  import opened Types
  import opened RateLimits
  import opened RateLimitLaws
  import opened WindowLaws

  lemma {:induction false} SixtyTimes(span: real, perMin: nat, minted: real)
    requires minted == Yield(span, perMin as real / 60.0)
    ensures 60.0 * minted == span * perMin as real
  {
  }

  lemma {:induction false} SixtyTimesBound(count: nat, burst: nat, span: real, perMin: nat, minted: real)
    requires minted == Yield(span, perMin as real / 60.0) && count as real <= burst as real + minted
    ensures 60.0 * count as real <= 60.0 * burst as real + span * perMin as real
  {
    SixtyTimes(span, perMin, minted);
  }

  /** A new limiter, in any window with ordered readings of any run: sixty times what a session gets, and what the bus
      as a whole spends, is at most sixty bursts plus the calls a minute times the seconds the window takes. */
  lemma {:induction false} PerMinuteBound(perMin: nat, burst: nat, sharedPerMin: nat, sharedBurst: nat,
                                          calls: seq<Call>, i: nat, j: nat, s: SessionId, span: real)
    requires i < j <= |calls| && Ordered(calls[i].now, calls[i..j]) && span == calls[j - 1].now - calls[i].now
    ensures var vs := Verdicts(New(perMin, burst, sharedPerMin, sharedBurst), calls);
            && 60.0 * AdmittedFor(s, calls[i..j], vs[i..j]) as real
               <= 60.0 * burst as real + span * perMin as real
            && 60.0 * AdmittedGlobally(calls[i..j], vs[i..j]) as real
               <= 60.0 * sharedBurst as real + span * sharedPerMin as real
  {
    var st := New(perMin, burst, sharedPerMin, sharedBurst);
    var vs := Verdicts(st, calls);
    WindowBound(st, calls, i, j, s, span, perMin as real / 60.0, sharedPerMin as real / 60.0);
    SixtyTimesBound(AdmittedFor(s, calls[i..j], vs[i..j]), burst, span, perMin, Yield(span, perMin as real / 60.0));
    SixtyTimesBound(AdmittedGlobally(calls[i..j], vs[i..j]), sharedBurst, span, sharedPerMin,
                    Yield(span, sharedPerMin as real / 60.0));
  }

  lemma {:induction false} RefillFromEmpty(t: real, span: real, perMin: nat, burst: nat)
    requires span >= 0.0
    ensures 60.0 * Refill(Bucket(0.0, t), t + span, perMin as real / 60.0, burst as real).tokens
            == Min(span * perMin as real, 60.0 * burst as real)
  {
    SixtyTimes(span, perMin, Yield(span, perMin as real / 60.0));
    assert Elapsed(t + span, t) == span;
  }

  /** A bucket that is empty fills at the configured rate and no further than its burst: the session's and the shared
      one. */
  lemma {:induction false} EmptiedBucketsRefill(perMin: nat, burst: nat, sharedPerMin: nat, sharedBurst: nat,
                                                st: Limiter, s: SessionId, t: real, span: real)
    requires st == New(perMin, burst, sharedPerMin, sharedBurst).(buckets := st.buckets, global := st.global)
    requires s in st.buckets && st.buckets[s] == Bucket(0.0, t) && st.global == Some(Bucket(0.0, t)) && span >= 0.0
    ensures 60.0 * SessionBucket(st, s, t + span).tokens == Min(span * perMin as real, 60.0 * burst as real)
    ensures 60.0 * GlobalBucket(st, t + span).tokens == Min(span * sharedPerMin as real, 60.0 * sharedBurst as real)
  {
    RefillFromEmpty(t, span, perMin, burst);
    RefillFromEmpty(t, span, sharedPerMin, sharedBurst);
  }

  /** A new limiter's buckets start full. */
  lemma {:induction false} NewBucketsAreFull(perMin: nat, burst: nat, sharedPerMin: nat, sharedBurst: nat,
                                             s: SessionId, now: real)
    ensures var st := New(perMin, burst, sharedPerMin, sharedBurst);
            SessionBucket(st, s, now).tokens == burst as real && GlobalBucket(st, now).tokens == sharedBurst as real
  {
  }

  // ----- the default numbers -----

  /** A session sends 20 a minute with a burst of 10, the bus 1280 a minute with a burst of 640. */
  lemma DefaultNumbers()
    ensures Default() == New(20, 10, 1280, 640)
  {
  }

  /** `n` calls of one session at one instant. */
  ghost function AtOnce(s: SessionId, t: real, n: nat): seq<Call> {
    if n == 0 then [] else AtOnce(s, t, n - 1) + [Call(s, t, false)]
  }

  /** The default limiter after `n` sends of one session at one instant, up to its burst. */
  ghost function Drained(s: SessionId, t: real, n: nat): (st: Limiter)
    requires 0 < n <= 10
    ensures Valid(st)
  {
    New(20, 10, 1280, 640).(buckets := map[s := Bucket(10.0 - n as real, t)],
                            global := Some(Bucket(640.0 - n as real, t)))
  }

  lemma {:induction false} OneMoreAtOnce(s: SessionId, t: real, n: nat)
    requires n < 10
    ensures var st := if n == 0 then New(20, 10, 1280, 640) else Drained(s, t, n);
            Apply(st, Call(s, t, false)) == (Drained(s, t, n + 1), Admitted)
  {
    var st := if n == 0 then New(20, 10, 1280, 640) else Drained(s, t, n);
    RefillNow(Bucket(10.0 - n as real, t), st.rate, st.burst);
    RefillNow(Bucket(640.0 - n as real, t), st.globalRate, st.globalBurst);
    assert st.buckets[s := Bucket(10.0 - (n + 1) as real, t)] == map[s := Bucket(10.0 - (n + 1) as real, t)];
  }

  lemma {:induction false} BurstAtOnce(s: SessionId, t: real, n: nat)
    requires 0 < n <= 10
    ensures |AtOnce(s, t, n)| == n && After(Default(), AtOnce(s, t, n)) == Drained(s, t, n)
    ensures forall v :: v in Verdicts(Default(), AtOnce(s, t, n)) ==> v == Admitted
  {
    var c := Call(s, t, false);
    var front := AtOnce(s, t, n - 1);
    OneMoreAtOnce(s, t, n - 1);
    DefaultNumbers();
    if n > 1 { BurstAtOnce(s, t, n - 1); }
    VerdictsSplit(Default(), front, [c]);
    OneCall(After(Default(), front), c);
  }

  lemma {:induction false} OneCall(st: Limiter, c: Call)
    requires Valid(st)
    ensures After(st, [c]) == Apply(st, c).0 && Verdicts(st, [c]) == [Apply(st, c).1]
  {
    assert [c][1..] == [];
  }

  /** With the default numbers, ten sends at one instant all pass, and the eleventh, `span` seconds later, is refused by
      the session's own bucket exactly when `span` is below three seconds; it is then told to wait for the rest of the
      three, in whole milliseconds rounded up. */
  lemma {:induction false} TenThenThreeSeconds(s: SessionId, t: real, span: real)
    requires span >= 0.0
    ensures var vs := Verdicts(Default(), AtOnce(s, t, 10) + [Call(s, t + span, false)]);
            && |vs| == 11 && (forall i :: 0 <= i < 10 ==> vs[i] == Admitted)
            && vs[10] == if span < 3.0 then SessionRefused(Ceil((3.0 - span) * 1000.0)) else Admitted
  {
    var c := Call(s, t + span, false);
    BurstAtOnce(s, t, 10);
    VerdictsSplit(Default(), AtOnce(s, t, 10), [c]);
    OneCall(Drained(s, t, 10), c);
    EleventhVerdict(s, t, span);
    var front := Verdicts(Default(), AtOnce(s, t, 10));
    assert forall i :: 0 <= i < 10 ==> front[i] in front;
  }

  lemma {:induction false} EleventhVerdict(s: SessionId, t: real, span: real)
    requires span >= 0.0
    ensures Apply(Drained(s, t, 10), Call(s, t + span, false)).1
            == if span < 3.0 then SessionRefused(Ceil((3.0 - span) * 1000.0)) else Admitted
  {
    var st := Drained(s, t, 10);
    RefillFromEmpty(t, span, 20, 10);
    var own := SessionBucket(st, s, t + span).tokens;
    assert 60.0 * own == Min(span * 20.0, 600.0);
    if span < 3.0 {
      DelayOf(own, span);
    } else {
      SharedHolds(t, span);
    }
  }

  lemma {:induction false} DelayOf(own: real, span: real)
    requires 0.0 <= span < 3.0 && own == span / 3.0
    ensures own < 1.0 && RetryAfterMs(own, 20.0 / 60.0) == Ceil((3.0 - span) * 1000.0)
  {
    assert (1.0 - own) / (20.0 / 60.0) * 1000.0 == (3.0 - span) * 1000.0;
  }

  lemma {:induction false} SharedHolds(t: real, span: real)
    requires span >= 0.0
    ensures Refill(Bucket(630.0, t), t + span, 1280.0 / 60.0, 640.0).tokens >= 630.0
  {
    MulNonNeg(Elapsed(t + span, t), 1280.0 / 60.0);
  }

  // ----- the advertised delay -----

  /** The delay a refusal advertises is the least whole number of milliseconds after which the bucket, left alone, holds
      a token. */
  lemma {:induction false} RetryIsLeast(tokens: real, perMin: nat, ms: nat)
    requires 0.0 <= tokens < 1.0 && perMin >= 1
    ensures ms >= RetryAfterMs(tokens, perMin as real / 60.0)
            <==> 60000.0 * tokens + ms as real * perMin as real >= 60000.0
  {
    var rate := perMin as real / 60.0;
    var need := (1.0 - tokens) / rate * 1000.0;
    QuotientBound(1.0 - tokens, rate);
    assert Ceil(need) <= 60000;
    CeilIsLeast(need, ms);
    NeedInTokens(tokens, perMin, need, ms);
  }

  lemma CeilIsLeast(x: real, n: int)
    ensures n >= Ceil(x) <==> n as real >= x
  {
  }

  lemma {:induction false} NeedInTokens(tokens: real, perMin: nat, need: real, ms: nat)
    requires perMin >= 1 && need == (1.0 - tokens) / (perMin as real / 60.0) * 1000.0
    ensures ms as real >= need <==> 60000.0 * tokens + ms as real * perMin as real >= 60000.0
  {
    var m := perMin as real;
    var q := (1.0 - tokens) / (m / 60.0);
    assert q * (m / 60.0) == 1.0 - tokens;
    assert q * m == 60.0 * (1.0 - tokens);
    var gap := ms as real - need;
    assert gap * m == ms as real * m - need * m;
    assert need * m == 1000.0 * (q * m);
    if gap >= 0.0 {
      MulNonNeg(gap, m);
    } else {
      Positive(-gap, m);
      assert (-gap) * m == -(gap * m);
    }
  }

  /** A refusal by the shared bucket advertises that least delay too, but never less than 250 milliseconds. */
  lemma {:induction false} SharedDelayHasAFloor(st: Limiter, c: Call, sharedPerMin: nat, ms: nat)
    requires Valid(st) && sharedPerMin >= 1 && st.globalRate == sharedPerMin as real / 60.0
    requires Apply(st, c).1.GlobalRefused?
    ensures ms >= Apply(st, c).1.ms
            <==> ms >= 250
                 && 60000.0 * GlobalBucket(st, c.now).tokens + ms as real * sharedPerMin as real >= 60000.0
  {
    BucketsSane(st, c.session, c.now);
    RetryIsLeast(GlobalBucket(st, c.now).tokens, sharedPerMin, ms);
  }
}
