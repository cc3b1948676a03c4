/**
 Laws of the rate limiter over whole runs. The lazily refilled limiter is shown to behave exactly like the
 eager buckets, and the eager laws are carried over.
 */
module RateLimitLaws {
  import opened Types
  import opened Limits
  import opened EagerBuckets
  import opened RateLimits

  /** What session `s` would hold if its bucket were refilled at time `t`. */
  ghost function Level(st: Limiter, s: SessionId, t: real): real {
    SessionBucket(st, s, t).tokens
  }

  ghost function GlobalLevel(st: Limiter, t: real): real {
    GlobalBucket(st, t).tokens
  }

  /** No bucket has been touched later than `t`. */
  ghost predicate SyncedAt(st: Limiter, t: real) {
    && (forall s :: s in st.buckets ==> st.buckets[s].lastRefill <= t)
    && (st.global.Some? ==> st.global.value.lastRefill <= t)
  }

  ghost function CapsOf(st: Limiter): Caps {
    Caps(st.burst, st.globalBurst)
  }

  ghost function TickOf(st: Limiter, t: real, c: Call): Tick {
    Tick(c.session, (c.now - t) * st.rate, (c.now - t) * st.globalRate, c.skipGlobal)
  }

  ghost function TicksOf(st: Limiter, t: real, calls: seq<Call>): (r: seq<Tick>)
    ensures |r| == |calls|
    decreases |calls|
  {
    if calls == [] then [] else [TickOf(st, t, calls[0])] + TicksOf(st, calls[0].now, calls[1..])
  }

  /** The eager picture of a limiter at time `t`. */
  ghost function Picture(st: Limiter, t: real): Levels {
    Levels(x => Level(st, x, t), GlobalLevel(st, t))
  }

  ghost predicate Same(e: Levels, f: Levels) {
    e.shared == f.shared && forall x :: Own(e, x) == Own(f, x)
  }

  ghost predicate Agree(v: Verdict, o: Outcome) {
    (v.Admitted? <==> o.Pass?) && (v.SessionRefused? <==> o.OwnRefusal?) && (v.GlobalRefused? <==> o.SharedRefusal?)
  }

  // ----- the refinement -----

  /** Refilling in two stages is refilling once. */
  lemma {:induction false} RefillTwice(b: Bucket, t: real, now: real, rate: real, burst: real)
    requires b.lastRefill <= t <= now && rate >= 0.0
    ensures Refill(b, now, rate, burst).tokens == Min(Refill(b, t, rate, burst).tokens + (now - t) * rate, burst)
  {
    Distribute(t - b.lastRefill, now - t, rate);
    assert (t - b.lastRefill) + (now - t) == now - b.lastRefill;
    MulNonNeg(now - t, rate);
  }

  lemma {:induction false} SessionTopUp(st: Limiter, t: real, c: Call, x: SessionId)
    requires Valid(st) && SyncedAt(st, t) && t <= c.now
    ensures Level(st, x, c.now) == Min(Level(st, x, t) + TickOf(st, t, c).minted, st.burst)
  {
    if x in st.buckets {
      RefillTwice(st.buckets[x], t, c.now, st.rate, st.burst);
    } else {
      MulNonNeg(c.now - t, st.rate);
    }
  }

  lemma {:induction false} GlobalTopUp(st: Limiter, t: real, c: Call)
    requires Valid(st) && SyncedAt(st, t) && t <= c.now
    ensures GlobalLevel(st, c.now) == Min(GlobalLevel(st, t) + TickOf(st, t, c).sharedMinted, st.globalBurst)
  {
    if st.global.Some? {
      RefillTwice(st.global.value, t, c.now, st.globalRate, st.globalBurst);
    } else {
      MulNonNeg(c.now - t, st.globalRate);
    }
  }

  lemma {:induction false} PictureTopUp(st: Limiter, t: real, c: Call)
    requires Valid(st) && SyncedAt(st, t) && t <= c.now
    ensures Same(Picture(st, c.now), TopUp(CapsOf(st), Picture(st, t), TickOf(st, t, c)))
  {
    GlobalTopUp(st, t, c);
    forall x
      ensures Own(Picture(st, c.now), x) == Own(TopUp(CapsOf(st), Picture(st, t), TickOf(st, t, c)), x)
    {
      SessionTopUp(st, t, c, x);
    }
  }

  lemma {:induction false} RefillNow(b: Bucket, rate: real, burst: real)
    requires b.tokens <= burst
    ensures Refill(b, b.lastRefill, rate, burst) == b
  {
  }

  /** One call moves the levels as the eager model says, and for the same reason. */
  lemma {:induction false} AcquireDebits(st: Limiter, c: Call, k: Tick)
    requires Valid(st) && SyncedAt(st, c.now) && k.session == c.session && k.skipShared == c.skipGlobal
    ensures SyncedAt(Apply(st, c).0, c.now)
    ensures Agree(Apply(st, c).1, Judge(Picture(st, c.now), k))
    ensures Same(Picture(Apply(st, c).0, c.now), Debit(Picture(st, c.now), k))
  {
    var st' := Apply(st, c).0;
    var p := Picture(st, c.now);
    BucketsSane(st, c.session, c.now);
    assert Own(p, k.session) == SessionBucket(st, c.session, c.now).tokens;
    forall x
      ensures Own(Picture(st', c.now), x) == Own(Debit(p, k), x)
    {
      if x == c.session {
        RefillNow(st'.buckets[x], st.rate, st.burst);
      } else {
        assert (x in st'.buckets <==> x in st.buckets) && (x in st.buckets ==> st'.buckets[x] == st.buckets[x]);
      }
    }
    if st'.global != st.global {
      RefillNow(st'.global.value, st.globalRate, st.globalBurst);
    }
  }

  lemma {:induction false} SameNext(caps: Caps, e: Levels, f: Levels, k: Tick)
    requires Same(e, f)
    ensures Same(TopUp(caps, e, k), TopUp(caps, f, k)) && Same(Debit(e, k), Debit(f, k)) && Judge(e, k) == Judge(f, k)
  {
    assert Own(e, k.session) == Own(f, k.session);
    forall x
      ensures Own(TopUp(caps, e, k), x) == Own(TopUp(caps, f, k), x) && Own(Debit(e, k), x) == Own(Debit(f, k), x)
    {
      assert Own(e, x) == Own(f, x);
    }
  }

  lemma {:induction false} SameRuns(caps: Caps, e: Levels, f: Levels, ticks: seq<Tick>)
    requires Same(e, f)
    ensures Same(End(caps, e, ticks), End(caps, f, ticks)) && Outcomes(caps, e, ticks) == Outcomes(caps, f, ticks)
    decreases |ticks|
  {
    if ticks != [] {
      SameNext(caps, e, f, ticks[0]);
      SameNext(caps, TopUp(caps, e, ticks[0]), TopUp(caps, f, ticks[0]), ticks[0]);
      SameRuns(caps, Next(caps, e, ticks[0]), Next(caps, f, ticks[0]), ticks[1..]);
    }
  }

  ghost function EndTime(t: real, calls: seq<Call>): real {
    if calls == [] then t else calls[|calls| - 1].now
  }

  ghost predicate AllAgree(vs: seq<Verdict>, os: seq<Outcome>) {
    |vs| == |os| && forall i :: 0 <= i < |vs| ==> Agree(vs[i], os[i])
  }

  lemma {:induction false} StepRefines(st: Limiter, t: real, c: Call)
    requires Valid(st) && SyncedAt(st, t) && t <= c.now
    ensures var k := TickOf(st, t, c); var caps := CapsOf(st);
            && SyncedAt(Apply(st, c).0, c.now)
            && Agree(Apply(st, c).1, Judge(TopUp(caps, Picture(st, t), k), k))
            && Same(Picture(Apply(st, c).0, c.now), Next(caps, Picture(st, t), k))
  {
    var k := TickOf(st, t, c);
    PictureTopUp(st, t, c);
    AcquireDebits(st, c, k);
    SameNext(CapsOf(st), Picture(st, c.now), TopUp(CapsOf(st), Picture(st, t), k), k);
  }

  lemma {:induction false} ConfigKept(st: Limiter, c: Call)
    requires Valid(st)
    ensures var st' := Apply(st, c).0;
            st'.rate == st.rate && st'.globalRate == st.globalRate && CapsOf(st') == CapsOf(st)
  {
  }

  lemma {:induction false} TicksKept(st: Limiter, st': Limiter, t: real, calls: seq<Call>)
    requires st'.rate == st.rate && st'.globalRate == st.globalRate
    ensures TicksOf(st', t, calls) == TicksOf(st, t, calls)
    decreases |calls|
  {
    if calls != [] {
      TicksKept(st, st', calls[0].now, calls[1..]);
      assert TickOf(st', t, calls[0]) == TickOf(st, t, calls[0]);
    }
  }

  /** Lazy refilling is invisible: on every run with a forward clock the limiter reaches the same verdicts and
      the same levels as the eager buckets. */
  lemma {:induction false} LazyRefinesEager(st: Limiter, t: real, calls: seq<Call>)
    requires Valid(st) && SyncedAt(st, t) && Ordered(t, calls)
    ensures var caps, ticks, end := CapsOf(st), TicksOf(st, t, calls), EndTime(t, calls);
            && AllAgree(Verdicts(st, calls), Outcomes(caps, Picture(st, t), ticks))
            && SyncedAt(After(st, calls), end) && CapsOf(After(st, calls)) == caps
            && Same(Picture(After(st, calls), end), End(caps, Picture(st, t), ticks))
    decreases |calls|
  {
    if calls != [] {
      var c, rest := calls[0], calls[1..];
      var st' := Apply(st, c).0;
      var k := TickOf(st, t, c);
      StepRefines(st, t, c);
      ConfigKept(st, c);
      TicksKept(st, st', c.now, rest);
      LazyRefinesEager(st', c.now, rest);
      SameRuns(CapsOf(st), Picture(st', c.now), Next(CapsOf(st), Picture(st, t), k), TicksOf(st, c.now, rest));
      assert EndTime(c.now, rest) == EndTime(t, calls);
    }
  }

  lemma {:induction false} TicksForward(st: Limiter, t: real, calls: seq<Call>)
    requires Valid(st) && Ordered(t, calls)
    ensures Forward(TicksOf(st, t, calls))
    decreases |calls|
  {
    if calls != [] {
      MulNonNeg(calls[0].now - t, st.rate);
      MulNonNeg(calls[0].now - t, st.globalRate);
      TicksForward(st, calls[0].now, calls[1..]);
    }
  }

  /** What the clock mints telescopes to rate times elapsed time. */
  lemma {:induction false} MintedTelescopes(st: Limiter, t: real, calls: seq<Call>)
    ensures Minted(TicksOf(st, t, calls)) == (EndTime(t, calls) - t) * st.rate
    ensures SharedMinted(TicksOf(st, t, calls)) == (EndTime(t, calls) - t) * st.globalRate
    decreases |calls|
  {
    if calls != [] {
      var c, rest := calls[0], calls[1..];
      MintedTelescopes(st, c.now, rest);
      var end := EndTime(t, calls);
      assert EndTime(c.now, rest) == end && (c.now - t) + (end - c.now) == end - t;
      Distribute(c.now - t, end - c.now, st.rate);
      Distribute(c.now - t, end - c.now, st.globalRate);
      assert TicksOf(st, t, calls)[1..] == TicksOf(st, c.now, rest);
    }
  }

  lemma {:induction false} PictureInRange(st: Limiter, t: real)
    requires Valid(st)
    ensures InRange(CapsOf(st), Picture(st, t))
  {
    BucketsSane(st, 0, t);
    forall x
      ensures 0.0 <= Own(Picture(st, t), x) <= st.burst
    {
      BucketsSane(st, x, t);
    }
  }

  // ----- how much gets through -----

  /** Calls of `s` that were admitted. */
  ghost function AdmittedFor(s: SessionId, calls: seq<Call>, vs: seq<Verdict>): nat
    requires |calls| == |vs|
    decreases |calls|
  {
    if calls == [] then 0
    else (if calls[0].session == s && vs[0].Admitted? then 1 else 0) + AdmittedFor(s, calls[1..], vs[1..])
  }

  /** Admitted calls that drew on the shared bucket. */
  ghost function AdmittedGlobally(calls: seq<Call>, vs: seq<Verdict>): nat
    requires |calls| == |vs|
    decreases |calls|
  {
    if calls == [] then 0
    else (if !calls[0].skipGlobal && vs[0].Admitted? then 1 else 0) + AdmittedGlobally(calls[1..], vs[1..])
  }

  lemma {:induction false} CountsAgree(st: Limiter, t: real, calls: seq<Call>, vs: seq<Verdict>, os: seq<Outcome>,
          s: SessionId)
    requires |calls| == |vs| && AllAgree(vs, os)
    ensures AdmittedFor(s, calls, vs) == Passed(s, TicksOf(st, t, calls), os)
    ensures AdmittedGlobally(calls, vs) == PassedShared(TicksOf(st, t, calls), os)
    decreases |calls|
  {
    if calls != [] {
      assert Agree(vs[0], os[0]);
      CountsAgree(st, calls[0].now, calls[1..], vs[1..], os[1..], s);
      assert TicksOf(st, t, calls)[1..] == TicksOf(st, calls[0].now, calls[1..]);
    }
  }

  lemma {:induction false} MintedOver(st: Limiter, t: real, calls: seq<Call>, span: real, rate: real, sharedRate: real)
    requires span == EndTime(t, calls) - t && rate == st.rate && sharedRate == st.globalRate
    ensures Minted(TicksOf(st, t, calls)) == span * rate
    ensures SharedMinted(TicksOf(st, t, calls)) == span * sharedRate
  {
    MintedTelescopes(st, t, calls);
  }

  lemma {:induction false} VerdictsStep(st: Limiter, c: Call, rest: seq<Call>)
    requires Valid(st)
    ensures Verdicts(st, [c] + rest) == [Apply(st, c).1] + Verdicts(Apply(st, c).0, rest)
  {
    assert ([c] + rest)[1..] == rest;
  }

  // ----- waiting out a refusal -----

  /** The advertised delay is long enough at every positive configured rate. */
  lemma {:induction false} RetryIsEnough(tokens: real, ratePerMin: nat, waited: real)
    requires 0.0 <= tokens < 1.0 && ratePerMin >= 1
    requires waited >= RetryAfterMs(tokens, ratePerMin as real / 60.0) as real / 1000.0
    ensures tokens + waited * (ratePerMin as real / 60.0) >= 1.0
  {
    var rate := ratePerMin as real / 60.0;
    var need := (1.0 - tokens) / rate;
    QuotientBound(1.0 - tokens, rate);
    assert Ceil(need * 1000.0) <= 60000;
    assert waited >= need;
    MulNonNeg(waited - need, rate);
    Distribute(waited - need, need, rate);
  }

  lemma {:induction false} CancelPositive(x: real, r: real)
    requires r > 0.0 && x * r >= 0.0
    ensures x >= 0.0
  {
  }

  lemma {:induction false} QuotientBound(a: real, rate: real)
    requires 0.0 <= a <= 1.0 && rate * 60.0 >= 1.0
    ensures (a / rate) * rate == a && a / rate <= 60.0
  {
    var q := a / rate;
    assert q * rate == a;
    assert (60.0 - q) * rate == 60.0 * rate - q * rate;
    CancelPositive(60.0 - q, rate);
  }

  lemma {:induction false} OrderedPrefix(t: real, calls: seq<Call>, j: nat)
    requires Ordered(t, calls) && j <= |calls|
    ensures Ordered(t, calls[..j])
    decreases |calls|
  {
    if j > 0 {
      OrderedPrefix(calls[0].now, calls[1..], j - 1);
      assert calls[..j][1..] == calls[1..][..j - 1];
    }
  }

  /** A run and one more call, as ticks. */
  lemma {:induction false} RunAsTicks(st: Limiter, t: real, calls: seq<Call>, c: Call)
    returns (front: seq<Tick>, k: Tick)
    requires Valid(st) && SyncedAt(st, t) && Ordered(t, calls + [c])
    ensures |front| == |calls| && TicksOf(st, t, calls + [c]) == front + [k]
    ensures k.session == c.session && k.skipShared == c.skipGlobal
    ensures Forward(front + [k]) && InRange(CapsOf(st), Picture(st, t))
    ensures var os, vs := Outcomes(CapsOf(st), Picture(st, t), front), Verdicts(st, calls);
            && Passed(c.session, front, os) == AdmittedFor(c.session, calls, vs)
            && PassedShared(front, os) == AdmittedGlobally(calls, vs)
    ensures Agree(Verdicts(st, calls + [c])[|calls|], Outcomes(CapsOf(st), Picture(st, t), front + [k])[|calls|])
  {
    front, k := TicksOf(st, t, calls), TickOf(st, EndTime(t, calls), c);
    TicksPrefix(st, t, calls, c);
    TicksForward(st, t, calls + [c]);
    PictureInRange(st, t);
    LastAgrees(st, t, calls + [c]);
    assert (calls + [c])[..|calls|] == calls;
    OrderedPrefix(t, calls + [c], |calls|);
    LazyRefinesEager(st, t, calls);
    CountsAgree(st, t, calls, Verdicts(st, calls), Outcomes(CapsOf(st), Picture(st, t), front), c.session);
  }

  lemma {:induction false} LastAgrees(st: Limiter, t: real, calls: seq<Call>)
    requires Valid(st) && SyncedAt(st, t) && Ordered(t, calls) && calls != []
    ensures Agree(Verdicts(st, calls)[|calls| - 1],
                  Outcomes(CapsOf(st), Picture(st, t), TicksOf(st, t, calls))[|calls| - 1])
  {
    LazyRefinesEager(st, t, calls);
  }

  /** After a stretch without an admission, what decides the next call of `c.session` is what it held plus what it
      earned. */
  lemma {:induction false} RetryVerdict(st: Limiter, t: real, calls: seq<Call>, c: Call)
    requires Valid(st) && SyncedAt(st, t) && Ordered(t, calls + [c])
    requires AdmittedFor(c.session, calls, Verdicts(st, calls)) == 0
    ensures Verdicts(st, calls + [c])[|calls|].SessionRefused?
            <==> Min(Own(Picture(st, t), c.session) + Minted(TicksOf(st, t, calls + [c])), st.burst) < 1.0
  {
    var front, k := RunAsTicks(st, t, calls, c);
    IdleThenJudge(CapsOf(st), Picture(st, t), front, k);
  }

  lemma {:induction false} SharedRetryVerdict(st: Limiter, t: real, calls: seq<Call>, c: Call)
    requires Valid(st) && SyncedAt(st, t) && Ordered(t, calls + [c]) && !c.skipGlobal
    requires AdmittedGlobally(calls, Verdicts(st, calls)) == 0
    ensures var v := Verdicts(st, calls + [c])[|calls|];
            v.GlobalRefused?
            <==> !v.SessionRefused?
                 && Min(Picture(st, t).shared + SharedMinted(TicksOf(st, t, calls + [c])), st.globalBurst) < 1.0
  {
    var front, k := RunAsTicks(st, t, calls, c);
    SharedIdleThenJudge(CapsOf(st), Picture(st, t), front, k);
  }

  lemma {:induction false} TicksPrefix(st: Limiter, t: real, calls: seq<Call>, c: Call)
    ensures TicksOf(st, t, calls + [c]) == TicksOf(st, t, calls) + [TickOf(st, EndTime(t, calls), c)]
    decreases |calls|
  {
    if calls == [] {
      assert calls + [c] == [c];
    } else {
      assert (calls + [c])[1..] == calls[1..] + [c];
      TicksPrefix(st, calls[0].now, calls[1..], c);
      assert EndTime(calls[0].now, calls[1..]) == EndTime(t, calls);
    }
  }

  lemma {:induction false} RetryArithmetic(tokens: real, rate: real, ratePerMin: nat, waited: real, burst: real)
    requires rate == ratePerMin as real / 60.0 && 0.0 <= tokens < 1.0
    requires waited >= RetryAfterMs(tokens, rate) as real / 1000.0
    ensures !(Min(tokens + waited * rate, burst) < 1.0) <==> ratePerMin >= 1 && burst >= 1.0
  {
    if ratePerMin >= 1 {
      RetryIsEnough(tokens, ratePerMin, waited);
    } else {
      assert rate == 0.0 && waited * rate == 0.0;
    }
  }

  lemma {:induction false} EarnedIs(st: Limiter, t: real, calls: seq<Call>, waited: real, rate: real)
    returns (earned: real)
    requires waited == EndTime(t, calls) - t && rate == st.rate
    ensures earned == Minted(TicksOf(st, t, calls)) && earned == waited * rate
  {
    MintedOver(st, t, calls, waited, rate, st.globalRate);
    earned := Minted(TicksOf(st, t, calls));
  }

  lemma {:induction false} RetryVerdictAt(st: Limiter, t: real, calls: seq<Call>, c: Call, held: real, earned: real)
    requires Valid(st) && SyncedAt(st, t) && Ordered(t, calls + [c])
    requires AdmittedFor(c.session, calls, Verdicts(st, calls)) == 0
    requires c.session in st.buckets && st.buckets[c.session] == Bucket(held, t)
    requires earned == Minted(TicksOf(st, t, calls + [c]))
    ensures Verdicts(st, calls + [c])[|calls|].SessionRefused? <==> Min(held + earned, st.burst) < 1.0
  {
    RefillNow(st.buckets[c.session], st.rate, st.burst);
    RetryVerdict(st, t, calls, c);
  }

  lemma {:induction false} RetryFacts(st: Limiter, t: real, calls: seq<Call>, c: Call, held: real, waited: real,
          rate: real)
    returns (earned: real)
    requires Valid(st) && SyncedAt(st, t) && Ordered(t, calls + [c])
    requires AdmittedFor(c.session, calls, Verdicts(st, calls)) == 0
    requires c.session in st.buckets && st.buckets[c.session] == Bucket(held, t)
    requires waited == c.now - t && rate == st.rate
    ensures earned == waited * rate
    ensures Verdicts(st, calls + [c])[|calls|].SessionRefused? <==> Min(held + earned, st.burst) < 1.0
  {
    earned := EarnedIs(st, t, calls + [c], waited, rate);
    RetryVerdictAt(st, t, calls, c, held, earned);
  }

  lemma {:induction false} EmptyBucketRetry(st: Limiter, ratePerMin: nat, t: real, calls: seq<Call>, c: Call,
                                            held: real, waited: real, rate: real)
    requires Valid(st) && SyncedAt(st, t) && Ordered(t, calls + [c])
    requires AdmittedFor(c.session, calls, Verdicts(st, calls)) == 0
    requires c.session in st.buckets && st.buckets[c.session] == Bucket(held, t) && 0.0 <= held < 1.0
    requires waited == c.now - t && rate == st.rate && rate == ratePerMin as real / 60.0
    requires waited >= RetryAfterMs(held, rate) as real / 1000.0
    ensures !Verdicts(st, calls + [c])[|calls|].SessionRefused? <==> ratePerMin >= 1 && st.burst >= 1.0
  {
    var earned := RetryFacts(st, t, calls, c, held, waited, rate);
    RetryArithmetic(held, rate, ratePerMin, waited, st.burst);
  }

  lemma {:induction false} RefusalLeaves(st: Limiter, c: Call) returns (held: real)
    requires Valid(st) && SyncedAt(st, c.now) && Apply(st, c).1.SessionRefused?
    ensures var st' := Apply(st, c).0;
            && SyncedAt(st', c.now) && st'.rate == st.rate && st'.burst == st.burst
            && c.session in st'.buckets && st'.buckets[c.session] == Bucket(held, c.now)
            && 0.0 <= held < 1.0 && Apply(st, c).1.ms == RetryAfterMs(held, st.rate)
  {
    BucketsSane(st, c.session, c.now);
    held := SessionBucket(st, c.session, c.now).tokens;
  }

  /** A session refused by its own bucket that waits the advertised time, without another send of its own being
      admitted meanwhile, is not refused by that bucket again: exactly when the limiter has a positive rate and room
      for a token. */
  lemma {:induction false} RetryAfterHonoured(st: Limiter, ratePerMin: nat, c: Call, calls: seq<Call>, retry: Call)
    requires Valid(st) && SyncedAt(st, c.now) && st.rate == ratePerMin as real / 60.0
    requires Apply(st, c).1.SessionRefused?
    requires retry.session == c.session && Ordered(c.now, calls + [retry])
    requires AdmittedFor(c.session, calls, Verdicts(Apply(st, c).0, calls)) == 0
    requires retry.now - c.now >= Apply(st, c).1.ms as real / 1000.0
    ensures !Verdicts(Apply(st, c).0, calls + [retry])[|calls|].SessionRefused? <==> ratePerMin >= 1 && st.burst >= 1.0
  {
    var held := RefusalLeaves(st, c);
    EmptyBucketRetry(Apply(st, c).0, ratePerMin, c.now, calls, retry, held, retry.now - c.now, st.rate);
  }

  lemma {:induction false} SharedEarnedIs(st: Limiter, t: real, calls: seq<Call>, waited: real, rate: real)
    returns (earned: real)
    requires waited == EndTime(t, calls) - t && rate == st.globalRate
    ensures earned == SharedMinted(TicksOf(st, t, calls)) && earned == waited * rate
  {
    MintedOver(st, t, calls, waited, st.rate, rate);
    earned := SharedMinted(TicksOf(st, t, calls));
  }

  lemma {:induction false} SharedRetryAt(st: Limiter, t: real, calls: seq<Call>, c: Call, held: real, earned: real)
    requires Valid(st) && SyncedAt(st, t) && Ordered(t, calls + [c]) && !c.skipGlobal
    requires AdmittedGlobally(calls, Verdicts(st, calls)) == 0
    requires st.global == Some(Bucket(held, t)) && earned == SharedMinted(TicksOf(st, t, calls + [c]))
    ensures var v := Verdicts(st, calls + [c])[|calls|];
            v.GlobalRefused? <==> !v.SessionRefused? && Min(held + earned, st.globalBurst) < 1.0
  {
    RefillNow(st.global.value, st.globalRate, st.globalBurst);
    SharedRetryVerdict(st, t, calls, c);
  }

  lemma {:induction false} SharedRefusalLeaves(st: Limiter, c: Call) returns (held: real, st': Limiter)
    requires Valid(st) && SyncedAt(st, c.now) && Apply(st, c).1.GlobalRefused?
    ensures st' == Apply(st, c).0 && SyncedAt(st', c.now)
    ensures st'.globalRate == st.globalRate && st'.globalBurst == st.globalBurst
    ensures st'.global == Some(Bucket(held, c.now)) && 0.0 <= held < 1.0
    ensures Apply(st, c).1.ms >= RetryAfterMs(held, st.globalRate) && Apply(st, c).1.ms >= GLOBAL_RETRY_AFTER_FLOOR_MS
  {
    BucketsSane(st, c.session, c.now);
    held, st' := GlobalBucket(st, c.now).tokens, Apply(st, c).0;
  }

  lemma {:induction false} EmptySharedRetry(st: Limiter, ratePerMin: nat, t: real, calls: seq<Call>, c: Call,
                                            held: real, waited: real, rate: real)
    requires Valid(st) && SyncedAt(st, t) && Ordered(t, calls + [c]) && !c.skipGlobal
    requires AdmittedGlobally(calls, Verdicts(st, calls)) == 0
    requires st.global == Some(Bucket(held, t)) && 0.0 <= held < 1.0
    requires waited == c.now - t && rate == st.globalRate && rate == ratePerMin as real / 60.0
    requires waited >= RetryAfterMs(held, rate) as real / 1000.0
    ensures var v := Verdicts(st, calls + [c])[|calls|];
            v.GlobalRefused? <==> !v.SessionRefused? && !(ratePerMin >= 1 && st.globalBurst >= 1.0)
  {
    var earned := SharedEarnedIs(st, t, calls + [c], waited, rate);
    SharedRetryAt(st, t, calls, c, held, earned);
    RetryArithmetic(held, rate, ratePerMin, waited, st.globalBurst);
  }

  /** The same for the shared bucket, whose delay has a floor: whoever waits it out, while nobody spends a shared token,
      is refused by the shared bucket again only when its rate or burst allows no token at all. */
  lemma {:induction false} SharedRetryAfterHonoured(st: Limiter, ratePerMin: nat, c: Call, calls: seq<Call>,
                                                    retry: Call)
    requires Valid(st) && SyncedAt(st, c.now) && st.globalRate == ratePerMin as real / 60.0
    requires Apply(st, c).1.GlobalRefused?
    requires !retry.skipGlobal && Ordered(c.now, calls + [retry])
    requires AdmittedGlobally(calls, Verdicts(Apply(st, c).0, calls)) == 0
    requires retry.now - c.now >= Apply(st, c).1.ms as real / 1000.0
    ensures Apply(st, c).1.ms >= 250
    ensures var v := Verdicts(Apply(st, c).0, calls + [retry])[|calls|];
            v.GlobalRefused? <==> !v.SessionRefused? && !(ratePerMin >= 1 && st.globalBurst >= 1.0)
  {
    var held, st' := SharedRefusalLeaves(st, c);
    EmptySharedRetry(st', ratePerMin, c.now, calls, retry, held, retry.now - c.now, st.globalRate);
  }

  // ----- the sizing arithmetic of the shared bucket -----

  lemma {:induction false} ListSet(s: set<SessionId>) returns (r: seq<SessionId>)
    ensures NoDup(r) && |r| == |s| && forall x :: x in s <==> x in r
    decreases |s|
  {
    if s == {} {
      r := [];
    } else {
      var x := Pick(s);
      var rest := ListSet(s - {x});
      r := [x] + rest;
    }
  }

  lemma {:induction false} TimesBound(n: nat, cap: nat, m: real)
    requires n <= cap && m >= 0.0
    ensures Times(n, m) <= cap as real * m
  {
    if n == 0 {
      MulNonNeg(cap as real, m);
    } else {
      TimesBound(n - 1, cap - 1, m);
      Distribute(1.0, (cap - 1) as real, m);
    }
  }

  lemma {:induction false} FreshDeficit(st: Limiter, pool: seq<SessionId>, t: real)
    requires st.buckets == map[] && Valid(st)
    ensures TotalDeficit(st.burst, Picture(st, t), pool) == 0.0
  {
    if pool != [] {
      FreshDeficit(st, pool[1..], t);
      assert Own(Picture(st, t), pool[0]) == st.burst;
    }
  }

  /** Every tick of a default limiter mints sixty-four times as much for the bus as for a session. */
  lemma {:induction false} SharedKeepsUp(st: Limiter, t: real, calls: seq<Call>, n: nat)
    requires Valid(st) && Ordered(t, calls) && st.globalRate == 64.0 * st.rate && n <= 64
    ensures forall k :: k in TicksOf(st, t, calls) ==>
              k.sharedMinted >= Times(n, k.minted) && exists c :: c in calls && c.session == k.session
    decreases |calls|
  {
    if calls != [] {
      var c := calls[0];
      var dt := c.now - t;
      MulNonNeg(dt, st.rate);
      TimesBound(n, 64, dt * st.rate);
      assert dt * (64.0 * st.rate) == 64.0 * (dt * st.rate);
      SharedKeepsUp(st, c.now, calls[1..], n);
      forall k | k in TicksOf(st, t, calls)
        ensures k.sharedMinted >= Times(n, k.minted) && exists c :: c in calls && c.session == k.session
      {
        if k == TickOf(st, t, c) {
          assert k.sharedMinted == dt * (64.0 * st.rate) && k.minted == dt * st.rate;
          assert c in calls;
        } else {
          var c' :| c' in calls[1..] && c'.session == k.session;
          assert c' in calls;
        }
      }
    }
  }

  /** With the default numbers, no run that involves at most `2 * MAX_TEAM_SIZE` senders is ever refused by the
      shared bucket: every refusal is the sender's own. */
  lemma {:induction false} GlobalCapSparesTwoTeams(t: real, calls: seq<Call>)
    requires Ordered(t, calls)
    requires |set c | c in calls :: c.session| <= 2 * MAX_TEAM_SIZE
    ensures Valid(Default())
    ensures forall v :: v in Verdicts(Default(), calls) ==> !v.GlobalRefused?
  {
    var st := Default();
    var caps, e, ticks := CapsOf(st), Picture(st, t), TicksOf(st, t, calls);
    var senders := set c | c in calls :: c.session;
    var pool := ListSet(senders);
    assert st.globalRate == 64.0 * st.rate && st.globalBurst == 64.0 * st.burst;
    SharedKeepsUp(st, t, calls, |pool|);
    forall k | k in ticks
      ensures k.session in pool
    {
      var c :| c in calls && c.session == k.session;
      assert c.session in senders;
    }
    TimesBound(|pool|, 64, caps.burst);
    FreshDeficit(st, pool, t);
    PictureInRange(st, t);
    TicksForward(st, t, calls);
    PoolNeverStarved(caps, e, ticks, pool);
    LazyRefinesEager(st, t, calls);
    var vs, os := Verdicts(st, calls), Outcomes(caps, e, ticks);
    forall v | v in vs
      ensures !v.GlobalRefused?
    {
      var i :| 0 <= i < |vs| && vs[i] == v;
      assert Agree(vs[i], os[i]) && os[i] in os;
    }
  }

  ghost function StampedeCalls(n: nat): seq<Call> {
    seq(n, i => Call(i / 10, 0.0, false))
  }

  lemma {:induction false} StampedeTicks(st: Limiter, calls: seq<Call>)
    requires forall c :: c in calls ==> c.now == 0.0 && !c.skipGlobal
    ensures Ordered(0.0, calls)
    ensures forall i :: 0 <= i < |calls| ==> TicksOf(st, 0.0, calls)[i] == Tick(calls[i].session, 0.0, 0.0, false)
    decreases |calls|
  {
    if calls != [] {
      assert calls[0] in calls;
      StampedeTicks(st, calls[1..]);
      assert TickOf(st, 0.0, calls[0]) == Tick(calls[0].session, 0.0, 0.0, false);
    }
  }

  lemma {:induction false} FreshPicture(st: Limiter, t: real)
    requires st.buckets == map[] && st.global == None
    ensures Picture(st, t).shared == st.globalBurst && forall x :: Own(Picture(st, t), x) == st.burst
  {
    assert Elapsed(t, t) * st.rate == 0.0 && Elapsed(t, t) * st.globalRate == 0.0;
  }

  lemma {:induction false} StampedeVerdict(st: Limiter)
    requires Valid(st) && st.buckets == map[] && st.global == None && CapsOf(st) == Caps(10.0, 640.0)
    ensures Ordered(0.0, StampedeCalls(641)) && Verdicts(st, StampedeCalls(641))[640].GlobalRefused?
  {
    var calls := StampedeCalls(641);
    StampedeTicks(st, calls);
    var ticks := TicksOf(st, 0.0, calls);
    assert ticks == Stampede(641);
    FreshPicture(st, 0.0);
    StampedeRefused(CapsOf(st), Picture(st, 0.0));
    LazyRefinesEager(st, 0.0, calls);
    assert Agree(Verdicts(st, calls)[640], Outcomes(CapsOf(st), Picture(st, 0.0), ticks)[640]);
  }

  /** Sixty-four is exact: the 641st call of a stampede, from a sixty-fifth sender whose own bucket is untouched, is
      refused by the shared bucket. */
  lemma {:induction false} SixtyFifthSenderCanBeRefused()
    ensures Valid(Default()) && Ordered(0.0, StampedeCalls(641))
    ensures Verdicts(Default(), StampedeCalls(641))[640].GlobalRefused?
    ensures StampedeCalls(641)[640].session == 64
  {
    StampedeVerdict(Default());
  }
}
