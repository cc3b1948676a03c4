/**
 How much a limiter lets through in a window, whatever the clock does. A reading is taken before the lock is, so the
 readings that reach a bucket need not be in order; what counts is how far they move forward, step by step.
*/
module WindowLaws {
  import opened Types
  import opened RateLimits
  import opened RateLimitLaws
  import E = EagerBuckets

  /** How far a clock moves forward over some readings, however often it falls back in between. */
  ghost function ForwardMotion(readings: seq<real>): real {
    if |readings| < 2 then 0.0 else Elapsed(readings[1], readings[0]) + ForwardMotion(readings[1..])
  }

  ghost function OwnReadings(s: SessionId, calls: seq<Call>): seq<real> {
    if calls == [] then [] else (if calls[0].session == s then [calls[0].now] else []) + OwnReadings(s, calls[1..])
  }

  ghost predicate Reaches(c: Call, v: Verdict) {
    !c.skipGlobal && !v.SessionRefused?
  }

  /** The readings of the calls that got as far as the shared bucket. */
  ghost function SharedReadings(calls: seq<Call>, vs: seq<Verdict>): seq<real>
    requires |calls| == |vs|
  {
    if calls == [] then []
    else (if Reaches(calls[0], vs[0]) then [calls[0].now] else [])
         + SharedReadings(calls[1..], vs[1..])
  }

  /** What a rate mints over some seconds. */
  ghost function Yield(seconds: real, rate: real): real {
    seconds * rate
  }

  // ----- the bound -----

  /** What a bucket earns over some readings. */
  ghost function Earned(readings: seq<real>, rate: real): real {
    if |readings| < 2 then 0.0 else Elapsed(readings[1], readings[0]) * rate + Earned(readings[1..], rate)
  }

  lemma {:induction false} EarnedIsMotion(readings: seq<real>, rate: real) returns (motion: real, earned: real)
    ensures motion == ForwardMotion(readings) && earned == Earned(readings, rate) && earned == Yield(motion, rate)
  {
    if |readings| < 2 {
      motion, earned := 0.0, 0.0;
    } else {
      var motion', earned' := EarnedIsMotion(readings[1..], rate);
      var step := Elapsed(readings[1], readings[0]);
      Distribute(step, motion', rate);
      motion, earned := step + motion', step * rate + earned';
    }
  }

  lemma EarnedStep(mark: real, now: real, rest: seq<real>, rate: real) returns (minted: real)
    ensures minted == Elapsed(now, mark) * rate
    ensures Earned([mark] + ([now] + rest), rate) == minted + Earned([now] + rest, rate)
  {
    assert ([mark] + ([now] + rest))[1..] == [now] + rest;
    minted := Elapsed(now, mark) * rate;
  }

  /** One call of a session that has a bucket: what it takes and leaves is what was there and what was minted. `rest`
      are the readings still to come. */
  lemma {:induction false} OwnStep(st: Limiter, c: Call, rest: seq<real>, rate: real)
    returns (st': Limiter, minted: real)
    requires Valid(st) && c.session in st.buckets && rate == st.rate
    ensures st' == Apply(st, c).0 && st'.rate == rate
    ensures c.session in st'.buckets && st'.buckets[c.session].lastRefill == c.now
    ensures Earned([st.buckets[c.session].lastRefill] + ([c.now] + rest), rate) == minted + Earned([c.now] + rest, rate)
    ensures st'.buckets[c.session].tokens + (if Apply(st, c).1.Admitted? then 1.0 else 0.0)
            <= st.buckets[c.session].tokens + minted
  {
    st' := Apply(st, c).0;
    minted := EarnedStep(st.buckets[c.session].lastRefill, c.now, rest, rate);
  }

  /** A call of another session leaves the bucket alone. */
  lemma {:induction false} OwnOther(st: Limiter, c: Call, s: SessionId) returns (st': Limiter)
    requires Valid(st) && c.session != s && s in st.buckets
    ensures st' == Apply(st, c).0 && s in st'.buckets && st'.buckets[s] == st.buckets[s] && st'.rate == st.rate
  {
    st' := Apply(st, c).0;
  }

  lemma {:induction false} OwnSpending(st: Limiter, calls: seq<Call>, s: SessionId, rate: real) returns (earned: real)
    requires Valid(st) && s in st.buckets && rate == st.rate
    ensures earned == Earned([st.buckets[s].lastRefill] + OwnReadings(s, calls), rate)
    ensures AdmittedFor(s, calls, Verdicts(st, calls)) as real <= st.buckets[s].tokens + earned
    decreases |calls|
  {
    if calls == [] {
      assert [st.buckets[s].lastRefill] + OwnReadings(s, calls) == [st.buckets[s].lastRefill];
      earned := 0.0;
    } else {
      var c := calls[0];
      if c.session == s {
        var st', minted := OwnStep(st, c, OwnReadings(s, calls[1..]), rate);
        var later := OwnSpending(st', calls[1..], s, rate);
        earned := minted + later;
      } else {
        var st' := OwnOther(st, c, s);
        assert OwnReadings(s, calls) == OwnReadings(s, calls[1..]);
        earned := OwnSpending(st', calls[1..], s, rate);
      }
    }
  }

  /** From any state on, a session gets at most a burst plus what its own readings earn. */
  lemma {:induction false} OwnBound(st: Limiter, calls: seq<Call>, s: SessionId, rate: real) returns (earned: real)
    requires Valid(st) && rate == st.rate
    ensures earned == Earned(OwnReadings(s, calls), rate)
    ensures AdmittedFor(s, calls, Verdicts(st, calls)) as real <= st.burst + earned
    decreases |calls|
  {
    if calls == [] {
      earned := 0.0;
    } else if calls[0].session == s {
      BucketsSane(st, s, calls[0].now);
      earned := OwnSpending(Apply(st, calls[0]).0, calls[1..], s, rate);
    } else {
      assert OwnReadings(s, calls) == OwnReadings(s, calls[1..]);
      earned := OwnBound(Apply(st, calls[0]).0, calls[1..], s, rate);
    }
  }

  lemma {:induction false} SharedStep(st: Limiter, c: Call, rest: seq<real>, rate: real)
    returns (st': Limiter, v: Verdict, minted: real)
    requires Valid(st) && st.global.Some? && rate == st.globalRate
    ensures (st', v) == Apply(st, c) && st'.global.Some? && st'.globalRate == rate
    ensures var g, g' := st.global.value, st'.global.value;
            if Reaches(c, v) then
              && g'.lastRefill == c.now
              && Earned([g.lastRefill] + ([c.now] + rest), rate) == minted + Earned([c.now] + rest, rate)
              && g'.tokens + (if v.Admitted? then 1.0 else 0.0) <= g.tokens + minted
            else g' == g && (c.skipGlobal || !v.Admitted?)
  {
    st', v := Apply(st, c).0, Apply(st, c).1;
    minted := EarnedStep(st.global.value.lastRefill, c.now, rest, rate);
  }

  lemma {:induction false} SharedSpending(st: Limiter, calls: seq<Call>, rate: real) returns (earned: real)
    requires Valid(st) && st.global.Some? && rate == st.globalRate
    ensures var r := SharedReadings(calls, Verdicts(st, calls));
            earned == Earned([st.global.value.lastRefill] + r, rate)
    ensures AdmittedGlobally(calls, Verdicts(st, calls)) as real <= st.global.value.tokens + earned
    decreases |calls|
  {
    if calls == [] {
      assert [st.global.value.lastRefill] + SharedReadings(calls, []) == [st.global.value.lastRefill];
      earned := 0.0;
    } else {
      var r := SharedReadings(calls[1..], Verdicts(Apply(st, calls[0]).0, calls[1..]));
      var st', v, minted := SharedStep(st, calls[0], r, rate);
      var later := SharedSpending(st', calls[1..], rate);
      assert [] + r == r;
      earned := if Reaches(calls[0], v) then minted + later else later;
    }
  }

  lemma {:induction false} SharedBound(st: Limiter, calls: seq<Call>, rate: real) returns (earned: real)
    requires Valid(st) && rate == st.globalRate
    ensures earned == Earned(SharedReadings(calls, Verdicts(st, calls)), rate)
    ensures AdmittedGlobally(calls, Verdicts(st, calls)) as real <= st.globalBurst + earned
    decreases |calls|
  {
    if calls == [] {
      earned := 0.0;
    } else {
      var c := calls[0];
      var st' := Apply(st, c).0;
      if Reaches(c, Apply(st, c).1) {
        BucketsSane(st, c.session, c.now);
        earned := SharedSpending(st', calls[1..], rate);
      } else {
        earned := SharedBound(st', calls[1..], rate);
        var r := SharedReadings(calls[1..], Verdicts(st', calls[1..]));
        assert [] + r == r;
      }
    }
  }

  /** A window of a run is a run of its own, from the state before it. */
  lemma {:induction false} WindowStart(st: Limiter, calls: seq<Call>, i: nat, j: nat) returns (mid: Limiter)
    requires Valid(st) && i <= j <= |calls|
    ensures Valid(mid) && Verdicts(st, calls)[i..j] == Verdicts(mid, calls[i..j])
    ensures mid.rate == st.rate && mid.globalRate == st.globalRate
    ensures mid.burst == st.burst && mid.globalBurst == st.globalBurst
  {
    mid := After(st, calls[..i]);
    WindowIsRun(st, calls, i, j);
    ConfigKeptOverRun(st, calls[..i]);
  }

  lemma {:induction false} OwnWindow(st: Limiter, calls: seq<Call>, i: nat, j: nat, s: SessionId, rate: real)
    returns (admitted: nat, motion: real, earned: real)
    requires Valid(st) && i <= j <= |calls| && rate == st.rate
    ensures admitted == AdmittedFor(s, calls[i..j], Verdicts(st, calls)[i..j])
    ensures motion == ForwardMotion(OwnReadings(s, calls[i..j]))
    ensures earned == Yield(motion, rate) && admitted as real <= st.burst + earned
  {
    var mid := WindowStart(st, calls, i, j);
    admitted := AdmittedFor(s, calls[i..j], Verdicts(mid, calls[i..j]));
    var had := OwnBound(mid, calls[i..j], s, rate);
    motion, earned := EarnedIsMotion(OwnReadings(s, calls[i..j]), rate);
  }

  lemma {:induction false} SharedWindow(st: Limiter, calls: seq<Call>, i: nat, j: nat, rate: real)
    returns (admitted: nat, motion: real, earned: real)
    requires Valid(st) && i <= j <= |calls| && rate == st.globalRate
    ensures admitted == AdmittedGlobally(calls[i..j], Verdicts(st, calls)[i..j])
    ensures motion == ForwardMotion(SharedReadings(calls[i..j], Verdicts(st, calls)[i..j]))
    ensures earned == Yield(motion, rate) && admitted as real <= st.globalBurst + earned
  {
    var mid := WindowStart(st, calls, i, j);
    var vs := Verdicts(mid, calls[i..j]);
    admitted := AdmittedGlobally(calls[i..j], vs);
    var had := SharedBound(mid, calls[i..j], rate);
    motion, earned := EarnedIsMotion(SharedReadings(calls[i..j], vs), rate);
  }

  lemma {:induction false} OwnAnyClock(st: Limiter, calls: seq<Call>, i: nat, j: nat, s: SessionId, rate: real)
    requires Valid(st) && i <= j <= |calls| && rate == st.rate
    ensures AdmittedFor(s, calls[i..j], Verdicts(st, calls)[i..j]) as real
            <= st.burst + Yield(ForwardMotion(OwnReadings(s, calls[i..j])), rate)
  {
    var _, _, _ := OwnWindow(st, calls, i, j, s, rate);
  }

  lemma {:induction false} SharedAnyClock(st: Limiter, calls: seq<Call>, i: nat, j: nat, rate: real)
    requires Valid(st) && i <= j <= |calls| && rate == st.globalRate
    ensures AdmittedGlobally(calls[i..j], Verdicts(st, calls)[i..j]) as real
            <= st.globalBurst + Yield(ForwardMotion(SharedReadings(calls[i..j], Verdicts(st, calls)[i..j])), rate)
  {
    var _, _, _ := SharedWindow(st, calls, i, j, rate);
  }

  /** Whatever the clock does: in any window of any run a session is admitted at most `burst` times plus `rate` times
      the forward motion of its own readings, and the bus as a whole spends at most `globalBurst` shared tokens plus
      `globalRate` times the forward motion of the readings that reached the shared bucket. */
  lemma {:induction false} AnyClockBound(st: Limiter, calls: seq<Call>, i: nat, j: nat, s: SessionId,
                                         rate: real, sharedRate: real)
    requires Valid(st) && i <= j <= |calls| && rate == st.rate && sharedRate == st.globalRate
    ensures AdmittedFor(s, calls[i..j], Verdicts(st, calls)[i..j]) as real
            <= st.burst + Yield(ForwardMotion(OwnReadings(s, calls[i..j])), rate)
    ensures AdmittedGlobally(calls[i..j], Verdicts(st, calls)[i..j]) as real
            <= st.globalBurst + Yield(ForwardMotion(SharedReadings(calls[i..j], Verdicts(st, calls)[i..j])), sharedRate)
  {
    OwnAnyClock(st, calls, i, j, s, rate);
    SharedAnyClock(st, calls, i, j, sharedRate);
  }

  lemma {:induction false} WindowIsRun(st: Limiter, calls: seq<Call>, i: nat, j: nat)
    requires Valid(st) && i <= j <= |calls|
    ensures Verdicts(st, calls)[i..j] == Verdicts(After(st, calls[..i]), calls[i..j])
  {
    var mid, rest := After(st, calls[..i]), calls[i..];
    VerdictsSplitAt(st, calls, i);
    VerdictsFront(mid, rest, j - i);
    assert rest[..j - i] == calls[i..j];
    SliceOfSum(Verdicts(st, calls[..i]), Verdicts(mid, rest), j - i);
  }

  lemma {:induction false} VerdictsFront(st: Limiter, calls: seq<Call>, n: nat)
    requires Valid(st) && n <= |calls|
    ensures Verdicts(st, calls)[..n] == Verdicts(st, calls[..n])
  {
    VerdictsSplitAt(st, calls, n);
  }

  lemma {:induction false} VerdictsSplitAt(st: Limiter, calls: seq<Call>, i: nat)
    requires Valid(st) && i <= |calls|
    ensures Verdicts(st, calls) == Verdicts(st, calls[..i]) + Verdicts(After(st, calls[..i]), calls[i..])
  {
    assert calls == calls[..i] + calls[i..];
    VerdictsSplit(st, calls[..i], calls[i..]);
  }

  lemma SliceOfSum<T>(a: seq<T>, b: seq<T>, n: nat)
    requires n <= |b|
    ensures (a + b)[|a|..|a| + n] == b[..n]
  {
  }

  lemma {:induction false} ConfigKeptOverRun(st: Limiter, calls: seq<Call>)
    requires Valid(st)
    ensures var st' := After(st, calls);
            st'.rate == st.rate && st'.globalRate == st.globalRate && CapsOf(st') == CapsOf(st)
    decreases |calls|
  {
    if calls != [] {
      ConfigKept(st, calls[0]);
      ConfigKeptOverRun(Apply(st, calls[0]).0, calls[1..]);
    }
  }

  // ----- an ordered clock -----

  lemma {:induction false} MotionStep(t: real, now: real, rest: seq<real>, touched: bool)
    requires t <= now
    ensures ForwardMotion([t] + ((if touched then [now] else []) + rest)) <= now - t + ForwardMotion([now] + rest)
  {
    if touched {
      assert ([t] + ([now] + rest))[1..] == [now] + rest;
    } else {
      assert [] + rest == rest && ([t] + rest)[1..] == rest == ([now] + rest)[1..];
    }
  }

  lemma MotionFrom(t: real, rest: seq<real>)
    ensures ForwardMotion(rest) <= ForwardMotion([t] + rest)
  {
    assert ([t] + rest)[1..] == rest;
  }

  lemma {:induction false} OrderedMotion(t: real, calls: seq<Call>, vs: seq<Verdict>, s: SessionId)
    requires Ordered(t, calls) && |calls| == |vs|
    ensures ForwardMotion([t] + OwnReadings(s, calls)) <= EndTime(t, calls) - t
    ensures ForwardMotion([t] + SharedReadings(calls, vs)) <= EndTime(t, calls) - t
    decreases |calls|
  {
    if calls == [] {
      assert [t] + [] == [t];
    } else {
      var c, rest := calls[0], calls[1..];
      OrderedMotion(c.now, rest, vs[1..], s);
      assert EndTime(c.now, rest) == EndTime(t, calls);
      MotionStep(t, c.now, OwnReadings(s, rest), c.session == s);
      MotionStep(t, c.now, SharedReadings(rest, vs[1..]), Reaches(c, vs[0]));
    }
  }

  lemma {:induction false} Scale(x: real, y: real, rate: real, product: real)
    requires x <= y && rate >= 0.0 && product == Yield(x, rate)
    ensures product <= Yield(y, rate)
  {
    MulNonNeg(y - x, rate);
    Distribute(x, y - x, rate);
  }

  lemma {:induction false} OwnOrdered(st: Limiter, calls: seq<Call>, i: nat, j: nat, s: SessionId, span: real,
                                      rate: real)
    requires Valid(st) && i < j <= |calls| && Ordered(calls[i].now, calls[i..j])
    requires span == calls[j - 1].now - calls[i].now && rate == st.rate
    ensures AdmittedFor(s, calls[i..j], Verdicts(st, calls)[i..j]) as real <= st.burst + Yield(span, rate)
  {
    var w, vs, t := calls[i..j], Verdicts(st, calls)[i..j], calls[i].now;
    var _, motion, earned := OwnWindow(st, calls, i, j, s, rate);
    OrderedMotion(t, w, vs, s);
    MotionFrom(t, OwnReadings(s, w));
    Scale(motion, span, rate, earned);
  }

  lemma {:induction false} SharedOrdered(st: Limiter, calls: seq<Call>, i: nat, j: nat, span: real, rate: real)
    requires Valid(st) && i < j <= |calls| && Ordered(calls[i].now, calls[i..j])
    requires span == calls[j - 1].now - calls[i].now && rate == st.globalRate
    ensures AdmittedGlobally(calls[i..j], Verdicts(st, calls)[i..j]) as real <= st.globalBurst + Yield(span, rate)
  {
    var w, vs, t := calls[i..j], Verdicts(st, calls)[i..j], calls[i].now;
    var _, motion, earned := SharedWindow(st, calls, i, j, rate);
    OrderedMotion(t, w, vs, 0);
    MotionFrom(t, SharedReadings(w, vs));
    Scale(motion, span, rate, earned);
  }

  /** In a window whose readings are in order, `span` seconds long, a session is admitted at most `burst + span * rate`
      times, and the bus as a whole spends at most `globalBurst + span * globalRate` shared tokens. */
  lemma {:induction false} WindowBound(st: Limiter, calls: seq<Call>, i: nat, j: nat, s: SessionId, span: real,
                                       rate: real, sharedRate: real)
    requires Valid(st) && i < j <= |calls| && Ordered(calls[i].now, calls[i..j])
    requires span == calls[j - 1].now - calls[i].now && rate == st.rate && sharedRate == st.globalRate
    ensures AdmittedFor(s, calls[i..j], Verdicts(st, calls)[i..j]) as real <= st.burst + Yield(span, rate)
    ensures AdmittedGlobally(calls[i..j], Verdicts(st, calls)[i..j]) as real <= st.globalBurst + Yield(span, sharedRate)
  {
    OwnOrdered(st, calls, i, j, s, span, rate);
    SharedOrdered(st, calls, i, j, span, sharedRate);
  }

  // ----- a clock that swings -----

  /** How many of a row of readings find a token in one bucket. */
  ghost function Draws(b: Bucket, rate: real, burst: real, readings: seq<real>): nat
    decreases |readings|
  {
    if readings == [] then 0
    else
      var r := Refill(b, readings[0], rate, burst);
      if r.tokens < 1.0 then Draws(r, rate, burst, readings[1..]) else 1 + Draws(Spend(r), rate, burst, readings[1..])
  }

  ghost function Swings(a: real, b: real, n: nat): seq<real> {
    if n == 0 then [] else [a, b] + Swings(a, b, n - 1)
  }

  /** The next reading draws a token or not, after the bucket was refilled by what was minted. */
  lemma {:induction false} DrawOne(k: Bucket, rate: real, burst: real, now: real, rest: seq<real>, minted: real)
    returns (drawn: nat, k': Bucket)
    requires Sane(k, burst) && rate >= 0.0 && minted == Elapsed(now, k.lastRefill) * rate
    ensures var level := if k.tokens + minted <= burst then k.tokens + minted else burst;
            drawn == (if level < 1.0 then 0 else 1) && k'.tokens == level - drawn as real
    ensures minted >= 0.0 && Sane(k', burst) && k'.lastRefill == now
    ensures Draws(k, rate, burst, [now] + rest) == drawn + Draws(k', rate, burst, rest)
  {
    MulNonNeg(Elapsed(now, k.lastRefill), rate);
    var r := Refill(k, now, rate, burst);
    drawn, k' := if r.tokens < 1.0 then 0 else 1, if r.tokens < 1.0 then r else Spend(r);
    assert ([now] + rest)[1..] == rest;
  }

  lemma {:induction false} TimesIsProduct(n: nat, x: real) returns (product: real)
    ensures product == E.Times(n, x) && product == n as real * x
  {
    if n == 0 {
      product := 0.0;
    } else {
      var before := TimesIsProduct(n - 1, x);
      Distribute(1.0, (n - 1) as real, x);
      product := x + before;
    }
  }

  /** One swing either finds a token or fills the bucket by `mint`. */
  lemma {:induction false} SwingOnce(k: Bucket, rate: real, burst: real, a: real, b: real, rest: seq<real>, mint: real)
    returns (drawn: nat, k': Bucket)
    requires Sane(k, burst) && rate >= 0.0 && burst >= 1.0 && a < b && mint == (b - a) * rate
    ensures Sane(k', burst) && Draws(k, rate, burst, [a, b] + rest) == drawn + Draws(k', rate, burst, rest)
    ensures drawn <= 2 && (drawn == 0 ==> k.tokens + mint <= k'.tokens < 1.0)
  {
    assert [a, b] + rest == [a] + ([b] + rest);
    var low, k1 := DrawOne(k, rate, burst, a, [b] + rest, Elapsed(a, k.lastRefill) * rate);
    var high, k2 := DrawOne(k1, rate, burst, b, rest, mint);
    drawn, k' := low + high, k2;
  }

  lemma {:induction false} SwingScore(k: Bucket, rate: real, burst: real, a: real, b: real, n: nat, mint: real)
    returns (drawn: nat)
    requires Sane(k, burst) && rate >= 0.0 && burst >= 1.0 && a < b && mint == (b - a) * rate && mint >= 0.0
    ensures drawn == Draws(k, rate, burst, Swings(a, b, n))
    ensures E.Times(drawn, 1.0 + mint) + 1.0 >= E.Times(n, mint) + (if k.tokens < 1.0 then k.tokens else 1.0)
    decreases n
  {
    if n == 0 {
      drawn := 0;
    } else {
      var now, k' := SwingOnce(k, rate, burst, a, b, Swings(a, b, n - 1), mint);
      var later := SwingScore(k', rate, burst, a, b, n - 1, mint);
      drawn := now + later;
      ScoreStep(now, later, mint, n, k.tokens, k'.tokens);
    }
  }

  lemma {:induction false} ScoreStep(now: nat, later: nat, mint: real, n: nat, held: real, held': real)
    requires now <= 2 && n > 0 && mint >= 0.0 && held' >= 0.0 && (now == 0 ==> held + mint <= held' < 1.0)
    requires E.Times(later, 1.0 + mint) + 1.0 >= E.Times(n - 1, mint) + (if held' < 1.0 then held' else 1.0)
    ensures E.Times(now + later, 1.0 + mint) + 1.0 >= E.Times(n, mint) + (if held < 1.0 then held else 1.0)
  {
    if now == 2 { assert E.Times(now + later, 1.0 + mint) == 1.0 + mint + E.Times(1 + later, 1.0 + mint); }
  }

  lemma {:induction false} EnoughSwings(most: real, mint: real) returns (n: nat)
    requires most >= 0.0 && mint > 0.0
    ensures n > 0 && n as real * mint > most * (1.0 + mint) + 1.0
  {
    var goal := most * (1.0 + mint) + 1.0;
    MulNonNeg(most, 1.0 + mint);
    n := Exceeding(goal, mint);
  }

  lemma {:induction false} Exceeding(goal: real, mint: real) returns (n: nat)
    requires goal > 0.0 && mint > 0.0
    ensures n > 0 && n as real * mint > goal
  {
    var q := goal / mint;
    assert q * mint == goal;
    if q < 0.0 { Positive(-q, mint); }
    n := q.Floor + 1;
    var over := n as real - q;
    Positive(over, mint);
    Distribute(over, q, mint);
    assert over + q == n as real;
  }

  lemma {:induction false} Positive(x: real, y: real)
    requires x > 0.0 && y > 0.0
    ensures x * y > 0.0
  {
  }

  /** Some number of swings finds more tokens than any given number. */
  lemma {:induction false} SwingsDraw(k: Bucket, rate: real, burst: real, a: real, b: real, most: real) returns (n: nat)
    requires Sane(k, burst) && rate > 0.0 && burst >= 1.0 && a < b && most >= 0.0
    ensures n > 0 && Draws(k, rate, burst, Swings(a, b, n)) as real > most
  {
    var mint := (b - a) * rate;
    Positive(b - a, rate);
    n := EnoughSwings(most, mint);
    var drawn := SwingScore(k, rate, burst, a, b, n, mint);
    Outscored(drawn, n, mint, most);
  }

  lemma {:induction false} Outscored(drawn: nat, n: nat, mint: real, most: real)
    requires mint > 0.0 && n as real * mint > most * (1.0 + mint) + 1.0
    requires E.Times(drawn, 1.0 + mint) + 1.0 >= E.Times(n, mint)
    ensures drawn as real > most
  {
    var score := TimesIsProduct(drawn, 1.0 + mint);
    var goal := TimesIsProduct(n, mint);
    if drawn as real <= most { Scale(drawn as real, most, 1.0 + mint, score); }
  }

  /** Calls of one session that leave the shared bucket alone. */
  ghost function OwnCalls(s: SessionId, readings: seq<real>): seq<Call> {
    if readings == [] then [] else [Call(s, readings[0], true)] + OwnCalls(s, readings[1..])
  }

  /** Calls of a new session each. */
  ghost function NewcomerCalls(s: SessionId, readings: seq<real>): seq<Call>
    decreases |readings|
  {
    if readings == [] then [] else [Call(s, readings[0], false)] + NewcomerCalls(s + 1, readings[1..])
  }

  ghost function OrFull(b: Option<Bucket>, burst: real, readings: seq<real>): Bucket {
    if b.Some? then b.value else Bucket(burst, if readings == [] then 0.0 else readings[0])
  }

  lemma {:induction false} OwnCallsDraw(st: Limiter, s: SessionId, readings: seq<real>)
    requires Valid(st)
    ensures var calls := OwnCalls(s, readings);
            AdmittedFor(s, calls, Verdicts(st, calls))
            == Draws(OrFull(if s in st.buckets then Some(st.buckets[s]) else None, st.burst, readings),
                     st.rate, st.burst, readings)
    decreases |readings|
  {
    if readings != [] {
      var c := Call(s, readings[0], true);
      OwnCallsDraw(Apply(st, c).0, s, readings[1..]);
      VerdictsStep(st, c, OwnCalls(s, readings[1..]));
    }
  }

  lemma {:induction false} NewcomersDraw(st: Limiter, s: SessionId, readings: seq<real>)
    requires Valid(st) && st.burst >= 1.0 && forall x :: x in st.buckets ==> x < s
    ensures var calls := NewcomerCalls(s, readings);
            AdmittedGlobally(calls, Verdicts(st, calls))
            == Draws(OrFull(st.global, st.globalBurst, readings), st.globalRate, st.globalBurst, readings)
    decreases |readings|
  {
    if readings != [] {
      var c := Call(s, readings[0], false);
      RefillNow(Bucket(st.burst, c.now), st.rate, st.burst);
      NewcomersDraw(Apply(st, c).0, s + 1, readings[1..]);
      VerdictsStep(st, c, NewcomerCalls(s + 1, readings[1..]));
    }
  }

  ghost predicate Within(calls: seq<Call>, a: real, b: real) {
    forall c :: c in calls ==> a <= c.now <= b
  }

  lemma {:induction false} SwingsWithin(a: real, b: real, n: nat)
    requires a <= b
    ensures forall r :: r in Swings(a, b, n) ==> a <= r <= b
  {
    if n > 0 { SwingsWithin(a, b, n - 1); }
  }

  lemma {:induction false} CallsWithin(s: SessionId, readings: seq<real>, a: real, b: real)
    requires forall r :: r in readings ==> a <= r <= b
    ensures Within(OwnCalls(s, readings), a, b) && Within(NewcomerCalls(s, readings), a, b)
    decreases |readings|
  {
    if readings != [] {
      assert forall r :: r in readings[1..] ==> r in readings;
      assert readings[0] in readings;
      CallsWithin(s, readings[1..], a, b);
      CallsWithin(s + 1, readings[1..], a, b);
    }
  }

  /** A clock that can fall back defeats any bound: between any two readings, from any state, it lets a session through
      more often than any given number. */
  lemma {:induction false} SwingingClockOverAdmits(st: Limiter, s: SessionId, a: real, b: real, most: real)
    returns (calls: seq<Call>)
    requires Valid(st) && st.rate > 0.0 && st.burst >= 1.0 && a < b && most >= 0.0
    ensures Within(calls, a, b) && AdmittedFor(s, calls, Verdicts(st, calls)) as real > most
  {
    var k := OrFull(if s in st.buckets then Some(st.buckets[s]) else None, st.burst, [a]);
    var n := SwingsDraw(k, st.rate, st.burst, a, b, most);
    calls := OwnCalls(s, Swings(a, b, n));
    OwnCallsDraw(st, s, Swings(a, b, n));
    SwingsWithin(a, b, n);
    CallsWithin(s, Swings(a, b, n), a, b);
  }

  /** And so for the shared bucket, with a new sender for every call. */
  lemma {:induction false} SwingingClockOverspends(st: Limiter, a: real, b: real, most: real)
    returns (calls: seq<Call>)
    requires Valid(st) && st.globalRate > 0.0 && st.globalBurst >= 1.0 && st.burst >= 1.0 && a < b && most >= 0.0
    ensures Within(calls, a, b) && AdmittedGlobally(calls, Verdicts(st, calls)) as real > most
  {
    var s := Beyond(st.buckets.Keys);
    var k := OrFull(st.global, st.globalBurst, [a]);
    var n := SwingsDraw(k, st.globalRate, st.globalBurst, a, b, most);
    calls := NewcomerCalls(s, Swings(a, b, n));
    NewcomersDraw(st, s, Swings(a, b, n));
    SwingsWithin(a, b, n);
    CallsWithin(s, Swings(a, b, n), a, b);
  }

  lemma {:induction false} Beyond(ids: set<SessionId>) returns (s: SessionId)
    ensures forall x :: x in ids ==> x < s
    decreases |ids|
  {
    s := 0;
    if ids != {} {
      var x := Pick(ids);
      s := Beyond(ids - {x});
      s := if x < s then s else x + 1;
      assert ids == {x} + (ids - {x});
    }
  }

  lemma {:induction false} StillMotion(calls: seq<Call>, vs: seq<Verdict>, s: SessionId, t: real)
    requires |calls| == |vs| && Within(calls, t, t)
    ensures ForwardMotion(OwnReadings(s, calls)) == 0.0 == ForwardMotion(SharedReadings(calls, vs))
    ensures forall r :: r in OwnReadings(s, calls) || r in SharedReadings(calls, vs) ==> r == t
  {
    if calls != [] {
      assert calls[0] in calls;
      StillMotion(calls[1..], vs[1..], s, t);
      StillStep(OwnReadings(s, calls[1..]), t, calls[0].session == s);
      StillStep(SharedReadings(calls[1..], vs[1..]), t, Reaches(calls[0], vs[0]));
      assert calls[0].now == t;
    }
  }

  lemma StillStep(rest: seq<real>, t: real, touched: bool)
    requires ForwardMotion(rest) == 0.0 && forall r :: r in rest ==> r == t
    ensures ForwardMotion((if touched then [t] else []) + rest) == 0.0
  {
    assert [] + rest == rest && ([t] + rest)[1..] == rest;
    if rest != [] { assert rest[0] in rest; }
  }

  lemma {:induction false} EmptyBurstAdmitsNothing(st: Limiter, calls: seq<Call>, s: SessionId)
    requires Valid(st) && st.burst < 1.0
    ensures AdmittedFor(s, calls, Verdicts(st, calls)) == 0 == AdmittedGlobally(calls, Verdicts(st, calls))
    decreases |calls|
  {
    if calls != [] {
      BucketsSane(st, calls[0].session, calls[0].now);
      EmptyBurstAdmitsNothing(Apply(st, calls[0]).0, calls[1..], s);
    }
  }

  lemma {:induction false} NonNegative(x: real, y: real) returns (product: real)
    requires x >= 0.0 && y >= 0.0
    ensures product == Yield(x, y) >= 0.0
  {
    product := Yield(x, y);
    MulNonNeg(x, y);
  }

  lemma TimesZero(x: real, y: real, product: real)
    requires (x == 0.0 || y == 0.0) && product == Yield(x, y)
    ensures product == 0.0
  {
  }

  /** However the readings between `a` and `b` are ordered, a run lets the session through at most `most` times. */
  ghost predicate OwnBounded(st: Limiter, s: SessionId, a: real, b: real, most: real)
    requires Valid(st)
  {
    forall calls :: Within(calls, a, b) ==> AdmittedFor(s, calls, Verdicts(st, calls)) as real <= most
  }

  ghost predicate SharedBounded(st: Limiter, a: real, b: real, most: real)
    requires Valid(st)
  {
    forall calls :: Within(calls, a, b) ==> AdmittedGlobally(calls, Verdicts(st, calls)) as real <= most
  }

  lemma {:induction false} OwnStillBounded(st: Limiter, s: SessionId, a: real, b: real, most: real)
    requires Valid(st) && st.burst <= most && (a == b || st.rate == 0.0 || st.burst < 1.0)
    ensures OwnBounded(st, s, a, b, most)
  {
    forall calls | Within(calls, a, b)
      ensures AdmittedFor(s, calls, Verdicts(st, calls)) as real <= most
    {
      if st.burst < 1.0 {
        EmptyBurstAdmitsNothing(st, calls, s);
      } else {
        var admitted, motion, earned := OwnWindow(st, calls, 0, |calls|, s, st.rate);
        assert calls[0..|calls|] == calls && Verdicts(st, calls)[0..|calls|] == Verdicts(st, calls);
        if a == b { StillMotion(calls, Verdicts(st, calls), s, a); }
        TimesZero(motion, st.rate, earned);
      }
    }
  }

  lemma {:induction false} SharedStillBounded(st: Limiter, a: real, b: real, most: real)
    requires Valid(st) && st.globalBurst <= most
    requires a == b || st.globalRate == 0.0 || st.globalBurst < 1.0 || st.burst < 1.0
    ensures SharedBounded(st, a, b, most)
  {
    forall calls | Within(calls, a, b)
      ensures AdmittedGlobally(calls, Verdicts(st, calls)) as real <= most
    {
      if st.burst < 1.0 {
        EmptyBurstAdmitsNothing(st, calls, 0);
      } else if st.globalBurst < 1.0 {
        EmptyPoolAdmitsNothing(st, calls);
      } else {
        var admitted, motion, earned := SharedWindow(st, calls, 0, |calls|, st.globalRate);
        assert calls[0..|calls|] == calls && Verdicts(st, calls)[0..|calls|] == Verdicts(st, calls);
        if a == b { StillMotion(calls, Verdicts(st, calls), 0, a); }
        TimesZero(motion, st.globalRate, earned);
      }
    }
  }

  /** When a session's window bound survives every order of the readings between `a` and `b`: only when there is no room
      to swing, or no token to be minted or spent. */
  lemma {:induction false} OwnBoundNeedsOrder(st: Limiter, s: SessionId, a: real, b: real, span: real, rate: real)
    requires Valid(st) && a <= b && span == b - a && rate == st.rate
    ensures OwnBounded(st, s, a, b, st.burst + Yield(span, rate)) <==> a == b || rate == 0.0 || st.burst < 1.0
  {
    var minted := NonNegative(span, rate);
    if a == b || rate == 0.0 || st.burst < 1.0 {
      OwnStillBounded(st, s, a, b, st.burst + minted);
    } else {
      var calls := SwingingClockOverAdmits(st, s, a, b, st.burst + minted);
    }
  }

  /** The same for the shared bucket, which a session without a burst cannot reach. */
  lemma {:induction false} SharedBoundNeedsOrder(st: Limiter, a: real, b: real, span: real, rate: real)
    requires Valid(st) && a <= b && span == b - a && rate == st.globalRate
    ensures SharedBounded(st, a, b, st.globalBurst + Yield(span, rate))
            <==> a == b || rate == 0.0 || st.globalBurst < 1.0 || st.burst < 1.0
  {
    var minted := NonNegative(span, rate);
    if a == b || rate == 0.0 || st.globalBurst < 1.0 || st.burst < 1.0 {
      SharedStillBounded(st, a, b, st.globalBurst + minted);
    } else {
      var calls := SwingingClockOverspends(st, a, b, st.globalBurst + minted);
    }
  }

  lemma {:induction false} EmptyPoolAdmitsNothing(st: Limiter, calls: seq<Call>)
    requires Valid(st) && st.globalBurst < 1.0
    ensures AdmittedGlobally(calls, Verdicts(st, calls)) == 0
    decreases |calls|
  {
    if calls != [] {
      BucketsSane(st, calls[0].session, calls[0].now);
      EmptyPoolAdmitsNothing(Apply(st, calls[0]).0, calls[1..]);
    }
  }
}
