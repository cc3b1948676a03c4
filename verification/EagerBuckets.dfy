/**
 The same limiter, told eagerly: at every call all buckets are first topped up by what the clock minted
 since the previous call. The amounts minted are plain numbers here, so the laws of a run are linear.
 */
module EagerBuckets {
  import opened Types

  datatype Outcome = Pass | OwnRefusal | SharedRefusal

  /** One call, with what each session's bucket and the shared bucket earned since the call before. */
  datatype Tick = Tick(session: SessionId, minted: real, sharedMinted: real, skipShared: bool)

  datatype Levels = Levels(own: SessionId -> real, shared: real)

  ghost function Own(e: Levels, x: SessionId): real {
    e.own(x)
  }

  datatype Caps = Caps(burst: real, sharedBurst: real)

  ghost function TopUp(caps: Caps, e: Levels, k: Tick): Levels {
    Levels(x => Min(Own(e, x) + k.minted, caps.burst), Min(e.shared + k.sharedMinted, caps.sharedBurst))
  }

  ghost function Judge(e: Levels, k: Tick): Outcome {
    if Own(e, k.session) < 1.0 then OwnRefusal
    else if !k.skipShared && e.shared < 1.0 then SharedRefusal
    else Pass
  }

  ghost function Debit(e: Levels, k: Tick): Levels {
    if Judge(e, k).Pass? then
      Levels(x => if x == k.session then Own(e, x) - 1.0 else Own(e, x),
             if k.skipShared then e.shared else e.shared - 1.0)
    else e
  }

  ghost function Next(caps: Caps, e: Levels, k: Tick): Levels {
    Debit(TopUp(caps, e, k), k)
  }

  ghost function End(caps: Caps, e: Levels, ticks: seq<Tick>): Levels
    decreases |ticks|
  {
    if ticks == [] then e else End(caps, Next(caps, e, ticks[0]), ticks[1..])
  }

  ghost function Outcomes(caps: Caps, e: Levels, ticks: seq<Tick>): (r: seq<Outcome>)
    ensures |r| == |ticks|
    decreases |ticks|
  {
    if ticks == [] then []
    else [Judge(TopUp(caps, e, ticks[0]), ticks[0])] + Outcomes(caps, Next(caps, e, ticks[0]), ticks[1..])
  }

  ghost predicate InRange(caps: Caps, e: Levels) {
    && caps.burst >= 0.0 && caps.sharedBurst >= 0.0
    && (forall x :: 0.0 <= Own(e, x) <= caps.burst)
    && 0.0 <= e.shared <= caps.sharedBurst
  }

  ghost predicate Forward(ticks: seq<Tick>) {
    forall k :: k in ticks ==> k.minted >= 0.0 && k.sharedMinted >= 0.0
  }

  lemma {:induction false} NextInRange(caps: Caps, e: Levels, k: Tick)
    requires InRange(caps, e) && k.minted >= 0.0 && k.sharedMinted >= 0.0
    ensures InRange(caps, TopUp(caps, e, k)) && InRange(caps, Next(caps, e, k))
  {
    forall x
      ensures 0.0 <= Own(TopUp(caps, e, k), x) <= caps.burst && 0.0 <= Own(Next(caps, e, k), x) <= caps.burst
    {
      assert 0.0 <= Own(e, x) <= caps.burst;
    }
  }

  /** Calls of `s` that passed. */
  ghost function Passed(s: SessionId, ticks: seq<Tick>, os: seq<Outcome>): nat
    requires |ticks| == |os|
  {
    if ticks == [] then 0
    else (if ticks[0].session == s && os[0].Pass? then 1 else 0) + Passed(s, ticks[1..], os[1..])
  }

  /** Passed calls that drew on the shared bucket. */
  ghost function PassedShared(ticks: seq<Tick>, os: seq<Outcome>): nat
    requires |ticks| == |os|
  {
    if ticks == [] then 0
    else (if !ticks[0].skipShared && os[0].Pass? then 1 else 0) + PassedShared(ticks[1..], os[1..])
  }

  ghost function Minted(ticks: seq<Tick>): real {
    if ticks == [] then 0.0 else ticks[0].minted + Minted(ticks[1..])
  }

  ghost function SharedMinted(ticks: seq<Tick>): real {
    if ticks == [] then 0.0 else ticks[0].sharedMinted + SharedMinted(ticks[1..])
  }

  /** Tokens taken plus tokens left never exceed tokens held plus tokens minted. */
  lemma {:induction false} BudgetOverRun(caps: Caps, e: Levels, ticks: seq<Tick>, s: SessionId)
    requires InRange(caps, e) && Forward(ticks)
    ensures var os := Outcomes(caps, e, ticks);
            && InRange(caps, End(caps, e, ticks))
            && Passed(s, ticks, os) as real + Own(End(caps, e, ticks), s) <= Own(e, s) + Minted(ticks)
            && PassedShared(ticks, os) as real + End(caps, e, ticks).shared <= e.shared + SharedMinted(ticks)
    decreases |ticks|
  {
    if ticks != [] {
      var k := ticks[0];
      assert k in ticks;
      NextInRange(caps, e, k);
      BudgetOverRun(caps, Next(caps, e, k), ticks[1..], s);
    }
  }

  /** A level just fills up while nothing is taken from it. */
  lemma {:induction false} IdleLevel(caps: Caps, e: Levels, ticks: seq<Tick>, s: SessionId)
    requires InRange(caps, e) && Forward(ticks)
    requires Passed(s, ticks, Outcomes(caps, e, ticks)) == 0
    ensures Own(End(caps, e, ticks), s) == Min(Own(e, s) + Minted(ticks), caps.burst) && Minted(ticks) >= 0.0
    decreases |ticks|
  {
    if ticks != [] {
      var k := ticks[0];
      assert k in ticks;
      NextInRange(caps, e, k);
      IdleLevel(caps, Next(caps, e, k), ticks[1..], s);
    }
  }

  /** After an idle stretch, the next call of a session is decided by what it held plus what it earned. */
  lemma {:induction false} IdleThenJudge(caps: Caps, e: Levels, ticks: seq<Tick>, k: Tick)
    requires InRange(caps, e) && Forward(ticks + [k])
    requires Passed(k.session, ticks, Outcomes(caps, e, ticks)) == 0
    ensures Outcomes(caps, e, ticks + [k])[|ticks|].OwnRefusal?
            <==> Min(Own(e, k.session) + Minted(ticks + [k]), caps.burst) < 1.0
  {
    assert forall x :: x in ticks ==> x in ticks + [k];
    IdleLevel(caps, e, ticks, k.session);
    EndSplit(caps, e, ticks, [k]);
    MintedSnoc(ticks, k);
    var last := End(caps, e, ticks);
    assert Own(TopUp(caps, last, k), k.session) == Min(Own(last, k.session) + k.minted, caps.burst);
    assert k in ticks + [k];
  }

  lemma {:induction false} SharedIdleLevel(caps: Caps, e: Levels, ticks: seq<Tick>)
    requires InRange(caps, e) && Forward(ticks)
    requires PassedShared(ticks, Outcomes(caps, e, ticks)) == 0
    ensures End(caps, e, ticks).shared == Min(e.shared + SharedMinted(ticks), caps.sharedBurst)
    ensures SharedMinted(ticks) >= 0.0
    decreases |ticks|
  {
    if ticks != [] {
      var k := ticks[0];
      assert k in ticks;
      NextInRange(caps, e, k);
      SharedIdleLevel(caps, Next(caps, e, k), ticks[1..]);
    }
  }

  /** The same for the shared bucket, which a call reaches only past its own. */
  lemma {:induction false} SharedIdleThenJudge(caps: Caps, e: Levels, ticks: seq<Tick>, k: Tick)
    requires InRange(caps, e) && Forward(ticks + [k]) && !k.skipShared
    requires PassedShared(ticks, Outcomes(caps, e, ticks)) == 0
    ensures var o := Outcomes(caps, e, ticks + [k])[|ticks|];
            o.SharedRefusal?
            <==> !o.OwnRefusal? && Min(e.shared + SharedMinted(ticks + [k]), caps.sharedBurst) < 1.0
  {
    assert forall x :: x in ticks ==> x in ticks + [k];
    SharedIdleLevel(caps, e, ticks);
    EndSplit(caps, e, ticks, [k]);
    MintedSnoc(ticks, k);
    var last := End(caps, e, ticks);
    assert TopUp(caps, last, k).shared == Min(last.shared + k.sharedMinted, caps.sharedBurst);
    assert k in ticks + [k];
  }

  lemma {:induction false} MintedSnoc(ticks: seq<Tick>, k: Tick)
    ensures Minted(ticks + [k]) == Minted(ticks) + k.minted
    ensures SharedMinted(ticks + [k]) == SharedMinted(ticks) + k.sharedMinted
  {
    if ticks == [] {
      assert ticks + [k] == [k];
    } else {
      assert (ticks + [k])[1..] == ticks[1..] + [k];
      MintedSnoc(ticks[1..], k);
    }
  }

  // ----- the shared bucket against the pool of session buckets -----

  /** `n` times `m`, as a sum. */
  ghost function Times(n: nat, m: real): real {
    if n == 0 then 0.0 else m + Times(n - 1, m)
  }

  ghost function TotalDeficit(burst: real, e: Levels, pool: seq<SessionId>): real {
    if pool == [] then 0.0 else burst - Own(e, pool[0]) + TotalDeficit(burst, e, pool[1..])
  }

  /** The shared bucket is never emptier than the pool's own buckets are, taken together. */
  ghost predicate Covered(caps: Caps, e: Levels, pool: seq<SessionId>) {
    caps.sharedBurst - e.shared <= TotalDeficit(caps.burst, e, pool)
  }

  /** As buckets earn `m` each, the pool's deficit falls by at most `m` a head, and never below zero. */
  lemma {:induction false} DeficitDecay(caps: Caps, e: Levels, k: Tick, pool: seq<SessionId>)
    requires InRange(caps, e) && k.minted >= 0.0
    ensures var total := TotalDeficit(caps.burst, TopUp(caps, e, k), pool);
            total >= 0.0 && total >= TotalDeficit(caps.burst, e, pool) - Times(|pool|, k.minted)
  {
    if pool != [] {
      DeficitDecay(caps, e, k, pool[1..]);
      assert Times(|pool|, k.minted) == k.minted + Times(|pool[1..]|, k.minted);
      assert Own(TopUp(caps, e, k), pool[0]) == Min(Own(e, pool[0]) + k.minted, caps.burst);
    }
  }

  /** Taking from one bucket of the pool raises the pool's deficit by exactly that much. */
  lemma {:induction false} DeficitAfterDebit(burst: real, e: Levels, k: Tick, pool: seq<SessionId>)
    requires NoDup(pool)
    ensures TotalDeficit(burst, Debit(e, k), pool)
            == TotalDeficit(burst, e, pool) + (if k.session in pool && Judge(e, k).Pass? then 1.0 else 0.0)
  {
    if pool != [] {
      DeficitAfterDebit(burst, e, k, pool[1..]);
      assert pool == [pool[0]] + pool[1..];
    }
  }

  /** A member with a token in hand leaves the pool at least one short of its full deficit. */
  lemma {:induction false} DeficitBelow(caps: Caps, e: Levels, pool: seq<SessionId>, s: SessionId)
    requires InRange(caps, e)
    ensures TotalDeficit(caps.burst, e, pool) <= Times(|pool|, caps.burst)
    ensures s in pool && Own(e, s) >= 1.0 ==> TotalDeficit(caps.burst, e, pool) <= Times(|pool|, caps.burst) - 1.0
  {
    if pool != [] {
      DeficitBelow(caps, e, pool[1..], s);
      assert Times(|pool|, caps.burst) == caps.burst + Times(|pool[1..]|, caps.burst);
      assert 0.0 <= Own(e, pool[0]) <= caps.burst;
      assert pool == [pool[0]] + pool[1..];
    }
  }

  /** If the shared bucket earns as fast as the whole pool and is as deep, it never refuses the pool. */
  lemma {:induction false} PoolNeverStarved(caps: Caps, e: Levels, ticks: seq<Tick>, pool: seq<SessionId>)
    requires InRange(caps, e) && Forward(ticks) && NoDup(pool)
    requires caps.sharedBurst >= Times(|pool|, caps.burst)
    requires forall k :: k in ticks ==> k.session in pool && k.sharedMinted >= Times(|pool|, k.minted)
    requires Covered(caps, e, pool)
    ensures forall o :: o in Outcomes(caps, e, ticks) ==> !o.SharedRefusal?
    decreases |ticks|
  {
    if ticks != [] {
      var k := ticks[0];
      assert k in ticks;
      NextInRange(caps, e, k);
      var up := TopUp(caps, e, k);
      DeficitDecay(caps, e, k, pool);
      assert Covered(caps, up, pool);
      DeficitBelow(caps, up, pool, k.session);
      DeficitAfterDebit(caps.burst, up, k, pool);
      PoolNeverStarved(caps, Next(caps, e, k), ticks[1..], pool);
    }
  }

  // ----- how many senders is too many -----

  /** One instant: nobody earns anything, and call `i` comes from session `i / 10`. */
  ghost function Stampede(n: nat): seq<Tick> {
    seq(n, i => Tick(i / 10, 0.0, 0.0, false))
  }

  lemma {:induction false} EndSplit(caps: Caps, e: Levels, a: seq<Tick>, b: seq<Tick>)
    ensures End(caps, e, a + b) == End(caps, End(caps, e, a), b)
    ensures Outcomes(caps, e, a + b) == Outcomes(caps, e, a) + Outcomes(caps, End(caps, e, a), b)
    decreases |a|
  {
    if a == [] {
      assert a + b == b;
    } else {
      assert (a + b)[0] == a[0] && (a + b)[1..] == a[1..] + b;
      EndSplit(caps, Next(caps, e, a[0]), a[1..], b);
    }
  }

  /** Sends of session `s` among the first `k` of a stampede. */
  ghost function Share(k: int, s: int): int {
    if k <= 10 * s then 0 else if k >= 10 * s + 10 then 10 else k - 10 * s
  }

  lemma {:induction false} StampedeLevels(caps: Caps, e: Levels, k: nat)
    requires caps == Caps(10.0, 640.0) && e.shared == 640.0 && (forall x :: Own(e, x) == 10.0)
    requires k <= 640
    ensures var r := End(caps, e, Stampede(k));
            r.shared == 640.0 - k as real && forall s :: 0 <= s ==> Own(r, s) == 10.0 - Share(k, s) as real
  {
    if k > 0 {
      StampedeLevels(caps, e, k - 1);
      var s := (k - 1) / 10;
      var c := Tick(s, 0.0, 0.0, false);
      assert Stampede(k) == Stampede(k - 1) + [c];
      EndSplit(caps, e, Stampede(k - 1), [c]);
      var r := End(caps, e, Stampede(k - 1));
      assert End(caps, r, [c]) == Next(caps, r, c);
      assert 10 * s <= k - 1 < 10 * s + 10;
    }
  }

  lemma {:induction false} StampedeRefused(caps: Caps, e: Levels)
    requires caps == Caps(10.0, 640.0) && e.shared == 640.0 && (forall x :: Own(e, x) == 10.0)
    ensures Outcomes(caps, e, Stampede(641))[640].SharedRefusal?
  {
    StampedeLevels(caps, e, 640);
    var c := Tick(64, 0.0, 0.0, false);
    assert Stampede(641) == Stampede(640) + [c];
    EndSplit(caps, e, Stampede(640), [c]);
    assert Outcomes(caps, End(caps, e, Stampede(640)), [c])[0].SharedRefusal?;
  }
}
