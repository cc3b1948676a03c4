/** A first-in first-out cache of negotiated protocol versions, keyed by the exact (binary, version) pair. */
module VersionHints {
  import opened Types

  datatype AcpVersion = V1 | V2

  datatype HintKey = HintKey(agentBinary: string, agentVersion: string)

  const MAX_HINTS: nat := 256

  type History = seq<(HintKey, AcpVersion)>

  /** The cache tells the truth about its history. */
  ghost predicate Consistent(hints: map<HintKey, AcpVersion>, order: seq<HintKey>, h: History) {
    && order == Resident(h)
    && (forall k :: k in hints <==> k in order)
    && (forall k :: k in hints ==> Some(hints[k]) == Latest(h, k))
  }

  class VersionHintCache {
    var hints: map<HintKey, AcpVersion>
    var order: seq<HintKey>
    ghost var history: History

    ghost predicate Valid()
      reads this
    {
      Consistent(hints, order, history)
    }

    constructor ()
      ensures Valid() && history == []
    {
      hints, order, history := map[], [], [];
    }

    method CacheHint(agentBinary: string, agentVersion: string, observed: AcpVersion)
      requires Valid()
      modifies this
      ensures Valid() && history == old(history) + [(HintKey(agentBinary, agentVersion), observed)]
    {
      var key := HintKey(agentBinary, agentVersion);
      ghost var kept, queued, past := hints, order, history;
      ResidentFacts(history);
      KeysMatchOrder(hints, order);
      if key !in hints {
        if |hints| >= MAX_HINTS {
          if order != [] {
            var oldest := order[0];
            order := order[1..];
            hints := hints - {oldest};
          }
        }
        order := order + [key];
      }
      hints := hints[key := observed];
      history := history + [(key, observed)];
      CachedConsistent(kept, queued, past, key, observed, hints, order);
    }

    /** A lookup finds the latest value cached for that very key, as long as the key is resident. */
    method LookupHint(agentBinary: string, agentVersion: string) returns (r: Option<AcpVersion>)
      requires Valid()
      ensures var key := HintKey(agentBinary, agentVersion);
              r == if key in Resident(history) then Latest(history, key) else None
    {
      var key := HintKey(agentBinary, agentVersion);
      r := if key in hints then Some(hints[key]) else None;
    }

    /** The number of hints never passes the cap. */
    method Len() returns (n: nat)
      requires Valid()
      ensures n == |Resident(history)| <= 256
    {
      ResidentFacts(history);
      KeysMatchOrder(hints, order);
      n := |hints|;
    }
  }

  // ----- the history -----

  /** The value most recently cached for `k`. */
  function Latest(h: History, k: HintKey): Option<AcpVersion> {
    if h == [] then None
    else if h[|h| - 1].0 == k then Some(h[|h| - 1].1)
    else Latest(h[..|h| - 1], k)
  }

  function LastOf(s: seq<HintKey>): seq<HintKey> {
    if |s| <= MAX_HINTS then s else s[|s| - MAX_HINTS..]
  }

  /** The fresh insertions of a history, in order: a key counts when it is not among the last `MAX_HINTS` of them. */
  function Fresh(h: History): seq<HintKey> {
    if h == [] then []
    else
      var before := Fresh(h[..|h| - 1]);
      var k := h[|h| - 1].0;
      if k in LastOf(before) then before else before + [k]
  }

  /** What the cache holds: its most recent `MAX_HINTS` fresh insertions, oldest first. */
  function Resident(h: History): seq<HintKey> {
    LastOf(Fresh(h))
  }

  lemma {:induction false} ResidentFacts(h: History)
    ensures NoDup(Resident(h)) && |Resident(h)| <= MAX_HINTS
    ensures forall k :: k in Resident(h) ==> Latest(h, k).Some?
  {
    if h != [] {
      var h', k := h[..|h| - 1], h[|h| - 1].0;
      ResidentFacts(h');
      var before := Fresh(h');
      if k !in LastOf(before) {
        NextResident(before, k);
      }
    }
  }

  /** One fresh insertion pushes the oldest resident out once the cache is full. */
  lemma NextResident(before: seq<HintKey>, k: HintKey)
    ensures var r := LastOf(before);
            LastOf(before + [k]) == (if |r| < MAX_HINTS then r else r[1..]) + [k]
  {
  }

  lemma HistorySnoc(h: History, k: HintKey, v: AcpVersion)
    ensures var h' := h + [(k, v)]; var r := Resident(h);
            && (forall x :: Latest(h', x) == if x == k then Some(v) else Latest(h, x))
            && Resident(h') == if k in r then r else (if |r| < MAX_HINTS then r else r[1..]) + [k]
  {
    var h' := h + [(k, v)];
    assert h'[..|h'| - 1] == h;
    NextResident(Fresh(h), k);
  }

  lemma {:induction false} KeysMatchOrder(m: map<HintKey, AcpVersion>, s: seq<HintKey>)
    requires NoDup(s) && forall k :: k in m <==> k in s
    ensures |m| == |s|
  {
    if s != [] {
      var front, last := s[..|s| - 1], s[|s| - 1];
      assert s == front + [last];
      assert last !in front;
      KeysMatchOrder(m - {last}, front);
      assert m.Keys == (m - {last}).Keys + {last};
    } else {
      assert m == map[];
    }
  }

  lemma Refresh(hints: map<HintKey, AcpVersion>, order: seq<HintKey>, h: History, key: HintKey, v: AcpVersion)
    requires Consistent(hints, order, h) && key in hints
    ensures Consistent(hints[key := v], order, h + [(key, v)])
  {
    HistorySnoc(h, key, v);
  }

  lemma Insert(hints: map<HintKey, AcpVersion>, order: seq<HintKey>, h: History, key: HintKey, v: AcpVersion,
               hints': map<HintKey, AcpVersion>, order': seq<HintKey>)
    requires Consistent(hints, order, h) && NoDup(order) && key !in hints
    requires order' == (if |order| < MAX_HINTS then order else order[1..]) + [key]
    requires hints' == (if |order| < MAX_HINTS then hints else hints - {order[0]})[key := v]
    ensures Consistent(hints', order', h + [(key, v)])
  {
    HistorySnoc(h, key, v);
    if |order| >= MAX_HINTS {
      Evict(hints, order, h);
      Grown(hints - {order[0]}, order[1..], h, key, v);
    } else {
      Grown(hints, order, h, key, v);
    }
  }

  lemma CachedConsistent(hints: map<HintKey, AcpVersion>, order: seq<HintKey>, h: History, key: HintKey,
                         v: AcpVersion, hints': map<HintKey, AcpVersion>, order': seq<HintKey>)
    requires Consistent(hints, order, h) && NoDup(order)
    requires order' == if key in hints then order else (if |order| < MAX_HINTS then order else order[1..]) + [key]
    requires hints' == (if key in hints || |order| < MAX_HINTS then hints else hints - {order[0]})[key := v]
    ensures Consistent(hints', order', h + [(key, v)])
  {
    if key in hints {
      Refresh(hints, order, h, key, v);
    } else {
      Insert(hints, order, h, key, v, hints', order');
    }
  }

  /** Dropping the oldest key from both sides. */
  lemma Evict(hints: map<HintKey, AcpVersion>, order: seq<HintKey>, h: History)
    requires NoDup(order) && order != [] && (forall k :: k in hints <==> k in order)
    requires forall k :: k in hints ==> Some(hints[k]) == Latest(h, k)
    ensures forall k :: k in hints - {order[0]} <==> k in order[1..]
    ensures forall k :: k in hints - {order[0]} ==> Some((hints - {order[0]})[k]) == Latest(h, k)
  {
    assert order == [order[0]] + order[1..];
    assert order[0] !in order[1..];
  }

  /** Adding a key at the back of a list that tells the truth. */
  lemma Grown(hints: map<HintKey, AcpVersion>, order: seq<HintKey>, h: History, key: HintKey, v: AcpVersion)
    requires key !in hints
    requires (forall k :: k in hints <==> k in order) && (forall k :: k in hints ==> Some(hints[k]) == Latest(h, k))
    ensures forall k :: k in hints[key := v] <==> k in order + [key]
    ensures forall k :: k in hints[key := v] ==> Some(hints[key := v][k]) == Latest(h + [(key, v)], k)
  {
    HistorySnoc(h, key, v);
  }

  /** Residency, said by counting: the key inserted fresh at position `i` is resident exactly while fewer than
      `MAX_HINTS` fresh insertions have followed it, or if it has itself been inserted again since. */
  lemma ResidentWhileRecent(h: History, i: nat)
    requires i < |Fresh(h)|
    ensures |Fresh(h)| - i <= MAX_HINTS ==> Fresh(h)[i] in Resident(h)
    ensures |Fresh(h)| - i > MAX_HINTS ==>
              (Fresh(h)[i] in Resident(h)
               <==> exists j :: i < j < |Fresh(h)| && |Fresh(h)| - j <= MAX_HINTS && Fresh(h)[j] == Fresh(h)[i])
  {
    var f, r := Fresh(h), Resident(h);
    if |f| - i <= MAX_HINTS {
      var d := |f| - |r|;
      assert r[i - d] == f[i];
    } else {
      var d := |f| - MAX_HINTS;
      if f[i] in r {
        var m :| 0 <= m < |r| && r[m] == f[i];
        assert f[m + d] == f[i];
      }
      if j :| i < j < |f| && |f| - j <= MAX_HINTS && f[j] == f[i] {
        assert r[j - d] == f[j];
      }
    }
  }

  /** A key is inserted fresh only when it is not among the 256 insertions before it. */
  lemma {:induction false} FreshWindowsAreDistinct(h: History, i: nat, j: nat)
    requires i < j < |Fresh(h)| && j - i <= 256
    ensures Fresh(h)[i] != Fresh(h)[j]
    decreases |h|
  {
    var h', k := h[..|h| - 1], h[|h| - 1].0;
    var before := Fresh(h');
    if j < |before| {
      FreshWindowsAreDistinct(h', i, j);
    } else {
      var r := LastOf(before);
      assert r[i - (|before| - |r|)] == before[i];
    }
  }

  lemma FreshSnoc(h: History, x: (HintKey, AcpVersion))
    ensures Fresh(h + [x]) == Fresh(h) + if x.0 in Resident(h) then [] else [x.0]
  {
    assert (h + [x])[..|h|] == h;
  }

  lemma FreshLast(h: History, t: History)
    requires t != []
    ensures var before, k := h + t[..|t| - 1], t[|t| - 1].0;
            Fresh(h + t) == Fresh(before) + if k in Resident(before) then [] else [k]
  {
    assert h + t == (h + t[..|t| - 1]) + [t[|t| - 1]];
    FreshSnoc(h + t[..|t| - 1], t[|t| - 1]);
  }

  lemma {:induction false} FreshExtends(h: History, t: History)
    ensures Fresh(h) <= Fresh(h + t)
    decreases |t|
  {
    if t == [] {
      assert h + t == h;
    } else {
      var t' := t[..|t| - 1];
      FreshLast(h, t);
      FreshExtends(h, t');
    }
  }

  /** Caching a resident key again does not postpone its eviction: whatever follows, the insertions, and so the keys
      held and their order, are the same as without it. */
  lemma {:induction false} RefreshPostponesNothing(h: History, k: HintKey, v: AcpVersion, t: History)
    requires k in Resident(h)
    ensures Fresh(h + [(k, v)] + t) == Fresh(h + t)
    decreases |t|
  {
    if t == [] {
      assert h + [(k, v)] + t == h + [(k, v)] && h + t == h;
      FreshSnoc(h, (k, v));
    } else {
      var t', last := t[..|t| - 1], t[|t| - 1];
      RefreshPostponesNothing(h, k, v, t');
      FreshLast(h + [(k, v)], t);
      FreshLast(h, t);
    }
  }

  /** A key that is new to the cache stays through the next 255 fresh insertions, whatever else is cached or
      refreshed in between, and the one after that evicts it. */
  lemma {:induction false} EvictedOnTime(h: History, k: HintKey, v: AcpVersion, t: History)
    requires k !in Resident(h)
    ensures var since := |Fresh(h + [(k, v)] + t)| - |Fresh(h)| - 1;
            && 0 <= since
            && (since < 256 ==> k in Resident(h + [(k, v)] + t))
            && (since == 256 ==> k !in Resident(h + [(k, v)] + t))
  {
    var now, all := h + [(k, v)], h + [(k, v)] + t;
    FreshSnoc(h, (k, v));
    FreshExtends(now, t);
    var n := |Fresh(h)|;
    assert Fresh(all)[n] == k;
    ResidentWhileRecent(all, n);
    if |Fresh(all)| - n - 1 == MAX_HINTS {
      forall j | n < j < |Fresh(all)|
        ensures Fresh(all)[j] != k
      {
        FreshWindowsAreDistinct(all, n, j);
      }
    }
  }
}
