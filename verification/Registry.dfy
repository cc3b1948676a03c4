/**
 The agent registry's tolerant parse: one pass over the document's elements, dropping bad ones and every element whose
 id somebody else claims too. Decoding is opaque: an element is the id its raw JSON claims, if any, and what it
 decodes to. Whether an element decodes is an input; that the id it decodes to is the one it claims is not assumed but
 built in, because both are read from the same key.
*/
module Registries {
  import opened Types

  const MAX_REGISTRY_AGENT_ENTRIES: nat := 4096
  const MAX_REPORTED_DROP_WARNINGS: nat := 8

  /** `body` stands for the name and distribution, which the partition never looks at. */
  datatype Agent = Agent(id: string, body: int)

  /** An element with a string under `id`, or one without. The second kind can decode too: a JSON array such as
      `["codex", "N", {...}]` has no keys, but fills the fields of an agent in order. */
  datatype RawEntry = Claiming(id: string, body: Option<int>) | Silent(agent: Option<Agent>)

  function Claimed(e: RawEntry): Option<string> {
    if e.Claiming? then Some(e.id) else None
  }

  function Decoded(e: RawEntry): Option<Agent> {
    match e
    case Claiming(id, body) => if body.Some? then Some(Agent(id, body.value)) else None
    case Silent(agent) => agent
  }

  /** `drops` is how many dropped elements the line stands for; it is not printed. */
  datatype Warning =
    | DuplicateId(id: string, drops: nat)
    | InvalidEntry(hint: Option<string>, drops: nat)
    | Remainder(drops: nat)

  datatype TooManyEntries = TooManyEntries(received: nat, limit: nat)

  type Slots = map<string, Option<Agent>>

  datatype Acc = Acc(byId: Slots, warnings: seq<Warning>, dropped: nat, reported: nat)

  function Reportable(acc: Acc): bool {
    |acc.warnings| < MAX_REPORTED_DROP_WARNINGS
  }

  function Drop(acc: Acc, byId: Slots, n: nat, w: Warning): Acc {
    if Reportable(acc)
    then Acc(byId, acc.warnings + [w], acc.dropped + n, acc.reported + n)
    else Acc(byId, acc.warnings, acc.dropped + n, acc.reported)
  }

  function Take(acc: Acc, e: RawEntry): Acc {
    var claimed, decoded := Claimed(e), Decoded(e);
    if claimed.Some? && claimed.value in acc.byId then
      var n := if acc.byId[claimed.value].Some? then 2 else 1;
      Drop(acc, acc.byId[claimed.value := None], n, DuplicateId(claimed.value, n))
    else if decoded.Some? then acc.(byId := acc.byId[decoded.value.id := decoded])
    else Drop(acc, if claimed.Some? then acc.byId[claimed.value := None] else acc.byId, 1, InvalidEntry(claimed, 1))
  }

  function TakeAll(acc: Acc, raw: seq<RawEntry>): Acc
    decreases |raw|
  {
    if raw == [] then acc else TakeAll(Take(acc, raw[0]), raw[1..])
  }

  const Start: Acc := Acc(map[], [], 0, 0)

  function Agents(byId: Slots): map<string, Agent> {
    map k | k in byId && byId[k].Some? :: byId[k].value
  }

  function Finish(acc: Acc): (map<string, Agent>, seq<Warning>) {
    (Agents(acc.byId),
     if acc.dropped > acc.reported then acc.warnings + [Remainder(acc.dropped - acc.reported)] else acc.warnings)
  }

  /** The surviving agents, keyed by id, and the drop warnings. */
  method PartitionRegistryAgents(raw: seq<RawEntry>)
    returns (r: Result<(map<string, Agent>, seq<Warning>), TooManyEntries>)
    ensures r == if |raw| > 4096 then Err(TooManyEntries(|raw|, 4096))
                 else Ok(Finish(TakeAll(Start, raw)))
  {
    if |raw| > MAX_REGISTRY_AGENT_ENTRIES {
      return Err(TooManyEntries(|raw|, MAX_REGISTRY_AGENT_ENTRIES));
    }
    var byId: Slots := map[];
    var warnings: seq<Warning> := [];
    var dropped, reported := 0, 0;
    for i := 0 to |raw|
      invariant TakeAll(Acc(byId, warnings, dropped, reported), raw[i..]) == TakeAll(Start, raw)
    {
      var e := raw[i];
      assert raw[i..][0] == e && raw[i..][1..] == raw[i + 1..];
      byId, warnings, dropped, reported := TakeElement(byId, warnings, dropped, reported, e);
    }
    if dropped > reported {
      warnings := warnings + [Remainder(dropped - reported)];
    }
    return Ok((Agents(byId), warnings));
  }

  /** The loop body: a repeated claim poisons its id, a decoded element takes its slot, an invalid one poisons its
      claim. */
  method TakeElement(byId0: Slots, warnings0: seq<Warning>, dropped0: nat, reported0: nat, e: RawEntry)
    returns (byId: Slots, warnings: seq<Warning>, dropped: nat, reported: nat)
    ensures Acc(byId, warnings, dropped, reported) == Take(Acc(byId0, warnings0, dropped0, reported0), e)
  {
    byId, warnings, dropped, reported := byId0, warnings0, dropped0, reported0;
    var reportable := |warnings| < MAX_REPORTED_DROP_WARNINGS;
    var claimed := Claimed(e);
    if claimed.Some? && claimed.value in byId {
      var n := if byId[claimed.value].Some? then 2 else 1;
      byId := byId[claimed.value := None];
      dropped := dropped + n;
      if reportable {
        reported := reported + n;
        warnings := warnings + [DuplicateId(claimed.value, n)];
      }
      return;
    }
    var decoded := Decoded(e);
    if decoded.Some? {
      byId := byId[decoded.value.id := decoded];
    } else {
      dropped := dropped + 1;
      if reportable {
        reported := reported + 1;
        warnings := warnings + [InvalidEntry(claimed, 1)];
      }
      if claimed.Some? {
        byId := byId[claimed.value := None];
      }
    }
  }

  // ----- who survives -----

  function Survivors(raw: seq<RawEntry>): map<string, Agent> {
    Finish(TakeAll(Start, raw)).0
  }

  function Lookup(agents: map<string, Agent>, id: string): Option<Agent> {
    if id in agents then Some(agents[id]) else None
  }

  predicate Touches(e: RawEntry, id: string) {
    Claimed(e) == Some(id) || (Decoded(e).Some? && Decoded(e).value.id == id)
  }

  /** The elements of a document that claim an id or decode to it, in document order. */
  function Touchers(raw: seq<RawEntry>, id: string): (ts: seq<RawEntry>)
    ensures forall e :: e in ts ==> Touches(e, id)
  {
    if raw == [] then [] else (if Touches(raw[0], id) then [raw[0]] else []) + Touchers(raw[1..], id)
  }

  /** What an id is left with: a silent element takes it from whatever came before; otherwise it goes to a sole
      claim. */
  function Kept(ts: seq<RawEntry>): Option<Agent> {
    if ts != [] && (ts[|ts| - 1].Silent? || |ts| == 1) then Decoded(ts[|ts| - 1]) else None
  }

  lemma {:induction false} TouchersSnoc(raw: seq<RawEntry>, e: RawEntry, id: string)
    ensures Touchers(raw + [e], id) == Touchers(raw, id) + (if Touches(e, id) then [e] else [])
  {
    if raw == [] {
      assert raw + [e] == [e];
      assert Touchers([e], id) == (if Touches(e, id) then [e] else []) + Touchers([e][1..], id);
    } else {
      TouchersSnoc(raw[1..], e, id);
      var head := if Touches(raw[0], id) then [raw[0]] else [];
      var tail := Touchers(raw[1..], id);
      var last := if Touches(e, id) then [e] else [];
      assert (raw + [e])[0] == raw[0] && (raw + [e])[1..] == raw[1..] + [e];
      assert head + (tail + last) == (head + tail) + last;
    }
  }

  lemma {:induction false} TakeAllSnoc(acc: Acc, raw: seq<RawEntry>, e: RawEntry)
    ensures TakeAll(acc, raw + [e]) == Take(TakeAll(acc, raw), e)
    decreases |raw|
  {
    if raw == [] {
      assert raw + [e] == [e];
      assert TakeAll(acc, [e]) == TakeAll(Take(acc, e), []) by { assert [e][1..] == []; }
    } else {
      assert (raw + [e])[1..] == raw[1..] + [e];
      TakeAllSnoc(Take(acc, raw[0]), raw[1..], e);
    }
  }

  ghost predicate Keeps(byId: Slots, raw: seq<RawEntry>) {
    forall id ::
      && (id in byId <==> Touchers(raw, id) != [])
      && (id in byId ==> byId[id] == Kept(Touchers(raw, id)))
  }

  lemma {:induction false} TakeKeeps(acc: Acc, e: RawEntry, id: string, ts: seq<RawEntry>)
    requires (id in acc.byId <==> ts != []) && (id in acc.byId ==> acc.byId[id] == Kept(ts))
    ensures var after, ts' := Take(acc, e).byId, ts + (if Touches(e, id) then [e] else []);
            (id in after <==> ts' != []) && (id in after ==> after[id] == Kept(ts'))
  {
    if !Touches(e, id) { assert ts + [] == ts; }
  }

  lemma {:induction false} PassKeeps(raw: seq<RawEntry>)
    ensures Keeps(TakeAll(Start, raw).byId, raw)
    decreases |raw|
  {
    if raw != [] {
      var front, e := raw[..|raw| - 1], raw[|raw| - 1];
      assert raw == front + [e];
      PassKeeps(front);
      TakeAllSnoc(Start, front, e);
      var before := TakeAll(Start, front);
      forall id
        ensures var after, ts := Take(before, e).byId, Touchers(raw, id);
                (id in after <==> ts != []) && (id in after ==> after[id] == Kept(ts))
      {
        assert id in before.byId <==> Touchers(front, id) != [];
        TakeKeeps(before, e, id, Touchers(front, id));
        TouchersSnoc(front, e, id);
      }
    }
  }

  /** The one pass agrees with the declarative rule, for every document: the agent of an id is what the elements that
      touch the id leave it with. */
  lemma {:induction false} PassIsTheRule(raw: seq<RawEntry>)
    ensures forall id :: Lookup(Survivors(raw), id) == Kept(Touchers(raw, id))
  {
    PassKeeps(raw);
    var byId := TakeAll(Start, raw).byId;
    forall id
      ensures Lookup(Agents(byId), id) == Kept(Touchers(raw, id))
    {
      assert id in byId <==> Touchers(raw, id) != [];
    }
  }

  function Claims(ts: seq<RawEntry>): (cs: seq<RawEntry>)
    ensures |cs| <= |ts| && (forall e :: e in cs <==> e in ts && e.Claiming?)
  {
    if ts == [] then [] else (if ts[0].Claiming? then [ts[0]] else []) + Claims(ts[1..])
  }

  /** What the registry's rule grants an id: the agent of the one element that claims it, if that element is valid. */
  function Deserved(ts: seq<RawEntry>): Option<Agent> {
    if |Claims(ts)| == 1 then Decoded(Claims(ts)[0]) else None
  }

  predicate AllClaim(ts: seq<RawEntry>) {
    forall e :: e in ts ==> e.Claiming?
  }

  /** No silent element touches the id; or one comes last and happens to repeat the one valid claim; or a claim comes
      last and is not the one valid claim. */
  predicate Undisturbed(ts: seq<RawEntry>) {
    || AllClaim(ts)
    || (ts[|ts| - 1].Silent? && |Claims(ts)| == 1 && Decoded(Claims(ts)[0]) == Decoded(ts[|ts| - 1]))
    || (ts[|ts| - 1].Claiming? && (|Claims(ts)| > 1 || ts[|ts| - 1].body.None?))
  }

  lemma {:induction false} AllClaimIsClaims(ts: seq<RawEntry>)
    ensures AllClaim(ts) ==> Claims(ts) == ts
    ensures ts != [] && ts[|ts| - 1].Claiming? && |Claims(ts)| == 1 ==> Claims(ts)[0] == ts[|ts| - 1]
  {
    if ts != [] {
      AllClaimIsClaims(ts[1..]);
      assert ts[0] in ts && ts[|ts| - 1] in ts;
      if ts[|ts| - 1].Claiming? { assert ts[|ts| - 1] in Claims(ts); }
    }
  }

  lemma {:induction false} KeptIsDeserved(raw: seq<RawEntry>, id: string)
    ensures var ts := Touchers(raw, id); Kept(ts) == Deserved(ts) <==> Undisturbed(ts)
  {
    var ts := Touchers(raw, id);
    AllClaimIsClaims(ts);
    if ts != [] { assert Touches(ts[|ts| - 1], id); }
    if !AllClaim(ts) && |ts| == 1 { assert Claims(ts) == []; }
  }

  /** When the survivors are exactly the valid elements whose id is claimed once in the document: when every id is
      undisturbed, and so in particular when only claiming elements decode. */
  lemma {:induction false} SurvivorsAreUniqueAndValid(raw: seq<RawEntry>)
    ensures (forall id :: Lookup(Survivors(raw), id) == Deserved(Touchers(raw, id)))
            <==> forall id :: Undisturbed(Touchers(raw, id))
    ensures (forall e :: e in raw && e.Silent? ==> e.agent.None?) ==> forall id :: Undisturbed(Touchers(raw, id))
  {
    PassIsTheRule(raw);
    forall id
      ensures Lookup(Survivors(raw), id) == Deserved(Touchers(raw, id)) <==> Undisturbed(Touchers(raw, id))
    {
      KeptIsDeserved(raw, id);
    }
    forall id, e | e in Touchers(raw, id)
      ensures e in raw
    {
      TouchersCount(raw, id, e);
    }
  }

  lemma {:induction false} TouchersCount(raw: seq<RawEntry>, id: string, e: RawEntry)
    ensures multiset(Touchers(raw, id))[e] == if Touches(e, id) then multiset(raw)[e] else 0
    ensures e in Touchers(raw, id) <==> e in raw && Touches(e, id)
  {
    if raw != [] {
      TouchersCount(raw[1..], id, e);
      assert raw == [raw[0]] + raw[1..];
    }
  }

  lemma TouchersByMultiset(raw: seq<RawEntry>, raw': seq<RawEntry>, id: string)
    requires multiset(raw) == multiset(raw')
    ensures multiset(Touchers(raw, id)) == multiset(Touchers(raw', id))
    ensures |Touchers(raw, id)| == |Touchers(raw', id)|
    ensures forall e :: e in Touchers(raw, id) <==> e in Touchers(raw', id)
  {
    var ts, ts' := Touchers(raw, id), Touchers(raw', id);
    forall e
      ensures multiset(ts)[e] == multiset(ts')[e] && (e in ts <==> e in ts')
    {
      TouchersCount(raw, id, e);
      TouchersCount(raw', id, e);
      assert e in raw <==> e in multiset(raw);
    }
    assert multiset(ts) == multiset(ts');
    assert |multiset(ts)| == |ts| && |multiset(ts')| == |ts'|;
  }

  /** Only claims touch the id, or only silent elements do, and all of them decode to the same agent. */
  predicate OrderFree(ts: seq<RawEntry>) {
    AllClaim(ts) || forall e :: e in ts ==> e.Silent? && Decoded(e) == Decoded(ts[0])
  }

  /** When document order decides nothing. Shuffling the elements keeps the same survivors, for every shuffle, exactly
      when each id is order-free. */
  lemma {:induction false} OrderDoesNotMatter(raw: seq<RawEntry>)
    ensures (forall raw' :: multiset(raw') == multiset(raw) ==> Survivors(raw') == Survivors(raw))
            <==> forall id :: OrderFree(Touchers(raw, id))
  {
    if forall id :: OrderFree(Touchers(raw, id)) {
      forall raw' | multiset(raw') == multiset(raw)
        ensures Survivors(raw') == Survivors(raw)
      {
        forall id
          ensures Lookup(Survivors(raw'), id) == Lookup(Survivors(raw), id)
        {
          OrderFreeKept(raw, raw', id);
        }
        LookupDetermines(Survivors(raw'), Survivors(raw));
      }
    } else {
      var id :| !OrderFree(Touchers(raw, id));
      var raw1, raw2 := TwoOrders(raw, id);
      assert Survivors(raw1) != Survivors(raw2);
    }
  }

  lemma LookupDetermines(m: map<string, Agent>, n: map<string, Agent>)
    requires forall id :: Lookup(m, id) == Lookup(n, id)
    ensures m == n
  {
    forall id
      ensures (id in m <==> id in n) && (id in m ==> m[id] == n[id])
    {
      assert Lookup(m, id) == Lookup(n, id);
    }
  }

  lemma {:induction false} OrderFreeKept(raw: seq<RawEntry>, raw': seq<RawEntry>, id: string)
    requires multiset(raw') == multiset(raw) && OrderFree(Touchers(raw, id))
    ensures Lookup(Survivors(raw'), id) == Lookup(Survivors(raw), id)
  {
    PassIsTheRule(raw);
    PassIsTheRule(raw');
    TouchersByMultiset(raw, raw', id);
    KeptOfShuffle(Touchers(raw, id), Touchers(raw', id));
  }

  lemma KeptOfShuffle(ts: seq<RawEntry>, ts': seq<RawEntry>)
    requires OrderFree(ts) && |ts| == |ts'| && forall e :: e in ts <==> e in ts'
    ensures Kept(ts) == Kept(ts')
  {
    if ts != [] {
      assert ts'[|ts'| - 1] in ts && ts[|ts| - 1] in ts';
      if |ts| == 1 { assert ts'[0] == ts[0]; }
    }
  }

  /** Two orders of the same document that leave an id with different agents. */
  lemma {:induction false} TwoOrders(raw: seq<RawEntry>, id: string) returns (raw1: seq<RawEntry>, raw2: seq<RawEntry>)
    requires !OrderFree(Touchers(raw, id))
    ensures multiset(raw1) == multiset(raw2) == multiset(raw)
    ensures Lookup(Survivors(raw1), id) != Lookup(Survivors(raw2), id)
  {
    var ts := Touchers(raw, id);
    var e :| e in ts && e.Silent?;
    var f :| f in ts && (f.Claiming? || Decoded(f) != Decoded(e));
    raw1 := MovedLast(raw, id, e);
    raw2 := MovedLast(raw, id, f);
    assert Touches(e, id);
    TwoTouchers(ts, e, f);
  }

  lemma TwoTouchers(ts: seq<RawEntry>, e: RawEntry, f: RawEntry)
    requires e in ts && f in ts && e != f
    ensures |ts| > 1
  {
  }

  /** The same document with one of its elements moved to the end. */
  lemma {:induction false} MovedLast(raw: seq<RawEntry>, id: string, e: RawEntry) returns (raw': seq<RawEntry>)
    requires e in Touchers(raw, id)
    ensures multiset(raw') == multiset(raw)
    ensures Lookup(Survivors(raw'), id)
            == if e.Silent? || |Touchers(raw, id)| == 1 then Decoded(e) else None
  {
    TouchersCount(raw, id, e);
    var rest := WithoutOne(raw, e);
    raw' := rest + [e];
    TouchersByMultiset(raw, raw', id);
    TouchersSnoc(rest, e, id);
    assert Touches(e, id);
    PassIsTheRule(raw');
    assert Lookup(Survivors(raw'), id) == Kept(Touchers(raw', id));
  }

  lemma WithoutOne(raw: seq<RawEntry>, e: RawEntry) returns (rest: seq<RawEntry>)
    requires e in raw
    ensures multiset(rest + [e]) == multiset(raw)
  {
    var k :| 0 <= k < |raw| && raw[k] == e;
    rest := raw[..k] + raw[k + 1..];
    assert raw == raw[..k] + [e] + raw[k + 1..];
  }

  /** A silent element that decodes takes its id whatever came before, whether the id was free, live or poisoned, and no
      warning says so. */
  lemma {:induction false} SilentElementTakesOver(raw: seq<RawEntry>, a: Agent)
    ensures var doc := raw + [Silent(Some(a))];
            Finish(TakeAll(Start, doc)) == (Survivors(raw)[a.id := a], Finish(TakeAll(Start, raw)).1)
  {
    TakeAllSnoc(Start, raw, Silent(Some(a)));
    AgentsInsert(TakeAll(Start, raw).byId, a);
  }

  lemma AgentsInsert(byId: Slots, a: Agent)
    ensures Agents(byId[a.id := Some(a)]) == Agents(byId)[a.id := a]
  {
    assert Agents(byId[a.id := Some(a)]).Keys == Agents(byId)[a.id := a].Keys;
  }

  // ----- the accounts -----

  /** A silent element that decodes to an id which, as the document stands before it, some agent holds. */
  predicate Replaces(front: seq<RawEntry>, e: RawEntry) {
    e.Silent? && e.agent.Some? && Kept(Touchers(front, e.agent.value.id)).Some?
  }

  function Replacements(raw: seq<RawEntry>): nat
    decreases |raw|
  {
    if raw == [] then 0
    else
      var front, e := raw[..|raw| - 1], raw[|raw| - 1];
      Replacements(front) + if Replaces(front, e) then 1 else 0
  }

  lemma {:induction false} NoReplacements(raw: seq<RawEntry>)
    ensures Replacements(raw) == 0 <==> forall k :: 0 <= k < |raw| ==> !Replaces(raw[..k], raw[k])
    decreases |raw|
  {
    if raw != [] {
      var n := |raw| - 1;
      var front := raw[..n];
      NoReplacements(front);
      forall k | 0 <= k < n
        ensures Replaces(front[..k], front[k]) <==> Replaces(raw[..k], raw[k])
      {
        assert front[..k] == raw[..k];
      }
    }
  }

  lemma AgentsUpdate(byId: Slots, id: string, v: Option<Agent>)
    ensures var m, m' := Agents(byId), Agents(byId[id := v]);
            |m'| == |m| - (if id in m then 1 else 0) + (if v.Some? then 1 else 0)
  {
    var m, m' := Agents(byId), Agents(byId[id := v]);
    var ks, ks' := m.Keys, m'.Keys;
    assert ks - {id} == ks' - {id} by {
      forall k
        ensures k in ks - {id} <==> k in ks' - {id}
      {
      }
    }
    assert id in ks' <==> v.Some?;
    CardWithout(ks, id);
    CardWithout(ks', id);
    assert |m| == |ks| && |m'| == |ks'|;
  }

  lemma CardWithout(s: set<string>, x: string)
    ensures |s - {x}| == |s| - (if x in s then 1 else 0)
  {
    if x !in s { assert s - {x} == s; }
  }

  lemma {:induction false} Accounts(raw: seq<RawEntry>)
    ensures |Survivors(raw)| + TakeAll(Start, raw).dropped + Replacements(raw) == |raw|
    decreases |raw|
  {
    if raw == [] {
      assert Agents(map[]) == map[];
    } else {
      var front, e := raw[..|raw| - 1], raw[|raw| - 1];
      assert raw == front + [e];
      Accounts(front);
      TakeAllSnoc(Start, front, e);
      PassIsTheRule(front);
      if e.Silent? && e.agent.Some? {
        var id := e.agent.value.id;
        assert Lookup(Survivors(front), id) == Kept(Touchers(front, id));
      }
      TakeAccounts(TakeAll(Start, front), e);
    }
  }

  lemma TakeAccounts(acc: Acc, e: RawEntry)
    ensures var agents, after := Agents(acc.byId), Take(acc, e);
            |Agents(after.byId)| + after.dropped
            + (if e.Silent? && e.agent.Some? && e.agent.value.id in agents then 1 else 0)
            == |agents| + acc.dropped + 1
  {
    if Claimed(e).Some? { AgentsUpdate(acc.byId, Claimed(e).value, None); }
    if Decoded(e).Some? { AgentsUpdate(acc.byId, Decoded(e).value.id, Decoded(e)); }
  }

  function TotalDrops(ws: seq<Warning>): nat {
    if ws == [] then 0 else ws[0].drops + TotalDrops(ws[1..])
  }

  lemma {:induction false} TotalDropsSnoc(ws: seq<Warning>, w: Warning)
    ensures TotalDrops(ws + [w]) == TotalDrops(ws) + w.drops
  {
    if ws == [] {
      assert ws + [w] == [w];
    } else {
      assert (ws + [w])[1..] == ws[1..] + [w];
      TotalDropsSnoc(ws[1..], w);
    }
  }

  lemma {:induction false} ReportedIsNamed(acc: Acc, raw: seq<RawEntry>)
    requires acc.reported == TotalDrops(acc.warnings) && acc.reported <= acc.dropped
    requires |acc.warnings| <= MAX_REPORTED_DROP_WARNINGS &&
             forall w :: w in acc.warnings ==> !w.Remainder? && w.drops > 0
    requires |acc.warnings| < MAX_REPORTED_DROP_WARNINGS ==> acc.reported == acc.dropped
    ensures var end := TakeAll(acc, raw);
            && end.reported == TotalDrops(end.warnings) && end.reported <= end.dropped
            && |end.warnings| <= MAX_REPORTED_DROP_WARNINGS
                 && (forall w :: w in end.warnings ==> !w.Remainder? && w.drops > 0)
            && (|end.warnings| < MAX_REPORTED_DROP_WARNINGS ==> end.reported == end.dropped)
    decreases |raw|
  {
    if raw != [] {
      var next := Take(acc, raw[0]);
      if next.warnings != acc.warnings {
        TotalDropsSnoc(acc.warnings, next.warnings[|acc.warnings|]);
      }
      ReportedIsNamed(next, raw[1..]);
    }
  }

  /** Nothing disappears without being accounted for: survivors, drops and silent replacements add up to the document,
      so survivors and drops alone do exactly when no element replaces an agent that holds its id at that point of the
      document. The warnings stay at nine lines or fewer and between them stand for every drop. */
  lemma {:induction false} EveryElementIsAccountedFor(raw: seq<RawEntry>)
    ensures var end := TakeAll(Start, raw); var (agents, warnings) := Finish(end);
            && |agents| + end.dropped + Replacements(raw) == |raw|
            && (|agents| + end.dropped == |raw| <==> forall k :: 0 <= k < |raw| ==> !Replaces(raw[..k], raw[k]))
            && |warnings| <= 9 && TotalDrops(warnings) == end.dropped
            && (end.dropped > 0 <==> warnings != [])
  {
    Accounts(raw);
    NoReplacements(raw);
    ReportedIsNamed(Start, raw);
    WarningsStandForDrops(TakeAll(Start, raw));
  }

  lemma {:induction false} WarningsStandForDrops(end: Acc)
    requires end.reported == TotalDrops(end.warnings) && end.reported <= end.dropped
    requires |end.warnings| <= MAX_REPORTED_DROP_WARNINGS && forall w :: w in end.warnings ==> w.drops > 0
    ensures var warnings := Finish(end).1;
            |warnings| <= 9 && TotalDrops(warnings) == end.dropped && (end.dropped > 0 <==> warnings != [])
  {
    if end.dropped > end.reported { TotalDropsSnoc(end.warnings, Remainder(end.dropped - end.reported)); }
    if end.warnings != [] {
      assert end.warnings[0] in end.warnings;
      TotalDropsPositive(end.warnings);
    }
  }

  lemma TotalDropsPositive(ws: seq<Warning>)
    requires ws != [] && ws[0].drops > 0
    ensures TotalDrops(ws) > 0
  {
  }

  // ----- what the warnings say -----

  /** The line an element deserves, given the document before it: a repeated claim names its id and drops the agent that
      held it as well; an element that does not decode names the id it claims, if any. */
  function LineFor(front: seq<RawEntry>, e: RawEntry): seq<Warning> {
    if e.Claiming? && Touchers(front, e.id) != [] then
      [DuplicateId(e.id, if Kept(Touchers(front, e.id)).Some? then 2 else 1)]
    else match e
      case Claiming(id, None) => [InvalidEntry(Some(id), 1)]
      case Silent(None) => [InvalidEntry(None, 1)]
      case _ => []
  }

  function Lines(raw: seq<RawEntry>): seq<Warning>
    decreases |raw|
  {
    if raw == [] then [] else Lines(raw[..|raw| - 1]) + LineFor(raw[..|raw| - 1], raw[|raw| - 1])
  }

  function FirstEight(lines: seq<Warning>): seq<Warning> {
    if |lines| <= 8 then lines else lines[..8]
  }

  lemma {:induction false} TakeLine(acc: Acc, front: seq<RawEntry>, e: RawEntry)
    requires Keeps(acc.byId, front)
    ensures var w := LineFor(front, e);
            Take(acc, e)
            == if w == [] then acc.(byId := Take(acc, e).byId) else Drop(acc, Take(acc, e).byId, w[0].drops, w[0])
    ensures |LineFor(front, e)| <= 1
  {
    if e.Claiming? {
      assert e.id in acc.byId <==> Touchers(front, e.id) != [];
    }
  }

  lemma {:induction false} TotalDropsAppend(a: seq<Warning>, b: seq<Warning>)
    ensures TotalDrops(a + b) == TotalDrops(a) + TotalDrops(b)
  {
    if a == [] {
      assert a + b == b;
    } else {
      assert (a + b)[0] == a[0] && (a + b)[1..] == a[1..] + b;
      TotalDropsAppend(a[1..], b);
    }
  }

  lemma {:induction false} PassWarns(raw: seq<RawEntry>)
    ensures var end := TakeAll(Start, raw);
            && end.warnings == FirstEight(Lines(raw)) && end.dropped == TotalDrops(Lines(raw))
            && end.reported == TotalDrops(FirstEight(Lines(raw)))
    decreases |raw|
  {
    if raw != [] {
      var front, e := raw[..|raw| - 1], raw[|raw| - 1];
      assert raw == front + [e];
      PassWarns(front);
      PassKeeps(front);
      TakeAllSnoc(Start, front, e);
      TakeLine(TakeAll(Start, front), front, e);
      NextLine(Lines(front), LineFor(front, e));
    }
  }

  lemma NextLine(lines: seq<Warning>, w: seq<Warning>)
    requires |w| <= 1
    ensures TotalDrops(lines + w) == TotalDrops(lines) + if w == [] then 0 else w[0].drops
    ensures FirstEight(lines + w) == FirstEight(lines) + if |lines| < 8 then w else []
    ensures TotalDrops(FirstEight(lines + w))
            == TotalDrops(FirstEight(lines)) + if |lines| < 8 && w != [] then w[0].drops else 0
  {
    TotalDropsAppend(lines, w);
    TotalDropsAppend(FirstEight(lines), if |lines| < 8 then w else []);
    if w != [] { assert w == [w[0]] && w[1..] == []; }
  }

  /** Each warning names what it should: the first eight of the lines the document deserves, in order, and then one that
      counts what the others drop. */
  lemma {:induction false} WarningsNameDrops(raw: seq<RawEntry>)
    ensures var lines, warnings := Lines(raw), Finish(TakeAll(Start, raw)).1;
            warnings == if |lines| <= 8 then lines else lines[..8] + [Remainder(TotalDrops(lines[8..]))]
  {
    var lines := Lines(raw);
    PassWarns(raw);
    if |lines| > 8 {
      assert lines == lines[..8] + lines[8..];
      TotalDropsAppend(lines[..8], lines[8..]);
      LinesDrop(raw);
      TotalDropsPositive(lines[8..]);
    }
  }

  lemma {:induction false} LinesDrop(raw: seq<RawEntry>)
    ensures forall i :: 0 <= i < |Lines(raw)| ==> Lines(raw)[i].drops > 0
    decreases |raw|
  {
    if raw != [] { LinesDrop(raw[..|raw| - 1]); }
  }
}
