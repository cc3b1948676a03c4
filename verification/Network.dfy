/**
 The egress allowlist: wide scopes (built-in, user) set it, narrow ones (project, workspace) may only shrink it. Each
 layer is what its file yields: nothing about the allowlist, a list of hosts, or an error.
*/
module NetworkConfigs {
  import opened Types
  import opened ConfigScopes

  datatype Reading = Silent | Hosts(hosts: seq<string>) | Broken

  type Layer = Scoped<Reading>

  datatype LoadError = BrokenLayer(scope: Scope)

  predicate IsWide(s: Scope) {
    s == Builtin || s == UserGlobal
  }

  // ----- comparing host entries -----

  function LowerChar(c: char): char {
    if 'A' <= c <= 'Z' then (c as int + 32) as char else c
  }

  function Lower(s: string): (r: string)
    ensures |r| == |s| && forall i :: 0 <= i < |s| ==> r[i] == LowerChar(s[i])
  {
    if s == [] then [] else [LowerChar(s[0])] + Lower(s[1..])
  }

  function StripDot(s: string): string {
    if s != [] && s[|s| - 1] == '.' then s[..|s| - 1] else s
  }

  /** Lower case, less one trailing dot. The egress proxy normalises hosts in the same way. */
  function Normalize(host: string): string {
    Lower(StripDot(host))
  }

  predicate EndsWith(s: string, suffix: string) {
    |suffix| <= |s| && s[|s| - |suffix|..] == suffix
  }

  predicate IsWild(s: string) {
    "*." <= s
  }

  /** A domain suffix matches itself and everything below it; the empty suffix matches everything. */
  predicate InDomain(host: string, suffix: string) {
    suffix == "" || host == suffix || EndsWith(host, "." + suffix)
  }

  /** Whether a narrow entry keeps a wide one. */
  predicate EntryCovers(narrower: string, wider: string) {
    var w, n := Normalize(wider), Normalize(narrower);
    if IsWild(n) then InDomain(w, n[2..]) else n == w
  }

  // ----- what an entry lets through -----

  predicate AllDots(s: string) {
    forall i :: 0 <= i < |s| ==> s[i] == '.'
  }

  /** Entries the egress policy refuses to turn into a pattern: a bare star, or a wildcard with nothing behind it. */
  predicate Skipped(entry: string) {
    entry == "*" || (IsWild(entry) && AllDots(entry[2..]))
  }

  /** Whether the egress policy built from this one entry lets `host` through. */
  predicate Matches(entry: string, host: string) {
    !Skipped(entry) &&
    if IsWild(entry) then InDomain(Normalize(host), Normalize(entry[2..])) else Normalize(host) == Normalize(entry)
  }

  predicate PolicyMatches(entries: seq<string>, host: string) {
    exists e :: e in entries && Matches(e, host)
  }

  // ----- loading -----

  predicate CoveredBy(hosts: seq<string>, wider: string) {
    exists n :: n in hosts && EntryCovers(n, wider)
  }

  /** `retain`: the entries of `wide` some entry of `hosts` covers, in order. */
  function Retain(wide: seq<string>, hosts: seq<string>): seq<string> {
    if wide == [] then []
    else (if CoveredBy(hosts, wide[0]) then [wide[0]] else []) + Retain(wide[1..], hosts)
  }

  function Apply(allowed: seq<string>, l: Layer): Result<seq<string>, LoadError> {
    match l.reading
    case Silent => Ok(allowed)
    case Broken => if IsWide(l.scope) then Err(BrokenLayer(l.scope)) else Ok(allowed)
    case Hosts(hosts) => Ok(if IsWide(l.scope) then hosts else Retain(allowed, hosts))
  }

  function Fold(allowed: seq<string>, layers: seq<Layer>): Result<seq<string>, LoadError>
    decreases |layers|
  {
    if layers == [] then Ok(allowed)
    else
      var r := Apply(allowed, layers[0]);
      if r.Err? then r else Fold(r.value, layers[1..])
  }

  lemma RetainNext(wide: seq<string>, hosts: seq<string>, i: nat, kept: seq<string>)
    requires i < |wide|
    ensures kept + Retain(wide[i..], hosts)
            == (if CoveredBy(hosts, wide[i]) then kept + [wide[i]] else kept) + Retain(wide[i + 1..], hosts)
  {
    assert wide[i..][0] == wide[i] && wide[i..][1..] == wide[i + 1..];
  }

  method RetainCovered(wide: seq<string>, hosts: seq<string>) returns (kept: seq<string>)
    ensures kept == Retain(wide, hosts)
  {
    kept := [];
    for i := 0 to |wide|
      invariant kept + Retain(wide[i..], hosts) == Retain(wide, hosts)
    {
      RetainNext(wide, hosts, i, kept);
      var covered := AnyCovers(hosts, wide[i]);
      if covered { kept := kept + [wide[i]]; }
    }
  }

  method AnyCovers(hosts: seq<string>, wider: string) returns (found: bool)
    ensures found <==> CoveredBy(hosts, wider)
  {
    for j := 0 to |hosts|
      invariant forall n :: n in hosts[..j] ==> !EntryCovers(n, wider)
    {
      if EntryCovers(hosts[j], wider) {
        return true;
      }
      assert hosts[..j + 1] == hosts[..j] + [hosts[j]];
    }
    assert hosts[..|hosts|] == hosts;
    return false;
  }

  method LoadNetworkConfig(layers: seq<Layer>) returns (r: Result<seq<string>, LoadError>)
    ensures r == Fold([], Sorted(layers))
  {
    var sorted := Sorted(layers);
    var allowed: seq<string> := [];
    for i := 0 to |sorted|
      invariant Fold(allowed, sorted[i..]) == Fold([], sorted)
    {
      var l := sorted[i];
      assert sorted[i..][0] == l && sorted[i..][1..] == sorted[i + 1..];
      match l.reading
      case Silent =>
      case Broken =>
        if IsWide(l.scope) {
          return Err(BrokenLayer(l.scope));
        }
      case Hosts(hosts) =>
        if IsWide(l.scope) {
          allowed := hosts;
        } else {
          allowed := RetainCovered(allowed, hosts);
        }
    }
    return Ok(allowed);
  }

  // ----- the loaded list, said without the loop -----

  /** The host list the widest-to-narrowest reading ends its wide part with. */
  function LastSet(start: seq<string>, layers: seq<Layer>): seq<string>
    decreases |layers|
  {
    if layers == [] then start
    else LastSet(if layers[0].reading.Hosts? then layers[0].reading.hosts else start, layers[1..])
  }

  function WideList(layers: seq<Layer>): seq<string> {
    LastSet([], OfScope(layers, Builtin) + OfScope(layers, UserGlobal))
  }

  /** An entry survives when every readable narrow list covers it. */
  predicate Survives(layers: seq<Layer>, entry: string) {
    forall l :: l in layers && !IsWide(l.scope) && l.reading.Hosts? ==> CoveredBy(l.reading.hosts, entry)
  }

  function Survivors(layers: seq<Layer>, wide: seq<string>): seq<string> {
    if wide == [] then [] else (if Survives(layers, wide[0]) then [wide[0]] else []) + Survivors(layers, wide[1..])
  }

  predicate WideBroken(layers: seq<Layer>) {
    exists l :: l in layers && IsWide(l.scope) && l.reading.Broken?
  }

  lemma {:induction false} FoldSplit(allowed: seq<string>, a: seq<Layer>, b: seq<Layer>)
    ensures Fold(allowed, a + b) == var r := Fold(allowed, a); if r.Err? then r else Fold(r.value, b)
    decreases |a|
  {
    if a == [] {
      assert a + b == b;
    } else {
      assert (a + b)[0] == a[0] && (a + b)[1..] == a[1..] + b;
      var r := Apply(allowed, a[0]);
      if r.Ok? { FoldSplit(r.value, a[1..], b); }
    }
  }

  lemma {:induction false} FoldWide(allowed: seq<string>, wide: seq<Layer>)
    requires forall l :: l in wide ==> IsWide(l.scope)
    ensures Fold(allowed, wide).Ok? <==> forall l :: l in wide ==> !l.reading.Broken?
    ensures Fold(allowed, wide).Ok? ==> Fold(allowed, wide).value == LastSet(allowed, wide)
    decreases |wide|
  {
    if wide != [] {
      assert wide == [wide[0]] + wide[1..];
      var r := Apply(allowed, wide[0]);
      if r.Ok? { FoldWide(r.value, wide[1..]); }
    }
  }

  /** Retaining twice keeps what both lists cover. */
  lemma {:induction false} SurvivorsStep(wide: seq<string>, l: Layer, rest: seq<Layer>)
    requires !IsWide(l.scope)
    ensures Survivors([l] + rest, wide)
            == Survivors(rest, if l.reading.Hosts? then Retain(wide, l.reading.hosts) else wide)
  {
    if wide != [] {
      SurvivorsStep(wide[1..], l, rest);
      SurvivesCons(l, rest, wide[0]);
      if l.reading.Hosts? {
        var kept, tail := Retain(wide, l.reading.hosts), Retain(wide[1..], l.reading.hosts);
        if CoveredBy(l.reading.hosts, wide[0]) {
          assert kept[0] == wide[0] && kept[1..] == tail;
        } else {
          assert kept == tail;
        }
      }
    }
  }

  lemma SurvivesCons(l: Layer, rest: seq<Layer>, entry: string)
    ensures Survives([l] + rest, entry) <==>
            Survives(rest, entry) && (!IsWide(l.scope) && l.reading.Hosts? ==> CoveredBy(l.reading.hosts, entry))
  {
    assert ([l] + rest)[0] == l;
    assert forall x :: x in [l] + rest <==> x == l || x in rest;
  }

  lemma {:induction false} FoldNarrow(allowed: seq<string>, narrow: seq<Layer>)
    requires forall l :: l in narrow ==> !IsWide(l.scope)
    ensures Fold(allowed, narrow) == Ok(Survivors(narrow, allowed))
    decreases |narrow|
  {
    if narrow == [] {
      AllSurvive(allowed);
    } else {
      assert narrow == [narrow[0]] + narrow[1..];
      SurvivorsStep(allowed, narrow[0], narrow[1..]);
      FoldNarrow(Apply(allowed, narrow[0]).value, narrow[1..]);
    }
  }

  lemma {:induction false} AllSurvive(wide: seq<string>)
    ensures Survivors([], wide) == wide
  {
    if wide != [] { AllSurvive(wide[1..]); }
  }

  lemma {:induction false} SurvivorsSame(a: seq<Layer>, b: seq<Layer>, wide: seq<string>)
    requires forall e :: Survives(a, e) <==> Survives(b, e)
    ensures Survivors(a, wide) == Survivors(b, wide)
  {
    if wide != [] { SurvivorsSame(a, b, wide[1..]); }
  }

  /** Loading fails exactly when a wide layer is broken; otherwise the result is the last wide list, in its own order
      and spelling, less the entries some readable narrow layer does not cover. Broken narrow layers count as absent,
      and the order of narrow layers does not matter. */
  lemma {:induction false} LoadIsNarrowing(layers: seq<Layer>)
    ensures Fold([], Sorted(layers)).Err? <==> WideBroken(layers)
    ensures !WideBroken(layers) ==> Fold([], Sorted(layers)) == Ok(Survivors(layers, WideList(layers)))
  {
    var wide := OfScope(layers, Builtin) + OfScope(layers, UserGlobal);
    var narrow := OfScope(layers, Project) + OfScope(layers, Workspace);
    OfScopeMembers(layers, Builtin);
    OfScopeMembers(layers, UserGlobal);
    OfScopeMembers(layers, Project);
    OfScopeMembers(layers, Workspace);
    assert Sorted(layers) == wide + narrow;
    FoldSplit([], wide, narrow);
    FoldWide([], wide);
    if !WideBroken(layers) {
      FoldNarrow(LastSet([], wide), narrow);
      forall e
        ensures Survives(layers, e) <==> Survives(narrow, e)
      {
        assert forall l: Layer :: !IsWide(l.scope) ==> (l in narrow <==> l in layers);
      }
      SurvivorsSame(layers, narrow, LastSet([], wide));
    }
  }

  lemma {:induction false} SurvivorsMembers(layers: seq<Layer>, wide: seq<string>)
    ensures forall e :: e in Survivors(layers, wide) <==> e in wide && Survives(layers, e)
  {
    if wide != [] {
      SurvivorsMembers(layers, wide[1..]);
      assert wide == [wide[0]] + wide[1..];
    }
  }

  /** A failed load names the widest broken scope. */
  lemma {:induction false} FailureNamesTheWidest(layers: seq<Layer>)
    requires WideBroken(layers)
    ensures Fold([], Sorted(layers))
            == Err(BrokenLayer(if exists l :: l in layers && l.scope == Builtin && l.reading.Broken? then Builtin
                               else UserGlobal))
  {
    var a, b := OfScope(layers, Builtin), OfScope(layers, UserGlobal);
    var rest := OfScope(layers, Project) + OfScope(layers, Workspace);
    OfScopeMembers(layers, Builtin);
    OfScopeMembers(layers, UserGlobal);
    assert Sorted(layers) == a + (b + rest);
    FoldSplit([], a, b + rest);
    FailsWith([], a, Builtin);
    if Fold([], a).Ok? {
      FoldSplit(Fold([], a).value, b, rest);
      FailsWith(Fold([], a).value, b, UserGlobal);
      var l :| l in layers && IsWide(l.scope) && l.reading.Broken?;
      assert l in b;
    }
  }

  lemma {:induction false} FailsWith(allowed: seq<string>, layers: seq<Layer>, s: Scope)
    requires IsWide(s) && forall l :: l in layers ==> l.scope == s
    ensures Fold(allowed, layers).Err? <==> exists l :: l in layers && l.reading.Broken?
    ensures Fold(allowed, layers).Err? ==> Fold(allowed, layers) == Err(BrokenLayer(s))
    decreases |layers|
  {
    if layers != [] {
      assert layers == [layers[0]] + layers[1..];
      var r := Apply(allowed, layers[0]);
      if r.Ok? { FailsWith(r.value, layers[1..], s); }
    }
  }

  // ----- how names are read -----

  /** The same but for the case of letters `A` to `Z`. */
  predicate SameButCase(a: string, b: string) {
    |a| == |b| && forall i :: 0 <= i < |a| ==>
      || a[i] == b[i]
      || ('A' <= a[i] <= 'Z' && b[i] as int == a[i] as int + 32)
      || ('A' <= b[i] <= 'Z' && a[i] as int == b[i] as int + 32)
  }

  /** Names are read without regard to case and to one trailing dot, and to nothing else. */
  lemma {:induction false} NamesReadAlike(a: string, b: string)
    ensures Normalize(a) == Normalize(b)
            <==> SameButCase(if a != "" && a[|a| - 1] == '.' then a[..|a| - 1] else a,
                             if b != "" && b[|b| - 1] == '.' then b[..|b| - 1] else b)
  {
    var s, t := StripDot(a), StripDot(b);
    if SameButCase(s, t) {
      assert Lower(s) == Lower(t);
    }
    if Lower(s) == Lower(t) {
      assert |s| == |Lower(s)| == |t|;
      forall i | 0 <= i < |s|
        ensures LowerChar(s[i]) == LowerChar(t[i])
      {
        assert Lower(s)[i] == Lower(t)[i];
      }
    }
  }

  /** A bare star, and a star prefix with nothing but dots behind it, let nothing through. */
  lemma EmptyEntriesMatchNothing(entry: string, host: string)
    requires entry == "*" || ("*." <= entry && forall i :: 2 <= i < |entry| ==> entry[i] == '.')
    ensures !Matches(entry, host)
  {
  }

  /** An entry without a star prefix lets through exactly the hosts that read like it. */
  lemma ExactEntryMatches(entry: string, host: string)
    requires entry != "*" && !("*." <= entry)
    ensures Matches(entry, host) <==> Normalize(host) == Normalize(entry)
  {
  }

  /** A star entry lets through exactly the name behind the star and the names that end in it after a dot. */
  lemma StarEntryMatches(name: string, host: string)
    requires name != "" && name != "."
    requires exists i :: 0 <= i < |name| && name[i] != '.'
    ensures Matches("*." + name, host)
            <==> Normalize(host) == Normalize(name) || exists x :: Normalize(host) == x + "." + Normalize(name)
  {
    var entry := "*." + name;
    var h, s := Normalize(host), Normalize(name);
    assert entry[2..] == name;
    WildChars(entry);
    NormalizeEmpty(name);
    SuffixSpelled(h, s);
  }

  lemma SuffixSpelled(h: string, s: string)
    requires s != ""
    ensures InDomain(h, s) <==> h == s || exists x :: h == x + "." + s
  {
    var ds := "." + s;
    if EndsWith(h, ds) {
      assert h == h[..|h| - |ds|] + h[|h| - |ds|..];
      assert h == h[..|h| - |ds|] + "." + s;
    }
    if x :| h == x + "." + s {
      assert h == x + ds && h[|h| - |ds|..] == ds;
    }
  }

  /** Entries that read alike cover each other. */
  lemma AlikeEntriesCover(a: string, b: string)
    requires Normalize(a) == Normalize(b)
    ensures EntryCovers(a, b) && EntryCovers(b, a)
  {
    var n := Normalize(a);
    if IsWild(n) {
      WildChars(n);
      assert n[1..] == "." + n[2..];
    }
  }

  // ----- what the narrowing means for hosts -----

  lemma LowerTwice(s: string)
    ensures Lower(Lower(s)) == Lower(s)
  {
  }

  lemma LowerFixes(c: char)
    ensures (LowerChar(c) == '*' <==> c == '*') && (LowerChar(c) == '.' <==> c == '.')
  {
  }

  lemma WildChars(t: string)
    ensures IsWild(t) <==> |t| > 1 && t[0] == '*' && t[1] == '.'
  {
  }

  lemma LowerWild(t: string)
    ensures IsWild(Lower(t)) <==> IsWild(t)
    ensures IsWild(t) ==> Lower(t) == "*." + Lower(t[2..])
    ensures Lower(t) == "*" <==> t == "*"
  {
    WildChars(t);
    WildChars(Lower(t));
    if |t| > 0 { LowerFixes(t[0]); }
    if |t| > 1 {
      LowerFixes(t[1]);
      assert Lower(t) == [LowerChar(t[0]), LowerChar(t[1])] + Lower(t[2..]);
    }
  }

  /** Normalising never makes or unmakes a wildcard, except that `*.` loses its dot. */
  lemma NormalizeWild(s: string)
    ensures IsWild(Normalize(s)) <==> IsWild(s) && |s| > 2
    ensures IsWild(s) && |s| > 2 ==> Normalize(s) == "*." + Normalize(s[2..])
    ensures IsWild(s) && |s| == 2 ==> Normalize(s) == "*"
    ensures Normalize(s) == "*" ==> s == "*" || s == "*."
  {
    LowerWild(StripDot(s));
    if IsWild(s) && |s| > 2 { assert StripDot(s[2..]) == StripDot(s)[2..]; }
  }

  lemma NormalizeEmpty(s: string)
    ensures Normalize(s) == "" <==> s == "" || s == "."
  {
  }

  /** Every normalised name is the normal form of some host. */
  lemma SomeHost(s: string) returns (h: string)
    ensures Normalize(h) == Normalize(s)
  {
    h := Normalize(s) + ".";
    assert StripDot(h) == Normalize(s);
    LowerTwice(StripDot(s));
  }

  lemma DomainTrans(h: string, t: string, s: string)
    requires s != "" && t != "" && InDomain(h, t) && InDomain(t, s)
    ensures InDomain(h, s)
  {
    if h != t && t != s {
      var dt, ds := "." + t, "." + s;
      assert h[|h| - |dt|..] == dt;
      assert dt[|dt| - |ds|..] == t[|t| - |ds|..];
      assert h[|h| - |ds|..] == dt[|dt| - |ds|..];
    }
  }

  /** Stripping the star from a covered wildcard leaves a covered domain, unless the star itself was matched. */
  lemma StarInDomain(t: string, s: string)
    requires s != ""
    ensures InDomain("*." + t, s) <==> InDomain(t, s) || s == "*." + t
  {
    var w, ds := "*." + t, "." + s;
    assert w[0] != ds[0];
    if EndsWith(w, ds) {
      if |ds| <= |t| {
        assert w[|w| - |ds|..] == t[|t| - |ds|..];
      } else if |ds| == |t| + 1 {
        assert w[1..] == "." + t;
        assert ds[1..] == s && ("." + t)[1..] == t;
      }
    }
    if t == s { assert w[1..] == ds; }
    if EndsWith(t, ds) { assert w[|w| - |ds|..] == t[|t| - |ds|..]; }
  }

  /** A wildcard entry whose own suffix begins with the star of the wide wildcard it covers. */
  predicate NestedStar(narrower: string, wider: string) {
    IsWild(narrower) && IsWild(wider) && Normalize(narrower[2..]) == Normalize(wider)
  }

  predicate Contained(wider: string, narrower: string, host: string) {
    Matches(wider, host) ==> Matches(narrower, host)
  }

  /** Covering is containment of the hosts let through, exactly when the wide entry is no pattern at all, or the
      narrow one is a pattern and does not nest a star. */
  lemma CoverIsContainment(narrower: string, wider: string)
    requires EntryCovers(narrower, wider)
    ensures (forall h :: Contained(wider, narrower, h))
            <==> Skipped(wider) || (!Skipped(narrower) && !NestedStar(narrower, wider))
  {
    NormalizeWild(wider);
    NormalizeWild(narrower);
    if !Skipped(wider) {
      if IsWild(narrower) {
        WildCover(narrower, wider);
      } else {
        assert forall h :: Matches(wider, h) <==> Matches(narrower, h);
      }
    }
  }

  /** For entries that are patterns at all, the test misses nothing: one contains the other exactly when the test says
      so and no star is nested. */
  lemma ContainmentIsCover(narrower: string, wider: string)
    requires !Skipped(narrower) && !Skipped(wider)
    ensures (forall h :: Contained(wider, narrower, h))
            <==> EntryCovers(narrower, wider) && !NestedStar(narrower, wider)
  {
    if EntryCovers(narrower, wider) {
      CoverIsContainment(narrower, wider);
    } else if forall h :: Contained(wider, narrower, h) {
      var h := Uncovered(narrower, wider);
    }
  }

  /** A host the wide entry lets through and the narrow one does not. */
  lemma Uncovered(narrower: string, wider: string) returns (h: string)
    requires !Skipped(narrower) && !Skipped(wider) && !EntryCovers(narrower, wider)
    ensures !Contained(wider, narrower, h)
  {
    NormalizeWild(wider);
    NormalizeWild(narrower);
    h := LiveEntryMatches(wider);
    if IsWild(narrower) {
      NormalizeEmpty(narrower[2..]);
      if IsWild(wider) { StarInDomain(Normalize(wider[2..]), Normalize(narrower[2..])); }
    } else if IsWild(wider) && Normalize(h) == Normalize(narrower) {
      h := "a." + wider[2..];
      BelowSuffix(wider[2..]);
    }
  }

  /** A name below a suffix is in its domain, and is another name. */
  lemma BelowSuffix(suffix: string)
    requires suffix != ""
    ensures Normalize("a." + suffix) == "a." + Normalize(suffix)
    ensures InDomain("a." + Normalize(suffix), Normalize(suffix))
  {
    var below, t := "a." + suffix, Normalize(suffix);
    assert StripDot(below) == "a." + StripDot(suffix);
    assert Lower("a." + StripDot(suffix)) == "a." + t by {
      assert ("a." + StripDot(suffix))[1..] == "." + StripDot(suffix);
      assert ("." + StripDot(suffix))[1..] == StripDot(suffix);
    }
    assert ("a." + t)[1..] == "." + t;
  }

  lemma LiveEntryMatches(entry: string) returns (h: string)
    requires !Skipped(entry)
    ensures Matches(entry, h) && Normalize(h) == Normalize(if IsWild(entry) then entry[2..] else entry)
  {
    h := SomeHost(if IsWild(entry) then entry[2..] else entry);
  }

  lemma WildCover(narrower: string, wider: string)
    requires EntryCovers(narrower, wider) && IsWild(narrower) && |narrower| > 2 && !Skipped(wider)
    ensures (forall h :: Contained(wider, narrower, h)) <==> !Skipped(narrower) && !NestedStar(narrower, wider)
  {
    var h0 := LiveEntryMatches(wider);
    NormalizeWild(wider);
    NormalizeWild(narrower);
    NormalizeEmpty(narrower[2..]);
    if Skipped(narrower) {
      assert !Contained(wider, narrower, h0);
    } else if IsWild(wider) {
      NormalizeEmpty(wider[2..]);
      WildOverWild(Normalize(narrower[2..]), Normalize(wider[2..]));
      if NestedStar(narrower, wider) {
        assert !Contained(wider, narrower, h0);
      }
    }
  }

  /** A suffix that has another in its domain has all of that one's domain, unless it only matched the star. */
  lemma WildOverWild(s: string, t: string)
    requires s != "" && t != "" && InDomain("*." + t, s)
    ensures s != "*." + t ==> forall h :: InDomain(h, t) ==> InDomain(h, s)
    ensures s == "*." + t ==> !InDomain(t, s)
  {
    StarInDomain(t, s);
    if s != "*." + t {
      forall h | InDomain(h, t)
        ensures InDomain(h, s)
      {
        DomainTrans(h, t, s);
      }
    }
  }

  /** Entries as the documentation intends them: a star only as a leading `*.`, with a name behind it, or a bare
      star. */
  predicate Plain(entry: string) {
    entry == "*" || ((IsWild(entry) ==> !AllDots(entry[2..]))
                     && forall i :: 0 <= i < |entry| && entry[i] == '*' ==> i == 0)
  }

  lemma PlainNeverNests(narrower: string, wider: string)
    requires Plain(narrower) && IsWild(narrower)
    ensures !Skipped(narrower) && !NestedStar(narrower, wider)
  {
    var t := StripDot(narrower[2..]);
    assert narrower[2] != '*';
    if t != [] { LowerFixes(t[0]); }
    NormalizeWild(wider);
  }

  /** The point of the narrow-only rule: whatever the layers, a host the final policy lets through is let through by the
      wide list, and by every readable narrow list written in plain entries. */
  lemma NoLayerWidens(layers: seq<Layer>, l: Layer, host: string)
    requires !WideBroken(layers) && PolicyMatches(Survivors(layers, WideList(layers)), host)
    ensures PolicyMatches(WideList(layers), host)
    ensures l in layers && !IsWide(l.scope) && l.reading.Hosts? && (forall n :: n in l.reading.hosts ==> Plain(n))
            ==> PolicyMatches(l.reading.hosts, host)
  {
    var wide := WideList(layers);
    SurvivorsMembers(layers, wide);
    var e :| e in Survivors(layers, wide) && Matches(e, host);
    if l in layers && !IsWide(l.scope) && l.reading.Hosts? && (forall n :: n in l.reading.hosts ==> Plain(n)) {
      var n :| n in l.reading.hosts && EntryCovers(n, e);
      PlainCover(n, e, host);
    }
  }

  lemma PlainCover(narrower: string, wider: string, host: string)
    requires Plain(narrower) && EntryCovers(narrower, wider) && Matches(wider, host)
    ensures Matches(narrower, host)
  {
    CoverIsContainment(narrower, wider);
    NormalizeWild(wider);
    NormalizeWild(narrower);
    if IsWild(narrower) { PlainNeverNests(narrower, wider); }
    assert Contained(wider, narrower, host);
  }

  /** Two entries for which covering is not containment: a wildcard of dots keeps everything but lets nothing through,
      and a nested star keeps a wildcard it does not contain. */
  lemma OddEntries()
    ensures EntryCovers("*..", "a.b") && Matches("a.b", "a.b") && !Matches("*..", "a.b")
    ensures EntryCovers("*.*.a", "*.a") && Matches("*.a", "a") && !Matches("*.*.a", "a")
    ensures !EntryCovers("*.", "a.b")
  {
    OddSpellings();
    assert "*.."[2..] == "." && "*."[2..] == "";
    assert "*.*.a"[2..] == "*.a" && "*.a"[2..] == "a";
  }

  lemma OddSpellings()
    ensures Normalize("*..") == "*." && Normalize("a.b") == "a.b" && Normalize("*.") == "*"
    ensures Normalize("*.*.a") == "*.*.a" && Normalize("*.a") == "*.a" && Normalize("a") == "a"
  {
    assert "*.."[..2] == "*." && "*."[..1] == "*";
  }
}
