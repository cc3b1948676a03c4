/** Layered configuration: a deep merge in which a narrower layer overrides only what it says. */
module ConfigMerges {
  import opened Types
  import opened ConfigScopes

  /** A TOML value: a table, or anything else (a string, number, array, ...), which merges as one piece. */
  datatype Value = Leaf(text: string) | Table(entries: map<string, Value>)

  type Path = seq<string>

  function Entries(v: Value): map<string, Value> {
    if v.Table? then v.entries else map[]
  }

  /** What `merge_into` leaves in `base`. */
  function Merge(base: Value, overlay: Value): Value
    decreases overlay
  {
    match overlay
    case Leaf(_) => overlay
    case Table(o) =>
      var b := Entries(base);
      Table(map k | k in b.Keys + o.Keys ::
              if k !in o then b[k] else if k in b then Merge(b[k], o[k]) else o[k])
  }

  /** The order in which the overlay's keys are visited does not matter; here it is arbitrary. */
  method MergeInto(base: Value, overlay: Value) returns (merged: Value)
    ensures merged == Merge(base, overlay)
    decreases overlay
  {
    match overlay
    case Leaf(_) => merged := overlay;
    case Table(o) =>
      var b := if base.Table? then base.entries else map[];
      var out := b;
      var left := o.Keys;
      while left != {}
        invariant left <= o.Keys
        invariant out.Keys == b.Keys + (o.Keys - left)
        invariant forall k :: k in out ==>
                    out[k] == if k !in o || k in left then b[k] else if k in b then Merge(b[k], o[k]) else o[k]
      {
        ghost var some := Pick(left);
        var k :| k in left;
        left := left - {k};
        if k in out {
          var inner := MergeInto(out[k], o[k]);
          out := out[k := inner];
        } else {
          out := out[k := o[k]];
        }
      }
      merged := Table(out);
  }

  function Fold(base: Value, layers: seq<Value>): Value
    decreases |layers|
  {
    if layers == [] then base else Fold(Merge(base, layers[0]), layers[1..])
  }

  /** What a layer's file yields: it may be missing, or fail to be read or parsed. */
  datatype Reading = Missing | Broken | Parsed(value: Value)

  type Layer = Scoped<Reading>

  datatype Loaded = Loaded(value: Value, scopesPresent: seq<Scope>)

  datatype LoadError = BrokenLayer(scope: Scope)

  function Apply(loaded: Loaded, l: Layer): Result<Loaded, LoadError> {
    match l.reading
    case Missing => Ok(loaded)
    case Broken => Err(BrokenLayer(l.scope))
    case Parsed(value) => Ok(Loaded(Merge(loaded.value, value), loaded.scopesPresent + [l.scope]))
  }

  function ApplyAll(loaded: Loaded, layers: seq<Layer>): Result<Loaded, LoadError>
    decreases |layers|
  {
    if layers == [] then Ok(loaded)
    else
      var r := Apply(loaded, layers[0]);
      if r.Err? then r else ApplyAll(r.value, layers[1..])
  }

  const Nobody: Loaded := Loaded(Table(map[]), [])

  /** The loader: sort, then merge the present layers one by one, widest first. */
  method Load(layers: seq<Layer>) returns (r: Result<Loaded, LoadError>)
    ensures r == ApplyAll(Nobody, Sorted(layers))
  {
    var sorted := Sorted(layers);
    var merged, scopes := Table(map[]), [];
    for i := 0 to |sorted|
      invariant ApplyAll(Loaded(merged, scopes), sorted[i..]) == ApplyAll(Nobody, sorted)
    {
      assert sorted[i..][0] == sorted[i] && sorted[i..][1..] == sorted[i + 1..];
      match sorted[i].reading
      case Missing =>
      case Broken => return Err(BrokenLayer(sorted[i].scope));
      case Parsed(value) =>
        merged := MergeInto(merged, value);
        scopes := scopes + [sorted[i].scope];
    }
    return Ok(Loaded(merged, scopes));
  }

  /** The values of the layers that are there. */
  function Values(layers: seq<Layer>): seq<Value> {
    if layers == [] then []
    else (if layers[0].reading.Parsed? then [layers[0].reading.value] else []) + Values(layers[1..])
  }

  function Present(layers: seq<Layer>): seq<Scope> {
    if layers == [] then [] else (if layers[0].reading.Parsed? then [layers[0].scope] else []) + Present(layers[1..])
  }

  predicate SomeBroken(layers: seq<Layer>) {
    exists l :: l in layers && l.reading.Broken?
  }

  lemma {:induction false} ApplyAllIsFold(loaded: Loaded, layers: seq<Layer>)
    ensures ApplyAll(loaded, layers).Err? <==> SomeBroken(layers)
    ensures !SomeBroken(layers) ==>
              ApplyAll(loaded, layers)
              == Ok(Loaded(Fold(loaded.value, Values(layers)), loaded.scopesPresent + Present(layers)))
    decreases |layers|
  {
    if layers != [] {
      assert layers == [layers[0]] + layers[1..];
      assert SomeBroken(layers) <==> layers[0].reading.Broken? || SomeBroken(layers[1..]);
      var r := Apply(loaded, layers[0]);
      if r.Ok? {
        ApplyAllIsFold(r.value, layers[1..]);
        if layers[0].reading.Parsed? {
          assert Values(layers)[1..] == Values(layers[1..]);
          assert loaded.scopesPresent + ([layers[0].scope] + Present(layers[1..]))
              == (loaded.scopesPresent + [layers[0].scope]) + Present(layers[1..]);
        } else {
          assert Values(layers) == Values(layers[1..]) && Present(layers) == Present(layers[1..]);
        }
      }
    } else {
      assert loaded.scopesPresent + [] == loaded.scopesPresent;
    }
  }

  /** Loading fails exactly when some layer is broken; otherwise it is the left fold of the merge over the layers that
      are there, widest first, and reports their scopes in that order. */
  lemma LoadIsFold(layers: seq<Layer>)
    ensures ApplyAll(Nobody, Sorted(layers)).Err? <==> SomeBroken(layers)
    ensures !SomeBroken(layers) ==>
              ApplyAll(Nobody, Sorted(layers))
              == Ok(Loaded(Fold(Table(map[]), Values(Sorted(layers))), Present(Sorted(layers))))
  {
    SortedIsStable(layers);
    ApplyAllIsFold(Nobody, Sorted(layers));
    assert [] + Present(Sorted(layers)) == Present(Sorted(layers));
  }

  lemma {:induction false} FirstBroken(loaded: Loaded, layers: seq<Layer>, l: Layer)
    requires InOrder(layers) && l in layers && l.reading.Broken?
    requires forall m :: m in layers && m.reading.Broken? ==> Rank(l.scope) <= Rank(m.scope)
    ensures ApplyAll(loaded, layers) == Err(BrokenLayer(l.scope))
    decreases |layers|
  {
    var head := layers[0];
    assert layers == [head] + layers[1..];
    if head.reading.Broken? {
      var k :| 0 <= k < |layers| && layers[k] == l;
      assert Rank(head.scope) == Rank(l.scope);
    } else {
      FirstBroken(Apply(loaded, head).value, layers[1..], l);
    }
  }

  /** A failed load names the widest broken scope. */
  lemma FailureNamesTheWidest(layers: seq<Layer>, l: Layer)
    requires l in layers && l.reading.Broken?
    requires forall m :: m in layers && m.reading.Broken? ==> Rank(l.scope) <= Rank(m.scope)
    ensures ApplyAll(Nobody, Sorted(layers)) == Err(BrokenLayer(l.scope))
  {
    SortedIsStable(layers);
    FirstBroken(Nobody, Sorted(layers), l);
  }

  // ----- what a value has to say about a key path -----

  datatype Word = Nothing | Cut | IsLeaf(text: string) | IsTable

  /** Walking the path: it is not mentioned, a leaf further up cuts it off, or it ends on a leaf or a table. */
  function Says(v: Value, p: Path): Word
    decreases |p|
  {
    if p == [] then (match v case Leaf(t) => IsLeaf(t) case Table(_) => IsTable)
    else match v
         case Leaf(_) => Cut
         case Table(m) => if p[0] in m then Says(m[p[0]], p[1..]) else Nothing
  }

  /** What is found at a path. */
  function At(v: Value, p: Path): Word {
    var w := Says(v, p);
    if w == Cut then Nothing else w
  }

  /** One merge, path by path: where the overlay is silent the base stands, otherwise the overlay decides. */
  lemma {:induction false} MergeAt(base: Value, overlay: Value, p: Path)
    ensures At(Merge(base, overlay), p) == if Says(overlay, p) == Nothing then At(base, p) else At(overlay, p)
    decreases |p|
  {
    if p != [] && overlay.Table? && p[0] in overlay.entries && base.Table? && p[0] in base.entries {
      MergeAt(base.entries[p[0]], overlay.entries[p[0]], p[1..]);
    }
  }

  /** The word of the last layer that says anything. */
  function LastWord(layers: seq<Value>, p: Path): Word {
    if layers == [] then Nothing
    else
      var later := LastWord(layers[1..], p);
      if later != Nothing then later else Says(layers[0], p)
  }

  function Found(w: Word): Word {
    if w == Cut then Nothing else w
  }

  /** Precedence: at every path, the loaded configuration holds what the narrowest layer that speaks about that path
      says, and what the base says when none does. */
  lemma {:induction false} NarrowestWins(base: Value, layers: seq<Value>, p: Path)
    ensures At(Fold(base, layers), p)
            == if LastWord(layers, p) == Nothing then At(base, p) else Found(LastWord(layers, p))
    decreases |layers|
  {
    if layers != [] {
      NarrowestWins(Merge(base, layers[0]), layers[1..], p);
      MergeAt(base, layers[0], p);
    }
  }

  predicate Speaks(l: Layer, p: Path) {
    l.reading.Parsed? && Says(l.reading.value, p) != Nothing
  }

  lemma ValuesWord(layers: seq<Layer>, p: Path)
    requires layers != []
    ensures LastWord(Values(layers), p)
            == if LastWord(Values(layers[1..]), p) != Nothing then LastWord(Values(layers[1..]), p)
               else if layers[0].reading.Parsed? then Says(layers[0].reading.value, p)
               else Nothing
  {
    if layers[0].reading.Parsed? {
      assert Values(layers)[1..] == Values(layers[1..]);
    } else {
      assert Values(layers) == Values(layers[1..]);
    }
  }

  lemma {:induction false} AllSilent(layers: seq<Layer>, p: Path)
    requires forall l :: l in layers ==> !Speaks(l, p)
    ensures LastWord(Values(layers), p) == Nothing
  {
    if layers != [] {
      assert layers == [layers[0]] + layers[1..];
      AllSilent(layers[1..], p);
      assert layers[0] in layers && !Speaks(layers[0], p);
      ValuesWord(layers, p);
    }
  }

  lemma {:induction false} NarrowestSpeaksLast(layers: seq<Layer>, l: Layer, p: Path)
    requires InOrder(layers) && l in layers && Speaks(l, p)
    requires forall m :: m in layers && Speaks(m, p) ==> m == l || Rank(m.scope) < Rank(l.scope)
    ensures LastWord(Values(layers), p) == Says(l.reading.value, p)
  {
    var head, rest := layers[0], layers[1..];
    assert layers == [head] + rest;
    ValuesWord(layers, p);
    if l in rest {
      NarrowestSpeaksLast(rest, l, p);
    } else {
      forall m | m in rest
        ensures !Speaks(m, p)
      {
        var k :| 0 <= k < |rest| && rest[k] == m;
        assert layers[k + 1] == m && Rank(layers[0].scope) <= Rank(layers[k + 1].scope);
      }
      AllSilent(rest, p);
    }
  }

  /** In whatever order the layers are given: the one layer of narrowest scope that speaks about a path decides what the
      loaded configuration holds there, and a path nobody speaks about holds what the empty table does. */
  lemma NarrowestScopeWins(layers: seq<Layer>, loaded: Loaded, p: Path)
    requires ApplyAll(Nobody, Sorted(layers)) == Ok(loaded)
    ensures forall l :: l in layers && Speaks(l, p)
                && (forall m :: m in layers && Speaks(m, p) ==> m == l || Rank(m.scope) < Rank(l.scope))
              ==> At(loaded.value, p) == Found(Says(l.reading.value, p))
    ensures (forall l :: l in layers ==> !Speaks(l, p)) ==> At(loaded.value, p) == At(Table(map[]), p)
  {
    SortedIsStable(layers);
    LoadIsFold(layers);
    NarrowestWins(Table(map[]), Values(Sorted(layers)), p);
    forall l | l in layers && Speaks(l, p)
        && forall m :: m in layers && Speaks(m, p) ==> m == l || Rank(m.scope) < Rank(l.scope)
      ensures LastWord(Values(Sorted(layers)), p) == Says(l.reading.value, p)
    {
      NarrowestSpeaksLast(Sorted(layers), l, p);
    }
    if forall l :: l in layers ==> !Speaks(l, p) {
      AllSilent(Sorted(layers), p);
    }
  }

  // ----- paths tell everything -----

  /** Two values that agree at every path are the same value. */
  lemma {:induction false} PathsDetermine(v: Value, w: Value)
    requires forall p :: At(v, p) == At(w, p)
    ensures v == w
    decreases v
  {
    assert At(v, []) == At(w, []);
    if v.Table? {
      forall k
        ensures k in v.entries <==> k in w.entries
      {
        KeyAt(v, k);
        KeyAt(w, k);
        assert At(v, [k]) == At(w, [k]);
      }
      forall k | k in v.entries
        ensures v.entries[k] == w.entries[k]
      {
        forall p
          ensures At(v.entries[k], p) == At(w.entries[k], p)
        {
          assert ([k] + p)[1..] == p;
          assert At(v, [k] + p) == At(w, [k] + p);
        }
        PathsDetermine(v.entries[k], w.entries[k]);
      }
    }
  }

  lemma KeyAt(v: Value, k: string)
    requires v.Table?
    ensures k in v.entries <==> At(v, [k]) != Nothing
  {
    if k in v.entries {
      assert [k][1..] == [];
      assert Says(v, [k]) == Says(v.entries[k], []);
    }
  }

  /** Merging a layer a second time changes nothing. */
  lemma {:induction false} MergeIdempotent(base: Value, overlay: Value)
    ensures Merge(Merge(base, overlay), overlay) == Merge(base, overlay)
  {
    var once := Merge(base, overlay);
    forall p
      ensures At(Merge(once, overlay), p) == At(once, p)
    {
      MergeAt(base, overlay, p);
      MergeAt(once, overlay, p);
    }
    PathsDetermine(Merge(once, overlay), once);
  }

  /** Two layers commute exactly when they never contradict each other: at each path where both speak, both find the
      same thing there. */
  lemma {:induction false} MergesCommute(base: Value, a: Value, b: Value)
    ensures (forall p :: Says(a, p) != Nothing && Says(b, p) != Nothing ==> At(a, p) == At(b, p))
            <==> Merge(Merge(base, a), b) == Merge(Merge(base, b), a)
  {
    var ab, ba := Merge(Merge(base, a), b), Merge(Merge(base, b), a);
    forall p
      ensures At(ab, p) == At(ba, p) <==> (Says(a, p) != Nothing && Says(b, p) != Nothing ==> At(a, p) == At(b, p))
    {
      MergeAt(base, a, p);
      MergeAt(base, b, p);
      MergeAt(Merge(base, a), b, p);
      MergeAt(Merge(base, b), a, p);
    }
    if forall p :: Says(a, p) != Nothing && Says(b, p) != Nothing ==> At(a, p) == At(b, p) {
      PathsDetermine(ab, ba);
    }
  }

  /** Grouping matters, so the loader's left fold is not interchangeable with merging the layers among themselves
      first: a leaf between two tables erases what the first table put under it. */
  lemma GroupingMatters()
    ensures var t1, leaf, t2 := Table(map["a" := Leaf("1")]), Leaf("x"), Table(map["b" := Leaf("2")]);
            Merge(Merge(t1, leaf), t2) != Merge(t1, Merge(leaf, t2))
  {
    var t1, leaf, t2 := Table(map["a" := Leaf("1")]), Leaf("x"), Table(map["b" := Leaf("2")]);
    MergeAt(Merge(t1, leaf), t2, ["a"]);
    MergeAt(t1, Merge(leaf, t2), ["a"]);
    MergeAt(leaf, t2, ["a"]);
    KeyAt(t1, "a");
    KeyAt(t2, "a");
    KeyAt(Merge(leaf, t2), "a");
  }

  /** A merge speaks where either side speaks; only a cut of the base can be healed, by a table of the overlay. */
  lemma {:induction false} MergeSays(base: Value, overlay: Value, p: Path)
    ensures var w := Says(Merge(base, overlay), p);
            if Says(overlay, p) != Nothing then w == Says(overlay, p)
            else w == Says(base, p) || (w == Nothing && Says(base, p) == Cut)
    decreases |p|
  {
    if p != [] && overlay.Table? && p[0] in overlay.entries && base.Table? && p[0] in base.entries {
      MergeSays(base.entries[p[0]], overlay.entries[p[0]], p[1..]);
    }
  }

  /** At `n` the middle layer has a leaf and the last a table; below it, at `p`, the first has something and the last is
      silent. */
  ghost predicate Revives(a: Value, b: Value, c: Value, n: Path, p: Path) {
    n < p && Says(b, n).IsLeaf? && Says(c, n).IsTable? && Says(c, p) == Nothing && At(a, p) != Nothing
  }

  ghost predicate Healed(b: Value, c: Value, p: Path) {
    exists n :: n < p && Says(b, n).IsLeaf? && Says(c, n).IsTable?
  }

  /** Where the base cuts a path off and the overlay is silent, the merge still cuts it off, unless the leaf that did
      gave way to a table. */
  lemma {:induction false} CutSurvives(b: Value, c: Value, p: Path)
    requires Says(b, p) == Cut && Says(c, p) == Nothing
    ensures Says(Merge(b, c), p) == Cut <==> !Healed(b, c, p)
    decreases |p|
  {
    if b.Leaf? {
      assert [] < p && Says(b, []).IsLeaf? && Says(c, []).IsTable?;
    } else {
      var k, rest := p[0], p[1..];
      if k in c.entries {
        CutSurvives(b.entries[k], c.entries[k], rest);
        if Healed(b.entries[k], c.entries[k], rest) {
          var n :| n < rest && Says(b.entries[k], n).IsLeaf? && Says(c.entries[k], n).IsTable?;
          assert ([k] + n)[1..] == n && [k] + n < p;
          assert Says(b, [k] + n).IsLeaf? && Says(c, [k] + n).IsTable?;
        }
      }
      if Healed(b, c, p) {
        var n :| n < p && Says(b, n).IsLeaf? && Says(c, n).IsTable?;
        assert n != [] && n[0] == k && n[1..] < rest;
        assert k in c.entries && Says(b.entries[k], n[1..]).IsLeaf? && Says(c.entries[k], n[1..]).IsTable?;
      }
    }
  }

  lemma {:induction false} LeafCuts(b: Value, n: Path, p: Path)
    requires n < p && Says(b, n).IsLeaf?
    ensures Says(b, p) == Cut
    decreases |n|
  {
    if n != [] { LeafCuts(b.entries[p[0]], n[1..], p[1..]); }
  }

  ghost predicate RevivedAt(a: Value, b: Value, c: Value, p: Path) {
    exists n :: Revives(a, b, c, n, p)
  }

  /** When grouping does not matter: exactly when no leaf of the middle layer hides, below a table of the last one,
      something of the first that the last is silent about. */
  lemma {:induction false} GroupingIrrelevantExactly(a: Value, b: Value, c: Value)
    ensures Merge(Merge(a, b), c) == Merge(a, Merge(b, c)) <==> forall p :: !RevivedAt(a, b, c, p)
  {
    var left, right := Merge(Merge(a, b), c), Merge(a, Merge(b, c));
    forall p
      ensures At(left, p) == At(right, p) <==> !RevivedAt(a, b, c, p)
    {
      GroupingAt(a, b, c, p);
    }
    if forall p :: !RevivedAt(a, b, c, p) {
      forall p
        ensures At(left, p) == At(right, p)
      {
        assert !RevivedAt(a, b, c, p);
      }
      PathsDetermine(left, right);
    } else {
      var p :| RevivedAt(a, b, c, p);
      assert At(left, p) != At(right, p);
    }
  }

  lemma {:induction false} GroupingAt(a: Value, b: Value, c: Value, p: Path)
    ensures At(Merge(Merge(a, b), c), p) == At(Merge(a, Merge(b, c)), p) <==> !RevivedAt(a, b, c, p)
  {
    MergeAt(Merge(a, b), c, p);
    MergeAt(a, b, p);
    MergeAt(a, Merge(b, c), p);
    MergeSays(b, c, p);
    if Says(b, p) == Cut && Says(c, p) == Nothing {
      CutSurvives(b, c, p);
      if n :| n < p && Says(b, n).IsLeaf? && Says(c, n).IsTable? && At(a, p) != Nothing {
        assert Revives(a, b, c, n, p);
      }
    } else if n :| Revives(a, b, c, n, p) {
      LeafCuts(b, n, p);
    }
  }
}
