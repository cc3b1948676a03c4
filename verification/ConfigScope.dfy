/** Where a configuration layer comes from, and the order the loaders read layers in. */
module ConfigScopes {

  // In ascending order of precedence: a later scope is narrower.
  datatype Scope = Builtin | UserGlobal | Project | Workspace

  /** What one layer's file yielded, with the layer's scope. */
  datatype Scoped<+T> = Layer(scope: Scope, reading: T)

  function Rank(s: Scope): nat {
    match s
    case Builtin => 0
    case UserGlobal => 1
    case Project => 2
    case Workspace => 3
  }

  function OfScope<T>(layers: seq<Scoped<T>>, s: Scope): seq<Scoped<T>> {
    if layers == [] then [] else (if layers[0].scope == s then [layers[0]] else []) + OfScope(layers[1..], s)
  }

  /** The stable sort by scope, widest first. */
  function Sorted<T>(layers: seq<Scoped<T>>): seq<Scoped<T>> {
    OfScope(layers, Builtin) + OfScope(layers, UserGlobal) + OfScope(layers, Project) + OfScope(layers, Workspace)
  }

  ghost predicate InOrder<T>(layers: seq<Scoped<T>>) {
    forall i, j :: 0 <= i < j < |layers| ==> Rank(layers[i].scope) <= Rank(layers[j].scope)
  }

  lemma {:induction false} OfScopeMembers<T>(layers: seq<Scoped<T>>, s: Scope)
    ensures forall l :: l in OfScope(layers, s) <==> l in layers && l.scope == s
    ensures forall i :: 0 <= i < |OfScope(layers, s)| ==> OfScope(layers, s)[i].scope == s
  {
    if layers != [] {
      OfScopeMembers(layers[1..], s);
      assert layers == [layers[0]] + layers[1..];
    }
  }

  lemma {:induction false} OfScopeAppend<T>(a: seq<Scoped<T>>, b: seq<Scoped<T>>, s: Scope)
    ensures OfScope(a + b, s) == OfScope(a, s) + OfScope(b, s)
  {
    if a == [] {
      assert a + b == b;
    } else {
      OfScopeAppend(a[1..], b, s);
      assert (a + b)[0] == a[0] && (a + b)[1..] == a[1..] + b;
      var head := if a[0].scope == s then [a[0]] else [];
      assert head + (OfScope(a[1..], s) + OfScope(b, s)) == (head + OfScope(a[1..], s)) + OfScope(b, s);
    }
  }

  lemma {:induction false} OfOneScope<T>(layers: seq<Scoped<T>>, r: Scope, s: Scope)
    ensures OfScope(OfScope(layers, r), s) == if r == s then OfScope(layers, r) else []
  {
    if layers != [] {
      OfOneScope(layers[1..], r, s);
      var rest := OfScope(layers[1..], r);
      if layers[0].scope == r {
        assert OfScope(layers, r)[0] == layers[0] && OfScope(layers, r)[1..] == rest;
      } else {
        assert OfScope(layers, r) == rest;
      }
    }
  }

  lemma {:induction false} SortedInOrder<T>(layers: seq<Scoped<T>>)
    ensures InOrder(Sorted(layers))
  {
    var a, b := OfScope(layers, Builtin), OfScope(layers, UserGlobal);
    var c, d := OfScope(layers, Project), OfScope(layers, Workspace);
    OfScopeMembers(layers, Builtin);
    OfScopeMembers(layers, UserGlobal);
    OfScopeMembers(layers, Project);
    OfScopeMembers(layers, Workspace);
    OneScopeInOrder(a, Builtin);
    OneScopeInOrder(b, UserGlobal);
    OneScopeInOrder(c, Project);
    OneScopeInOrder(d, Workspace);
    OrderAppend(a, b, 1);
    OrderAppend(a + b, c, 2);
    OrderAppend(a + b + c, d, 3);
  }

  lemma {:induction false} SortedKeeps<T>(layers: seq<Scoped<T>>, s: Scope)
    ensures OfScope(Sorted(layers), s) == OfScope(layers, s)
  {
    var a, b := OfScope(layers, Builtin), OfScope(layers, UserGlobal);
    var c, d := OfScope(layers, Project), OfScope(layers, Workspace);
    OfScopeAppend(a + b + c, d, s);
    OfScopeAppend(a + b, c, s);
    OfScopeAppend(a, b, s);
    OfOneScope(layers, Builtin, s);
    OfOneScope(layers, UserGlobal, s);
    OfOneScope(layers, Project, s);
    OfOneScope(layers, Workspace, s);
  }

  /** It is the stable sort: in order, and every scope's layers are all there, in the order they came in. */
  lemma {:induction false} SortedIsStable<T>(layers: seq<Scoped<T>>)
    ensures InOrder(Sorted(layers))
    ensures forall s :: OfScope(Sorted(layers), s) == OfScope(layers, s)
    ensures forall l :: l in Sorted(layers) <==> l in layers
  {
    SortedInOrder(layers);
    forall s
      ensures OfScope(Sorted(layers), s) == OfScope(layers, s)
    {
      SortedKeeps(layers, s);
    }
    forall l
      ensures l in Sorted(layers) <==> l in layers
    {
      OfScopeMembers(Sorted(layers), l.scope);
      OfScopeMembers(layers, l.scope);
      assert l in OfScope(Sorted(layers), l.scope) <==> l in OfScope(layers, l.scope);
    }
  }

  lemma OneScopeInOrder<T>(layers: seq<Scoped<T>>, s: Scope)
    requires forall i :: 0 <= i < |layers| ==> layers[i].scope == s
    ensures InOrder(layers)
  {
  }

  lemma OrderAppend<T>(a: seq<Scoped<T>>, b: seq<Scoped<T>>, rank: nat)
    requires InOrder(a) && InOrder(b)
    requires forall i :: 0 <= i < |a| ==> Rank(a[i].scope) <= rank
    requires forall i :: 0 <= i < |b| ==> rank <= Rank(b[i].scope)
    ensures InOrder(a + b)
  {
  }
}
