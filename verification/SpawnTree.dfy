/**
 The spawn tree: each parent's committed children and the slots it holds for children still being created.
 Every public method of the source is taken as one atomic step.
 */
module SpawnTrees {
  import opened Types

  datatype Slots = Slots(children: seq<SessionId>, reservations: seq<SessionId>)

  type Tree = map<SessionId, Slots>

  function SlotsOf(t: Tree, p: SessionId): Slots {
    if p in t then t[p] else Slots([], [])
  }

  function Children(t: Tree, p: SessionId): seq<SessionId> {
    SlotsOf(t, p).children
  }

  /** `retain(|c| c != x)`. */
  function Without(s: seq<SessionId>, x: SessionId): (r: seq<SessionId>)
    ensures forall y :: y in r <==> y in s && y != x
    ensures |r| <= |s| && (x !in s ==> r == s)
  {
    if s == [] then [] else
      assert s == [s[0]] + s[1..];
      if s[0] == x then Without(s[1..], x) else [s[0]] + Without(s[1..], x)
  }

  lemma {:induction false} WithoutNoDup(s: seq<SessionId>, x: SessionId)
    requires NoDup(s)
    ensures NoDup(Without(s, x)) && (x in s ==> |Without(s, x)| == |s| - 1)
  {
    if s != [] {
      WithoutNoDup(s[1..], x);
      assert s == [s[0]] + s[1..];
      assert s[0] !in s[1..];
    }
  }

  function Record(t: Tree, p: SessionId, c: SessionId): Tree {
    var s := SlotsOf(t, p);
    t[p := Slots(if c in s.children then s.children else s.children + [c], Without(s.reservations, c))]
  }

  predicate Holds(t: Tree, p: SessionId, c: SessionId) {
    c in SlotsOf(t, p).children || c in SlotsOf(t, p).reservations
  }

  function Occupied(t: Tree, p: SessionId): nat {
    |SlotsOf(t, p).children| + |SlotsOf(t, p).reservations|
  }

  function Reserve(t: Tree, p: SessionId, c: SessionId, maxChildren: nat): (Tree, bool) {
    var s := SlotsOf(t, p);
    if Holds(t, p, c) then (t[p := s], true)
    else if Occupied(t, p) >= maxChildren then (t[p := s], false)
    else (t[p := s.(reservations := s.reservations + [c])], true)
  }

  /** An entry with nothing in it is dropped. */
  function Put(t: Tree, p: SessionId, s: Slots): Tree {
    if s.children == [] && s.reservations == [] then t - {p} else t[p := s]
  }

  function Release(t: Tree, p: SessionId, c: SessionId): Tree {
    if p !in t then t else Put(t, p, t[p].(reservations := Without(t[p].reservations, c)))
  }

  function Remove(t: Tree, p: SessionId, c: SessionId): Tree {
    if p !in t then t else Put(t, p, Slots(Without(t[p].children, c), Without(t[p].reservations, c)))
  }

  function ClampU32(n: nat): nat {
    if n > U32_MAX then U32_MAX else n
  }

  // ----- what one step does to everybody's slots -----

  lemma RecordSlots(t: Tree, p: SessionId, c: SessionId, q: SessionId)
    ensures SlotsOf(Record(t, p, c), q)
            == if q != p then SlotsOf(t, q)
               else Slots(if c in Children(t, p) then Children(t, p) else Children(t, p) + [c],
                          Without(SlotsOf(t, p).reservations, c))
  {
  }

  lemma ReserveSlots(t: Tree, p: SessionId, c: SessionId, maxChildren: nat, q: SessionId)
    ensures var (t', ok) := Reserve(t, p, c, maxChildren);
            && (ok <==> Holds(t, p, c) || Occupied(t, p) < maxChildren)
            && (ok ==> Holds(t', p, c))
            && SlotsOf(t', q)
               == if q == p && ok && !Holds(t, p, c)
                  then Slots(Children(t, p), SlotsOf(t, p).reservations + [c])
                  else SlotsOf(t, q)
  {
  }

  /** Releasing undoes a reservation, for the parent and for everybody else. */
  lemma ReleaseUndoesReserve(t: Tree, p: SessionId, c: SessionId, maxChildren: nat, q: SessionId)
    requires !Holds(t, p, c)
    ensures SlotsOf(Release(Reserve(t, p, c, maxChildren).0, p, c), q) == SlotsOf(t, q)
  {
    var s := SlotsOf(t, p).reservations;
    WithoutLast(s, c);
    assert Without(s, c) == s;
  }

  lemma {:induction false} WithoutLast(s: seq<SessionId>, c: SessionId)
    requires c !in s
    ensures Without(s + [c], c) == s
  {
    if s == [] {
      assert s + [c] == [c];
    } else {
      assert (s + [c])[1..] == s[1..] + [c];
      WithoutLast(s[1..], c);
    }
  }

  /** Taking an id out takes out every copy of it, and keeps everything else as often and in the order it was. */
  lemma {:induction false} WithoutParts(a: seq<SessionId>, b: seq<SessionId>, x: SessionId, y: SessionId)
    ensures Without(a + b, x) == Without(a, x) + Without(b, x)
    ensures Without([y], x) == if y == x then [] else [y]
  {
    if a == [] {
      assert a + b == b;
    } else {
      assert (a + b)[0] == a[0] && (a + b)[1..] == a[1..] + b;
      WithoutParts(a[1..], b, x, y);
    }
  }

  /** Releasing takes the child out of the parent's reservations, and never touches a committed child; the parent's
      entry goes when nothing is left in it. */
  lemma ReleaseLeaves(t: Tree, p: SessionId, c: SessionId, q: SessionId)
    ensures var t' := Release(t, p, c);
            && Children(t', q) == Children(t, q)
            && SlotsOf(t', q).reservations
               == (if q == p then Without(SlotsOf(t, p).reservations, c) else SlotsOf(t, q).reservations)
            && (q in t'
                <==> q in t && (q != p || t[p].children != [] || exists x :: x in t[p].reservations && x != c))
  {
    if p in t {
      MembersLeft(t[p].reservations, c);
    }
  }

  /** Removing takes the child out of both. */
  lemma RemoveLeaves(t: Tree, p: SessionId, c: SessionId, q: SessionId)
    ensures var t' := Remove(t, p, c);
            && Children(t', q) == (if q == p then Without(Children(t, p), c) else Children(t, q))
            && SlotsOf(t', q).reservations
               == (if q == p then Without(SlotsOf(t, p).reservations, c) else SlotsOf(t, q).reservations)
            && (q in t' <==> q in t && (q != p || exists x :: (x in t[p].children || x in t[p].reservations) && x != c))
  {
    if p in t {
      MembersLeft(t[p].reservations, c);
      MembersLeft(t[p].children, c);
    }
  }

  lemma MembersLeft(s: seq<SessionId>, c: SessionId)
    ensures Without(s, c) != [] <==> exists x :: x in s && x != c
  {
    if Without(s, c) != [] { assert Without(s, c)[0] in Without(s, c); }
  }

  /** Taking a child out a second time changes nothing, so a compensation may be repeated. */
  lemma TakingOutIsIdempotent(t: Tree, p: SessionId, c: SessionId)
    ensures Remove(Remove(t, p, c), p, c) == Remove(t, p, c)
    ensures Release(Release(t, p, c), p, c) == Release(t, p, c)
  {
    if p in t {
      var kids, held := Without(t[p].children, c), Without(t[p].reservations, c);
      assert c !in kids && c !in held;
      assert Without(kids, c) == kids && Without(held, c) == held;
    }
  }

  class SpawnTree {
    var children: Tree

    constructor ()
      ensures children == map[]
    {
      children := map[];
    }

    method RecordChild(parent: SessionId, child: SessionId)
      modifies this
      ensures children == Record(old(children), parent, child)
    {
      var slots := if parent in children then children[parent] else Slots([], []);
      slots := slots.(reservations := Without(slots.reservations, child));
      if child !in slots.children {
        slots := slots.(children := slots.children + [child]);
      }
      children := children[parent := slots];
    }

    method ReserveChild(parent: SessionId, child: SessionId, maxChildren: nat) returns (r: Option<Unit>)
      modifies this
      ensures children == Reserve(old(children), parent, child, maxChildren).0
      ensures r.Some? <==> Reserve(old(children), parent, child, maxChildren).1
    {
      if parent !in children {
        children := children[parent := Slots([], [])];
      }
      var slots := children[parent];
      if child in slots.children || child in slots.reservations {
        return Some(Unit);
      }
      var occupied := |slots.children| + |slots.reservations|;
      if occupied >= maxChildren {
        return None;
      }
      children := children[parent := slots.(reservations := slots.reservations + [child])];
      return Some(Unit);
    }

    method CommitChildReservation(parent: SessionId, child: SessionId)
      modifies this
      ensures children == Record(old(children), parent, child)
    {
      RecordChild(parent, child);
    }

    method ReleaseChildReservation(parent: SessionId, child: SessionId)
      modifies this
      ensures children == Release(old(children), parent, child)
    {
      if parent in children {
        var slots := children[parent].(reservations := Without(children[parent].reservations, child));
        children := children[parent := slots];
        if slots.children == [] && slots.reservations == [] {
          children := children - {parent};
        }
      }
    }

    method RemoveChild(parent: SessionId, child: SessionId)
      modifies this
      ensures children == Remove(old(children), parent, child)
    {
      if parent in children {
        var slots := Slots(Without(children[parent].children, child), Without(children[parent].reservations, child));
        children := children[parent := slots];
        if slots.children == [] && slots.reservations == [] {
          children := children - {parent};
        }
      }
    }

    function DirectChildren(parent: SessionId): nat
      reads this
    {
      if parent in children then ClampU32(|children[parent].children|) else 0
    }

    /** The traversal keeps no visited set, so it ends only on a subtree of finite height: `height` bounds it. */
    method Descendants(root: SessionId, ghost height: nat) returns (out: seq<SessionId>)
      requires Fits(children, root, height)
      ensures forall c :: c in Children(children, root) ==> Fits(children, c, height)
      ensures out == Forest(children, height, Children(children, root))
    {
      out := [];
      var stack := if root in children then children[root].children else [];
      FitsMoreAll(children, root, height);
      while stack != []
        invariant forall s :: s in stack ==> Fits(children, s, height)
        invariant out + Forest(children, height, stack) == Forest(children, height, Children(children, root))
        decreases |Forest(children, height, stack)|
      {
        var session := stack[|stack| - 1];
        ghost var rest := stack[..|stack| - 1];
        PopForest(children, height, stack, out);
        out := out + [session];
        stack := stack[..|stack| - 1];
        if session in children {
          stack := stack + children[session].children;
        }
        assert stack == rest + Children(children, session);
      }
    }
  }

  // ----- subtrees -----

  /** The subtree of `s` is at most `k` levels deep below `s`. */
  ghost predicate Fits(t: Tree, s: SessionId, k: nat)
    decreases k
  {
    if k == 0 then Children(t, s) == [] else forall c :: c in Children(t, s) ==> Fits(t, c, k - 1)
  }

  /** `s` and everything below it, in the order the traversal meets it. */
  ghost function Below(t: Tree, k: nat, s: SessionId): seq<SessionId>
    requires Fits(t, s, k)
    decreases k, 1, 0
  {
    if k == 0 then [s] else [s] + Forest(t, k - 1, Children(t, s))
  }

  /** The subtrees of a stack of sessions, top of the stack first. */
  ghost function Forest(t: Tree, k: nat, cs: seq<SessionId>): seq<SessionId>
    requires forall c :: c in cs ==> Fits(t, c, k)
    decreases k, 2, |cs|
  {
    if cs == [] then [] else Below(t, k, cs[|cs| - 1]) + Forest(t, k, cs[..|cs| - 1])
  }

  lemma {:induction false} FitsMore(t: Tree, s: SessionId, k: nat)
    requires Fits(t, s, k)
    ensures Fits(t, s, k + 1) && Below(t, k + 1, s) == Below(t, k, s)
    decreases k, 1, 0
  {
    if k > 0 {
      forall c | c in Children(t, s)
        ensures Fits(t, c, k)
      {
        FitsMore(t, c, k - 1);
      }
      ForestMore(t, Children(t, s), k - 1);
    }
  }

  lemma {:induction false} ForestMore(t: Tree, cs: seq<SessionId>, k: nat)
    requires forall c :: c in cs ==> Fits(t, c, k)
    ensures forall c :: c in cs ==> Fits(t, c, k + 1)
    ensures Forest(t, k + 1, cs) == Forest(t, k, cs)
    decreases k, 2, |cs|
  {
    forall c | c in cs
      ensures Fits(t, c, k + 1)
    {
      FitsMore(t, c, k);
    }
    if cs != [] {
      FitsMore(t, cs[|cs| - 1], k);
      ForestMore(t, cs[..|cs| - 1], k);
    }
  }

  /** Children of a session that fits also fit the same bound, and are what lies below it. */
  lemma {:induction false} FitsMoreAll(t: Tree, s: SessionId, k: nat)
    requires Fits(t, s, k)
    ensures forall c :: c in Children(t, s) ==> Fits(t, c, k)
    ensures Below(t, k, s) == [s] + Forest(t, k, Children(t, s))
  {
    if k > 0 { ForestMore(t, Children(t, s), k - 1); }
  }

  lemma {:induction false} ForestAppend(t: Tree, k: nat, a: seq<SessionId>, b: seq<SessionId>)
    requires forall c :: c in a ==> Fits(t, c, k)
    requires forall c :: c in b ==> Fits(t, c, k)
    ensures forall c :: c in a + b ==> Fits(t, c, k)
    ensures Forest(t, k, a + b) == Forest(t, k, b) + Forest(t, k, a)
    decreases |b|
  {
    if b == [] {
      assert a + b == a;
    } else {
      var b', last := b[..|b| - 1], b[|b| - 1];
      AppendSnoc(a, b);
      ForestAppend(t, k, a, b');
      var fa, fb, top := Forest(t, k, a), Forest(t, k, b'), Below(t, k, last);
      assert Forest(t, k, a + b) == top + (fb + fa) by { SnocForest(t, k, a + b', last); }
      assert Forest(t, k, b) == top + fb;
      Assoc(top, fb, fa);
    }
  }

  lemma Assoc<T>(x: seq<T>, y: seq<T>, z: seq<T>)
    ensures x + (y + z) == (x + y) + z
  {
  }

  lemma AppendSnoc<T>(a: seq<T>, b: seq<T>)
    requires b != []
    ensures var b', last := b[..|b| - 1], b[|b| - 1]; b == b' + [last] && a + b == (a + b') + [last]
  {
  }

  lemma {:induction false} SnocForest(t: Tree, k: nat, a: seq<SessionId>, last: SessionId)
    requires forall c :: c in a ==> Fits(t, c, k)
    requires Fits(t, last, k)
    ensures forall c :: c in a + [last] ==> Fits(t, c, k)
    ensures Forest(t, k, a + [last]) == Below(t, k, last) + Forest(t, k, a)
  {
    assert (a + [last])[..|a + [last]| - 1] == a;
  }

  /** One turn of the traversal: the top of the stack comes out and its children take its place. */
  lemma {:induction false} PopForest(t: Tree, k: nat, stack: seq<SessionId>, out: seq<SessionId>)
    requires stack != [] && forall s :: s in stack ==> Fits(t, s, k)
    ensures var s, rest := stack[|stack| - 1], stack[..|stack| - 1];
            && (forall x :: x in rest + Children(t, s) ==> Fits(t, x, k))
            && |Forest(t, k, rest + Children(t, s))| < |Forest(t, k, stack)|
            && out + [s] + Forest(t, k, rest + Children(t, s)) == out + Forest(t, k, stack)
  {
    var s, rest := stack[|stack| - 1], stack[..|stack| - 1];
    var kids, fr := Children(t, s), Forest(t, k, rest);
    FitsMoreAll(t, s, k);
    ForestAppend(t, k, rest, kids);
    assert Forest(t, k, stack) == Below(t, k, s) + fr;
    Assoc([s], Forest(t, k, kids), fr);
    Assoc(out, [s], Forest(t, k, rest + kids));
  }

  // ----- what the traversal returns -----

  /** A chain of committed edges. */
  ghost predicate IsChain(t: Tree, p: seq<SessionId>) {
    |p| > 0 && forall i :: 0 <= i < |p| - 1 ==> p[i + 1] in Children(t, p[i])
  }

  /** `x` is a proper descendant of `s` through committed edges. */
  ghost predicate Descends(t: Tree, s: SessionId, x: SessionId) {
    exists p :: IsChain(t, p) && |p| > 1 && p[0] == s && p[|p| - 1] == x
  }

  lemma {:induction false} ForestMember(t: Tree, k: nat, cs: seq<SessionId>, x: SessionId)
    requires forall c :: c in cs ==> Fits(t, c, k)
    ensures x in Forest(t, k, cs) <==> exists c :: c in cs && x in Below(t, k, c)
    decreases |cs|
  {
    if cs != [] {
      var rest, last := cs[..|cs| - 1], cs[|cs| - 1];
      assert cs == rest + [last];
      ForestMember(t, k, rest, x);
      if x in Below(t, k, last) { assert last in cs; }
      if x in Forest(t, k, rest) {
        var c :| c in rest && x in Below(t, k, c);
        assert c in cs;
      }
    }
  }

  lemma {:induction false} ChainIsBelow(t: Tree, k: nat, p: seq<SessionId>)
    requires IsChain(t, p) && Fits(t, p[0], k)
    ensures p[|p| - 1] in Below(t, k, p[0])
    decreases |p|
  {
    if |p| > 1 {
      assert p[0 + 1] in Children(t, p[0]);
      var q := p[1..];
      forall i | 0 <= i < |q| - 1
        ensures q[i + 1] in Children(t, q[i])
      {
        assert q[i] == p[i + 1];
      }
      ChainIsBelow(t, k - 1, q);
      ForestMember(t, k - 1, Children(t, p[0]), p[|p| - 1]);
    }
  }

  lemma {:induction false} BelowIsChain(t: Tree, k: nat, s: SessionId, x: SessionId) returns (p: seq<SessionId>)
    requires Fits(t, s, k) && x in Below(t, k, s)
    ensures IsChain(t, p) && p[0] == s && p[|p| - 1] == x
    decreases k
  {
    if x == s {
      p := [s];
    } else {
      ForestMember(t, k - 1, Children(t, s), x);
      var c :| c in Children(t, s) && x in Below(t, k - 1, c);
      var q := BelowIsChain(t, k - 1, c, x);
      p := [s] + q;
      forall i | 0 <= i < |p| - 1
        ensures p[i + 1] in Children(t, p[i])
      {
        if i > 0 { assert p[i] == q[i - 1] && p[i + 1] == q[i - 1 + 1]; }
      }
    }
  }

  lemma {:induction false} TailIsChain(t: Tree, p: seq<SessionId>)
    requires IsChain(t, p) && |p| > 1
    ensures p[1] in Children(t, p[0]) && IsChain(t, p[1..])
  {
    assert p[0 + 1] in Children(t, p[0]);
    var q := p[1..];
    forall i | 0 <= i < |q| - 1
      ensures q[i + 1] in Children(t, q[i])
    {
      assert p[(i + 1) + 1] in Children(t, p[i + 1]);
    }
  }

  lemma {:induction false} HeadedChain(t: Tree, s: SessionId, q: seq<SessionId>)
    requires IsChain(t, q) && q[0] in Children(t, s)
    ensures IsChain(t, [s] + q)
  {
    var p := [s] + q;
    forall i | 0 <= i < |p| - 1
      ensures p[i + 1] in Children(t, p[i])
    {
      if i > 0 { assert p[i] == q[i - 1] && p[i + 1] == q[i - 1 + 1]; }
    }
  }

  lemma {:induction false} ListedIsReachable(t: Tree, k: nat, root: SessionId, x: SessionId)
    requires forall c :: c in Children(t, root) ==> Fits(t, c, k)
    requires x in Forest(t, k, Children(t, root))
    ensures Descends(t, root, x)
  {
    ForestMember(t, k, Children(t, root), x);
    var c :| c in Children(t, root) && x in Below(t, k, c);
    var q := BelowIsChain(t, k, c, x);
    HeadedChain(t, root, q);
    assert IsChain(t, [root] + q) && ([root] + q)[|q|] == x;
  }

  lemma {:induction false} ReachableIsListed(t: Tree, k: nat, root: SessionId, x: SessionId)
    requires forall c :: c in Children(t, root) ==> Fits(t, c, k)
    requires Descends(t, root, x)
    ensures x in Forest(t, k, Children(t, root))
  {
    var p :| IsChain(t, p) && |p| > 1 && p[0] == root && p[|p| - 1] == x;
    TailIsChain(t, p);
    ChainIsBelow(t, k, p[1..]);
    ForestMember(t, k, Children(t, root), x);
  }

  /** The traversal returns exactly the sessions reachable from the root through committed edges. */
  lemma {:induction false} DescendantsAreReachable(t: Tree, k: nat, root: SessionId, x: SessionId)
    requires Fits(t, root, k)
    ensures forall c :: c in Children(t, root) ==> Fits(t, c, k)
    ensures x in Forest(t, k, Children(t, root)) <==> Descends(t, root, x)
  {
    FitsMoreAll(t, root, k);
    if x in Forest(t, k, Children(t, root)) { ListedIsReachable(t, k, root, x); }
    if Descends(t, root, x) { ReachableIsListed(t, k, root, x); }
  }

  // ----- trees grown from fresh ids -----

  /** Depths grow by one along every committed edge and stop at `top`. */
  ghost predicate Leveled(t: Tree, depth: map<SessionId, nat>, top: nat) {
    forall p, c :: c in Children(t, p) ==> OneDown(depth, top, p, c)
  }

  ghost predicate OneDown(depth: map<SessionId, nat>, top: nat, p: SessionId, c: SessionId) {
    p in depth && c in depth && depth[c] == depth[p] + 1 && depth[c] <= top
  }

  /** No session is committed twice, under one parent or two. */
  ghost predicate OneParent(t: Tree) {
    && (forall p :: NoDup(Children(t, p)))
    && (forall p, q, c :: c in Children(t, p) && c in Children(t, q) ==> p == q)
  }

  lemma {:induction false} LeveledEdge(t: Tree, depth: map<SessionId, nat>, top: nat, p: SessionId, c: SessionId)
    requires Leveled(t, depth, top) && c in Children(t, p)
    ensures p in depth && c in depth && depth[c] == depth[p] + 1 && depth[c] <= top
  {
  }

  lemma {:induction false} LeveledFits(t: Tree, depth: map<SessionId, nat>, top: nat, s: SessionId, k: nat)
    requires Leveled(t, depth, top)
    requires s in depth ==> depth[s] + k >= top
    ensures Fits(t, s, k)
    decreases k
  {
    if k > 0 {
      forall c | c in Children(t, s)
        ensures Fits(t, c, k - 1)
      {
        LeveledEdge(t, depth, top, s, c);
        LeveledFits(t, depth, top, c, k - 1);
      }
    } else if Children(t, s) != [] {
      LeveledEdge(t, depth, top, s, Children(t, s)[0]);
      assert false;
    }
  }

  lemma {:induction false} ChainDepth(t: Tree, depth: map<SessionId, nat>, top: nat, p: seq<SessionId>)
    requires Leveled(t, depth, top) && IsChain(t, p) && |p| > 1
    ensures p[0] in depth && p[|p| - 1] in depth && depth[p[|p| - 1]] == depth[p[0]] + |p| - 1
    decreases |p|
  {
    var n := |p|;
    assert p[n - 2 + 1] in Children(t, p[n - 2]);
    LeveledEdge(t, depth, top, p[n - 2], p[n - 1]);
    if n > 2 {
      var q := p[..n - 1];
      assert forall i :: 0 <= i < |q| ==> q[i] == p[i];
      ChainDepth(t, depth, top, q);
    }
  }

  /** With one parent each, a session's ancestry is unique: equally long chains to it coincide. */
  lemma {:induction false} ChainsCoincide(t: Tree, p: seq<SessionId>, q: seq<SessionId>)
    requires OneParent(t) && IsChain(t, p) && IsChain(t, q)
    requires |p| == |q| && p[|p| - 1] == q[|q| - 1]
    ensures p[0] == q[0]
    decreases |p|
  {
    var n := |p|;
    if n > 1 {
      assert p[n - 2 + 1] in Children(t, p[n - 2]) && q[n - 2 + 1] in Children(t, q[n - 2]);
      var p', q' := p[..n - 1], q[..n - 1];
      assert forall i :: 0 <= i < n - 1 ==> p'[i] == p[i] && q'[i] == q[i];
      ChainsCoincide(t, p', q');
    }
  }

  lemma {:induction false} SiblingsDisjoint(t: Tree, depth: map<SessionId, nat>, top: nat, k: nat,
                                            a: SessionId, b: SessionId, x: SessionId)
    requires Leveled(t, depth, top) && OneParent(t)
    requires a in depth && b in depth && depth[a] == depth[b]
    requires Fits(t, a, k) && Fits(t, b, k) && x in Below(t, k, a) && x in Below(t, k, b)
    ensures a == b
  {
    var p := BelowIsChain(t, k, a, x);
    var q := BelowIsChain(t, k, b, x);
    if |p| > 1 { ChainDepth(t, depth, top, p); }
    if |q| > 1 { ChainDepth(t, depth, top, q); }
    ChainsCoincide(t, p, q);
  }

  lemma {:induction false} BelowNoDup(t: Tree, depth: map<SessionId, nat>, top: nat, k: nat, s: SessionId)
    requires Leveled(t, depth, top) && OneParent(t) && Fits(t, s, k)
    ensures NoDup(Below(t, k, s))
    decreases k, 1, 0
  {
    if k > 0 {
      var cs := Children(t, s);
      forall c | c in cs
        ensures c in depth && depth[c] == depth[s] + 1
      {
        LeveledEdge(t, depth, top, s, c);
      }
      ForestNoDup(t, depth, top, k - 1, cs);
      NotBelowItself(t, depth, top, k, s);
      NoDupAppend([s], Forest(t, k - 1, cs));
    }
  }

  lemma {:induction false} NotBelowItself(t: Tree, depth: map<SessionId, nat>, top: nat, k: nat, s: SessionId)
    requires Leveled(t, depth, top) && k > 0 && Fits(t, s, k)
    ensures s !in Forest(t, k - 1, Children(t, s))
  {
    var cs := Children(t, s);
    if s in Forest(t, k - 1, cs) {
      ForestMember(t, k - 1, cs, s);
      var c :| c in cs && s in Below(t, k - 1, c);
      var p := BelowIsChain(t, k - 1, c, s);
      LeveledEdge(t, depth, top, s, c);
      if |p| > 1 { ChainDepth(t, depth, top, p); }
      assert false;
    }
  }

  lemma {:induction false} ForestNoDup(t: Tree, depth: map<SessionId, nat>, top: nat, k: nat, cs: seq<SessionId>)
    requires Leveled(t, depth, top) && OneParent(t) && NoDup(cs)
    requires forall c :: c in cs ==> Fits(t, c, k) && c in depth
    requires forall c, d :: c in cs && d in cs ==> depth[c] == depth[d]
    ensures NoDup(Forest(t, k, cs))
    decreases k, 2, |cs|
  {
    if cs != [] {
      var last, rest := cs[|cs| - 1], cs[..|cs| - 1];
      assert cs == rest + [last];
      BelowNoDup(t, depth, top, k, last);
      ForestNoDup(t, depth, top, k, rest);
      forall x | x in Below(t, k, last)
        ensures x !in Forest(t, k, rest)
      {
        ForestMember(t, k, rest, x);
        if x in Forest(t, k, rest) {
          var c :| c in rest && x in Below(t, k, c);
          SiblingsDisjoint(t, depth, top, k, c, last, x);
          assert false;
        }
      }
      NoDupAppend(Below(t, k, last), Forest(t, k, rest));
    }
  }

  /** On a tree grown from fresh ids the traversal names every descendant once, and never the root. */
  lemma {:induction false} DescendantsOnce(t: Tree, depth: map<SessionId, nat>, top: nat, k: nat, root: SessionId)
    requires Leveled(t, depth, top) && OneParent(t) && Fits(t, root, k)
    ensures forall c :: c in Children(t, root) ==> Fits(t, c, k)
    ensures NoDup(Forest(t, k, Children(t, root))) && root !in Forest(t, k, Children(t, root))
  {
    FitsMoreAll(t, root, k);
    BelowNoDup(t, depth, top, k, root);
    var below, forest := Below(t, k, root), Forest(t, k, Children(t, root));
    forall i, j | 0 <= i < j < |forest|
      ensures forest[i] != forest[j]
    {
      assert below[i + 1] == forest[i] && below[j + 1] == forest[j];
    }
    forall j | 0 <= j < |forest|
      ensures forest[j] != root
    {
      assert below[0] == root && below[j + 1] == forest[j];
    }
  }

  // ----- how large a subtree can grow -----

  /** Sessions in a full tree of height `k` in which everybody has `width` children. */
  ghost function FullSize(width: nat, k: nat): nat {
    if k == 0 then 1 else 1 + width * FullSize(width, k - 1)
  }

  lemma {:induction false} BelowSize(t: Tree, width: nat, k: nat, s: SessionId)
    requires Fits(t, s, k) && forall p :: |Children(t, p)| <= width
    ensures |Below(t, k, s)| <= FullSize(width, k)
    decreases k, 1, 0
  {
    if k > 0 {
      ForestSize(t, width, k - 1, Children(t, s));
      MulMono(|Children(t, s)|, width, FullSize(width, k - 1));
    }
  }

  lemma {:induction false} ForestSize(t: Tree, width: nat, k: nat, cs: seq<SessionId>)
    requires (forall c :: c in cs ==> Fits(t, c, k)) && forall p :: |Children(t, p)| <= width
    ensures |Forest(t, k, cs)| <= |cs| * FullSize(width, k)
    decreases k, 2, |cs|
  {
    if cs != [] {
      BelowSize(t, width, k, cs[|cs| - 1]);
      ForestSize(t, width, k, cs[..|cs| - 1]);
      assert |cs| * FullSize(width, k) == (|cs| - 1) * FullSize(width, k) + FullSize(width, k);
    }
  }

  lemma MulMono(a: nat, b: nat, c: nat)
    requires a <= b
    ensures a * c <= b * c
  {
  }
}
