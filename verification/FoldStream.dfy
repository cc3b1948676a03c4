/** Folding a chat stream into content blocks: one buffer per block index, opened, appended to and sealed. */
module FoldStreams {
  import opened Types

  datatype BlockKind = TextKind | ThinkingKind | ToolUseKind(name: string, providerId: Option<string>)

  datatype Delta = Text(text: string) | ToolArgs(fragment: string) | Thinking(thought: string,
      signature: Option<string>)

  datatype Event =
    | BlockStart(index: nat, kind: BlockKind)
    | BlockDelta(index: nat, delta: Delta)
    | BlockStop(index: nat)
    | UsageDelta(input: Option<nat>, output: Option<nat>, cacheRead: Option<nat>)
    | MessageStop

  datatype Usage = Usage(input: nat, output: nat, cacheRead: nat)

  datatype OpenBlock = OpenBlock(kind: BlockKind, text: string, toolArgs: string, thinking: string,
      signature: Option<string>)

  datatype ToolCallId = FromProvider(id: string) | Synthesized(index: nat)

  /** The input of a tool call is whatever JSON `arguments` reads as. */
  datatype ContentBlock =
    | TextContent(text: string)
    | ThinkingContent(text: string, signature: Option<string>)
    | ToolUseContent(id: ToolCallId, name: string, arguments: string)

  datatype Loss = ItemError(message: string) | DeltaWithoutStart(index: nat) | StopWithoutStart(index: nat)
    | NeverStopped(index: nat)

  datatype State = State(open: map<nat, OpenBlock>, blocks: seq<ContentBlock>, usage: Usage, losses: seq<Loss>,
      sawStop: bool)

  datatype Folded = Folded(blocks: seq<ContentBlock>, usage: Usage, losses: seq<Loss>, sawStop: bool)

  const Initial: State := State(map[], [], Usage(0, 0, 0), [], false)

  function NewBlock(kind: BlockKind): OpenBlock {
    OpenBlock(kind, "", "", "", None)
  }

  function Append(b: OpenBlock, d: Delta): OpenBlock {
    match d
    case Text(t) => b.(text := b.text + t)
    case ToolArgs(f) => b.(toolArgs := b.toolArgs + f)
    case Thinking(t, sig) => b.(thinking := b.thinking + t, signature := if sig.Some? then sig else b.signature)
  }

  function SealBlock(b: OpenBlock, index: nat): ContentBlock {
    match b.kind
    case TextKind => TextContent(b.text)
    case ThinkingKind => ThinkingContent(b.thinking, b.signature)
    case ToolUseKind(name, pid) =>
      ToolUseContent(if pid.Some? then FromProvider(pid.value) else Synthesized(index), name, b.toolArgs)
  }

  function Or(v: Option<nat>, before: nat): nat {
    if v.Some? then v.value else before
  }

  function Step(st: State, e: Event): State {
    match e
    case BlockStart(i, kind) => st.(open := st.open[i := NewBlock(kind)])
    case BlockDelta(i, d) =>
      if i in st.open then st.(open := st.open[i := Append(st.open[i], d)])
      else st.(losses := st.losses + [DeltaWithoutStart(i)])
    case BlockStop(i) =>
      if i in st.open then st.(open := st.open - {i}, blocks := st.blocks + [SealBlock(st.open[i], i)])
      else st.(losses := st.losses + [StopWithoutStart(i)])
    case UsageDelta(a, b, c) =>
      st.(usage := Usage(Or(a, st.usage.input), Or(b, st.usage.output), Or(c, st.usage.cacheRead)))
    case MessageStop => st.(sawStop := true)
  }

  function StepAll(st: State, es: seq<Event>): State
    decreases |es|
  {
    if es == [] then st else StepAll(Step(st, es[0]), es[1..])
  }

  /** Items up to the first error; an error is a loss and ends the stream. */
  function Consume(st: State, items: seq<Result<Event, string>>): State
    decreases |items|
  {
    if items == [] then st
    else if items[0].Err? then st.(losses := st.losses + [ItemError(items[0].error)])
    else Consume(Step(st, items[0].value), items[1..])
  }

  lemma {:induction false} LeastExists(s: set<nat>) returns (m: nat)
    requires s != {}
    ensures m in s && forall x :: x in s ==> m <= x
    decreases |s|
  {
    m := Pick(s);
    var t := s - {m};
    if t != {} {
      var later := LeastExists(t);
      assert forall y :: y in s ==> y == m || y in t;
      m := if m <= later then m else later;
    } else {
      assert s == {m};
    }
  }

  lemma {:induction false} HasLeast(s: set<nat>)
    requires s != {}
    ensures exists m :: m in s && forall x :: x in s ==> m <= x
  {
    var m := LeastExists(s);
  }

  ghost function Least(s: set<nat>): (m: nat)
    requires s != {}
    ensures m in s && forall x :: x in s ==> m <= x
  {
    HasLeast(s);
    var m :| m in s && forall x :: x in s ==> m <= x;
    m
  }

  /** The keys of an ordered map, smallest first. */
  ghost function Ascending(s: set<nat>): seq<nat>
    decreases |s|
  {
    if s == {} then [] else [Least(s)] + Ascending(s - {Least(s)})
  }

  ghost function Unstopped(keys: seq<nat>): seq<Loss> {
    seq(|keys|, i requires 0 <= i < |keys| => NeverStopped(keys[i]))
  }

  ghost function Finish(st: State): Folded {
    Folded(st.blocks, st.usage, st.losses + Unstopped(Ascending(st.open.Keys)), st.sawStop)
  }

  ghost function Fold(items: seq<Result<Event, string>>): Folded {
    Finish(Consume(Initial, items))
  }

  method FoldStream(items: seq<Result<Event, string>>) returns (r: Folded)
    ensures r == Fold(items)
  {
    var open: map<nat, OpenBlock> := map[];
    var blocks: seq<ContentBlock> := [];
    var usage := Usage(0, 0, 0);
    var losses: seq<Loss> := [];
    var sawStop := false;
    var i := 0;
    var broken := false;
    while i < |items| && !broken
      invariant i <= |items|
      invariant broken ==> State(open, blocks, usage, losses, sawStop) == Consume(Initial, items)
      invariant !broken ==> Consume(State(open, blocks, usage, losses, sawStop), items[i..]) == Consume(Initial, items)
      decreases |items| - i, !broken
    {
      assert items[i..][0] == items[i] && items[i..][1..] == items[i + 1..];
      ghost var before := State(open, blocks, usage, losses, sawStop);
      match items[i]
      case Err(message) =>
        losses := losses + [ItemError(message)];
        broken := true;
      case Ok(event) =>
        match event {
          case BlockStart(index, kind) => open := open[index := OpenBlock(kind, "", "", "", None)];
          case BlockDelta(index, delta) =>
            if index in open {
              open := open[index := Append(open[index], delta)];
            } else {
              losses := losses + [DeltaWithoutStart(index)];
            }
          case BlockStop(index) =>
            if index in open {
              blocks := blocks + [SealBlock(open[index], index)];
              open := open - {index};
            } else {
              losses := losses + [StopWithoutStart(index)];
            }
          case UsageDelta(input, output, cacheRead) =>
            usage := Usage(Or(input, usage.input), Or(output, usage.output), Or(cacheRead, usage.cacheRead));
          case MessageStop => sawStop := true;
        }
        assert State(open, blocks, usage, losses, sawStop) == Step(before, event);
        i := i + 1;
    }
    losses := ReportUnstopped(open, losses);
    r := Folded(blocks, usage, losses, sawStop);
  }

  method ReportUnstopped(open: map<nat, OpenBlock>, losses: seq<Loss>) returns (r: seq<Loss>)
    ensures r == losses + Unstopped(Ascending(open.Keys))
  {
    r := losses;
    var left := open.Keys;
    ghost var done: seq<nat> := [];
    while left != {}
      invariant done + Ascending(left) == Ascending(open.Keys)
      invariant r == losses + Unstopped(done)
      decreases |left|
    {
      ghost var least := LeastExists(left);
      var m :| m in left && forall x :: x in left ==> m <= x;
      assert m == Least(left);
      assert Unstopped(done + [m]) == Unstopped(done) + [NeverStopped(m)];
      r := r + [NeverStopped(m)];
      left := left - {m};
      done := done + [m];
    }
    assert done == Ascending(open.Keys);
  }

  // ----- one index at a time -----

  predicate Concerns(e: Event, i: nat) {
    (e.BlockStart? || e.BlockDelta? || e.BlockStop?) && e.index == i
  }

  function Project(es: seq<Event>, i: nat): seq<Event> {
    if es == [] then [] else Project(es[..|es| - 1], i) + (if Concerns(es[|es| - 1], i) then [es[|es| - 1]] else [])
  }

  /** A single buffer, fed the events of a single index. */
  function Single(es: seq<Event>): Option<OpenBlock> {
    if es == [] then None
    else
      var b := Single(es[..|es| - 1]);
      match es[|es| - 1]
      case BlockStart(_, kind) => Some(NewBlock(kind))
      case BlockDelta(_, d) => if b.Some? then Some(Append(b.value, d)) else None
      case BlockStop(_) => None
      case _ => b
  }

  function Buffer(es: seq<Event>, i: nat): Option<OpenBlock> {
    Single(Project(es, i))
  }

  /** The sealed blocks, said stop by stop: each stop seals what its own index has collected. */
  function SealedBy(es: seq<Event>): seq<ContentBlock> {
    if es == [] then []
    else
      var front, e := es[..|es| - 1], es[|es| - 1];
      SealedBy(front)
      + (if e.BlockStop? && Buffer(front, e.index).Some? then [SealBlock(Buffer(front, e.index).value, e.index)]
         else [])
  }

  lemma {:induction false} StepAllSnoc(st: State, es: seq<Event>, e: Event)
    ensures StepAll(st, es + [e]) == Step(StepAll(st, es), e)
    decreases |es|
  {
    if es == [] {
      assert es + [e] == [e] && [e][1..] == [];
      assert StepAll(st, [e]) == StepAll(Step(st, e), []);
    } else {
      assert (es + [e])[1..] == es[1..] + [e];
      StepAllSnoc(Step(st, es[0]), es[1..], e);
    }
  }

  lemma {:induction false} BufferSnoc(es: seq<Event>, e: Event, i: nat)
    ensures Project(es + [e], i) == Project(es, i) + (if Concerns(e, i) then [e] else [])
    ensures Buffer(es + [e], i) == if !Concerns(e, i) then Buffer(es, i) else
              match e
              case BlockStart(_, kind) => Some(NewBlock(kind))
              case BlockDelta(_, d) => if Buffer(es, i).Some? then Some(Append(Buffer(es, i).value, d)) else None
              case BlockStop(_) => None
              case _ => None
  {
    assert (es + [e])[..|es + [e]| - 1] == es;
    var p := Project(es, i);
    assert p + [] == p;
    if Concerns(e, i) {
      assert (p + [e])[..|p + [e]| - 1] == p;
    }
  }

  /** Interleaving is transparent: whatever the order in which indices take turns, each open buffer holds what a private
      fold of its own index would hold, and the blocks come out in the order of their stops. */
  lemma {:induction false} IndicesAreIndependent(es: seq<Event>)
    ensures var st := StepAll(Initial, es);
            && st.blocks == SealedBy(es)
            && forall i: nat :: (i in st.open <==> Buffer(es, i).Some?)
                 && (i in st.open ==> Some(st.open[i]) == Buffer(es, i))
    decreases |es|
  {
    if es != [] {
      var front, e := es[..|es| - 1], es[|es| - 1];
      assert es == front + [e];
      IndicesAreIndependent(front);
      StepAllSnoc(Initial, front, e);
      var st := StepAll(Initial, front);
      forall i: nat
        ensures (i in Step(st, e).open <==> Buffer(es, i).Some?)
                && (i in Step(st, e).open ==> Some(Step(st, e).open[i]) == Buffer(es, i))
      {
        BufferSnoc(front, e, i);
        assert i in st.open <==> Buffer(front, i).Some?;
      }
      if e.BlockStop? { assert e.index in st.open <==> Buffer(front, e.index).Some?; }
    }
  }

  // ----- fragmentation -----

  function TextOf(ds: seq<Delta>): string {
    if ds == [] then "" else TextOf(ds[..|ds| - 1]) + (if ds[|ds| - 1].Text? then ds[|ds| - 1].text else "")
  }

  function ArgsOf(ds: seq<Delta>): string {
    if ds == [] then "" else ArgsOf(ds[..|ds| - 1]) + (if ds[|ds| - 1].ToolArgs? then ds[|ds| - 1].fragment else "")
  }

  function ThoughtOf(ds: seq<Delta>): string {
    if ds == [] then "" else ThoughtOf(ds[..|ds| - 1]) + (if ds[|ds| - 1].Thinking? then ds[|ds| - 1].thought else "")
  }

  function SignatureOf(ds: seq<Delta>): Option<string> {
    if ds == [] then None
    else
      var d := ds[|ds| - 1];
      if d.Thinking? && d.signature.Some? then d.signature else SignatureOf(ds[..|ds| - 1])
  }

  function AppendAll(b: OpenBlock, ds: seq<Delta>): OpenBlock {
    if ds == [] then b else Append(AppendAll(b, ds[..|ds| - 1]), ds[|ds| - 1])
  }

  lemma Regroup(a: string, b: string, c: string)
    ensures (a + b) + c == a + (b + c) && a + "" == a
  {
  }

  /** What a run of deltas leaves in a buffer depends only on the concatenations and the last signature. */
  lemma {:induction false} AppendAllIs(b: OpenBlock, ds: seq<Delta>)
    ensures AppendAll(b, ds) == OpenBlock(b.kind, b.text + TextOf(ds), b.toolArgs + ArgsOf(ds),
                                            b.thinking + ThoughtOf(ds),
                                          if SignatureOf(ds).Some? then SignatureOf(ds) else b.signature)
  {
    if ds == [] {
      assert b.text + "" == b.text && b.toolArgs + "" == b.toolArgs && b.thinking + "" == b.thinking;
    } else {
      var front, d := ds[..|ds| - 1], ds[|ds| - 1];
      AppendAllIs(b, front);
      Regroup(b.text, TextOf(front), if d.Text? then d.text else "");
      Regroup(b.toolArgs, ArgsOf(front), if d.ToolArgs? then d.fragment else "");
      Regroup(b.thinking, ThoughtOf(front), if d.Thinking? then d.thought else "");
    }
  }

  /** Two runs of deltas that spell the same. */
  predicate SameContent(ds: seq<Delta>, ds': seq<Delta>) {
    TextOf(ds) == TextOf(ds') && ArgsOf(ds) == ArgsOf(ds') && ThoughtOf(ds) == ThoughtOf(ds')
    && SignatureOf(ds) == SignatureOf(ds')
  }

  function DeltaEvents(i: nat, ds: seq<Delta>): seq<Event> {
    seq(|ds|, k requires 0 <= k < |ds| => BlockDelta(i, ds[k]))
  }

  lemma {:induction false} DeltasOnOpen(st: State, i: nat, ds: seq<Delta>)
    requires i in st.open
    ensures StepAll(st, DeltaEvents(i, ds)) == st.(open := st.open[i := AppendAll(st.open[i], ds)])
    decreases |ds|
  {
    if ds == [] {
      assert st.open[i := st.open[i]] == st.open;
    } else {
      var front, d := ds[..|ds| - 1], ds[|ds| - 1];
      DeltasOnOpen(st, i, front);
      assert DeltaEvents(i, ds) == DeltaEvents(i, front) + [BlockDelta(i, d)];
      StepAllSnoc(st, DeltaEvents(i, front), BlockDelta(i, d));
      var b := AppendAll(st.open[i], front);
      assert st.open[i := b][i := Append(b, d)] == st.open[i := Append(b, d)];
    }
  }

  lemma {:induction false} DeltasOnClosed(st: State, i: nat, ds: seq<Delta>)
    requires i !in st.open
    ensures var st' := StepAll(st, DeltaEvents(i, ds));
            st' == st.(losses := st'.losses) && |st'.losses| == |st.losses| + |ds|
    ensures forall k ::
              |st.losses| <= k < |st.losses| + |ds|
              ==> StepAll(st, DeltaEvents(i, ds)).losses[k] == DeltaWithoutStart(i)
    ensures st.losses <= StepAll(st, DeltaEvents(i, ds)).losses
    decreases |ds|
  {
    if ds != [] {
      var front, d := ds[..|ds| - 1], ds[|ds| - 1];
      DeltasOnClosed(st, i, front);
      assert DeltaEvents(i, ds) == DeltaEvents(i, front) + [BlockDelta(i, d)];
      StepAllSnoc(st, DeltaEvents(i, front), BlockDelta(i, d));
    }
  }

  /** Chunk boundaries are invisible: replacing a run of deltas of one index by another run that spells the same leaves
      the fold in the same state exactly when the index is open, or the two runs are equally long. (On an index that is
      not open every delta is a loss of its own.) */
  lemma {:induction false} FragmentationExactly(st: State, i: nat, ds: seq<Delta>, ds': seq<Delta>)
    requires SameContent(ds, ds')
    ensures StepAll(st, DeltaEvents(i, ds)) == StepAll(st, DeltaEvents(i, ds')) <==> i in st.open || |ds| == |ds'|
  {
    if i in st.open {
      DeltasOnOpen(st, i, ds);
      DeltasOnOpen(st, i, ds');
      AppendAllIs(st.open[i], ds);
      AppendAllIs(st.open[i], ds');
    } else {
      DeltasOnClosed(st, i, ds);
      DeltasOnClosed(st, i, ds');
      if |ds| == |ds'| {
        assert StepAll(st, DeltaEvents(i, ds)).losses == StepAll(st, DeltaEvents(i, ds')).losses;
      }
    }
  }

  lemma {:induction false} StepAllAppend(st: State, a: seq<Event>, b: seq<Event>)
    ensures StepAll(st, a + b) == StepAll(StepAll(st, a), b)
    decreases |a|
  {
    if a == [] {
      assert a + b == b;
    } else {
      assert (a + b)[0] == a[0] && (a + b)[1..] == a[1..] + b;
      StepAllAppend(Step(st, a[0]), a[1..], b);
    }
  }

  function Items(es: seq<Event>): seq<Result<Event, string>> {
    seq(|es|, k requires 0 <= k < |es| => Ok(es[k]))
  }

  lemma {:induction false} ConsumeEvents(st: State, es: seq<Event>, tail: seq<Result<Event, string>>)
    ensures Consume(st, Items(es) + tail) == Consume(StepAll(st, es), tail)
    decreases |es|
  {
    if es == [] {
      assert Items(es) + tail == tail;
    } else {
      assert (Items(es) + tail)[1..] == Items(es[1..]) + tail;
      ConsumeEvents(Step(st, es[0]), es[1..], tail);
    }
  }

  /** The same state, but for a loss report that is longer by `more`. */
  ghost predicate LongerReport(st: State, st': State, more: int) {
    st' == st.(losses := st'.losses) && |st'.losses| == |st.losses| + more
  }

  lemma {:induction false} ConsumeKeepsLength(st: State, st': State, more: int, items: seq<Result<Event, string>>)
    requires LongerReport(st, st', more)
    ensures LongerReport(Consume(st, items), Consume(st', items), more)
    decreases |items|
  {
    if items != [] && items[0].Ok? {
      StepKeepsLength(st, st', more, items[0].value);
      ConsumeKeepsLength(Step(st, items[0].value), Step(st', items[0].value), more, items[1..]);
    }
  }

  lemma StepKeepsLength(st: State, st': State, more: int, e: Event)
    requires LongerReport(st, st', more)
    ensures LongerReport(Step(st, e), Step(st', e), more)
  {
  }

  /** For whole streams: cutting the deltas of one index anew changes nothing in the folded result, whatever comes
      before and after, an error included, exactly when the index is open there or the number of deltas is the same. */
  lemma {:induction false} RecuttingIsInvisible(a: seq<Event>, i: nat, ds: seq<Delta>, ds': seq<Delta>,
                                                tail: seq<Result<Event, string>>)
    requires SameContent(ds, ds')
    ensures Fold(Items(a + DeltaEvents(i, ds)) + tail) == Fold(Items(a + DeltaEvents(i, ds')) + tail)
            <==> Buffer(a, i).Some? || |ds| == |ds'|
  {
    IndicesAreIndependent(a);
    var st := StepAll(Initial, a);
    assert i in st.open <==> Buffer(a, i).Some?;
    FragmentationExactly(st, i, ds, ds');
    StepAllAppend(Initial, a, DeltaEvents(i, ds));
    StepAllAppend(Initial, a, DeltaEvents(i, ds'));
    ConsumeEvents(Initial, a + DeltaEvents(i, ds), tail);
    ConsumeEvents(Initial, a + DeltaEvents(i, ds'), tail);
    if i !in st.open && |ds| != |ds'| {
      DeltasOnClosed(st, i, ds);
      DeltasOnClosed(st, i, ds');
      LongerShows(StepAll(st, DeltaEvents(i, ds)), StepAll(st, DeltaEvents(i, ds')), |ds'| - |ds|, tail);
    }
  }

  lemma {:induction false} LongerShows(st: State, st': State, more: int, tail: seq<Result<Event, string>>)
    requires LongerReport(st, st', more) && more != 0
    ensures Finish(Consume(st, tail)) != Finish(Consume(st', tail))
  {
    ConsumeKeepsLength(st, st', more, tail);
    var end, end' := Consume(st, tail), Consume(st', tail);
    assert |Finish(end').losses| == |Finish(end).losses| + more;
  }

  /** Neighbouring deltas of different indices may change places exactly when at least one of the indices is open: two
      losses would be reported in the other order. */
  lemma {:induction false} DeltasCommuteExactly(st: State, i: nat, d: Delta, j: nat, e: Delta)
    requires i != j
    ensures Step(Step(st, BlockDelta(i, d)), BlockDelta(j, e)) == Step(Step(st, BlockDelta(j, e)), BlockDelta(i, d))
            <==> i in st.open || j in st.open
  {
    if i in st.open && j in st.open {
      assert st.open[i := Append(st.open[i], d)][j := Append(st.open[j], e)]
          == st.open[j := Append(st.open[j], e)][i := Append(st.open[i], d)];
    } else if i !in st.open && j !in st.open {
      var n := |st.losses|;
      assert (st.losses + [DeltaWithoutStart(i)] + [DeltaWithoutStart(j)])[n] == DeltaWithoutStart(i);
      assert (st.losses + [DeltaWithoutStart(j)] + [DeltaWithoutStart(i)])[n] == DeltaWithoutStart(j);
    }
  }

  // ----- every block is accounted for -----

  function Starts(es: seq<Event>): nat {
    if es == [] then 0 else Starts(es[..|es| - 1]) + (if es[|es| - 1].BlockStart? then 1 else 0)
  }

  /** Starts that found their index still open: the block already there is replaced without a word. */
  function Restarts(es: seq<Event>): nat {
    if es == [] then 0
    else
      var front, e := es[..|es| - 1], es[|es| - 1];
      Restarts(front) + (if e.BlockStart? && Buffer(front, e.index).Some? then 1 else 0)
  }

  lemma CardAfter<T>(m: map<nat, T>, i: nat, v: T)
    ensures |m[i := v]| == |m| + (if i in m then 0 else 1)
    ensures |m - {i}| == |m| - (if i in m then 1 else 0)
  {
    if i in m {
      assert m[i := v].Keys == m.Keys;
      assert m == (m - {i})[i := m[i]];
    } else {
      assert m - {i} == m;
    }
  }

  /** Block starts are the sealed blocks, plus those reported as never stopped, plus those silently replaced: so
      sealed and never-stopped blocks alone account for every start exactly when no start hit an open index. */
  lemma {:induction false} StartsAreAccountedFor(es: seq<Event>)
    ensures var st := StepAll(Initial, es);
            && Starts(es) == |st.blocks| + |st.open| + Restarts(es)
            && (Starts(es) == |st.blocks| + |st.open| <==> Restarts(es) == 0)
    decreases |es|
  {
    if es != [] {
      var front, e := es[..|es| - 1], es[|es| - 1];
      assert es == front + [e];
      StartsAreAccountedFor(front);
      IndicesAreIndependent(front);
      StepAllSnoc(Initial, front, e);
      var st := StepAll(Initial, front);
      if e.BlockStart? || e.BlockDelta? || e.BlockStop? {
        assert e.index in st.open <==> Buffer(front, e.index).Some?;
        CardAfter(st.open, e.index, if e.index in st.open then st.open[e.index] else NewBlock(TextKind));
        if e.BlockStart? { CardAfter(st.open, e.index, NewBlock(e.kind)); }
        if e.BlockDelta? && e.index in st.open { CardAfter(st.open, e.index, Append(st.open[e.index], e.delta)); }
      }
    }
  }

  lemma {:induction false} AscendingListsAll(s: set<nat>)
    ensures |Ascending(s)| == |s| && (forall x :: x in Ascending(s) <==> x in s)
    ensures forall i, j :: 0 <= i < j < |Ascending(s)| ==> Ascending(s)[i] < Ascending(s)[j]
  {
    if s != {} {
      var m := Least(s);
      var rest := Ascending(s - {m});
      AscendingListsAll(s - {m});
      assert Ascending(s) == [m] + rest;
      assert forall x :: x in s <==> x == m || x in s - {m};
      forall j | 0 <= j < |rest|
        ensures m < rest[j]
      {
        assert rest[j] in rest;
      }
    }
  }

  /** The events before the first error item. */
  function EventsOf(items: seq<Result<Event, string>>): seq<Event> {
    if items == [] || items[0].Err? then [] else [items[0].value] + EventsOf(items[1..])
  }

  /** The loss the first error item leaves, if there is one. */
  function ErrorOf(items: seq<Result<Event, string>>): seq<Loss> {
    if items == [] then [] else if items[0].Err? then [ItemError(items[0].error)] else ErrorOf(items[1..])
  }

  lemma {:induction false} ConsumeIs(st: State, items: seq<Result<Event, string>>)
    ensures var end := StepAll(st, EventsOf(items));
            Consume(st, items) == end.(losses := end.losses + ErrorOf(items))
    decreases |items|
  {
    if items != [] && items[0].Ok? {
      assert EventsOf(items)[1..] == EventsOf(items[1..]);
      ConsumeIs(Step(st, items[0].value), items[1..]);
    } else {
      var end := StepAll(st, []);
      if items == [] { assert end.losses + [] == end.losses; }
    }
  }

  /** Whether or not an error ends the stream, the loss report closes with each block left open, named once, lowest
      index first. */
  lemma {:induction false} OpenBlocksAreReported(items: seq<Result<Event, string>>) returns (report: seq<Loss>)
    ensures Fold(items).losses == StepAll(Initial, EventsOf(items)).losses + ErrorOf(items) + report
    ensures |report| == |StepAll(Initial, EventsOf(items)).open|
    ensures forall i: nat :: Buffer(EventsOf(items), i).Some? <==> NeverStopped(i) in report
    ensures LowestFirst(report)
  {
    ConsumeIs(Initial, items);
    IndicesAreIndependent(EventsOf(items));
    var open := StepAll(Initial, EventsOf(items)).open;
    report := UnstoppedReport(open.Keys);
    assert |open.Keys| == |open|;
    forall i: nat
      ensures Buffer(EventsOf(items), i).Some? <==> NeverStopped(i) in report
    {
      assert i in open <==> Buffer(EventsOf(items), i).Some?;
    }
  }

  ghost predicate LowestFirst(report: seq<Loss>) {
    forall j, k :: 0 <= j < k < |report| ==>
      report[j].NeverStopped? && report[k].NeverStopped? && report[j].index < report[k].index
  }

  lemma {:induction false} UnstoppedReport(open: set<nat>) returns (report: seq<Loss>)
    ensures report == Unstopped(Ascending(open)) && |report| == |open| && LowestFirst(report)
    ensures forall i: nat :: i in open <==> NeverStopped(i) in report
  {
    AscendingListsAll(open);
    report := Unstopped(Ascending(open));
    forall i: nat
      ensures i in open <==> NeverStopped(i) in report
    {
      NamedInReport(Ascending(open), i);
    }
  }

  lemma NamedInReport(keys: seq<nat>, i: nat)
    ensures i in keys <==> NeverStopped(i) in Unstopped(keys)
  {
    if i in keys {
      var k :| 0 <= k < |keys| && keys[k] == i;
      assert Unstopped(keys)[k] == NeverStopped(i);
    }
    if NeverStopped(i) in Unstopped(keys) {
      var k :| 0 <= k < |keys| && Unstopped(keys)[k] == NeverStopped(i);
      assert keys[k] == i;
    }
  }

  // ----- truncation -----

  /** `done(n)` says whether the first `n` bytes of the recorded body decode to a finished message. */
  method LocateTerminalEnd(done: nat -> bool, n: nat) returns (r: Option<nat>)
    ensures r.None? <==> forall k :: 0 <= k <= n ==> !done(k)
    ensures r.Some? ==> r.value <= n && done(r.value) && forall k :: 0 <= k < r.value ==> !done(k)
  {
    var len := 0;
    while len <= n
      invariant len <= n + 1 && forall k :: 0 <= k < len ==> !done(k)
    {
      if done(len) {
        return Some(len);
      }
      len := len + 1;
    }
    return None;
  }

  /** The percentages of the terminal at which a cut body still decodes as finished. Because the terminal is the
      shortest finished prefix, the check can only ever fail for a decoder that calls the empty body finished, and
      then at every cut. */
  method CheckTruncateMidStream(done: nat -> bool, n: nat) returns (failures: seq<nat>)
    ensures failures == if done(0) then [25, 50, 75] else []
  {
    failures := [];
    var terminal := LocateTerminalEnd(done, n);
    if terminal.None? {
      return;
    }
    var percents := [25, 50, 75];
    for i := 0 to 3
      invariant failures == if done(0) then percents[..i] else []
    {
      var cut := terminal.value * percents[i] / 100;
      assert terminal.value > 0 ==> cut < terminal.value;
      if done(cut) {
        failures := failures + [percents[i]];
      }
    }
  }
}
