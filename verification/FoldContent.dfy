/**
 What a folded stream holds, read off its events: the content of each block, the usage counters, the stop flag and the
 losses.
*/
module FoldContents {
  import opened Types
  import opened FoldStreams

  /** The deltas of index `i` among some events, in order. */
  function DeltasFor(es: seq<Event>, i: nat): seq<Delta> {
    if es == [] then []
    else
      var e := es[|es| - 1];
      DeltasFor(es[..|es| - 1], i) + if e.BlockDelta? && e.index == i then [e.delta] else []
  }

  /** No start and no stop of index `i`. */
  predicate LeavesOpen(es: seq<Event>, i: nat) {
    forall e :: e in es ==> !((e.BlockStart? || e.BlockStop?) && e.index == i)
  }

  lemma {:induction false} BufferAfter(a: seq<Event>, i: nat, kind: BlockKind, mid: seq<Event>)
    requires LeavesOpen(mid, i)
    ensures Buffer(a + [BlockStart(i, kind)] + mid, i) == Some(AppendAll(NewBlock(kind), DeltasFor(mid, i)))
    decreases |mid|
  {
    var start := a + [BlockStart(i, kind)];
    if mid == [] {
      assert start + mid == start;
      BufferSnoc(a, BlockStart(i, kind), i);
    } else {
      var front, e := mid[..|mid| - 1], mid[|mid| - 1];
      assert start + mid == (start + front) + [e];
      assert e in mid && forall x :: x in front ==> x in mid;
      BufferAfter(a, i, kind, front);
      BufferSnoc(start + front, e, i);
      if Concerns(e, i) {
        var ds := DeltasFor(front, i) + [e.delta];
        assert ds[..|ds| - 1] == DeltasFor(front, i);
      } else {
        assert DeltasFor(front, i) + [] == DeltasFor(front, i);
      }
    }
  }

  lemma {:induction false} BlocksGrow(st: State, es: seq<Event>)
    ensures st.blocks <= StepAll(st, es).blocks
    decreases |es|
  {
    if es != [] { BlocksGrow(Step(st, es[0]), es[1..]); }
  }

  lemma {:induction false} FoldIs(items: seq<Result<Event, string>>)
    ensures var st, r := StepAll(Initial, EventsOf(items)), Fold(items);
            r.blocks == st.blocks && r.usage == st.usage && r.sawStop == st.sawStop
  {
    ConsumeIs(Initial, items);
  }

  /** A block that starts with kind `kind` at index `i`, takes deltas of `i` among events of other indices, and stops,
      is sealed with what those deltas spell for its kind: the texts, or the thoughts and the last signature, or the
      tool's name, its id if the provider gave one and else one made from the index, and the argument fragments. */
  lemma {:induction false} BlockContent(items: seq<Result<Event, string>>, a: seq<Event>, i: nat, kind: BlockKind,
                                        mid: seq<Event>, rest: seq<Event>)
    requires EventsOf(items) == a + [BlockStart(i, kind)] + mid + [BlockStop(i)] + rest && LeavesOpen(mid, i)
    ensures var before := StepAll(Initial, a + [BlockStart(i, kind)] + mid).blocks;
            var blocks, ds := Fold(items).blocks, DeltasFor(mid, i);
            && |before| < |blocks| && before <= blocks
            && blocks[|before|]
               == match kind
                  case TextKind => TextContent(TextOf(ds))
                  case ThinkingKind => ThinkingContent(ThoughtOf(ds), SignatureOf(ds))
                  case ToolUseKind(name, Some(id)) => ToolUseContent(FromProvider(id), name, ArgsOf(ds))
                  case ToolUseKind(name, None) => ToolUseContent(Synthesized(i), name, ArgsOf(ds))
  {
    var head := a + [BlockStart(i, kind)] + mid;
    var st := StepAll(Initial, head);
    FoldIs(items);
    BufferAfter(a, i, kind, mid);
    IndicesAreIndependent(head);
    assert i in st.open <==> Buffer(head, i).Some?;
    AppendAllIs(NewBlock(kind), DeltasFor(mid, i));
    StepAllSnoc(Initial, head, BlockStop(i));
    StepAllAppend(Initial, head + [BlockStop(i)], rest);
    BlocksGrow(Step(st, BlockStop(i)), rest);
    EmptyBuffers(DeltasFor(mid, i));
  }

  lemma EmptyBuffers(ds: seq<Delta>)
    ensures "" + TextOf(ds) == TextOf(ds) && "" + ArgsOf(ds) == ArgsOf(ds) && "" + ThoughtOf(ds) == ThoughtOf(ds)
  {
  }

  /** An index with an open block was started, and since then neither started again nor stopped. */
  lemma {:induction false} LastStart(es: seq<Event>, i: nat) returns (a: seq<Event>, kind: BlockKind, mid: seq<Event>)
    requires Buffer(es, i).Some?
    ensures es == a + [BlockStart(i, kind)] + mid && LeavesOpen(mid, i)
    decreases |es|
  {
    var front, e := es[..|es| - 1], es[|es| - 1];
    assert es == front + [e];
    BufferSnoc(front, e, i);
    if e.BlockStart? && e.index == i {
      a, kind, mid := front, e.kind, [];
      assert es == a + [BlockStart(i, kind)] + mid;
    } else {
      var mid': seq<Event>;
      a, kind, mid' := LastStart(front, i);
      mid := mid' + [e];
      assert es == a + [BlockStart(i, kind)] + mid;
      assert forall x :: x in mid ==> x in mid' || x == e;
    }
  }

  /** And there are no other blocks: each comes from such a start and stop. */
  lemma {:induction false} BlocksHaveSources(es: seq<Event>, n: nat)
    returns (a: seq<Event>, i: nat, kind: BlockKind, mid: seq<Event>, rest: seq<Event>)
    requires n < |StepAll(Initial, es).blocks|
    ensures es == a + [BlockStart(i, kind)] + mid + [BlockStop(i)] + rest && LeavesOpen(mid, i)
    ensures |StepAll(Initial, a + [BlockStart(i, kind)] + mid).blocks| == n
    decreases |es|
  {
    var front, e := es[..|es| - 1], es[|es| - 1];
    assert es == front + [e];
    StepAllSnoc(Initial, front, e);
    if n < |StepAll(Initial, front).blocks| {
      var rest': seq<Event>;
      a, i, kind, mid, rest' := BlocksHaveSources(front, n);
      rest := rest' + [e];
      assert es == a + [BlockStart(i, kind)] + mid + [BlockStop(i)] + rest;
    } else {
      IndicesAreIndependent(front);
      i, rest := e.index, [];
      assert i in StepAll(Initial, front).open <==> Buffer(front, i).Some?;
      a, kind, mid := LastStart(front, i);
      assert es == a + [BlockStart(i, kind)] + mid + [BlockStop(i)] + rest;
    }
  }

  // ----- usage, stop and losses -----

  function LastInput(es: seq<Event>): nat {
    if es == [] then 0
    else
      var e := es[|es| - 1];
      if e.UsageDelta? && e.input.Some? then e.input.value else LastInput(es[..|es| - 1])
  }

  function LastOutput(es: seq<Event>): nat {
    if es == [] then 0
    else
      var e := es[|es| - 1];
      if e.UsageDelta? && e.output.Some? then e.output.value else LastOutput(es[..|es| - 1])
  }

  function LastCacheRead(es: seq<Event>): nat {
    if es == [] then 0
    else
      var e := es[|es| - 1];
      if e.UsageDelta? && e.cacheRead.Some? then e.cacheRead.value else LastCacheRead(es[..|es| - 1])
  }

  /** The last start or stop of the index, if any, is a start. */
  predicate IsOpen(es: seq<Event>, i: nat) {
    es != [] &&
    var e := es[|es| - 1];
    if (e.BlockStart? || e.BlockStop?) && e.index == i then e.BlockStart? else IsOpen(es[..|es| - 1], i)
  }

  /** A loss for each delta and each stop that comes while its index is not open. */
  function LossesOf(es: seq<Event>): seq<Loss> {
    if es == [] then []
    else
      var front, e := es[..|es| - 1], es[|es| - 1];
      LossesOf(front)
      + (if e.BlockDelta? && !IsOpen(front, e.index) then [DeltaWithoutStart(e.index)]
         else if e.BlockStop? && !IsOpen(front, e.index) then [StopWithoutStart(e.index)]
         else [])
  }

  lemma {:induction false} OpenIsBuffered(es: seq<Event>, i: nat)
    ensures IsOpen(es, i) <==> Buffer(es, i).Some?
    decreases |es|
  {
    if es != [] {
      var front, e := es[..|es| - 1], es[|es| - 1];
      assert es == front + [e];
      OpenIsBuffered(front, i);
      BufferSnoc(front, e, i);
    }
  }

  lemma {:induction false} EventsTell(es: seq<Event>)
    ensures var st := StepAll(Initial, es);
            && st.usage == Usage(LastInput(es), LastOutput(es), LastCacheRead(es))
            && (st.sawStop <==> MessageStop in es) && st.losses == LossesOf(es)
    decreases |es|
  {
    if es != [] {
      var front, e := es[..|es| - 1], es[|es| - 1];
      assert es == front + [e];
      EventsTell(front);
      StepAllSnoc(Initial, front, e);
      IndicesAreIndependent(front);
      if e.BlockDelta? || e.BlockStop? {
        OpenIsBuffered(front, e.index);
        assert e.index in StepAll(Initial, front).open <==> Buffer(front, e.index).Some?;
      }
    }
  }

  /** The rest of the result: each counter is the last value reported for it, or zero; the stop was seen when it comes
      before the first error; and the losses are the stray deltas and stops, the error if one ended the stream, and the
      blocks left open. */
  lemma {:induction false} RestOfTheFold(items: seq<Result<Event, string>>) returns (report: seq<Loss>)
    ensures var es, r := EventsOf(items), Fold(items);
            && r.usage == Usage(LastInput(es), LastOutput(es), LastCacheRead(es))
            && (r.sawStop <==> MessageStop in es)
            && r.losses == LossesOf(es) + ErrorOf(items) + report
            && (forall i: nat :: IsOpen(es, i) <==> NeverStopped(i) in report) && LowestFirst(report)
  {
    FoldIs(items);
    EventsTell(EventsOf(items));
    report := OpenBlocksAreReported(items);
    forall i: nat
      ensures IsOpen(EventsOf(items), i) <==> NeverStopped(i) in report
    {
      OpenIsBuffered(EventsOf(items), i);
      assert Buffer(EventsOf(items), i).Some? <==> NeverStopped(i) in report;
    }
  }
}
