/** Two-step users of the stack: `stack_move`, which reads and writes under two locks, and a delivery, which
  * peeks, writes to the clipboard and takes under three. What other callers may do in between.
  */
module StackRaces {

  import opened PasteStack
  import opened ClipModel
  import opened ClipInvariant
  import opened ClipReading
  import opened StackRefinement

  // ---------- what only adds to the stack's end ----------

  predicate AppendOnly(op: Op) {
    op.Push? || op.Take? || op.Pin? || op.SetGroup? || op.RenameGroup? || op.Decide? || op.Collect? || op.Leftover?
  }

  lemma AppendOnlyStep(s: Store, op: Op)
    requires Inv(s) && Valid(s.stack) && AppendOnly(op)
    ensures Valid(Apply(s, op).stack) && Queue(s.stack) <= Queue(Apply(s, op).stack)
  {
    if op.Push? {
      PushStep(s, op);
    } else {
      RowOpRefines(s, op);
    }
  }

  lemma {:induction false} AppendOnlyKeepsFront(s: Store, ops: seq<Op>)
    requires Inv(s) && Valid(s.stack) && FreshFrom(s, ops)
    requires forall k :: 0 <= k < |ops| ==> AppendOnly(ops[k])
    ensures var t := RunFrom(s, ops); Inv(t) && Valid(t.stack) && Queue(s.stack) <= Queue(t.stack)
  {
    if ops != [] {
      var init := ops[..|ops| - 1];
      AppendOnlyKeepsFront(s, init);
      StepKeeps(RunFrom(s, init), ops[|ops| - 1]);
      AppendOnlyStep(RunFrom(s, init), ops[|ops| - 1]);
    }
  }

  /** A move during which others only push, capture and curate is timely: it moves its entry within the
    * entries it read, and what was pushed meanwhile stays behind them in its own order. */
  lemma MoveMeanwhile(s: Store, ops: seq<Op>, id: nat, to: nat)
    requires Inv(s) && Valid(s.stack) && id in Queue(s.stack) && FreshFrom(s, ops)
    requires forall k :: 0 <= k < |ops| ==> AppendOnly(ops[k])
    ensures var t, order := RunFrom(s, ops), Moved(Queue(s.stack), id, to);
            && Timely(t, WriteMove(order))
            && |s.stack| <= |t.stack|
            && Valid(Repositioned(t.stack, order))
            && Queue(Repositioned(t.stack, order)) == order + Queue(t.stack)[|s.stack|..]
  {
    var t, order := RunFrom(s, ops), Moved(Queue(s.stack), id, to);
    AppendOnlyKeepsFront(s, ops);
    var n := |s.stack|;
    assert Queue(t.stack)[..n] == Queue(s.stack);
    FrontMoved(t.stack, n, id, to);
    FrontMoveRefines(t.stack, n, order);
  }

  // ---------- when a late write is still safe ----------

  /** An operation other than a push or a move changes no stack row, only which there are. */
  lemma StackShrinks(s: Store, op: Op, r: StackRow)
    requires !op.Push? && !op.WriteMove? && r in Apply(s, op).stack
    ensures r in s.stack
  {
    if op.Decide? { DecidedSameCores(s, op.ids, op.accept); }
  }

  /** The rows that came after the list was read lie past the last entry of the list. */
  ghost predicate NewcomersPast(t: Store, q: seq<nat>, last: StackRow) {
    && last in t.stack
    && forall r :: r in t.stack ==> r.entryId in q || last.position < r.position
  }

  lemma NewcomersStep(t: Store, op: Op, q: seq<nat>, last: StackRow)
    requires Inv(t) && NewcomersPast(t, q, last) && !op.WriteMove?
    requires Stacked(Apply(t, op).stack, last.entryId)
    ensures NewcomersPast(Apply(t, op), q, last)
  {
    var u := Apply(t, op);
    if op.Push? {
      var k :| 0 <= k < |t.stack| && t.stack[k] == last;
    } else {
      forall r | r in u.stack ensures r in t.stack {
        StackShrinks(t, op, r);
      }
      var r :| r in u.stack && r.entryId == last.entryId;
      SameEntrySameRow(t.stack, r, last);
    }
  }

  /** The entry stays stacked through the whole run. */
  ghost predicate StaysStacked(s: Store, ops: seq<Op>, id: nat) {
    forall k :: 0 <= k <= |ops| ==> Stacked(RunFrom(s, ops[..k]).stack, id)
  }

  ghost predicate NoMoves(ops: seq<Op>) {
    forall k :: 0 <= k < |ops| ==> !ops[k].WriteMove?
  }

  lemma {:induction false} NewcomersRun(s: Store, ops: seq<Op>, q: seq<nat>, last: StackRow)
    requires Inv(s) && Valid(s.stack) && FreshFrom(s, ops) && NoMoves(ops)
    requires NewcomersPast(s, q, last) && StaysStacked(s, ops, last.entryId)
    ensures var t := RunFrom(s, ops); Inv(t) && Valid(t.stack) && NewcomersPast(t, q, last)
  {
    if ops != [] {
      var init, op := ops[..|ops| - 1], ops[|ops| - 1];
      forall k | 0 <= k <= |init| ensures Stacked(RunFrom(s, init[..k]).stack, last.entryId) {
        assert init[..k] == ops[..k];
      }
      NewcomersRun(s, init, q, last);
      StepKeeps(RunFrom(s, init), op);
      StepRefines(RunFrom(s, init), op);
      assert ops[..|ops|] == ops;
      NewcomersStep(RunFrom(s, init), op, q, last);
    }
  }

  lemma LastRow(s: Store)
    requires Valid(s.stack) && s.stack != []
    ensures var q, last := Queue(s.stack), Ordered(s.stack)[|s.stack| - 1];
            && last in s.stack && last.entryId == q[|q| - 1] && |q| - 1 <= last.position
            && NewcomersPast(s, q, last)
  {
    var o := Ordered(s.stack);
    OrderedElements(s.stack);
    OrderedAscending(s.stack);
    forall r | r in o ensures 0 <= r.position {
      var l :| 0 <= l < |s.stack| && s.stack[l] == r;
    }
    PositionAtLeastIndex(o, |o| - 1);
    QueueMembers(s.stack);
    assert o[|o| - 1] in o;
  }

  /** Whatever pushes, takes, removals and deletions are served between the two locks of a move: as long as
    * the last entry that was read stays on the stack, the write leaves all positions distinct. */
  lemma MoveSafeWhileLastStays(s: Store, ops: seq<Op>, id: nat, to: nat)
    requires Inv(s) && Valid(s.stack) && id in Queue(s.stack) && FreshFrom(s, ops) && NoMoves(ops)
    requires StaysStacked(s, ops, Queue(s.stack)[|s.stack| - 1])
    ensures Valid(Repositioned(RunFrom(s, ops).stack, Moved(Queue(s.stack), id, to)))
  {
    var q, order := Queue(s.stack), Moved(Queue(s.stack), id, to);
    var last, t := Ordered(s.stack)[|s.stack| - 1], RunFrom(s, ops);
    LastRow(s);
    NewcomersRun(s, ops, q, last);
    assert q[..|q|] == q;
    FrontMoved(s.stack, |q|, id, to);
    forall k | 0 <= k < |t.stack| ensures t.stack[k].entryId in order || |order| <= t.stack[k].position {
      assert t.stack[k] in t.stack;
    }
    RepositionedValid(t.stack, order);
  }

  // ---------- a delivery and the others ----------

  lemma TailKeepsAllButTheHead(q: seq<nat>, x: nat)
    requires q != [] && NoDuplicates(q)
    ensures x in q[1..] <==> x in q && x != q[0]
  {
    if x in q && x != q[0] {
      var i :| 0 <= i < |q| && q[i] == x;
      assert q[1..][i - 1] == x;
    }
  }

  /** `left` holds everything of q but for one entry. */
  ghost predicate LosesOnly(q: seq<nat>, left: seq<nat>, x: nat) {
    forall y :: y in q && y != x ==> y in left
  }

  lemma TailLosesOnlyHead(q: seq<nat>, x: nat)
    requires q != [] && NoDuplicates(q)
    ensures LosesOnly(q, q[1..], x) <==> q[0] == x
  {
    TailKeepsAllButTheHead(q, q[0]);
    assert q[0] in q;
    forall y | y in q && y != q[0] ensures y in q[1..] {
      TailKeepsAllButTheHead(q, y);
    }
  }

  /** The take at the end of a delivery removes the entry that was written, and drops no entry that was not,
    * if and only if the written entry is still the head. */
  lemma TakeDropsOnlyTheWrittenIff(t: Store, written: nat)
    requires DistinctEntries(t.stack) && t.stack != []
    ensures LosesOnly(Queue(t.stack), Queue(StackTaken(t).stack), written) <==> Queue(t.stack)[0] == written
  {
    TakeIsHead(t.stack);
    QueueNoDuplicates(t.stack);
    TailLosesOnlyHead(Queue(t.stack), written);
  }

  /** When an operation served in between leaves the head where it is. */
  ghost predicate KeepsHead(s: Store, op: Op)
    requires s.stack != []
  {
    var h := Queue(s.stack)[0];
    match op
    case Push(_) => true
    case TakeNext => false
    case Unstack(id) => id != h
    case ClearStack => false
    case WriteMove(order) => order != [] && order[0] == h
    case _ => h !in Gone(s, op)
  }

  lemma WithoutHead(q: seq<nat>, ids: set<nat>)
    requires q != [] && NoDuplicates(q)
    ensures (WithoutIds(q, ids) != [] && WithoutIds(q, ids)[0] == q[0]) <==> q[0] !in ids
  {
    if q[0] in ids && WithoutIds(q, ids) != [] {
      WithoutIsPart(q[1..], ids);
      var h := WithoutIds(q, ids)[0];
      assert h in WithoutIds(q[1..], ids);
      var i :| 0 <= i < |q| - 1 && q[1..][i] == h;
      assert q[i + 1] == h;
    }
  }

  lemma {:induction false} WithoutIsPart(q: seq<nat>, ids: set<nat>)
    ensures forall x :: x in WithoutIds(q, ids) ==> x in q
  {
    if q != [] { WithoutIsPart(q[1..], ids); }
  }

  lemma StackOpHead(s: Store, op: Op)
    requires Timely(s, op) && s.stack != [] && NoDuplicates(Queue(s.stack)) && StackOp(op)
    ensures var q, q' := Queue(s.stack), QueueStep(Queue(s.stack), s, op);
            (q' != [] && q'[0] == q[0]) <==> KeepsHead(s, op)
  {
    var q := Queue(s.stack);
    if op.TakeNext? {
      assert |q| > 1 ==> q[0] != q[1];
    } else if op.Unstack? {
      WithoutHead(q, {op.id});
    } else if op.WriteMove? {
      OrderNotEmpty(q, op.order);
    }
  }

  lemma RowOpHead(s: Store, op: Op)
    requires s.stack != [] && NoDuplicates(Queue(s.stack)) && !StackOp(op)
    ensures var q, q' := Queue(s.stack), QueueStep(Queue(s.stack), s, op);
            (q' != [] && q'[0] == q[0]) <==> KeepsHead(s, op)
  {
    var gone := Gone(s, op);
    WithoutHead(Queue(s.stack), gone);
    assert QueueStep(Queue(s.stack), s, op) == WithoutIds(Queue(s.stack), gone);
  }

  /** The condition is exact, operation by operation. */
  lemma HeadKeptIff(s: Store, op: Op)
    requires Inv(s) && Valid(s.stack) && Timely(s, op) && s.stack != []
    ensures var q, q' := Queue(s.stack), Queue(Apply(s, op).stack);
            (q' != [] && q'[0] == q[0]) <==> KeepsHead(s, op)
  {
    StepRefines(s, op);
    QueueNoDuplicates(s.stack);
    if StackOp(op) { StackOpHead(s, op); } else { RowOpHead(s, op); }
  }

  lemma OrderNotEmpty(q: seq<nat>, order: seq<nat>)
    requires MoveOf(q, order)
    ensures 0 < |order| <= |q|
  {
    var n: nat, id: nat, to: nat :| n <= |q| && id in q[..n] && order == Moved(q[..n], id, to);
    MovedIsPermutation(q[..n], id, to);
  }

  /** Every operation of the run is timely and leaves the head where it is. */
  ghost predicate HeadKept(s: Store, ops: seq<Op>) {
    ops == [] ||
    var t := RunFrom(s, ops[..|ops| - 1]);
    && HeadKept(s, ops[..|ops| - 1])
    && Timely(t, ops[|ops| - 1]) && t.stack != [] && KeepsHead(t, ops[|ops| - 1])
  }

  /** While others keep the head where it is, a delivery takes exactly the entry it wrote. */
  lemma {:induction false} DeliveryTakesWhatItWrote(s: Store, ops: seq<Op>)
    requires Inv(s) && Valid(s.stack) && s.stack != [] && FreshFrom(s, ops) && HeadKept(s, ops)
    ensures var t := RunFrom(s, ops);
            && Inv(t) && Valid(t.stack) && t.stack != []
            && Queue(t.stack)[0] == Queue(s.stack)[0]
            && Queue(StackTaken(t).stack) == Queue(t.stack)[1..]
  {
    var t := RunFrom(s, ops);
    if ops != [] {
      var init, op := ops[..|ops| - 1], ops[|ops| - 1];
      DeliveryTakesWhatItWrote(s, init);
      StepKeeps(RunFrom(s, init), op);
      StepRefines(RunFrom(s, init), op);
      HeadKeptIff(RunFrom(s, init), op);
    }
    TakeIsHead(t.stack);
  }

  lemma RemoveTheHead(s: Store)
    requires DistinctEntries(s.stack) && |s.stack| == 2
    ensures var t := Apply(s, Unstack(Queue(s.stack)[0]));
            |t.stack| == 1 && Queue(t.stack) == Queue(s.stack)[1..] && DistinctEntries(t.stack)
  {
    var q := Queue(s.stack);
    RemovalFilters(s.stack, {q[0]});
    QueueNoDuplicates(s.stack);
    HeadApart(q);
    WithoutKeepsDistinctEntries(s.stack, {q[0]});
  }

  lemma TakeTheOnlyOne(t: Store)
    requires DistinctEntries(t.stack) && |t.stack| == 1
    ensures StackTaken(t).stack == []
  {
    TakeIsHead(t.stack);
    assert |Queue(StackTaken(t).stack)| == 0;
  }

  /** It can go wrong: the head is removed by hand while it is being written, and the take then drops the
    * next entry, which nobody delivered. */
  lemma RemovalMeanwhileLosesAnEntry(s: Store)
    requires DistinctEntries(s.stack) && |s.stack| == 2
    ensures var q := Queue(s.stack);
            var t := Apply(s, Unstack(q[0]));
            t.stack != [] && Queue(t.stack)[0] == q[1] && StackTaken(t).stack == []
  {
    RemoveTheHead(s);
    TakeTheOnlyOne(Apply(s, Unstack(Queue(s.stack)[0])));
  }
}
