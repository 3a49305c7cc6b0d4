/** The stack table against the store: over every run in which each `stack_move` writes a list that was
  * read from what is still the front of the queue, with any pushes in between, the table stands for a FIFO
  * sequence driven by the obvious steps.
  */
module StackRefinement {

  import opened PasteStack
  import opened ClipModel
  import opened Retention
  import opened ClipInvariant

  ghost predicate MoveOf(q: seq<nat>, order: seq<nat>) {
    exists n: nat, id: nat, to: nat :: n <= |q| && id in q[..n] && order == Moved(q[..n], id, to)
  }

  /** A move whose list was read from what is still the front of the queue: whatever came since is behind. */
  ghost predicate Timely(s: Store, op: Op) {
    op.WriteMove? ==> MoveOf(Queue(s.stack), op.order)
  }

  /** Rows an operation takes away. */
  function Gone(s: Store, op: Op): set<nat> {
    Ids(s.rows) - Ids(Apply(s, op).rows)
  }

  /** The FIFO sequence's own step. */
  function QueueStep(q: seq<nat>, s: Store, op: Op): seq<nat> {
    match op
    case Push(id) => if HasId(s.rows, id) && id !in q then q + [id] else q
    case TakeNext => if q == [] then q else q[1..]
    case Unstack(id) => WithoutIds(q, {id})
    case ClearStack => []
    case WriteMove(order) => if |order| <= |q| then order + q[|order|..] else order
    case _ => WithoutIds(q, Gone(s, op))
  }

  // ---------- removals ----------

  lemma {:induction false} WithoutAgree(q: seq<nat>, a: set<nat>, b: set<nat>)
    requires forall x :: x in q ==> (x in a <==> x in b)
    ensures WithoutIds(q, a) == WithoutIds(q, b)
  {
    if q != [] {
      assert q[0] in q;
      WithoutAgree(q[1..], a, b);
    }
  }

  lemma {:induction false} WithoutTwice(stack: seq<StackRow>, a: set<nat>, b: set<nat>)
    ensures Without(Without(stack, a), b) == Without(stack, a + b)
  {
    if stack != [] {
      var rest := Without(stack[1..], a);
      WithoutTwice(stack[1..], a, b);
      if stack[0].entryId in a {
        assert Without(stack, a) == rest;
      } else {
        assert ([stack[0]] + rest)[1..] == rest;
      }
    }
  }

  lemma StackedIsLive(s: Store, id: nat)
    requires Inv(s) && id in Queue(s.stack)
    ensures id in Ids(s.rows)
  {
    QueueMembers(s.stack);
    var r :| r in s.stack && r.entryId == id;
    var k :| 0 <= k < |s.stack| && s.stack[k] == r;
    HasIdInIds(s.rows, id);
  }

  /** Rows go, and with them exactly their stack entries. */
  lemma DropRefines(s: Store, t: Store, ids: set<nat>)
    requires Inv(s) && Valid(s.stack)
    requires t.stack == Without(s.stack, ids)
    requires forall id :: id in Ids(s.rows) ==> (id in ids <==> id !in Ids(t.rows))
    ensures Valid(t.stack) && Queue(t.stack) == WithoutIds(Queue(s.stack), Ids(s.rows) - Ids(t.rows))
  {
    WithoutKeepsValid(s.stack, ids);
    RemovalFilters(s.stack, ids);
    forall x | x in Queue(s.stack) ensures x in ids <==> x in Ids(s.rows) - Ids(t.rows) {
      StackedIsLive(s, x);
    }
    WithoutAgree(Queue(s.stack), ids, Ids(s.rows) - Ids(t.rows));
  }

  lemma DroppedIds(s: Store, ids: set<nat>)
    ensures Ids(Dropped(s, ids).rows) == Ids(s.rows) - ids
  {
  }

  lemma PurgeRefines(s: Store, days: nat, max: nat, now: int)
    requires Inv(s) && Valid(s.stack)
    ensures var t := Purged(s, days, max, now);
            Valid(t.stack) && Queue(t.stack) == WithoutIds(Queue(s.stack), Ids(s.rows) - Ids(t.rows))
  {
    var a := ExpiredIds(s.rows, days, now);
    var mid := Dropped(s, a);
    var b := OverflowIds(mid.rows, max);
    WithoutTwice(s.stack, a, b);
    DroppedIds(s, a);
    DroppedIds(mid, b);
    DropRefines(s, Purged(s, days, max, now), a + b);
  }

  // ---------- every operation ----------

  lemma NothingGone(s: Store, t: Store)
    requires t.stack == s.stack && Ids(s.rows) <= Ids(t.rows)
    ensures Queue(t.stack) == WithoutIds(Queue(s.stack), Ids(s.rows) - Ids(t.rows))
  {
    WithoutAbsent(Queue(s.stack), Ids(s.rows) - Ids(t.rows));
  }

  lemma SameCoresSameIds(rows: seq<Row>, rows': seq<Row>)
    requires SameCores(rows, rows')
    ensures Ids(rows) <= Ids(rows')
  {
    forall r | r in rows ensures r.id in Ids(rows') {
      var i :| 0 <= i < |rows| && rows[i] == r;
      assert rows'[i] in rows';
    }
  }

  lemma PushRefines(s: Store, id: nat)
    requires Inv(s) && Valid(s.stack)
    ensures Valid(StackPushed(s, id).stack)
    ensures Queue(StackPushed(s, id).stack) ==
            if HasId(s.rows, id) && id !in Queue(s.stack) then Queue(s.stack) + [id] else Queue(s.stack)
  {
    QueueMembers(s.stack);
    PushedValid(s.stack, s.nextStackRow, id);
    PushAppends(s.stack, s.nextStackRow, id);
  }

  lemma TakeRefines(s: Store)
    requires Inv(s) && Valid(s.stack)
    ensures Valid(StackTaken(s).stack)
    ensures var q := Queue(s.stack); Queue(StackTaken(s).stack) == if q == [] then q else q[1..]
  {
    if s.stack != [] {
      TakeIsHead(s.stack);
      WithoutKeepsValid(s.stack, {Queue(s.stack)[0]});
    }
  }

  /** What is not in the front n entries sits at position n or later. */
  lemma BehindTheFront(stack: seq<StackRow>, n: nat, order: seq<nat>)
    requires Valid(stack) && n <= |stack| && |order| == n && forall x :: x in order <==> x in Queue(stack)[..n]
    ensures OthersPast(stack, order)
  {
    var o := Ordered(stack);
    OrderedElements(stack);
    OrderedAscending(stack);
    forall k | 0 <= k < |stack| ensures stack[k].entryId in order || |order| <= stack[k].position {
      assert stack[k] in stack;
      var i :| 0 <= i < |o| && o[i] == stack[k];
      forall r | r in o ensures 0 <= r.position {
        var l :| 0 <= l < |stack| && stack[l] == r;
      }
      PositionAtLeastIndex(o, i);
      if i < n { assert Queue(stack)[..n][i] == stack[k].entryId; }
    }
  }

  lemma FrontMoved(stack: seq<StackRow>, n: nat, id: nat, to: nat)
    requires Valid(stack) && n <= |stack| && id in Queue(stack)[..n]
    ensures var front := Queue(stack)[..n];
            var order := Moved(front, id, to);
            |order| == n && NoDuplicates(order) && forall x :: x in order <==> x in front
  {
    QueueNoDuplicates(stack);
    MovedIsPermutation(Queue(stack)[..n], id, to);
    PermutationKeeps(Moved(Queue(stack)[..n], id, to), Queue(stack)[..n]);
  }

  lemma FrontStacked(stack: seq<StackRow>, n: nat, order: seq<nat>)
    requires n <= |stack| && forall x :: x in order <==> x in Queue(stack)[..n]
    ensures forall e :: e in order ==> Stacked(stack, e)
  {
    QueueMembers(stack);
    forall e | e in order ensures Stacked(stack, e) {
      assert e in Queue(stack)[..n] && e in Queue(stack);
    }
  }

  /** Moving an entry within the front n, when the write finds n entries and whatever came behind them. */
  lemma FrontMoveRefines(stack: seq<StackRow>, n: nat, order: seq<nat>)
    requires Valid(stack) && n <= |stack| && |order| == n && NoDuplicates(order)
    requires forall x :: x in order <==> x in Queue(stack)[..n]
    ensures Valid(Repositioned(stack, order)) && Queue(Repositioned(stack, order)) == order + Queue(stack)[n..]
  {
    var front := Queue(stack)[..n];
    BehindTheFront(stack, n, order);
    FrontStacked(stack, n, order);
    WriteOrder(stack, order);
    SameMembers(order, front);
    PushedTail(stack, front, set e | e in order);
  }

  lemma MoveRefines(s: Store, order: seq<nat>)
    requires Valid(s.stack) && MoveOf(Queue(s.stack), order)
    ensures Valid(Repositioned(s.stack, order)) && |order| <= |s.stack|
    ensures Queue(Repositioned(s.stack, order)) == order + Queue(s.stack)[|order|..]
  {
    var q := Queue(s.stack);
    var n: nat, id: nat, to: nat :| n <= |q| && id in q[..n] && order == Moved(q[..n], id, to);
    FrontMoved(s.stack, n, id, to);
    FrontMoveRefines(s.stack, n, order);
  }

  lemma RowOpRefines(s: Store, op: Op)
    requires !StackOp(op) && !Removal(op)
    ensures Apply(s, op).stack == s.stack && Ids(s.rows) <= Ids(Apply(s, op).rows)
  {
    var t := Apply(s, op);
    match op
    case Take(c, now) =>
      if Hits(s, c) { SameCoresSameIds(s.rows, t.rows); } else { IdsAppend(s.rows, NewRow(c, s.nextId, now)); }
    case Pin(_, _) => SameCoresSameIds(s.rows, t.rows);
    case SetGroup(_, _) => SameCoresSameIds(s.rows, t.rows);
    case RenameGroup(_, _) => SameCoresSameIds(s.rows, t.rows);
    case Decide(ids, accept) => DecidedSameCores(s, ids, accept); SameCoresSameIds(s.rows, t.rows);
    case Collect =>
    case Leftover(_, _) =>
  }

  /** Rows went, and with them their stack entries. */
  ghost predicate Shrunk(s: Store, t: Store) {
    Valid(t.stack) && Queue(t.stack) == WithoutIds(Queue(s.stack), Ids(s.rows) - Ids(t.rows))
  }

  lemma DroppedShrinks(s: Store, t: Store, ids: set<nat>)
    requires Inv(s) && Valid(s.stack) && t == Dropped(s, ids)
    ensures Shrunk(s, t)
  {
    DroppedIds(s, ids);
    DropRefines(s, t, ids);
  }

  lemma PurgedShrinks(s: Store, t: Store, days: nat, max: nat, now: int)
    requires Inv(s) && Valid(s.stack) && t == Purged(s, days, max, now)
    ensures Shrunk(s, t)
  {
    PurgeRefines(s, days, max, now);
  }

  lemma RemovalRefines(s: Store, op: Op)
    requires Inv(s) && Valid(s.stack) && Removal(op)
    ensures Shrunk(s, Apply(s, op))
  {
    if op.Purge? {
      PurgeApplied(s, op);
      PurgedShrinks(s, Apply(s, op), op.retentionDays, op.maxEntries, op.now);
    } else {
      DropApplied(s, op);
      DroppedShrinks(s, Apply(s, op), Doomed(s, op));
    }
  }

  /** One operation, seen on the table and on the sequence. */
  ghost predicate Refined(s: Store, op: Op) {
    Valid(Apply(s, op).stack) && Queue(Apply(s, op).stack) == QueueStep(Queue(s.stack), s, op)
  }

  lemma PushStep(s: Store, op: Op)
    requires Inv(s) && Valid(s.stack) && op.Push?
    ensures Refined(s, op)
  {
    PushRefines(s, op.id);
  }

  lemma TakeStep(s: Store, op: Op)
    requires Inv(s) && Valid(s.stack) && op.TakeNext?
    ensures Refined(s, op)
  {
    TakeApplied(s, op);
    TakeRefines(s);
  }

  lemma UnstackStep(s: Store, op: Op)
    requires Valid(s.stack) && op.Unstack?
    ensures Refined(s, op)
  {
    WithoutKeepsValid(s.stack, {op.id});
    RemovalFilters(s.stack, {op.id});
  }

  lemma MoveStep(s: Store, op: Op)
    requires Valid(s.stack) && Timely(s, op) && op.WriteMove?
    ensures Refined(s, op)
  {
    MoveRefines(s, op.order);
  }

  lemma StackOpRefines(s: Store, op: Op)
    requires Inv(s) && Valid(s.stack) && Timely(s, op) && StackOp(op)
    ensures Refined(s, op)
  {
    if op.Push? {
      PushStep(s, op);
    } else if op.TakeNext? {
      TakeStep(s, op);
    } else if op.Unstack? {
      UnstackStep(s, op);
    } else if op.WriteMove? {
      MoveStep(s, op);
    }
  }

  /** Every operation of the store acts on the table as its step acts on the FIFO sequence. */
  lemma StepRefines(s: Store, op: Op)
    requires Inv(s) && Valid(s.stack) && Timely(s, op)
    ensures Valid(Apply(s, op).stack)
    ensures Queue(Apply(s, op).stack) == QueueStep(Queue(s.stack), s, op)
  {
    if StackOp(op) {
      StackOpRefines(s, op);
    } else if Removal(op) {
      RemovalRefines(s, op);
    } else {
      RowOpRefines(s, op);
      NothingGone(s, Apply(s, op));
    }
  }

  function Fifo(ops: seq<Op>): seq<nat> {
    if ops == [] then []
    else QueueStep(Fifo(ops[..|ops| - 1]), Run(ops[..|ops| - 1]), ops[|ops| - 1])
  }

  ghost predicate TimelyRun(ops: seq<Op>) {
    forall n :: 0 <= n < |ops| ==> Timely(Run(ops[..n]), ops[n])
  }

  /** Over every run the table is the FIFO sequence, without duplicates and with live rows only. */
  lemma {:induction false} RunRefines(ops: seq<Op>)
    requires FreshRun(ops) && TimelyRun(ops)
    ensures Valid(Run(ops).stack) && Queue(Run(ops).stack) == Fifo(ops)
  {
    if ops != [] {
      var init := ops[..|ops| - 1];
      assert forall n :: 0 <= n < |init| ==> init[..n] == ops[..n];
      assert FreshRun(init) && TimelyRun(init);
      RunRefines(init);
      RunKeeps(init);
      assert ops[..|ops| - 1] == init;
      StepRefines(Run(init), ops[|ops| - 1]);
    }
  }

  lemma FifoIsLiveAndDistinct(ops: seq<Op>, i: nat)
    requires FreshRun(ops) && TimelyRun(ops) && i < |Fifo(ops)|
    ensures Fifo(ops)[i] in Ids(Run(ops).rows) && NoDuplicates(Fifo(ops))
  {
    RunRefines(ops);
    RunKeeps(ops);
    QueueNoDuplicates(Run(ops).stack);
    StackedIsLive(Run(ops), Fifo(ops)[i]);
  }
}
