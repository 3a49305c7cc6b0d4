/** The paste stack table: rows carrying an integer `position`, read back with
  * ORDER BY position. The lemmas show that the table stands for a duplicate-free FIFO
  * sequence of entry ids, and what happens when `stack_move` reads and writes under two
  * separate locks.
  */
module PasteStack {

  datatype StackRow = StackRow(rowId: nat, entryId: nat, position: int)

  // ---------- reading the table ----------

  function Place(r: StackRow, q: seq<StackRow>): (p: seq<StackRow>)
    ensures |p| == |q| + 1
  {
    if q == [] || r.position < q[0].position then [r] + q else [q[0]] + Place(r, q[1..])
  }

  /** ORDER BY position ASC; rows of equal position stay in row order. */
  function Ordered(stack: seq<StackRow>): (o: seq<StackRow>)
    ensures |o| == |stack|
  {
    if stack == [] then [] else Place(stack[|stack| - 1], Ordered(stack[..|stack| - 1]))
  }

  function Entries(q: seq<StackRow>): (ids: seq<nat>)
    ensures |ids| == |q| && forall i :: 0 <= i < |q| ==> ids[i] == q[i].entryId
  {
    seq(|q|, i requires 0 <= i < |q| => q[i].entryId)
  }

  /** The FIFO sequence the table stands for (`stack_list`). */
  function Queue(stack: seq<StackRow>): (q: seq<nat>)
    ensures |q| == |stack|
  {
    Entries(Ordered(stack))
  }

  predicate Stacked(stack: seq<StackRow>, id: nat) {
    exists r :: r in stack && r.entryId == id
  }

  // ---------- what the table keeps ----------

  ghost predicate DistinctEntries(stack: seq<StackRow>) {
    forall i, j :: 0 <= i < j < |stack| ==>
      stack[i].entryId != stack[j].entryId && stack[i].rowId != stack[j].rowId
  }

  ghost predicate DistinctPositions(stack: seq<StackRow>) {
    forall i, j :: 0 <= i < j < |stack| ==> stack[i].position != stack[j].position
  }

  ghost predicate Valid(stack: seq<StackRow>) {
    && DistinctEntries(stack)
    && DistinctPositions(stack)
    && forall i :: 0 <= i < |stack| ==> 0 <= stack[i].position
  }

  ghost predicate Ascending(q: seq<StackRow>) {
    forall i, j :: 0 <= i < j < |q| ==> q[i].position < q[j].position
  }

  // ---------- the statements that change the table ----------

  function MaxPosition(stack: seq<StackRow>): (m: int)
    requires stack != []
    ensures forall i :: 0 <= i < |stack| ==> stack[i].position <= m
    ensures exists i :: 0 <= i < |stack| && stack[i].position == m
  {
    if |stack| == 1 then
      stack[0].position
    else
      var rest := MaxPosition(stack[..|stack| - 1]);
      var last := stack[|stack| - 1].position;
      if last > rest then last else rest
  }

  /** COALESCE(MAX(position), 0) + 1 */
  function NextPosition(stack: seq<StackRow>): int {
    if stack == [] then 1 else MaxPosition(stack) + 1
  }

  function Pushed(stack: seq<StackRow>, rowId: nat, id: nat): seq<StackRow> {
    if Stacked(stack, id) then stack else stack + [StackRow(rowId, id, NextPosition(stack))]
  }

  /** DELETE ... WHERE entry_id IN ids: `stack_remove`, and the foreign-key cascade. */
  function Without(stack: seq<StackRow>, ids: set<nat>): (out: seq<StackRow>)
    ensures forall r :: r in out <==> r in stack && r.entryId !in ids
  {
    if stack == [] then []
    else
      assert stack == [stack[0]] + stack[1..];
      (if stack[0].entryId in ids then [] else [stack[0]]) + Without(stack[1..], ids)
  }

  function IndexIn(order: seq<nat>, id: nat): (i: nat)
    ensures i <= |order|
    ensures i < |order| <==> id in order
    ensures i < |order| ==> order[i] == id
    ensures forall k :: 0 <= k < i ==> order[k] != id
  {
    if order == [] || order[0] == id then 0 else 1 + IndexIn(order[1..], id)
  }

  /** The write half of `stack_move`: every listed entry gets its list index as position. */
  function Repositioned(stack: seq<StackRow>, order: seq<nat>): (out: seq<StackRow>)
    ensures |out| == |stack|
    ensures forall k :: 0 <= k < |stack| ==>
      out[k] == if stack[k].entryId in order
                then stack[k].(position := IndexIn(order, stack[k].entryId)) else stack[k]
  {
    seq(|stack|, k requires 0 <= k < |stack| =>
      if stack[k].entryId in order
      then stack[k].(position := IndexIn(order, stack[k].entryId)) else stack[k])
  }

  // ---------- the FIFO sequence itself ----------

  function WithoutIds(q: seq<nat>, ids: set<nat>): seq<nat> {
    if q == [] then [] else (if q[0] in ids then [] else [q[0]]) + WithoutIds(q[1..], ids)
  }

  ghost predicate NoDuplicates(q: seq<nat>) {
    forall i, j :: 0 <= i < j < |q| ==> q[i] != q[j]
  }

  /** Remove `id` and insert it again at index `to`, clamped to the end. */
  function Moved(q: seq<nat>, id: nat, to: nat): seq<nat>
    requires id in q
  {
    var from := IndexIn(q, id);
    var rest := q[..from] + q[from + 1..];
    var at := if to <= |rest| then to else |rest|;
    rest[..at] + [id] + rest[at..]
  }

  // ---------- the read is a sort ----------

  lemma {:induction false} PlaceElements(r: StackRow, q: seq<StackRow>)
    ensures forall x :: x in Place(r, q) <==> x == r || x in q
  {
    if !(q == [] || r.position < q[0].position) {
      PlaceElements(r, q[1..]);
      assert q == [q[0]] + q[1..];
    }
  }

  lemma {:induction false} PlaceAscending(r: StackRow, q: seq<StackRow>)
    requires Ascending(q) && forall x :: x in q ==> x.position != r.position
    ensures Ascending(Place(r, q))
  {
    if !(q == [] || r.position < q[0].position) {
      PlaceAscending(r, q[1..]);
      PlaceElements(r, q[1..]);
      var p := Place(r, q[1..]);
      forall i | 0 <= i < |p| ensures q[0].position < p[i].position {
        assert q[0] in q && (p[i] == r || p[i] in q[1..]);
      }
    }
  }

  lemma {:induction false} OrderedElements(stack: seq<StackRow>)
    ensures forall x :: x in Ordered(stack) <==> x in stack
  {
    if stack != [] {
      var n := |stack| - 1;
      assert stack == stack[..n] + [stack[n]];
      OrderedElements(stack[..n]);
      PlaceElements(stack[n], Ordered(stack[..n]));
    }
  }

  lemma {:induction false} OrderedAscending(stack: seq<StackRow>)
    requires DistinctPositions(stack)
    ensures Ascending(Ordered(stack))
  {
    if stack != [] {
      var n := |stack| - 1;
      OrderedAscending(stack[..n]);
      OrderedElements(stack[..n]);
      PlaceAscending(stack[n], Ordered(stack[..n]));
    }
  }

  /** A strictly ascending listing of a given set of rows is unique. */
  lemma {:induction false} AscendingUnique(p: seq<StackRow>, q: seq<StackRow>)
    requires Ascending(p) && Ascending(q)
    requires forall x :: x in p <==> x in q
    ensures p == q
  {
    assert p == [] <==> q == [] by {
      if p != [] { assert p[0] in p; }
      if q != [] { assert q[0] in q; }
    }
    if p != [] {
      assert p[0] in q && q[0] in p;
      assert p[0] == q[0];
      forall x ensures x in p[1..] <==> x in q[1..] {
        assert p == [p[0]] + p[1..] && q == [q[0]] + q[1..];
        assert p[0] !in p[1..] && q[0] !in q[1..];
        assert x in p <==> x in q;
      }
      AscendingUnique(p[1..], q[1..]);
    }
  }

  /** Any ascending listing of the rows is what the read returns. */
  lemma QueueIs(stack: seq<StackRow>, q: seq<StackRow>)
    requires DistinctPositions(stack) && Ascending(q)
    requires forall x :: x in q <==> x in stack
    ensures Ordered(stack) == q && Queue(stack) == Entries(q)
  {
    OrderedElements(stack);
    OrderedAscending(stack);
    AscendingUnique(Ordered(stack), q);
  }

  lemma QueueMembers(stack: seq<StackRow>)
    ensures forall id :: id in Queue(stack) <==> Stacked(stack, id)
  {
    OrderedElements(stack);
    forall id ensures id in Queue(stack) <==> Stacked(stack, id) {
      var o := Ordered(stack);
      if Stacked(stack, id) {
        var r :| r in stack && r.entryId == id;
        assert r in o;
        var i :| 0 <= i < |o| && o[i] == r;
        assert Queue(stack)[i] == id;
      }
      if id in Queue(stack) {
        var i :| 0 <= i < |o| && Queue(stack)[i] == id;
        assert o[i] in o;
      }
    }
  }

  lemma {:induction false} PlaceDistinct(r: StackRow, q: seq<StackRow>)
    requires DistinctEntries(q)
    requires forall x :: x in q ==> x.entryId != r.entryId && x.rowId != r.rowId
    ensures DistinctEntries(Place(r, q))
  {
    if !(q == [] || r.position < q[0].position) {
      PlaceDistinct(r, q[1..]);
      PlaceElements(r, q[1..]);
      var p := Place(r, q[1..]);
      forall i | 0 <= i < |p| ensures p[i].entryId != q[0].entryId && p[i].rowId != q[0].rowId {
        assert p[i] == r || p[i] in q[1..];
        assert q[0] in q;
      }
    }
  }

  lemma {:induction false} OrderedDistinct(stack: seq<StackRow>)
    requires DistinctEntries(stack)
    ensures DistinctEntries(Ordered(stack))
  {
    if stack != [] {
      var n := |stack| - 1;
      OrderedDistinct(stack[..n]);
      OrderedElements(stack[..n]);
      PlaceDistinct(stack[n], Ordered(stack[..n]));
    }
  }

  lemma QueueNoDuplicates(stack: seq<StackRow>)
    requires DistinctEntries(stack)
    ensures NoDuplicates(Queue(stack))
  {
    OrderedDistinct(stack);
  }

  // ---------- each statement, seen on the FIFO sequence ----------

  lemma PushedValid(stack: seq<StackRow>, rowId: nat, id: nat)
    requires Valid(stack) && forall i :: 0 <= i < |stack| ==> stack[i].rowId != rowId
    ensures Valid(Pushed(stack, rowId, id))
  {
    if !Stacked(stack, id) {
      var t := Pushed(stack, rowId, id);
      forall i | 0 <= i < |stack|
        ensures stack[i].entryId != id && stack[i].position < NextPosition(stack)
      {
        assert stack[i] in stack;
      }
      if stack != [] { assert 0 <= stack[0].position; }
    }
  }

  lemma {:induction false} PlaceLast(r: StackRow, q: seq<StackRow>)
    requires forall x :: x in q ==> x.position < r.position
    ensures Place(r, q) == q + [r]
  {
    if q != [] {
      assert q[0] in q;
      PlaceLast(r, q[1..]);
    }
  }

  lemma OrderedPushed(stack: seq<StackRow>, r: StackRow)
    requires r.position == NextPosition(stack)
    ensures Ordered(stack + [r]) == Ordered(stack) + [r]
  {
    assert (stack + [r])[..|stack|] == stack;
    OrderedElements(stack);
    forall x | x in Ordered(stack) ensures x.position < r.position {
      var i :| 0 <= i < |stack| && stack[i] == x;
    }
    PlaceLast(r, Ordered(stack));
  }

  /** `stack_push` appends, or does nothing when the entry is already stacked. */
  lemma PushAppends(stack: seq<StackRow>, rowId: nat, id: nat)
    ensures Queue(Pushed(stack, rowId, id)) ==
            if id in Queue(stack) then Queue(stack) else Queue(stack) + [id]
  {
    QueueMembers(stack);
    if !Stacked(stack, id) {
      var r := StackRow(rowId, id, NextPosition(stack));
      OrderedPushed(stack, r);
      assert Entries(Ordered(stack) + [r]) == Queue(stack) + [id];
    }
  }

  lemma {:induction false} WithoutKeepsDistinctEntries(stack: seq<StackRow>, ids: set<nat>)
    requires DistinctEntries(stack)
    ensures DistinctEntries(Without(stack, ids))
  {
    if stack != [] {
      var rest := Without(stack[1..], ids);
      WithoutKeepsDistinctEntries(stack[1..], ids);
      forall k | 0 <= k < |rest|
        ensures rest[k].entryId != stack[0].entryId && rest[k].rowId != stack[0].rowId
      {
        assert rest[k] in stack[1..];
      }
    }
  }

  lemma {:induction false} WithoutKeepsDistinctPositions(stack: seq<StackRow>, ids: set<nat>)
    requires DistinctPositions(stack)
    ensures DistinctPositions(Without(stack, ids))
  {
    if stack != [] {
      var rest := Without(stack[1..], ids);
      WithoutKeepsDistinctPositions(stack[1..], ids);
      forall k | 0 <= k < |rest| ensures rest[k].position != stack[0].position {
        assert rest[k] in stack[1..];
      }
    }
  }

  lemma WithoutKeepsValid(stack: seq<StackRow>, ids: set<nat>)
    requires Valid(stack)
    ensures Valid(Without(stack, ids))
  {
    WithoutKeepsDistinctEntries(stack, ids);
    WithoutKeepsDistinctPositions(stack, ids);
    var t := Without(stack, ids);
    forall k | 0 <= k < |t| ensures 0 <= t[k].position {
      assert t[k] in stack;
    }
  }

  lemma {:induction false} AscendingWithout(q: seq<StackRow>, ids: set<nat>)
    requires Ascending(q)
    ensures Ascending(Without(q, ids))
  {
    if q != [] {
      AscendingWithout(q[1..], ids);
      var w := Without(q[1..], ids);
      forall k | 0 <= k < |w| ensures q[0].position < w[k].position {
        assert w[k] in q[1..];
      }
    }
  }

  lemma EntriesCons(x: StackRow, q: seq<StackRow>)
    ensures Entries([x] + q) == [x.entryId] + Entries(q)
  {
  }

  lemma WithoutIdsCons(id: nat, q: seq<nat>, ids: set<nat>)
    ensures WithoutIds([id] + q, ids) == if id in ids then WithoutIds(q, ids) else [id] + WithoutIds(q, ids)
  {
    assert ([id] + q)[1..] == q;
  }

  lemma WithoutCons(x: StackRow, q: seq<StackRow>, ids: set<nat>)
    ensures Without([x] + q, ids) == if x.entryId in ids then Without(q, ids) else [x] + Without(q, ids)
  {
    assert ([x] + q)[1..] == q;
    assert [] + Without(q, ids) == Without(q, ids);
  }

  lemma EntriesWithoutCons(x: StackRow, q: seq<StackRow>, ids: set<nat>)
    requires Entries(Without(q, ids)) == WithoutIds(Entries(q), ids)
    ensures Entries(Without([x] + q, ids)) == WithoutIds(Entries([x] + q), ids)
  {
    WithoutCons(x, q, ids);
    EntriesCons(x, q);
    WithoutIdsCons(x.entryId, Entries(q), ids);
    EntriesCons(x, Without(q, ids));
  }

  lemma {:induction false} EntriesWithout(q: seq<StackRow>, ids: set<nat>)
    ensures Entries(Without(q, ids)) == WithoutIds(Entries(q), ids)
  {
    if q != [] {
      EntriesWithout(q[1..], ids);
      EntriesWithoutCons(q[0], q[1..], ids);
      assert q == [q[0]] + q[1..];
    }
  }

  // The read is a stable sort, so removals commute with it even where positions have collided.

  ghost predicate Sorted(q: seq<StackRow>) {
    forall i, j :: 0 <= i < j < |q| ==> q[i].position <= q[j].position
  }

  lemma {:induction false} PlaceSorted(r: StackRow, q: seq<StackRow>)
    requires Sorted(q)
    ensures Sorted(Place(r, q))
  {
    if !(q == [] || r.position < q[0].position) {
      PlaceSorted(r, q[1..]);
      PlaceElements(r, q[1..]);
      var p := Place(r, q[1..]);
      forall i | 0 <= i < |p| ensures q[0].position <= p[i].position {
        assert p[i] == r || p[i] in q[1..];
      }
    }
  }

  lemma {:induction false} OrderedSorted(stack: seq<StackRow>)
    ensures Sorted(Ordered(stack))
  {
    if stack != [] {
      OrderedSorted(stack[..|stack| - 1]);
      PlaceSorted(stack[|stack| - 1], Ordered(stack[..|stack| - 1]));
    }
  }

  lemma PlaceFront(r: StackRow, q: seq<StackRow>)
    requires forall x :: x in q ==> r.position < x.position
    ensures Place(r, q) == [r] + q
  {
    if q != [] { assert q[0] in q; }
  }

  lemma PlaceCons(r: StackRow, x: StackRow, q: seq<StackRow>)
    ensures Place(r, [x] + q) == if r.position < x.position then [r] + ([x] + q) else [x] + Place(r, q)
  {
    assert ([x] + q)[1..] == q;
  }

  lemma PlaceFrontWithout(r: StackRow, q: seq<StackRow>, ids: set<nat>)
    requires Sorted(q) && (q == [] || r.position < q[0].position)
    ensures Without([r] + q, ids) == if r.entryId in ids then Without(q, ids) else Place(r, Without(q, ids))
  {
    WithoutCons(r, q, ids);
    forall x | x in Without(q, ids) ensures r.position < x.position {
      var k :| 0 <= k < |q| && q[k] == x;
    }
    PlaceFront(r, Without(q, ids));
  }

  lemma PlaceBackWithout(r: StackRow, x: StackRow, tail: seq<StackRow>, ids: set<nat>)
    requires x.position <= r.position
    requires Without(Place(r, tail), ids) ==
             if r.entryId in ids then Without(tail, ids) else Place(r, Without(tail, ids))
    ensures Without(Place(r, [x] + tail), ids) ==
            if r.entryId in ids then Without([x] + tail, ids) else Place(r, Without([x] + tail, ids))
  {
    PlaceCons(r, x, tail);
    WithoutCons(x, Place(r, tail), ids);
    WithoutCons(x, tail, ids);
    PlaceCons(r, x, Without(tail, ids));
  }

  lemma {:induction false} PlaceWithout(r: StackRow, q: seq<StackRow>, ids: set<nat>)
    requires Sorted(q)
    ensures Without(Place(r, q), ids) == if r.entryId in ids then Without(q, ids) else Place(r, Without(q, ids))
  {
    if q == [] || r.position < q[0].position {
      assert Place(r, q) == [r] + q;
      PlaceFrontWithout(r, q, ids);
    } else {
      PlaceWithout(r, q[1..], ids);
      PlaceBackWithout(r, q[0], q[1..], ids);
      assert q == [q[0]] + q[1..];
    }
  }

  lemma Associative(a: seq<StackRow>, b: seq<StackRow>, c: seq<StackRow>)
    ensures a + (b + c) == (a + b) + c
  {
  }

  lemma WithoutAppendStep(x: StackRow, tail: seq<StackRow>, r: StackRow, ids: set<nat>)
    requires Without(tail + [r], ids) == if r.entryId in ids then Without(tail, ids) else Without(tail, ids) + [r]
    ensures Without([x] + (tail + [r]), ids) ==
            if r.entryId in ids then Without([x] + tail, ids) else Without([x] + tail, ids) + [r]
  {
    WithoutCons(x, tail + [r], ids);
    WithoutCons(x, tail, ids);
    Associative([x], Without(tail, ids), [r]);
  }

  lemma {:induction false} WithoutAppend(stack: seq<StackRow>, r: StackRow, ids: set<nat>)
    ensures Without(stack + [r], ids) == if r.entryId in ids then Without(stack, ids) else Without(stack, ids) + [r]
  {
    if stack == [] {
      WithoutCons(r, [], ids);
      assert [] + [r] == [r] + [];
    } else {
      var x, tail := stack[0], stack[1..];
      WithoutAppend(tail, r, ids);
      WithoutAppendStep(x, tail, r, ids);
      assert stack + [r] == [x] + (tail + [r]) && stack == [x] + tail;
    }
  }

  lemma OrderedAppend(stack: seq<StackRow>, r: StackRow)
    ensures Ordered(stack + [r]) == Place(r, Ordered(stack))
  {
    assert (stack + [r])[..|stack|] == stack;
  }

  lemma OrderedWithoutAppend(stack: seq<StackRow>, r: StackRow, ids: set<nat>)
    requires Ordered(Without(stack, ids)) == Without(Ordered(stack), ids)
    ensures Ordered(Without(stack + [r], ids)) == Without(Ordered(stack + [r]), ids)
  {
    OrderedSorted(stack);
    PlaceWithout(r, Ordered(stack), ids);
    WithoutAppend(stack, r, ids);
    OrderedAppend(stack, r);
    OrderedAppend(Without(stack, ids), r);
  }

  lemma {:induction false} OrderedWithout(stack: seq<StackRow>, ids: set<nat>)
    ensures Ordered(Without(stack, ids)) == Without(Ordered(stack), ids)
  {
    if stack != [] {
      var init, last := stack[..|stack| - 1], stack[|stack| - 1];
      assert stack == init + [last];
      OrderedWithout(init, ids);
      OrderedWithoutAppend(init, last, ids);
    }
  }

  /** Removing entries, by hand or by the cascade of a row deletion, filters the sequence. */
  lemma RemovalFilters(stack: seq<StackRow>, ids: set<nat>)
    ensures Queue(Without(stack, ids)) == WithoutIds(Queue(stack), ids)
  {
    OrderedWithout(stack, ids);
    EntriesWithout(Ordered(stack), ids);
  }

  lemma {:induction false} WithoutAbsent(q: seq<nat>, ids: set<nat>)
    requires forall x :: x in q ==> x !in ids
    ensures WithoutIds(q, ids) == q
  {
    if q != [] { WithoutAbsent(q[1..], ids); }
  }

  lemma HeadApart(q: seq<nat>)
    requires q != [] && NoDuplicates(q)
    ensures WithoutIds(q, {q[0]}) == q[1..]
  {
    forall x | x in q[1..] ensures x !in {q[0]} {
      var j :| 0 <= j < |q| - 1 && q[1..][j] == x;
      assert q[j + 1] == x;
    }
    WithoutAbsent(q[1..], {q[0]});
  }

  /** `stack_take_next` hands out the head and leaves the tail. */
  lemma TakeIsHead(stack: seq<StackRow>)
    requires DistinctEntries(stack) && stack != []
    ensures Stacked(stack, Queue(stack)[0])
    ensures Queue(Without(stack, {Queue(stack)[0]})) == Queue(stack)[1..]
  {
    var q := Queue(stack);
    assert Stacked(stack, q[0]) by {
      assert q[0] in q;
      QueueMembers(stack);
    }
    assert NoDuplicates(q) by { QueueNoDuplicates(stack); }
    RemovalFilters(stack, {q[0]});
    HeadApart(q);
  }

  // ---------- stack_move ----------

  /** The sequence with position `from` taken out, and where the others went. */
  lemma MovedShape(q: seq<nat>, id: nat, to: nat) returns (a: seq<nat>, b: seq<nat>, c: seq<nat>, d: seq<nat>)
    requires id in q
    ensures q == a + [id] + b && a + b == c + d
    ensures Moved(q, id, to) == c + [id] + d
    ensures |c| == if to < |q| then to else |q| - 1
  {
    var from := IndexIn(q, id);
    a, b := q[..from], q[from + 1..];
    var rest := a + b;
    var at := if to <= |rest| then to else |rest|;
    c, d := rest[..at], rest[at..];
  }

  lemma MovedIsPermutation(q: seq<nat>, id: nat, to: nat)
    requires id in q
    ensures |Moved(q, id, to)| == |q|
    ensures multiset(Moved(q, id, to)) == multiset(q)
    ensures Moved(q, id, to)[if to < |q| then to else |q| - 1] == id
    ensures WithoutIds(Moved(q, id, to), {id}) == WithoutIds(q, {id})
  {
    var a, b, c, d := MovedShape(q, id, to);
    SameBag(a, b, c, d, id);
    WithoutOne(a, b, id);
    WithoutOne(c, d, id);
  }

  lemma SameBag(a: seq<nat>, b: seq<nat>, c: seq<nat>, d: seq<nat>, id: nat)
    requires a + b == c + d
    ensures multiset(a + [id] + b) == multiset(c + [id] + d)
  {
    calc {
      multiset(a + [id] + b);
      multiset(a + b) + multiset{id};
      multiset(c + d) + multiset{id};
      multiset(c + [id] + d);
    }
  }

  lemma WithoutOne(a: seq<nat>, b: seq<nat>, id: nat)
    ensures WithoutIds(a + [id] + b, {id}) == WithoutIds(a + b, {id})
  {
    WithoutConcat(a + [id], b, {id});
    WithoutConcat(a, [id], {id});
    WithoutConcat(a, b, {id});
    assert WithoutIds(a, {id}) + [] == WithoutIds(a, {id});
  }

  lemma PermutationKeeps(p: seq<nat>, q: seq<nat>)
    requires multiset(p) == multiset(q) && NoDuplicates(q)
    ensures NoDuplicates(p) && forall x :: x in p <==> x in q
  {
    forall x ensures x in p <==> x in q {
      assert x in multiset(p) <==> x in multiset(q);
    }
    forall i, j | 0 <= i < j < |p| ensures p[i] != p[j] {
      if p[i] == p[j] {
        TwiceCounts(p, i, j);
        OnceCounts(q, p[i]);
      }
    }
  }

  lemma TwiceCounts(p: seq<nat>, i: nat, j: nat)
    requires i < j < |p| && p[i] == p[j]
    ensures multiset(p)[p[i]] >= 2
  {
    assert p == p[..j] + p[j..];
    assert p[i] in p[..j] && p[j] in p[j..];
  }

  lemma {:induction false} OnceCounts(q: seq<nat>, x: nat)
    requires NoDuplicates(q)
    ensures multiset(q)[x] <= 1
  {
    if q != [] {
      assert q == [q[0]] + q[1..];
      OnceCounts(q[1..], x);
      if q[0] == x { assert x !in q[1..]; }
    }
  }

  lemma {:induction false} WithoutConcat(a: seq<nat>, b: seq<nat>, ids: set<nat>)
    ensures WithoutIds(a + b, ids) == WithoutIds(a, ids) + WithoutIds(b, ids)
  {
    if a == [] {
      assert a + b == b;
    } else {
      assert (a + b)[1..] == a[1..] + b;
      WithoutConcat(a[1..], b, ids);
    }
  }

  /** Distinct non-negative positions: the next free one is at least the number of rows. */
  lemma NextPositionPastAll(stack: seq<StackRow>)
    requires Valid(stack)
    ensures |stack| <= NextPosition(stack)
  {
    OrderedElements(stack);
    OrderedAscending(stack);
    var o := Ordered(stack);
    forall r | r in o ensures 0 <= r.position {
      assert r in stack;
    }
    if stack != [] {
      PositionAtLeastIndex(o, |o| - 1);
      assert o[|o| - 1] in stack;
    }
  }

  lemma {:induction false} PositionAtLeastIndex(o: seq<StackRow>, i: nat)
    requires Ascending(o) && i < |o| && forall r :: r in o ==> 0 <= r.position
    ensures i <= o[i].position
  {
    assert o[i] in o;
    if i > 0 { PositionAtLeastIndex(o, i - 1); }
  }

  /** The rows of the listed entries after the write half, in list order. */
  ghost function Listed(stack: seq<StackRow>, order: seq<nat>): (h: seq<StackRow>)
    requires NoDuplicates(order) && forall id :: id in order ==> Stacked(stack, id)
    ensures |h| == |order|
    ensures forall i :: 0 <= i < |h| ==>
      h[i] in Repositioned(stack, order) && h[i].entryId == order[i] && h[i].position == i
  {
    seq(|order|, i requires 0 <= i < |order| => RowOf(stack, order, i))
  }

  ghost function RowOf(stack: seq<StackRow>, order: seq<nat>, i: nat): (r: StackRow)
    requires NoDuplicates(order) && i < |order| && Stacked(stack, order[i])
    ensures r in Repositioned(stack, order) && r.entryId == order[i] && r.position == i
  {
    var r :| r in stack && r.entryId == order[i];
    var k :| 0 <= k < |stack| && stack[k] == r;
    assert IndexIn(order, order[i]) == i;
    Repositioned(stack, order)[k]
  }

  ghost predicate OthersPast(stack: seq<StackRow>, order: seq<nat>) {
    forall k :: 0 <= k < |stack| ==> stack[k].entryId in order || |order| <= stack[k].position
  }

  lemma RepositionedValid(stack: seq<StackRow>, order: seq<nat>)
    requires Valid(stack) && NoDuplicates(order) && OthersPast(stack, order)
    ensures Valid(Repositioned(stack, order))
  {
    var t := Repositioned(stack, order);
    forall i, j | 0 <= i < j < |t| ensures t[i].position != t[j].position {
      assert stack[i].entryId != stack[j].entryId;
    }
  }

  lemma ListingHolds(stack: seq<StackRow>, order: seq<nat>, rest: seq<StackRow>, k: nat)
    requires DistinctEntries(stack) && NoDuplicates(order) && k < |stack|
    requires forall id :: id in order ==> Stacked(stack, id)
    requires forall r :: r in rest <==> r in stack && r.entryId !in order
    ensures Repositioned(stack, order)[k] in Listed(stack, order) + rest
  {
    var t := Repositioned(stack, order);
    if t[k].entryId in order {
      SameEntrySameRow(t, Listed(stack, order)[IndexIn(order, t[k].entryId)], t[k]);
    } else {
      assert stack[k] in rest;
    }
  }

  lemma ListingElements(stack: seq<StackRow>, order: seq<nat>, rest: seq<StackRow>)
    requires DistinctEntries(stack) && NoDuplicates(order)
    requires forall id :: id in order ==> Stacked(stack, id)
    requires forall r :: r in rest <==> r in stack && r.entryId !in order
    ensures forall x :: x in Listed(stack, order) + rest <==> x in Repositioned(stack, order)
  {
    var t := Repositioned(stack, order);
    forall k | 0 <= k < |t| ensures t[k] in Listed(stack, order) + rest {
      ListingHolds(stack, order, rest, k);
    }
    forall x | x in rest ensures x in t {
      var k :| 0 <= k < |stack| && stack[k] == x;
      assert t[k] == x;
    }
  }

  /** The write half, for a table that still holds every listed entry and whose other rows
    * sit at positions past the list: the list first, then the others as they were. */
  lemma WriteOrder(stack: seq<StackRow>, order: seq<nat>)
    requires Valid(stack) && NoDuplicates(order) && OthersPast(stack, order)
    requires forall id :: id in order ==> Stacked(stack, id)
    ensures Valid(Repositioned(stack, order))
    ensures Queue(Repositioned(stack, order)) == order + WithoutIds(Queue(stack), set id | id in order)
  {
    var ids := set id | id in order;
    var rest := Without(Ordered(stack), ids);
    var listing := Listed(stack, order) + rest;
    RepositionedValid(stack, order);
    assert forall x :: x in listing <==> x in Repositioned(stack, order) by {
      OrderedElements(stack);
      ListingElements(stack, order, rest);
    }
    assert Ascending(listing) by { ListingAscends(stack, order, ids); }
    QueueIs(Repositioned(stack, order), listing);
    EntriesWithout(Ordered(stack), ids);
    EntriesOfListing(stack, order, rest);
  }

  lemma EntriesOfListing(stack: seq<StackRow>, order: seq<nat>, rest: seq<StackRow>)
    requires NoDuplicates(order) && forall id :: id in order ==> Stacked(stack, id)
    ensures Entries(Listed(stack, order) + rest) == order + Entries(rest)
  {
  }

  lemma ListingAscends(stack: seq<StackRow>, order: seq<nat>, ids: set<nat>)
    requires DistinctPositions(stack) && NoDuplicates(order) && OthersPast(stack, order)
    requires forall id :: id in order ==> Stacked(stack, id)
    requires ids == set id | id in order
    ensures Ascending(Listed(stack, order) + Without(Ordered(stack), ids))
  {
    var rest := Without(Ordered(stack), ids);
    OrderedAscending(stack);
    AscendingWithout(Ordered(stack), ids);
    OrderedElements(stack);
    forall k | 0 <= k < |rest| ensures |order| <= rest[k].position {
      assert rest[k] in stack && rest[k].entryId !in ids;
    }
  }

  lemma SameEntrySameRow(t: seq<StackRow>, x: StackRow, y: StackRow)
    requires DistinctEntries(t) && x in t && y in t && x.entryId == y.entryId
    ensures x == y
  {
    var i :| 0 <= i < |t| && t[i] == x;
    var j :| 0 <= j < |t| && t[j] == y;
  }

  /** Pushes served between the two halves, each with its own fresh row id. */
  function PushAll(stack: seq<StackRow>, ids: seq<nat>, nextRow: nat): seq<StackRow>
    decreases ids
  {
    if ids == [] then stack else PushAll(Pushed(stack, nextRow, ids[0]), ids[1..], nextRow + 1)
  }

  ghost predicate RowIdsBelow(stack: seq<StackRow>, nextRow: nat) {
    forall i :: 0 <= i < |stack| ==> stack[i].rowId < nextRow
  }

  /** `later` extends `stack` with rows past all of its positions. */
  ghost predicate ExtendsPast(stack: seq<StackRow>, later: seq<StackRow>) {
    && stack <= later
    && forall i :: |stack| <= i < |later| ==> NextPosition(stack) <= later[i].position
  }

  lemma PushedExtends(stack: seq<StackRow>, rowId: nat, id: nat)
    ensures ExtendsPast(stack, Pushed(stack, rowId, id))
    ensures NextPosition(stack) <= NextPosition(Pushed(stack, rowId, id))
  {
    var t := Pushed(stack, rowId, id);
    if t != stack { assert t[|stack|].position == NextPosition(stack); }
  }

  lemma {:induction false} PushAllValid(stack: seq<StackRow>, ids: seq<nat>, nextRow: nat)
    requires Valid(stack) && RowIdsBelow(stack, nextRow)
    ensures Valid(PushAll(stack, ids, nextRow))
    decreases ids
  {
    if ids != [] {
      PushedValid(stack, nextRow, ids[0]);
      PushAllValid(Pushed(stack, nextRow, ids[0]), ids[1..], nextRow + 1);
    }
  }

  lemma {:induction false} PushAllAppends(stack: seq<StackRow>, ids: seq<nat>, nextRow: nat)
    ensures Queue(stack) <= Queue(PushAll(stack, ids, nextRow))
    decreases ids
  {
    if ids != [] {
      PushAppends(stack, nextRow, ids[0]);
      PushAllAppends(Pushed(stack, nextRow, ids[0]), ids[1..], nextRow + 1);
    }
  }

  lemma {:induction false} PushAllExtends(stack: seq<StackRow>, ids: seq<nat>, nextRow: nat)
    ensures ExtendsPast(stack, PushAll(stack, ids, nextRow))
    decreases ids
  {
    if ids != [] {
      var mid := Pushed(stack, nextRow, ids[0]);
      PushedExtends(stack, nextRow, ids[0]);
      PushAllExtends(mid, ids[1..], nextRow + 1);
      ExtendsPastTransitive(stack, mid, PushAll(stack, ids, nextRow));
    }
  }

  lemma ExtendsPastTransitive(a: seq<StackRow>, b: seq<StackRow>, c: seq<StackRow>)
    requires ExtendsPast(a, b) && ExtendsPast(b, c) && NextPosition(a) <= NextPosition(b)
    ensures ExtendsPast(a, c)
  {
    forall i | |a| <= i < |c| ensures NextPosition(a) <= c[i].position {
      if i < |b| { assert c[i] == b[i]; }
    }
  }

  lemma MovedMembers(stack: seq<StackRow>, id: nat, to: nat)
    requires Valid(stack) && id in Queue(stack)
    ensures var order := Moved(Queue(stack), id, to);
            && |order| == |stack| && NoDuplicates(order)
            && forall x :: x in order <==> x in Queue(stack)
  {
    QueueNoDuplicates(stack);
    MovedIsPermutation(Queue(stack), id, to);
    PermutationKeeps(Moved(Queue(stack), id, to), Queue(stack));
  }

  lemma OrderStillStacked(stack: seq<StackRow>, t: seq<StackRow>, order: seq<nat>)
    requires stack <= t && forall x :: x in order <==> x in Queue(stack)
    ensures forall e :: e in order ==> Stacked(t, e)
  {
    QueueMembers(stack);
    forall e | e in order ensures Stacked(t, e) {
      var r :| r in stack && r.entryId == e;
      assert r in t;
    }
  }

  lemma OthersArePushes(stack: seq<StackRow>, t: seq<StackRow>, order: seq<nat>)
    requires Valid(stack) && ExtendsPast(stack, t) && |order| == |stack|
    requires forall e :: e in order <==> e in Queue(stack)
    ensures OthersPast(t, order)
  {
    NextPositionPastAll(stack);
    QueueMembers(stack);
    forall k | 0 <= k < |t| ensures t[k].entryId in order || |order| <= t[k].position {
      if k < |stack| { assert t[k] == stack[k] && stack[k] in stack; }
    }
  }

  lemma PushedTail(t: seq<StackRow>, q: seq<nat>, ids: set<nat>)
    requires Valid(t) && q <= Queue(t) && ids == (set e | e in q)
    ensures WithoutIds(Queue(t), ids) == Queue(t)[|q|..]
  {
    var added := Queue(t)[|q|..];
    QueueNoDuplicates(t);
    assert Queue(t) == q + added;
    WithoutConcat(q, added, ids);
    WithoutAll(q, ids);
    forall x | x in added ensures x !in ids {
      var j :| 0 <= j < |added| && added[j] == x;
      assert Queue(t)[|q| + j] == x;
      forall i | 0 <= i < |q| ensures q[i] != x {
        assert Queue(t)[i] == q[i];
      }
    }
    WithoutAbsent(added, ids);
  }

  lemma SameMembers(p: seq<nat>, q: seq<nat>)
    requires forall x :: x in p <==> x in q
    ensures (set e | e in p) == set e | e in q
  {
  }

  /** The write half, for a list of what the front of a later table holds: the rows since stay behind. */
  lemma WriteKeepsTail(stack: seq<StackRow>, t: seq<StackRow>, order: seq<nat>)
    requires Valid(stack) && Valid(t) && ExtendsPast(stack, t) && Queue(stack) <= Queue(t)
    requires |order| == |stack| && NoDuplicates(order) && forall x :: x in order <==> x in Queue(stack)
    ensures Valid(Repositioned(t, order))
    ensures Queue(Repositioned(t, order)) == order + Queue(t)[|stack|..]
  {
    OrderStillStacked(stack, t, order);
    OthersArePushes(stack, t, order);
    WriteOrder(t, order);
    SameMembers(order, Queue(stack));
    PushedTail(t, Queue(stack), set e | e in order);
  }

  /** Pushes landing between the read and the write of `stack_move` stay behind every moved
    * entry, in their own order, and positions stay distinct. */
  lemma MoveWithPushes(stack: seq<StackRow>, id: nat, to: nat, pushes: seq<nat>, nextRow: nat)
    requires Valid(stack) && id in Queue(stack) && RowIdsBelow(stack, nextRow)
    ensures var order := Moved(Queue(stack), id, to);
            var t := PushAll(stack, pushes, nextRow);
            && Valid(Repositioned(t, order))
            && Queue(stack) <= Queue(t)
            && Queue(Repositioned(t, order)) == order + Queue(t)[|stack|..]
  {
    MovedMembers(stack, id, to);
    PushAllValid(stack, pushes, nextRow);
    PushAllAppends(stack, pushes, nextRow);
    PushAllExtends(stack, pushes, nextRow);
    WriteKeepsTail(stack, PushAll(stack, pushes, nextRow), Moved(Queue(stack), id, to));
  }

  /** With nothing in between, `stack_move` is remove-then-insert at the clamped index. */
  lemma MoveIsRemoveThenInsert(stack: seq<StackRow>, id: nat, to: nat)
    requires Valid(stack) && id in Queue(stack)
    ensures var order := Moved(Queue(stack), id, to);
            && Valid(Repositioned(stack, order))
            && Queue(Repositioned(stack, order)) == order
  {
    var q := Queue(stack);
    var order := Moved(q, id, to);
    MovedMembers(stack, id, to);
    OrderStillStacked(stack, stack, order);
    OthersArePushes(stack, stack, order);
    WriteOrder(stack, order);
    WithoutAll(q, set e | e in order);
    assert order + [] == order;
  }

  lemma {:induction false} WithoutAll(q: seq<nat>, ids: set<nat>)
    requires forall x :: x in q ==> x in ids
    ensures WithoutIds(q, ids) == []
  {
    if q != [] { WithoutAll(q[1..], ids); }
  }

  /** An entry outside the list at an index the list gives to an entry still in the table. */
  ghost predicate Contested(stack: seq<StackRow>, order: seq<nat>, r: StackRow) {
    r in stack && r.entryId !in order && 0 <= r.position < |order| && Stacked(stack, order[r.position])
  }

  /** In general the write half keeps positions distinct exactly when no row outside the list
    * sits at an index that the list gives to an entry still in the table. */
  lemma WriteKeepsDistinctIff(stack: seq<StackRow>, order: seq<nat>)
    requires DistinctEntries(stack) && DistinctPositions(stack) && NoDuplicates(order)
    ensures DistinctPositions(Repositioned(stack, order)) <==>
            !exists r :: Contested(stack, order, r)
  {
    var t := Repositioned(stack, order);
    if r :| Contested(stack, order, r) {
      var j :| 0 <= j < |stack| && stack[j] == r;
      var x := RowOf(stack, order, r.position);
      var k :| 0 <= k < |t| && t[k] == x;
      assert t[j].position == t[k].position && j != k;
    } else {
      forall i, j | 0 <= i < j < |t| ensures t[i].position != t[j].position {
        assert stack[i] in stack && stack[j] in stack;
        assert !Contested(stack, order, stack[i]) && !Contested(stack, order, stack[j]);
        if stack[i].entryId in order && stack[j].entryId !in order {
          Collision(stack, order, stack[i], stack[j]);
        } else if stack[j].entryId in order && stack[i].entryId !in order {
          Collision(stack, order, stack[j], stack[i]);
        }
      }
    }
  }

  lemma Collision(stack: seq<StackRow>, order: seq<nat>, x: StackRow, y: StackRow)
    requires x in stack && x.entryId in order && y.entryId !in order
    ensures y.position == IndexIn(order, x.entryId) && y in stack ==> Contested(stack, order, y)
  {
  }

  /** It does happen: entries 1, 2, 3 are listed for moving 1 to the end, the stack is
    * emptied, 4 and then 3 are pushed, and only then the write lands. */
  lemma InterleavedMoveCanCollide()
    ensures Pushed(Pushed([], 3, 4), 4, 3) == [StackRow(3, 4, 1), StackRow(4, 3, 2)]
    ensures Moved([1, 2, 3], 1, 2) == [2, 3, 1]
    ensures !DistinctPositions(Repositioned([StackRow(3, 4, 1), StackRow(4, 3, 2)], [2, 3, 1]))
  {
    var one := [StackRow(3, 4, 1)];
    assert Pushed([], 3, 4) == one && NextPosition(one) == 2 && !Stacked(one, 3);
    assert Pushed(one, 4, 3) == [StackRow(3, 4, 1), StackRow(4, 3, 2)];
    FirstToTheEnd(1, 2, 3);
    LateWriteCollides(StackRow(3, 4, 1), StackRow(4, 3, 2), [2, 3, 1]);
  }

  lemma FirstToTheEnd(a: nat, b: nat, c: nat)
    ensures Moved([a, b, c], a, 2) == [b, c, a]
  {
    assert IndexIn([a, b, c], a) == 0;
  }

  lemma LateWriteCollides(x: StackRow, y: StackRow, order: seq<nat>)
    requires x.entryId !in order && y.entryId in order && x.position == IndexIn(order, y.entryId)
    ensures !DistinctPositions(Repositioned([x, y], order))
  {
    var t := Repositioned([x, y], order);
    assert t[0].position == t[1].position;
  }
}
