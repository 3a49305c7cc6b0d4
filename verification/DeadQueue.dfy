/** The dead-letter queue as a value: what a failing run and a removal make of it, and that its letters
  * are told apart by ids never used before.
  */
module DeadQueue {

  import opened Wrappers
  import opened Rules
  import opened History

  const DEAD_LETTER_CAP: nat := 100

  datatype DeadLetter = DeadLetter(
    id: nat, ruleId: string, ruleName: string, action: Action, error: string, atMs: int)

  /** The queue and the next letter's id. */
  datatype Dead = Dead(queue: seq<DeadLetter>, nextId: nat)

  /** The dead-letter queue after a failing run: extended, then cut to its last 100. */
  function Enqueued(queue: seq<DeadLetter>, letters: seq<DeadLetter>): seq<DeadLetter> {
    if letters == [] then queue else LastN(queue + letters, DEAD_LETTER_CAP)
  }

  /** retain(|d| d.id != id) */
  function WithoutLetter(queue: seq<DeadLetter>, id: nat): seq<DeadLetter> {
    if queue == [] then []
    else WithoutLetter(queue[..|queue| - 1], id) +
         if queue[|queue| - 1].id == id then [] else [queue[|queue| - 1]]
  }

  /** The first letter of this id. */
  function FindLetter(queue: seq<DeadLetter>, id: nat): (r: Option<DeadLetter>)
    ensures r.Some? ==> r.value in queue && r.value.id == id
    ensures r.None? ==> forall l :: l in queue ==> l.id != id
  {
    if queue == [] then None else if queue[0].id == id then Some(queue[0]) else FindLetter(queue[1..], id)
  }

  // ---------- ids ----------

  ghost predicate DistinctIds(queue: seq<DeadLetter>) {
    forall i, j :: 0 <= i < j < |queue| ==> queue[i].id != queue[j].id
  }

  /** Failed runs produce letters with ids never used before. */
  ghost predicate FreshLetters(letters: seq<DeadLetter>, nextId: nat) {
    forall i :: 0 <= i < |letters| ==> letters[i].id == nextId + i
  }

  /** No two letters share an id, and the next one is new. */
  ghost predicate Numbered(d: Dead) {
    DistinctIds(d.queue) && forall l :: l in d.queue ==> l.id < d.nextId
  }

  lemma {:induction false} WithoutLetterMembers(queue: seq<DeadLetter>, id: nat)
    ensures forall l :: l in WithoutLetter(queue, id) <==> l in queue && l.id != id
  {
    if queue != [] {
      var n := |queue| - 1;
      assert queue == queue[..n] + [queue[n]];
      WithoutLetterMembers(queue[..n], id);
    }
  }

  lemma {:induction false} WithoutLetterDistinct(queue: seq<DeadLetter>, id: nat)
    requires DistinctIds(queue)
    ensures DistinctIds(WithoutLetter(queue, id))
  {
    if queue != [] {
      var n := |queue| - 1;
      var w := WithoutLetter(queue[..n], id);
      WithoutLetterDistinct(queue[..n], id);
      WithoutLetterMembers(queue[..n], id);
      forall k | 0 <= k < |w| ensures w[k].id != queue[n].id {
        assert w[k] in queue[..n];
      }
    }
  }

  lemma EnqueuedKeeps(queue: seq<DeadLetter>, letters: seq<DeadLetter>, nextId: nat)
    requires DistinctIds(queue) && (forall l :: l in queue ==> l.id < nextId)
    requires FreshLetters(letters, nextId) && letters != []
    ensures var q := Enqueued(queue, letters);
            && |q| <= DEAD_LETTER_CAP && DistinctIds(q)
            && forall l :: l in q ==> l.id < nextId + |letters| && (l in queue || nextId <= l.id)
  {
    var all := queue + letters;
    assert forall k :: 0 <= k < |queue| ==> queue[k] in queue;
    assert DistinctIds(all);
  }

  lemma RemovedNumbered(d: Dead, id: nat)
    requires Numbered(d)
    ensures Numbered(d.(queue := WithoutLetter(d.queue, id)))
  {
    WithoutLetterMembers(d.queue, id);
    WithoutLetterDistinct(d.queue, id);
  }

  lemma AppendedNumbered(d: Dead, letter: DeadLetter)
    requires Numbered(d) && letter.id == d.nextId
    ensures Numbered(Dead(d.queue + [letter], d.nextId + 1))
  {
    forall k | 0 <= k < |d.queue| ensures d.queue[k].id < d.nextId {
      assert d.queue[k] in d.queue;
    }
  }

  lemma EnqueuedNumbered(d: Dead, letters: seq<DeadLetter>)
    requires Numbered(d) && FreshLetters(letters, d.nextId)
    ensures Numbered(Dead(Enqueued(d.queue, letters), d.nextId + |letters|))
  {
    if letters != [] { EnqueuedKeeps(d.queue, letters, d.nextId); }
  }

  // ---------- firing only ----------

  function EnqueueAll(queue: seq<DeadLetter>, batches: seq<seq<DeadLetter>>): seq<DeadLetter> {
    if batches == [] then queue
    else Enqueued(EnqueueAll(queue, batches[..|batches| - 1]), batches[|batches| - 1])
  }

  function Flat(batches: seq<seq<DeadLetter>>): seq<DeadLetter> {
    if batches == [] then [] else Flat(batches[..|batches| - 1]) + batches[|batches| - 1]
  }

  lemma EnqueuedTail(all: seq<DeadLetter>, letters: seq<DeadLetter>)
    ensures Enqueued(LastN(all, DEAD_LETTER_CAP), letters) == LastN(all + letters, DEAD_LETTER_CAP)
  {
    TrimEarly(all, letters, DEAD_LETTER_CAP);
    if letters == [] { assert all + letters == all; }
  }

  lemma FlatStep(queue: seq<DeadLetter>, batches: seq<seq<DeadLetter>>)
    requires batches != []
    ensures queue + Flat(batches) == queue + Flat(batches[..|batches| - 1]) + batches[|batches| - 1]
  {
    LettersRegroup(queue, Flat(batches[..|batches| - 1]), batches[|batches| - 1]);
  }

  lemma LettersRegroup(a: seq<DeadLetter>, b: seq<DeadLetter>, c: seq<DeadLetter>)
    ensures a + (b + c) == a + b + c
  {
  }

  lemma {:induction false} NothingFailed(queue: seq<DeadLetter>, batches: seq<seq<DeadLetter>>)
    requires forall k :: 0 <= k < |batches| ==> batches[k] == []
    ensures EnqueueAll(queue, batches) == queue && Flat(batches) == []
  {
    if batches != [] { NothingFailed(queue, batches[..|batches| - 1]); }
  }

  /** While rules only fire, the queue is the last 100 letters of everything that ever failed: at once when
    * what was stored fits, and from the first failure on whatever was stored. */
  lemma {:induction false} DeadQueueIsLastOfLog(queue: seq<DeadLetter>, batches: seq<seq<DeadLetter>>)
    requires |queue| <= DEAD_LETTER_CAP || exists k :: 0 <= k < |batches| && batches[k] != []
    ensures EnqueueAll(queue, batches) == LastN(queue + Flat(batches), DEAD_LETTER_CAP)
  {
    if batches == [] {
      assert queue + [] == queue;
    } else {
      var init, last := batches[..|batches| - 1], batches[|batches| - 1];
      FlatStep(queue, batches);
      if |queue| <= DEAD_LETTER_CAP || exists k :: 0 <= k < |init| && init[k] != [] {
        DeadQueueIsLastOfLog(queue, init);
        EnqueuedTail(queue + Flat(init), last);
      } else {
        FirstFailureTrims(queue, init, last);
      }
    }
  }

  lemma FirstFailureTrims(queue: seq<DeadLetter>, quiet: seq<seq<DeadLetter>>, letters: seq<DeadLetter>)
    requires letters != [] && forall k :: 0 <= k < |quiet| ==> quiet[k] == []
    ensures Enqueued(EnqueueAll(queue, quiet), letters) == LastN(queue + Flat(quiet) + letters, DEAD_LETTER_CAP)
  {
    NothingFailed(queue, quiet);
    assert queue + [] == queue;
  }
}
