/** The dead-letter queue as a protocol: firings, `clear_dead`, and replays that each go through
  * three critical sections (look the letter up, remove it, put a failed run back), interleaved
  * in any way at those lock boundaries. Any number of replays may be in flight for the same letter.
  */
module DeadLetters {

  import opened Wrappers
  import opened DeadQueue
  import opened RuleEngine
  import Rules

  /** Every replay has its own token. `looked` are the replays before their removal step, each with the
    * letter it found; `removed` are those after it. Three history variables: `stale` are the replays in
    * flight since before the last trim, `overlap` is how many were in flight at it, and `doubled` counts
    * the lookups since of a letter that another replay begun since then still holds. */
  datatype State = State(
    queue: seq<DeadLetter>, nextId: nat, looked: map<nat, nat>, removed: set<nat>, nextToken: nat,
    stale: set<nat>, overlap: nat, doubled: nat)

  datatype Step =
    | Fire(letters: seq<DeadLetter>)
    | Clear
    | Lookup(id: nat)
    | Remove(token: nat)
    | Finish(token: nat, failed: Option<DeadLetter>)

  function Ids(queue: seq<DeadLetter>): set<nat> {
    set l | l in queue :: l.id
  }

  function InFlight(s: State): set<nat> {
    set t | t in s.looked.Keys + s.removed
  }

  /** The letters held by the replays before their removal step, but for those `apart`. */
  function Held(looked: map<nat, nat>, apart: set<nat>): set<nat> {
    set t | t in looked && t !in apart :: looked[t]
  }

  ghost predicate Enabled(s: State, step: Step) {
    match step
    case Fire(letters) => letters != [] && FreshLetters(letters, s.nextId)
    case Clear => true
    case Lookup(id) => id in Ids(s.queue)
    case Remove(token) => token in s.looked
    case Finish(token, failed) => token in s.removed && (failed.Some? ==> failed.value.id == s.nextId)
  }

  function Fired(s: State, letters: seq<DeadLetter>): State {
    s.(queue := Enqueued(s.queue, letters), nextId := s.nextId + |letters|,
       stale := InFlight(s), overlap := |InFlight(s)|, doubled := 0)
  }

  function LookedUp(s: State, id: nat): State {
    s.(looked := s.looked[s.nextToken := id], nextToken := s.nextToken + 1,
       doubled := s.doubled + if id in Held(s.looked, s.stale) then 1 else 0)
  }

  function Removed(s: State, token: nat): State {
    if token !in s.looked then s
    else s.(queue := WithoutLetter(s.queue, s.looked[token]), looked := s.looked - {token},
            removed := s.removed + {token})
  }

  function Finished(s: State, token: nat, failed: Option<DeadLetter>): State {
    var t := s.(removed := s.removed - {token}, stale := s.stale - {token});
    match failed
    case None => t
    case Some(letter) => t.(queue := s.queue + [letter], nextId := s.nextId + 1)
  }

  function Next(s: State, step: Step): State {
    match step
    case Fire(letters) => Fired(s, letters)
    case Clear => s.(queue := [])
    case Lookup(id) => LookedUp(s, id)
    case Remove(token) => Removed(s, token)
    case Finish(token, failed) => Finished(s, token, failed)
  }

  ghost predicate Initial(s: State) {
    && |s.queue| <= DEAD_LETTER_CAP
    && DistinctIds(s.queue) && (forall l :: l in s.queue ==> l.id < s.nextId)
    && s.looked == map[] && s.removed == s.stale == {} && s.overlap == s.doubled == 0
  }

  ghost predicate Valid(s: State, steps: seq<Step>)
    decreases steps
  {
    steps == [] || (Enabled(s, steps[0]) && Valid(Next(s, steps[0]), steps[1..]))
  }

  function Run(s: State, steps: seq<Step>): State
    decreases steps
  {
    if steps == [] then s else Run(Next(s, steps[0]), steps[1..])
  }

  // ---------- the invariant ----------

  /** Letters in the queue that no replay before its removal step holds, but for those `apart`. */
  function Unheld(s: State, apart: set<nat>): set<nat> {
    set id | id in Ids(s.queue) && id !in Held(s.looked, apart)
  }

  ghost predicate Sound(s: State) {
    && DistinctIds(s.queue)
    && (forall l :: l in s.queue ==> l.id < s.nextId)
    && (forall t :: t in s.looked ==> s.looked[t] < s.nextId)
    && (forall t :: t in InFlight(s) ==> t < s.nextToken)
    && s.looked.Keys !! s.removed
    && s.stale <= InFlight(s)
  }

  /** The letters nobody that began since the last trim holds, and the replays, each of which may put back one. */
  ghost predicate Inv(s: State) {
    Sound(s) && |Unheld(s, s.stale)| + |InFlight(s)| <= DEAD_LETTER_CAP + s.overlap + s.doubled
  }

  // ---------- queue facts ----------

  lemma {:induction false} IdsCount(queue: seq<DeadLetter>)
    requires DistinctIds(queue)
    ensures |Ids(queue)| == |queue|
  {
    if queue != [] {
      var n := |queue| - 1;
      var init := queue[..n];
      IdsCount(init);
      assert queue[n].id !in Ids(init);
      assert Ids(queue) == Ids(init) + {queue[n].id} by {
        assert queue == init + [queue[n]];
      }
    }
  }

  lemma WithoutLetterExact(queue: seq<DeadLetter>, id: nat)
    requires DistinctIds(queue)
    ensures DistinctIds(WithoutLetter(queue, id))
    ensures Ids(WithoutLetter(queue, id)) == Ids(queue) - {id}
    ensures forall l :: l in WithoutLetter(queue, id) ==> l in queue
  {
    WithoutLetterMembers(queue, id);
    WithoutLetterDistinct(queue, id);
  }

  // ---------- what each step does to the letters held ----------

  lemma SubsetCount(a: set<nat>, b: set<nat>)
    requires a <= b
    ensures |a| <= |b|
  {
    assert b == a + (b - a);
  }

  lemma OneLess(a: set<nat>, x: nat)
    requires x in a
    ensures |a - {x}| == |a| - 1
  {
  }

  lemma OneMore(a: set<nat>, x: nat)
    requires x !in a
    ensures |a + {x}| == |a| + 1
  {
  }

  lemma FlightAfterLookup(s: State, id: nat)
    requires Sound(s)
    ensures InFlight(LookedUp(s, id)) == InFlight(s) + {s.nextToken} && s.nextToken !in InFlight(s)
  {
  }

  lemma FlightAfterRemove(s: State, token: nat)
    requires token in s.looked
    ensures InFlight(Removed(s, token)) == InFlight(s)
  {
  }

  lemma FlightAfterFinish(s: State, token: nat, failed: Option<DeadLetter>)
    requires token in s.removed && s.looked.Keys !! s.removed
    ensures InFlight(Finished(s, token, failed)) == InFlight(s) - {token}
  {
  }

  lemma HeldAfterLookup(looked: map<nat, nat>, apart: set<nat>, token: nat, id: nat)
    requires token !in looked && token !in apart
    ensures Held(looked[token := id], apart) == Held(looked, apart) + {id}
  {
    var after := looked[token := id];
    forall x | x in Held(looked, apart) ensures x in Held(after, apart) {
      var t :| t in looked && t !in apart && looked[t] == x;
      assert after[t] == x;
    }
    assert after[token] == id;
  }

  lemma HeldAfterRemove(looked: map<nat, nat>, apart: set<nat>, token: nat)
    requires token in looked
    ensures Held(looked, apart) <= Held(looked - {token}, apart) + {looked[token]}
    ensures token !in apart ==> Held(looked - {token}, apart) + {looked[token]} == Held(looked, apart)
  {
    var after := looked - {token};
    forall x | x in Held(looked, apart) && x != looked[token] ensures x in Held(after, apart) {
      var t :| t in looked && t !in apart && looked[t] == x;
      assert after[t] == x;
    }
    forall x | x in Held(after, apart) ensures x in Held(looked, apart) {
      var t :| t in after && t !in apart && after[t] == x;
      assert looked[t] == x;
    }
  }

  lemma UnheldAfterLookup(s: State, id: nat, apart: set<nat>)
    requires Sound(s) && id in Ids(s.queue) && s.nextToken !in apart
    ensures Unheld(LookedUp(s, id), apart) == Unheld(s, apart) - {id}
  {
    FlightAfterLookup(s, id);
    HeldAfterLookup(s.looked, apart, s.nextToken, id);
  }

  /** A second lookup of a letter claims one place more, any other none. */
  lemma LookupCounts(s: State, id: nat, apart: set<nat>)
    requires Sound(s) && id in Ids(s.queue) && s.nextToken !in apart
    ensures var t := LookedUp(s, id);
            |Unheld(t, apart)| + |InFlight(t)| ==
            |Unheld(s, apart)| + |InFlight(s)| + if id in Held(s.looked, apart) then 1 else 0
  {
    FlightAfterLookup(s, id);
    OneMore(InFlight(s), s.nextToken);
    UnheldAfterLookup(s, id, apart);
    if id in Held(s.looked, apart) {
      assert Unheld(s, apart) - {id} == Unheld(s, apart);
    } else {
      OneLess(Unheld(s, apart), id);
    }
  }

  lemma RemoveFrees(s: State, token: nat, apart: set<nat>)
    requires Sound(s) && token in s.looked
    ensures Unheld(Removed(s, token), apart) <= Unheld(s, apart)
    ensures token !in apart ==> Unheld(Removed(s, token), apart) == Unheld(s, apart)
  {
    WithoutLetterExact(s.queue, s.looked[token]);
    HeldAfterRemove(s.looked, apart, token);
  }

  function Back(failed: Option<DeadLetter>): set<nat> {
    match failed case None => {} case Some(letter) => {letter.id}
  }

  lemma FinishIds(s: State, token: nat, failed: Option<DeadLetter>)
    ensures Ids(Finished(s, token, failed).queue) == Ids(s.queue) + Back(failed)
  {
    if failed.Some? {
      var q := s.queue + [failed.value];
      assert forall l :: l in q <==> l in s.queue || l == failed.value;
    }
  }

  lemma FreshIsUnheld(s: State, apart: set<nat>)
    requires Sound(s)
    ensures s.nextId !in Ids(s.queue) && s.nextId !in Held(s.looked, apart)
  {
  }

  lemma SuccessCounts(s: State, token: nat, apart: set<nat>)
    requires Sound(s) && token in s.removed
    ensures Unheld(Finished(s, token, None), apart) == Unheld(s, apart)
    ensures |InFlight(Finished(s, token, None))| == |InFlight(s)| - 1
  {
    FlightAfterFinish(s, token, None);
    OneLess(InFlight(s), token);
  }

  lemma UnheldAfterFailure(s: State, token: nat, letter: DeadLetter, apart: set<nat>)
    requires Sound(s) && letter.id == s.nextId
    ensures Unheld(Finished(s, token, Some(letter)), apart) == Unheld(s, apart) + {s.nextId}
  {
    FinishIds(s, token, Some(letter));
    FreshIsUnheld(s, apart);
  }

  /** A replay that fails gives up its own place and takes one with the letter it puts back. */
  lemma FailureCounts(s: State, token: nat, letter: DeadLetter, apart: set<nat>)
    requires Sound(s) && token in s.removed && letter.id == s.nextId
    ensures |Unheld(Finished(s, token, Some(letter)), apart)| == |Unheld(s, apart)| + 1
    ensures |InFlight(Finished(s, token, Some(letter)))| == |InFlight(s)| - 1
  {
    FlightAfterFinish(s, token, Some(letter));
    OneLess(InFlight(s), token);
    FreshIsUnheld(s, apart);
    UnheldAfterFailure(s, token, letter, apart);
    OneMore(Unheld(s, apart), s.nextId);
  }

  lemma FinishCounts(s: State, token: nat, failed: Option<DeadLetter>, apart: set<nat>)
    requires Sound(s) && Enabled(s, Finish(token, failed))
    ensures var t := Finished(s, token, failed);
            |Unheld(t, apart)| + |InFlight(t)| <= |Unheld(s, apart)| + |InFlight(s)|
  {
    match failed
    case None => SuccessCounts(s, token, apart);
    case Some(letter) => FailureCounts(s, token, letter, apart);
  }

  // ---------- every step keeps the invariant ----------

  lemma FiredSound(s: State, letters: seq<DeadLetter>)
    requires Sound(s) && letters != [] && FreshLetters(letters, s.nextId)
    ensures Sound(Fired(s, letters)) && |Fired(s, letters).queue| <= DEAD_LETTER_CAP
  {
    EnqueuedKeeps(s.queue, letters, s.nextId);
  }

  lemma FireKeeps(s: State, letters: seq<DeadLetter>)
    requires Sound(s) && letters != [] && FreshLetters(letters, s.nextId)
    ensures Inv(Fired(s, letters))
  {
    var t := Fired(s, letters);
    FiredSound(s, letters);
    IdsCount(t.queue);
    assert Unheld(t, t.stale) == Ids(t.queue) by {
      assert Held(t.looked, t.stale) == {};
    }
  }

  lemma ClearKeeps(s: State, t: State)
    requires Inv(s) && t == s.(queue := [])
    ensures Inv(t)
  {
    SubsetCount(Unheld(t, t.stale), Unheld(s, s.stale));
  }

  lemma LookupSound(s: State, id: nat)
    requires Sound(s) && id in Ids(s.queue)
    ensures Sound(LookedUp(s, id))
  {
    FlightAfterLookup(s, id);
    var l :| l in s.queue && l.id == id;
  }

  lemma LookupKeeps(s: State, id: nat)
    requires Inv(s) && id in Ids(s.queue)
    ensures Inv(LookedUp(s, id))
  {
    LookupSound(s, id);
    LookupCounts(s, id, s.stale);
  }

  lemma RemoveKeeps(s: State, token: nat)
    requires Inv(s) && token in s.looked
    ensures Inv(Removed(s, token))
  {
    WithoutLetterExact(s.queue, s.looked[token]);
    FlightAfterRemove(s, token);
    RemoveFrees(s, token, s.stale);
    SubsetCount(Unheld(Removed(s, token), s.stale), Unheld(s, s.stale));
  }

  lemma FinishSound(s: State, token: nat, failed: Option<DeadLetter>)
    requires Sound(s) && Enabled(s, Finish(token, failed))
    ensures Sound(Finished(s, token, failed))
  {
    FlightAfterFinish(s, token, failed);
    assert forall k :: 0 <= k < |s.queue| ==> s.queue[k] in s.queue;
  }

  lemma FinishKeeps(s: State, token: nat, failed: Option<DeadLetter>)
    requires Inv(s) && Enabled(s, Finish(token, failed))
    ensures Inv(Finished(s, token, failed))
  {
    FinishSound(s, token, failed);
    FinishCounts(s, token, failed, s.stale);
    assert Held(s.looked, s.stale - {token}) == Held(s.looked, s.stale);
  }

  lemma StepKeeps(s: State, step: Step)
    requires Inv(s) && Enabled(s, step)
    ensures Inv(Next(s, step))
  {
    match step
    case Fire(letters) => FireKeeps(s, letters);
    case Clear => ClearKeeps(s, Next(s, step));
    case Lookup(id) => LookupKeeps(s, id);
    case Remove(token) => RemoveKeeps(s, token);
    case Finish(token, failed) => FinishKeeps(s, token, failed);
  }

  lemma {:induction false} RunKeeps(s: State, steps: seq<Step>)
    requires Inv(s) && Valid(s, steps)
    ensures Inv(Run(s, steps))
    decreases steps
  {
    if steps != [] {
      StepKeeps(s, steps[0]);
      RunKeeps(Next(s, steps[0]), steps[1..]);
    }
  }

  lemma InitialInv(s: State)
    requires Initial(s)
    ensures Inv(s)
  {
    IdsCount(s.queue);
    assert Unheld(s, s.stale) == Ids(s.queue);
  }

  lemma {:induction false} HeldCount(looked: map<nat, nat>, apart: set<nat>)
    ensures |Held(looked, apart)| <= |looked.Keys - apart|
    decreases |looked.Keys|
  {
    if t :| t in looked && t !in apart {
      var rest := looked - {t};
      OneLess(looked.Keys, t);
      OneLess(looked.Keys - apart, t);
      HeldCount(rest, apart);
      assert rest.Keys - apart == (looked.Keys - apart) - {t};
      HeldAfterRemove(looked, apart, t);
      OneMoreAtMost(Held(rest, apart), looked[t]);
    } else {
      assert Held(looked, apart) == {};
    }
  }

  lemma OneMoreAtMost(a: set<nat>, x: nat)
    ensures |a + {x}| <= |a| + 1
  {
    if x in a { assert a + {x} == a; }
  }

  lemma UnionCount(a: set<nat>, b: set<nat>)
    ensures |a + b| <= |a| + |b|
  {
    assert a + b == a + (b - a);
    SubsetCount(b - a, b);
  }

  lemma CoverCount(a: set<nat>, h: set<nat>)
    ensures |a| <= |a - h| + |h|
  {
    UnionCount(a - h, h);
    SubsetCount(a, (a - h) + h);
  }

  lemma PartCount(f: set<nat>, part: set<nat>)
    requires part <= f
    ensures |f| == |f - part| + |part|
  {
  }

  lemma LettersCount(s: State, apart: set<nat>)
    ensures |Ids(s.queue)| <= |Unheld(s, apart)| + |Held(s.looked, apart)|
  {
    CoverCount(Ids(s.queue), Held(s.looked, apart));
    assert Ids(s.queue) - Held(s.looked, apart) == Unheld(s, apart);
  }

  lemma QueueCount(s: State, apart: set<nat>)
    requires DistinctIds(s.queue) && apart <= InFlight(s)
    ensures |s.queue| + |apart| <= |Unheld(s, apart)| + |InFlight(s)|
  {
    IdsCount(s.queue);
    LettersCount(s, apart);
    HeldCount(s.looked, apart);
    SubsetCount(s.looked.Keys - apart, InFlight(s) - apart);
    PartCount(InFlight(s), apart);
  }

  /** Over every interleaving the queue holds at most 100 letters, plus the replays that were in flight when it
    * was last trimmed and have ended, plus the lookups since of a letter somebody already held. */
  lemma QueueBound(s: State, steps: seq<Step>)
    requires Initial(s) && Valid(s, steps)
    ensures var t := Run(s, steps);
            |t.queue| + |t.stale| <= DEAD_LETTER_CAP + t.overlap + t.doubled
  {
    InitialInv(s);
    RunKeeps(s, steps);
    QueueCount(Run(s, steps), Run(s, steps).stale);
  }

  // ---------- without firings and without doubles ----------

  ghost predicate Undisturbed(s: State, steps: seq<Step>)
    decreases steps
  {
    steps == [] || ((steps[0].Fire? ==> InFlight(s) == {}) && Undisturbed(Next(s, steps[0]), steps[1..]))
  }

  /** No letter is looked up while another replay holds it. */
  ghost predicate Single(s: State, steps: seq<Step>)
    decreases steps
  {
    steps == [] ||
    ((steps[0].Lookup? ==> steps[0].id !in Held(s.looked, {})) && Single(Next(s, steps[0]), steps[1..]))
  }

  lemma {:induction false} UndisturbedOverlap(s: State, steps: seq<Step>)
    requires s.overlap == 0 && Undisturbed(s, steps)
    ensures Run(s, steps).overlap == 0
    decreases steps
  {
    if steps != [] { UndisturbedOverlap(Next(s, steps[0]), steps[1..]); }
  }

  lemma {:induction false} SingleNeverDoubles(s: State, steps: seq<Step>)
    requires s.doubled == 0 && Single(s, steps)
    ensures Run(s, steps).doubled == 0
    decreases steps
  {
    if steps != [] { SingleNeverDoubles(Next(s, steps[0]), steps[1..]); }
  }

  /** If no firing lands while a replay is in flight, and no letter is replayed twice at once, the queue never
    * exceeds 100, whatever the replays and clears do among themselves. */
  lemma CapHoldsUndisturbed(s: State, steps: seq<Step>)
    requires Initial(s) && Valid(s, steps) && Undisturbed(s, steps) && Single(s, steps)
    ensures |Run(s, steps).queue| <= DEAD_LETTER_CAP
  {
    QueueBound(s, steps);
    UndisturbedOverlap(s, steps);
    SingleNeverDoubles(s, steps);
  }

  // ---------- exactly when the cap is safe ----------

  /** The letters in the queue that no replay holds, and the replays, each of which may put one back. */
  function Claim(s: State): nat {
    |Unheld(s, {})| + |InFlight(s)|
  }

  ghost predicate NoFire(steps: seq<Step>) {
    forall k :: 0 <= k < |steps| ==> !steps[k].Fire?
  }

  lemma RemoveClaim(s: State, token: nat)
    requires Sound(s) && token in s.looked
    ensures Claim(Removed(s, token)) == Claim(s)
  {
    RemoveFrees(s, token, {});
    FlightAfterRemove(s, token);
  }

  /** Between firings the claim never grows, but for the letters looked up twice. */
  lemma ClaimShrinks(s: State, step: Step)
    requires Sound(s) && Enabled(s, step) && !step.Fire? && (step.Lookup? ==> step.id !in Held(s.looked, {}))
    ensures Claim(Next(s, step)) <= Claim(s)
  {
    match step
    case Clear => SubsetCount(Unheld(Next(s, step), {}), Unheld(s, {}));
    case Lookup(id) => LookupCounts(s, id, {});
    case Remove(token) => RemoveClaim(s, token);
    case Finish(token, failed) => FinishCounts(s, token, failed, {});
  }

  lemma {:induction false} QueueWithinClaim(s: State, steps: seq<Step>)
    requires Inv(s) && Valid(s, steps) && NoFire(steps) && Single(s, steps)
    ensures |Run(s, steps).queue| <= Claim(s)
    decreases steps
  {
    if steps == [] {
      QueueCount(s, {});
    } else {
      StepKeeps(s, steps[0]);
      ClaimShrinks(s, steps[0]);
      QueueWithinClaim(Next(s, steps[0]), steps[1..]);
    }
  }

  function Sample(id: nat): DeadLetter {
    DeadLetter(id, "r", "rule", Rules.OpenUrl("https://x"), "e", 0)
  }

  lemma Unfold(s: State, a: Step, rest: seq<Step>)
    ensures Run(s, [a] + rest) == Run(Next(s, a), rest)
    ensures Valid(s, [a] + rest) <==> Enabled(s, a) && Valid(Next(s, a), rest)
    ensures Single(s, [a] + rest) <==> (a.Lookup? ==> a.id !in Held(s.looked, {})) && Single(Next(s, a), rest)
    ensures Undisturbed(s, [a] + rest) <==> (a.Fire? ==> InFlight(s) == {}) && Undisturbed(Next(s, a), rest)
  {
    assert ([a] + rest)[1..] == rest;
  }

  /** The run only lets replays in flight go on, and ends with nobody in flight and the whole claim in the queue. */
  ghost predicate Settles(s: State, steps: seq<Step>) {
    && Valid(s, steps) && NoFire(steps) && Single(s, steps)
    && var t := Run(s, steps);
       Inv(t) && |t.queue| == Claim(s) && InFlight(t) == {} && t.overlap == s.overlap
  }

  lemma SettlesFrom(s: State, a: Step, rest: seq<Step>)
    requires Enabled(s, a) && !a.Fire? && !a.Lookup? && Settles(Next(s, a), rest)
    requires Claim(Next(s, a)) == Claim(s) && Next(s, a).overlap == s.overlap
    ensures Settles(s, [a] + rest)
  {
    Unfold(s, a, rest);
  }

  /** Letting a replay go on: it removes its letter ... */
  lemma GoOn(s: State, token: nat)
    requires Inv(s) && token in s.looked
    ensures var t := Removed(s, token);
            Inv(t) && Claim(t) == Claim(s) && t.overlap == s.overlap && |t.looked.Keys| < |s.looked.Keys|
  {
    RemoveKeeps(s, token);
    RemoveClaim(s, token);
    OneLess(s.looked.Keys, token);
  }

  /** ... and fails. */
  lemma Fail(s: State, token: nat)
    requires Inv(s) && token in s.removed
    ensures var t := Finished(s, token, Some(Sample(s.nextId)));
            && Inv(t) && Claim(t) == Claim(s) && t.overlap == s.overlap
            && t.looked == s.looked && |t.removed| < |s.removed|
  {
    FinishKeeps(s, token, Some(Sample(s.nextId)));
    FailureCounts(s, token, Sample(s.nextId), {});
    OneLess(s.removed, token);
  }

  lemma SettledClaim(s: State)
    requires Inv(s) && InFlight(s) == {}
    ensures Claim(s) == |s.queue|
  {
    IdsCount(s.queue);
    assert Unheld(s, {}) == Ids(s.queue);
  }

  /** When every replay in flight fails the whole claim comes back to the queue. */
  lemma {:induction false} AllReplaysFail(s: State) returns (steps: seq<Step>)
    requires Inv(s)
    ensures Settles(s, steps)
    decreases |s.looked.Keys|, |s.removed|
  {
    if token :| token in s.looked {
      GoOn(s, token);
      var rest := AllReplaysFail(Removed(s, token));
      SettlesFrom(s, Remove(token), rest);
      steps := [Remove(token)] + rest;
    } else if token :| token in s.removed {
      var fail := Finish(token, Some(Sample(s.nextId)));
      Fail(s, token);
      var rest := AllReplaysFail(Next(s, fail));
      SettlesFrom(s, fail, rest);
      steps := [fail] + rest;
    } else {
      steps := [];
      assert InFlight(s) == {};
      SettledClaim(s);
    }
  }

  ghost predicate CapSafe(s: State) {
    forall steps :: Valid(s, steps) && NoFire(steps) && Single(s, steps) ==>
      |Run(s, steps).queue| <= DEAD_LETTER_CAP
  }

  lemma SmallClaimIsSafe(s: State)
    requires Inv(s) && Claim(s) <= DEAD_LETTER_CAP
    ensures CapSafe(s)
  {
    forall steps | Valid(s, steps) && NoFire(steps) && Single(s, steps)
      ensures |Run(s, steps).queue| <= DEAD_LETTER_CAP
    {
      QueueWithinClaim(s, steps);
    }
  }

  lemma SafeClaimIsSmall(s: State)
    requires Inv(s) && CapSafe(s)
    ensures Claim(s) <= DEAD_LETTER_CAP
  {
    var worst := AllReplaysFail(s);
    assert |Run(s, worst).queue| <= DEAD_LETTER_CAP;
  }

  /** From here until the next firing, as long as no letter is replayed twice at once, the queue stays within
    * its cap, whatever replays and clears do, if and only if the claim fits. */
  lemma CapSafeIff(s: State)
    requires Inv(s)
    ensures CapSafe(s) <==> Claim(s) <= DEAD_LETTER_CAP
  {
    if CapSafe(s) { SafeClaimIsSmall(s); }
    if Claim(s) <= DEAD_LETTER_CAP { SmallClaimIsSafe(s); }
  }

  // ---------- the same letter replayed several times at once ----------

  lemma {:induction false} RunConcat(s: State, a: seq<Step>, b: seq<Step>)
    ensures Run(s, a + b) == Run(Run(s, a), b)
    ensures Valid(s, a + b) <==> Valid(s, a) && Valid(Run(s, a), b)
    ensures Single(s, a + b) <==> Single(s, a) && Single(Run(s, a), b)
    decreases a
  {
    if a == [] {
      assert a + b == b;
    } else {
      assert (a + b)[1..] == a[1..] + b;
      RunConcat(Next(s, a[0]), a[1..], b);
    }
  }

  lemma Then(s: State, a: seq<Step>, b: seq<Step>)
    requires Valid(s, a) && NoFire(a) && Valid(Run(s, a), b) && NoFire(b)
    ensures Valid(s, a + b) && NoFire(a + b) && Run(s, a + b) == Run(Run(s, a), b)
  {
    RunConcat(s, a, b);
  }

  lemma SecondLookup(s: State, id: nat)
    requires Inv(s) && id in Ids(s.queue) && id in Held(s.looked, {})
    ensures var t := LookedUp(s, id);
            Inv(t) && id in Ids(t.queue) && id in Held(t.looked, {}) && Claim(t) == Claim(s) + 1
  {
    LookupKeeps(s, id);
    LookupCounts(s, id, {});
    FlightAfterLookup(s, id);
    HeldAfterLookup(s.looked, {}, s.nextToken, id);
  }

  /** n more replays look up a letter that somebody holds already: each claims one more place. */
  lemma {:induction false} PileOn(s: State, id: nat, n: nat) returns (steps: seq<Step>)
    requires Inv(s) && id in Ids(s.queue) && id in Held(s.looked, {})
    ensures Valid(s, steps) && NoFire(steps) && Inv(Run(s, steps)) && Claim(Run(s, steps)) == Claim(s) + n
    decreases n
  {
    if n == 0 {
      steps := [];
    } else {
      SecondLookup(s, id);
      var rest := PileOn(LookedUp(s, id), id, n - 1);
      LookupThen(s, id, rest);
      steps := [Lookup(id)] + rest;
    }
  }

  lemma LookupThen(s: State, id: nat, rest: seq<Step>)
    requires id in Ids(s.queue) && Valid(LookedUp(s, id), rest) && NoFire(rest)
    ensures Valid(s, [Lookup(id)] + rest) && NoFire([Lookup(id)] + rest)
    ensures Run(s, [Lookup(id)] + rest) == Run(LookedUp(s, id), rest)
  {
    Unfold(s, Lookup(id), rest);
  }

  lemma PileOnAndFail(s: State, id: nat, n: nat) returns (steps: seq<Step>)
    requires Inv(s) && id in Ids(s.queue) && id in Held(s.looked, {})
    ensures Valid(s, steps) && NoFire(steps) && InFlight(Run(s, steps)) == {}
    ensures |Run(s, steps).queue| == Claim(s) + n
  {
    var pile := PileOn(s, id, n);
    var fail := AllReplaysFail(Run(s, pile));
    Then(s, pile, fail);
    steps := pile + fail;
  }

  lemma FirstLookup(s: State, id: nat)
    requires Inv(s) && InFlight(s) == {} && id in Ids(s.queue)
    ensures var t := LookedUp(s, id); Inv(t) && id in Held(t.looked, {}) && Claim(t) == |s.queue|
  {
    LookupKeeps(s, id);
    SettledClaim(s);
    assert Held(s.looked, {}) == {};
    LookupCounts(s, id, {});
    HeldAfterLookup(s.looked, {}, s.nextToken, id);
  }

  /** Without any firing: n + 1 replays of one letter that all fail leave n letters more than there were. */
  lemma SameLetterReplays(s: State, id: nat, n: nat) returns (steps: seq<Step>)
    requires Inv(s) && InFlight(s) == {} && id in Ids(s.queue)
    ensures Valid(s, steps) && NoFire(steps) && InFlight(Run(s, steps)) == {}
    ensures |Run(s, steps).queue| == |s.queue| + n
  {
    FirstLookup(s, id);
    var rest := PileOnAndFail(LookedUp(s, id), id, n);
    LookupThen(s, id, rest);
    steps := [Lookup(id)] + rest;
  }

  lemma SomethingClaimed(s: State)
    requires s.queue != [] || InFlight(s) != {}
    ensures Claim(s) > 0
  {
    if InFlight(s) == {} {
      assert s.queue[0].id in Unheld(s, {});
    }
  }

  lemma {:induction false} NothingComes(s: State, steps: seq<Step>)
    requires s.queue == [] && InFlight(s) == {} && Valid(s, steps) && NoFire(steps)
    ensures Run(s, steps).queue == []
    decreases steps
  {
    if steps != [] {
      assert forall t :: t in s.looked || t in s.removed ==> t in InFlight(s);
      NothingComes(Next(s, steps[0]), steps[1..]);
    }
  }

  lemma GrowsPastTheCap(s: State) returns (steps: seq<Step>)
    requires Inv(s) && (s.queue != [] || InFlight(s) != {})
    ensures Valid(s, steps) && NoFire(steps) && |Run(s, steps).queue| > DEAD_LETTER_CAP
  {
    SomethingClaimed(s);
    var settle := AllReplaysFail(s);
    var t := Run(s, settle);
    assert t.queue[0] in t.queue;
    var more := SameLetterReplays(t, t.queue[0].id, DEAD_LETTER_CAP);
    Then(s, settle, more);
    steps := settle + more;
  }

  /** When letters may be replayed twice at once, no state with a letter in the queue or a replay in flight is
    * safe, even if nothing fires again. */
  lemma DoublesSafeIff(s: State)
    requires Inv(s)
    ensures (forall steps :: Valid(s, steps) && NoFire(steps) ==> |Run(s, steps).queue| <= DEAD_LETTER_CAP) <==>
            s.queue == [] && InFlight(s) == {}
  {
    if s.queue == [] && InFlight(s) == {} {
      forall steps | Valid(s, steps) && NoFire(steps) ensures |Run(s, steps).queue| <= DEAD_LETTER_CAP {
        NothingComes(s, steps);
      }
    } else {
      var worst := GrowsPastTheCap(s);
    }
  }

  // ---------- the bound is reached ----------

  function Batch(from: nat): (letters: seq<DeadLetter>)
    ensures |letters| == DEAD_LETTER_CAP
    ensures forall i {:trigger letters[i]} :: 0 <= i < |letters| ==> letters[i] == Sample(from + i)
  {
    seq(DEAD_LETTER_CAP, i requires 0 <= i < DEAD_LETTER_CAP => Sample(from + i))
  }

  lemma BatchFillsQueue(s: State)
    ensures Fired(s, Batch(s.nextId)).queue == Batch(s.nextId)
  {
    var letters := Batch(s.nextId);
    assert (s.queue + letters)[|s.queue|..] == letters;
    assert s.queue == [] ==> s.queue + letters == letters;
  }

  /** One more replay in flight: fire a full batch ... */
  lemma BatchFired(s: State)
    requires Inv(s)
    ensures var t := Fired(s, Batch(s.nextId));
            Enabled(s, Fire(Batch(s.nextId))) && Inv(t) && t.looked == s.looked && t.removed == s.removed
            && s.nextId in Ids(t.queue) && s.nextId !in Held(s.looked, {})
  {
    FireKeeps(s, Batch(s.nextId));
    FreshIsUnheld(s, {});
    BatchFillsQueue(s);
    var q := Batch(s.nextId);
    assert q[0].id == s.nextId && q[0] in q;
  }

  lemma RunTwo(s: State, a: Step, b: Step)
    requires a.Fire? && b.Lookup? && Enabled(s, a) && Enabled(Next(s, a), b)
    requires b.id !in Held(Next(s, a).looked, {})
    ensures Run(s, [a, b]) == Next(Next(s, a), b) && Valid(s, [a, b]) && Single(s, [a, b])
  {
    Unfold(Next(s, a), b, []);
    Unfold(s, a, [b]);
    assert [b] + [] == [b] && [a] + [b] == [a, b];
  }

  lemma LookupAddsOne(s: State, id: nat)
    requires Inv(s) && id in Ids(s.queue)
    ensures Inv(LookedUp(s, id)) && |InFlight(LookedUp(s, id))| == |InFlight(s)| + 1
  {
    LookupKeeps(s, id);
    FlightAfterLookup(s, id);
    OneMore(InFlight(s), s.nextToken);
  }

  /** ... and look one of its letters up. */
  lemma OneMoreInFlight(s: State)
    requires Inv(s)
    ensures var steps := [Fire(Batch(s.nextId)), Lookup(s.nextId)];
            Valid(s, steps) && Single(s, steps) && Inv(Run(s, steps)) && |InFlight(Run(s, steps))| == |InFlight(s)| + 1
  {
    BatchFired(s);
    LookupAddsOne(Fired(s, Batch(s.nextId)), s.nextId);
    RunTwo(s, Fire(Batch(s.nextId)), Lookup(s.nextId));
  }

  lemma {:induction false} ManyInFlight(s: State, n: nat) returns (steps: seq<Step>)
    requires Inv(s)
    ensures Valid(s, steps) && Single(s, steps)
    ensures Inv(Run(s, steps)) && |InFlight(Run(s, steps))| == |InFlight(s)| + n
    decreases n
  {
    if n == 0 {
      steps := [];
    } else {
      OneMoreInFlight(s);
      var first := [Fire(Batch(s.nextId)), Lookup(s.nextId)];
      var rest := ManyInFlight(Run(s, first), n - 1);
      RunConcat(s, first, rest);
      steps := first + rest;
    }
  }

  lemma BatchUnheld(s: State, t: State)
    requires Sound(s) && t.queue == Batch(s.nextId) && t.looked == s.looked && DistinctIds(t.queue)
    ensures |Unheld(t, {})| == DEAD_LETTER_CAP
  {
    IdsCount(t.queue);
    forall l | l in t.queue ensures l.id !in Held(s.looked, {}) {
      assert l.id >= s.nextId;
    }
    assert Unheld(t, {}) == Ids(t.queue);
  }

  /** A full batch fired on top of n replays in flight claims 100 + n places. */
  lemma FullClaim(s: State)
    requires Inv(s)
    ensures var t := Fired(s, Batch(s.nextId));
            Inv(t) && t.overlap == |InFlight(s)| && Claim(t) == DEAD_LETTER_CAP + |InFlight(s)|
  {
    FireKeeps(s, Batch(s.nextId));
    BatchFillsQueue(s);
    BatchUnheld(s, Fired(s, Batch(s.nextId)));
  }

  /** Fire a full batch on top of the replays in flight, and let them all fail. */
  lemma OverflowFrom(s: State) returns (steps: seq<Step>)
    requires Inv(s)
    ensures Valid(s, steps) && Single(s, steps)
    ensures var t := Run(s, steps);
            |t.queue| == DEAD_LETTER_CAP + |InFlight(s)| && InFlight(t) == {} && t.overlap == |InFlight(s)|
  {
    var fire := Fire(Batch(s.nextId));
    FullClaim(s);
    BatchFired(s);
    var fail := AllReplaysFail(Fired(s, Batch(s.nextId)));
    Unfold(s, fire, fail);
    steps := [fire] + fail;
  }

  lemma NothingInFlight() returns (s: State)
    ensures Initial(s) && Inv(s) && InFlight(s) == {}
  {
    s := State([], 0, map[], {}, 0, {}, 0, 0);
    InitialInv(s);
  }

  /** For every n some run, without doubles, ends with 100 + n letters and nobody in flight, n being the replays
    * in flight at the last trim: the bound is tight and the cap is no invariant. */
  lemma CapExceededByAny(n: nat) returns (s: State, steps: seq<Step>)
    ensures Initial(s) && Valid(s, steps) && Single(s, steps)
    ensures var t := Run(s, steps);
            |t.queue| == DEAD_LETTER_CAP + n && InFlight(t) == {} && t.overlap == n
  {
    s := NothingInFlight();
    var build := ManyInFlight(s, n);
    var overflow := OverflowFrom(Run(s, build));
    RunConcat(s, build, overflow);
    steps := build + overflow;
  }

  // ---------- the engine's methods, one call at a time ----------

  datatype EngineCall =
    | FireCall(host: Host, at: nat, rule: Rules.Rule, nowMs: int)
    | ReplayCall(host: Host, at: nat, rule: Rules.Rule, id: nat, nowMs: int)
    | ClearCall

  /** What `Fire`, `Replay` and `ClearDead` leave, by their contracts. */
  function AfterCall(d: Dead, c: EngineCall): Dead {
    match c
    case FireCall(host, at, rule, nowMs) => FiredDead(d, host, at, rule, nowMs)
    case ReplayCall(host, at, rule, id, nowMs) => Replayed(d, host, at, rule, id, nowMs)
    case ClearCall => d.(queue := [])
  }

  function AfterCalls(d: Dead, calls: seq<EngineCall>): Dead
    decreases calls
  {
    if calls == [] then d else AfterCalls(AfterCall(d, calls[0]), calls[1..])
  }

  /** The protocol stands where the engine stands, with nobody in flight. */
  ghost predicate Idle(s: State, d: Dead) {
    Sound(s) && InFlight(s) == {} && s.queue == d.queue && s.nextId == d.nextId
  }

  /** The steps are possible from here, disturb no replay, double none, and end where the engine does. */
  ghost predicate Follows(s: State, steps: seq<Step>, d: Dead) {
    Valid(s, steps) && Undisturbed(s, steps) && Single(s, steps) && Idle(Run(s, steps), d)
  }

  lemma OneStepFollows(s: State, a: Step, d: Dead)
    requires Enabled(s, a) && InFlight(s) == {} && !a.Lookup? && Idle(Next(s, a), d)
    ensures Follows(s, [a], d)
  {
    Unfold(s, a, []);
    assert [a] + [] == [a];
  }

  lemma FireFollows(s: State, d: Dead, host: Host, at: nat, rule: Rules.Rule, nowMs: int) returns (steps: seq<Step>)
    requires Idle(s, d)
    ensures Follows(s, steps, FiredDead(d, host, at, rule, nowMs))
  {
    var letters := Letters(rule, ErrorsOf(host, rule, at), nowMs, d.nextId);
    LettersFresh(rule, ErrorsOf(host, rule, at), nowMs, d.nextId);
    if letters == [] {
      steps := [];
    } else {
      FiredSound(s, letters);
      steps := [Fire(letters)];
      OneStepFollows(s, Fire(letters), FiredDead(d, host, at, rule, nowMs));
    }
  }

  lemma ThreeSteps(s: State, a: Step, b: Step, c: Step, d: Dead)
    requires Enabled(s, a) && Enabled(Next(s, a), b) && Enabled(Next(Next(s, a), b), c)
    requires !a.Fire? && !b.Fire? && !c.Fire? && !b.Lookup? && !c.Lookup? && Held(s.looked, {}) == {}
    requires Idle(Next(Next(Next(s, a), b), c), d)
    ensures Follows(s, [a, b, c], d)
  {
    var s1, s2 := Next(s, a), Next(Next(s, a), b);
    Unfold(s2, c, []);
    Unfold(s1, b, [c]);
    Unfold(s, a, [b, c]);
    assert [c] + [] == [c] && [b] + [c] == [b, c] && [a] + [b, c] == [a, b, c];
  }

  lemma ReplayKeepsSound(s: State, id: nat, failed: Option<DeadLetter>)
    requires Sound(s) && InFlight(s) == {} && id in Ids(s.queue)
    requires failed.Some? ==> failed.value.id == s.nextId
    ensures var t := Removed(LookedUp(s, id), s.nextToken);
            Enabled(t, Finish(s.nextToken, failed)) && t.queue == WithoutLetter(s.queue, id) && t.nextId == s.nextId
    ensures var u := Finished(Removed(LookedUp(s, id), s.nextToken), s.nextToken, failed);
            Sound(u) && InFlight(u) == {}
  {
    var t, u := LookedUp(s, id), Removed(LookedUp(s, id), s.nextToken);
    LookupSound(s, id);
    FlightAfterLookup(s, id);
    WithoutLetterExact(t.queue, id);
    FlightAfterRemove(t, s.nextToken);
    FinishSound(u, s.nextToken, failed);
    FlightAfterFinish(u, s.nextToken, failed);
  }

  lemma ReplayFollows(s: State, d: Dead, host: Host, at: nat, rule: Rules.Rule, id: nat, nowMs: int)
    returns (steps: seq<Step>)
    requires Idle(s, d)
    ensures Follows(s, steps, Replayed(d, host, at, rule, id, nowMs))
  {
    var letter := FindLetter(d.queue, id);
    if letter.None? {
      steps := [];
    } else {
      var failed := match ActionError(host, at)
                    case None => None
                    case Some(e) => Some(DeadLetter(d.nextId, rule.id, rule.name, letter.value.action, e, nowMs));
      assert id in Ids(s.queue);
      assert Held(s.looked, {}) == {} by {
        assert forall t :: t in s.looked ==> t in InFlight(s);
      }
      ReplayKeepsSound(s, id, failed);
      steps := [Lookup(id), Remove(s.nextToken), Finish(s.nextToken, failed)];
      ThreeSteps(s, Lookup(id), Remove(s.nextToken), Finish(s.nextToken, failed),
                 Replayed(d, host, at, rule, id, nowMs));
    }
  }

  lemma CallFollows(s: State, d: Dead, c: EngineCall) returns (steps: seq<Step>)
    requires Idle(s, d)
    ensures Follows(s, steps, AfterCall(d, c))
  {
    match c {
      case FireCall(host, at, rule, nowMs) => steps := FireFollows(s, d, host, at, rule, nowMs);
      case ReplayCall(host, at, rule, id, nowMs) => steps := ReplayFollows(s, d, host, at, rule, id, nowMs);
      case ClearCall =>
        steps := [Clear];
        OneStepFollows(s, Clear, d.(queue := []));
    }
  }

  lemma {:induction false} UndisturbedConcat(s: State, a: seq<Step>, b: seq<Step>)
    requires Undisturbed(s, a) && Undisturbed(Run(s, a), b)
    ensures Undisturbed(s, a + b)
    decreases a
  {
    if a == [] {
      assert a + b == b;
    } else {
      assert (a + b)[1..] == a[1..] + b;
      UndisturbedConcat(Next(s, a[0]), a[1..], b);
    }
  }

  /** Every sequence of calls of the engine's methods is a run of the protocol, in which each replay is a lookup,
    * a removal and an end, ... */
  lemma {:induction false} EngineIsARun(s: State, d: Dead, calls: seq<EngineCall>) returns (steps: seq<Step>)
    requires Idle(s, d)
    ensures Follows(s, steps, AfterCalls(d, calls))
    decreases calls
  {
    if calls == [] {
      steps := [];
    } else {
      var first := CallFollows(s, d, calls[0]);
      var rest := EngineIsARun(Run(s, first), AfterCall(d, calls[0]), calls[1..]);
      RunConcat(s, first, rest);
      UndisturbedConcat(s, first, rest);
      steps := first + rest;
    }
  }

  /** ... so the queue's cap is kept, and no two letters ever share an id. */
  lemma EngineKeepsTheCap(d: Dead, calls: seq<EngineCall>)
    requires Numbered(d) && |d.queue| <= DEAD_LETTER_CAP
    ensures |AfterCalls(d, calls).queue| <= DEAD_LETTER_CAP && Numbered(AfterCalls(d, calls))
  {
    var s := State(d.queue, d.nextId, map[], {}, 0, {}, 0, 0);
    InitialInv(s);
    var steps := EngineIsARun(s, d, calls);
    CapHoldsUndisturbed(s, steps);
  }
}
