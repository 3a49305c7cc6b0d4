/** Running a rule's actions with retries, and what one firing leaves behind: the port calls, one
  * history record, and the dead letters.
  */
module RuleEngine {

  import opened Wrappers
  import opened Rules
  import opened Cooldown
  import opened History
  import opened DeadQueue

  const ACTION_RETRIES: nat := 2

  /** The outside world: the port calls that fail, by call number, each with its error. */
  type Host = map<nat, string>

  // ---------- one action ----------

  /** All three attempts that start at port call number `at` fail. */
  predicate Exhausted(host: Host, at: nat) {
    at in host && at + 1 in host && at + 2 in host
  }

  /** How many attempts are made: up to and including the first success, at most three. */
  function Tries(host: Host, at: nat): nat {
    if at !in host then 1 else if at + 1 !in host then 2 else 3
  }

  /** The port calls of one action: its own call once per attempt, then the audit event if an
    * attempt succeeded. */
  function ActionCalls(host: Host, rule: Rule, action: Action, at: nat): seq<PortCall> {
    Repeat(CallOf(rule, action), Tries(host, at)) + if Exhausted(host, at) then [] else [Audit(rule)]
  }

  /** An action fails exactly when all three attempts fail, and then with the last error. */
  function ActionError(host: Host, at: nat): Option<string> {
    if Exhausted(host, at) then Some(host[at + 2]) else None
  }

  /** The attempts go on until the first success and no further than the third; the last one's error stands. */
  lemma AttemptsExact(host: Host, at: nat)
    ensures 1 <= Tries(host, at) <= ACTION_RETRIES + 1
    ensures forall k :: at <= k < at + Tries(host, at) - 1 ==> k in host
    ensures ActionError(host, at).None? <==> at + Tries(host, at) - 1 !in host
    ensures ActionError(host, at).Some? ==>
              Tries(host, at) == ACTION_RETRIES + 1 && ActionError(host, at).value == host[at + Tries(host, at) - 1]
  {
  }

  method RunAction(host: Host, log: seq<PortCall>, rule: Rule, action: Action)
    returns (calls: seq<PortCall>, result: Option<string>)
    ensures calls == log + ActionCalls(host, rule, action, |log|)
    ensures result == ActionError(host, |log|)
  {
    calls := log;
    var attempt := 0;
    while true
      invariant attempt <= ACTION_RETRIES
      invariant calls == log + Repeat(CallOf(rule, action), attempt)
      invariant attempt >= 1 ==> |log| in host
      invariant attempt >= 2 ==> |log| + 1 in host
      decreases ACTION_RETRIES - attempt
    {
      var n := |calls|;
      calls := calls + [CallOf(rule, action)];
      assert calls == log + Repeat(CallOf(rule, action), attempt + 1);
      if n !in host {
        return calls + [Audit(rule)], None;
      }
      if attempt >= ACTION_RETRIES {
        return calls, Some(host[n]);
      }
      attempt := attempt + 1;
    }
  }

  // ---------- all actions of a rule ----------

  /** How many port calls an action makes that starts at call number `at`. */
  function Width(host: Host, at: nat): nat {
    Tries(host, at) + if Exhausted(host, at) then 0 else 1
  }

  /** The call number at which action n starts, in a run whose first call has number `at`. */
  function StartOf(host: Host, n: nat, at: nat): nat {
    if n == 0 then at else
    var before := StartOf(host, n - 1, at);
    before + Width(host, before)
  }

  /** The port calls of the first n actions, one block an action. */
  function Blocks(host: Host, rule: Rule, n: nat, at: nat): (blocks: seq<seq<PortCall>>)
    requires n <= |rule.actions|
    ensures |blocks| == n
    ensures forall i {:trigger blocks[i]} :: 0 <= i < n ==>
              blocks[i] == ActionCalls(host, rule, rule.actions[i], StartOf(host, i, at))
  {
    seq(n, i requires 0 <= i < n => ActionCalls(host, rule, rule.actions[i], StartOf(host, i, at)))
  }

  function CallsOf(host: Host, rule: Rule, at: nat): seq<PortCall> {
    Flatten(Blocks(host, rule, |rule.actions|, at))
  }

  /** The error of each of the first n actions, where it has one. */
  function Errors(host: Host, n: nat, at: nat): (errors: seq<Option<string>>)
    ensures |errors| == n
    ensures forall i {:trigger errors[i]} :: 0 <= i < n ==> errors[i] == ActionError(host, StartOf(host, i, at))
  {
    seq(n, i requires 0 <= i < n => ActionError(host, StartOf(host, i, at)))
  }

  function ErrorsOf(host: Host, rule: Rule, at: nat): (errors: seq<Option<string>>)
    ensures |errors| == |rule.actions|
  {
    Errors(host, |rule.actions|, at)
  }

  function FailedIndices(errors: seq<Option<string>>): seq<nat> {
    if errors == [] then []
    else FailedIndices(errors[..|errors| - 1]) +
         if errors[|errors| - 1].Some? then [|errors| - 1] else []
  }

  function FirstError(errors: seq<Option<string>>): Option<string> {
    if errors == [] then None
    else if errors[0].Some? then errors[0] else FirstError(errors[1..])
  }

  function Outcome(errors: seq<Option<string>>): RunOutcome {
    var failed := FailedIndices(errors);
    if failed == [] then Success
    else if |failed| == |errors| then Failure
    else Partial(failed)
  }

  lemma {:induction false} FailedIndicesAscend(errors: seq<Option<string>>)
    ensures forall i, j :: 0 <= i < j < |FailedIndices(errors)| ==> FailedIndices(errors)[i] < FailedIndices(errors)[j]
    ensures forall i :: 0 <= i < |FailedIndices(errors)| ==> FailedIndices(errors)[i] < |errors|
  {
    if errors != [] { FailedIndicesAscend(errors[..|errors| - 1]); }
  }

  lemma {:induction false} FailedIndicesMembers(errors: seq<Option<string>>)
    ensures forall i: nat :: i in FailedIndices(errors) <==> i < |errors| && errors[i].Some?
  {
    if errors != [] {
      var n := |errors| - 1;
      FailedIndicesMembers(errors[..n]);
      assert forall i :: 0 <= i < n ==> errors[..n][i] == errors[i];
    }
  }

  lemma {:induction false} FailedIndicesCount(errors: seq<Option<string>>)
    ensures |FailedIndices(errors)| <= |errors|
    ensures |FailedIndices(errors)| == |errors| <==> forall i :: 0 <= i < |errors| ==> errors[i].Some?
  {
    if errors != [] {
      var n := |errors| - 1;
      FailedIndicesCount(errors[..n]);
      assert forall i :: 0 <= i < n ==> errors[..n][i] == errors[i];
    }
  }

  /** The reported outcome says exactly which actions exhausted their attempts. */
  lemma OutcomeExact(errors: seq<Option<string>>)
    ensures Outcome(errors).Success? <==> forall i :: 0 <= i < |errors| ==> errors[i].None?
    ensures Outcome(errors).Failure? <==> errors != [] && forall i :: 0 <= i < |errors| ==> errors[i].Some?
    ensures Outcome(errors).Partial? ==>
              var failed := Outcome(errors).failedIndices;
              && (forall i, j :: 0 <= i < j < |failed| ==> failed[i] < failed[j])
              && forall i: nat :: i in failed <==> i < |errors| && errors[i].Some?
  {
    var f := FailedIndices(errors);
    FailedIndicesAscend(errors);
    FailedIndicesMembers(errors);
    FailedIndicesCount(errors);
    if f != [] { assert f[0] in f; }
    if i: nat :| i < |errors| && errors[i].Some? { assert i in f; }
  }

  lemma {:induction false} FirstErrorExact(errors: seq<Option<string>>, i: nat)
    requires i < |errors| && errors[i].Some? && forall k :: 0 <= k < i ==> errors[k].None?
    ensures FirstError(errors) == errors[i]
  {
    if i > 0 { FirstErrorExact(errors[1..], i - 1); }
  }

  /** One letter per failed action, in order. */
  function Letters(rule: Rule, errors: seq<Option<string>>, nowMs: int, nextId: nat): seq<DeadLetter>
    requires |errors| <= |rule.actions|
  {
    if errors == [] then [] else
    var n := |errors| - 1;
    var init := Letters(rule, errors[..n], nowMs, nextId);
    if errors[n].None? then init
    else init + [DeadLetter(nextId + |init|, rule.id, rule.name, rule.actions[n], errors[n].value, nowMs)]
  }

  lemma {:induction false} LettersExact(rule: Rule, errors: seq<Option<string>>, nowMs: int, nextId: nat)
    requires |errors| <= |rule.actions|
    ensures var letters, failed := Letters(rule, errors, nowMs, nextId), FailedIndices(errors);
            && |letters| == |failed|
            && forall k :: 0 <= k < |letters| ==>
                 && failed[k] < |errors| && errors[failed[k]].Some?
                 && letters[k] == DeadLetter(nextId + k, rule.id, rule.name, rule.actions[failed[k]],
                                             errors[failed[k]].value, nowMs)
  {
    if errors != [] {
      var n := |errors| - 1;
      LettersExact(rule, errors[..n], nowMs, nextId);
      assert forall k :: 0 <= k < n ==> errors[..n][k] == errors[k];
    }
  }

  function LetterFor(rule: Rule, i: nat, error: Option<string>, nowMs: int, id: nat): seq<DeadLetter>
    requires i < |rule.actions|
  {
    match error
    case None => []
    case Some(e) => [DeadLetter(id, rule.id, rule.name, rule.actions[i], e, nowMs)]
  }

  lemma FlattenAppend(log: seq<PortCall>, blocks: seq<seq<PortCall>>, block: seq<PortCall>)
    ensures log + Flatten(blocks + [block]) == log + Flatten(blocks) + block
  {
    assert (blocks + [block])[..|blocks|] == blocks;
  }

  lemma BlocksNext(host: Host, rule: Rule, n: nat, at: nat)
    requires n < |rule.actions|
    ensures Blocks(host, rule, n + 1, at) ==
            Blocks(host, rule, n, at) + [ActionCalls(host, rule, rule.actions[n], StartOf(host, n, at))]
  {
  }

  lemma ErrorsNext(host: Host, n: nat, at: nat)
    ensures Errors(host, n + 1, at) == Errors(host, n, at) + [ActionError(host, StartOf(host, n, at))]
  {
  }

  lemma LettersNext(rule: Rule, errors: seq<Option<string>>, error: Option<string>, nowMs: int, nextId: nat)
    requires |errors| < |rule.actions|
    ensures var letters := Letters(rule, errors, nowMs, nextId);
            Letters(rule, errors + [error], nowMs, nextId) ==
            letters + LetterFor(rule, |errors|, error, nowMs, nextId + |letters|)
  {
    assert (errors + [error])[..|errors|] == errors;
    var letters := Letters(rule, errors, nowMs, nextId);
    assert letters + [] == letters;
  }

  /** One turn of the action loop. */
  method RunNext(host: Host, log: seq<PortCall>, rule: Rule, nowMs: int, nextId: nat,
                 errors: seq<Option<string>>, letters: seq<DeadLetter>)
    returns (calls: seq<PortCall>, errors': seq<Option<string>>, letters': seq<DeadLetter>)
    requires |errors| < |rule.actions| && letters == Letters(rule, errors, nowMs, nextId)
    ensures calls == log + ActionCalls(host, rule, rule.actions[|errors|], |log|)
    ensures |calls| == |log| + Width(host, |log|)
    ensures errors' == errors + [ActionError(host, |log|)]
    ensures letters' == Letters(rule, errors', nowMs, nextId)
  {
    var error;
    calls, error := RunAction(host, log, rule, rule.actions[|errors|]);
    LettersNext(rule, errors, error, nowMs, nextId);
    letters' := letters + LetterFor(rule, |errors|, error, nowMs, nextId + |letters|);
    errors' := errors + [error];
  }

  /** What the first n actions of a rule make of the port calls, the errors and the letters. */
  ghost predicate RanSoFar(host: Host, log: seq<PortCall>, rule: Rule, nowMs: int, nextId: nat, n: nat,
                           calls: seq<PortCall>, errors: seq<Option<string>>, letters: seq<DeadLetter>)
  {
    && n <= |rule.actions| && |calls| == StartOf(host, n, |log|)
    && calls == log + Flatten(Blocks(host, rule, n, |log|))
    && |errors| == n && errors == Errors(host, n, |log|)
    && letters == Letters(rule, errors, nowMs, nextId)
  }

  lemma RanNext(host: Host, log: seq<PortCall>, rule: Rule, nowMs: int, nextId: nat, n: nat,
                calls: seq<PortCall>, errors: seq<Option<string>>, letters: seq<DeadLetter>,
                calls': seq<PortCall>, errors': seq<Option<string>>, letters': seq<DeadLetter>)
    requires RanSoFar(host, log, rule, nowMs, nextId, n, calls, errors, letters) && n < |rule.actions|
    requires calls' == calls + ActionCalls(host, rule, rule.actions[n], |calls|)
    requires |calls'| == |calls| + Width(host, |calls|)
    requires errors' == errors + [ActionError(host, |calls|)] && letters' == Letters(rule, errors', nowMs, nextId)
    ensures RanSoFar(host, log, rule, nowMs, nextId, n + 1, calls', errors', letters')
  {
    BlocksNext(host, rule, n, |log|);
    FlattenAppend(log, Blocks(host, rule, n, |log|), ActionCalls(host, rule, rule.actions[n], |calls|));
    ErrorsNext(host, n, |log|);
  }

  /** The action loop of `fire`: every action in turn, collecting errors and dead letters. */
  method RunActions(host: Host, log: seq<PortCall>, rule: Rule, nowMs: int, nextId: nat)
    returns (calls: seq<PortCall>, errors: seq<Option<string>>, letters: seq<DeadLetter>)
    ensures errors == ErrorsOf(host, rule, |log|)
    ensures calls == log + CallsOf(host, rule, |log|)
    ensures letters == Letters(rule, errors, nowMs, nextId)
  {
    calls, errors, letters := log, [], [];
    for i := 0 to |rule.actions|
      invariant RanSoFar(host, log, rule, nowMs, nextId, i, calls, errors, letters)
    {
      ghost var c, e, l := calls, errors, letters;
      calls, errors, letters := RunNext(host, calls, rule, nowMs, nextId, errors, letters);
      RanNext(host, log, rule, nowMs, nextId, i, c, e, l, calls, errors, letters);
    }
  }

  // ---------- the engine ----------

  function RecordOf(rule: Rule, errors: seq<Option<string>>, nowMs: int): RunRecord {
    RunRecord(rule.id, nowMs, Outcome(errors), |rule.actions|, FirstError(errors))
  }

  lemma {:induction false} FirstFailure(errors: seq<Option<string>>) returns (i: nat)
    requires exists k :: 0 <= k < |errors| && errors[k].Some?
    ensures i < |errors| && errors[i].Some? && forall k :: 0 <= k < i ==> errors[k].None?
  {
    if errors[0].Some? {
      i := 0;
    } else {
      var k :| 0 <= k < |errors| && errors[k].Some?;
      assert errors[1..][k - 1] == errors[k];
      i := FirstFailure(errors[1..]);
      i := i + 1;
    }
  }

  lemma {:induction false} NoFailureNoError(errors: seq<Option<string>>)
    requires forall k :: 0 <= k < |errors| ==> errors[k].None?
    ensures FirstError(errors) == None
  {
    if errors != [] { NoFailureNoError(errors[1..]); }
  }

  /** The record carries the error of the first failed action, and none exactly when it reports success. */
  lemma RecordNamesFirstError(rule: Rule, errors: seq<Option<string>>, nowMs: int)
    ensures RecordOf(rule, errors, nowMs).error.None? <==> RecordOf(rule, errors, nowMs).outcome.Success?
    ensures RecordOf(rule, errors, nowMs).error.Some? ==>
              exists i :: 0 <= i < |errors| && errors[i] == RecordOf(rule, errors, nowMs).error
                          && forall k :: 0 <= k < i ==> errors[k].None?
  {
    OutcomeExact(errors);
    if exists k :: 0 <= k < |errors| && errors[k].Some? {
      var i := FirstFailure(errors);
      FirstErrorExact(errors, i);
    } else {
      NoFailureNoError(errors);
    }
  }

  ghost predicate Increasing(indices: seq<nat>) {
    forall i, j :: 0 <= i < j < |indices| ==> indices[i] < indices[j]
  }

  /** What a history record says of a firing: which rule, when, how many actions, and exactly which of them
    * failed. */
  ghost predicate TellsFiring(r: RunRecord, rule: Rule, errors: seq<Option<string>>, nowMs: int) {
    && r.ruleId == rule.id && r.firedMs == nowMs && r.actionsExecuted == |rule.actions|
    && (r.outcome.Success? <==> forall i :: 0 <= i < |errors| ==> errors[i].None?)
    && (r.outcome.Failure? <==> errors != [] && forall i :: 0 <= i < |errors| ==> errors[i].Some?)
    && (r.outcome.Partial? ==>
          && Increasing(r.outcome.failedIndices)
          && forall i: nat :: i in r.outcome.failedIndices <==> i < |errors| && errors[i].Some?)
  }

  lemma RecordTellsFiring(rule: Rule, errors: seq<Option<string>>, nowMs: int)
    ensures TellsFiring(RecordOf(rule, errors, nowMs), rule, errors, nowMs)
  {
    OutcomeExact(errors);
  }

  // ---------- replay ----------

  /** A replay with nobody in between: the letter goes, its action runs, and a failed run comes back under a
    * new id. */
  function Replayed(d: Dead, host: Host, at: nat, rule: Rule, id: nat, nowMs: int): Dead {
    match FindLetter(d.queue, id)
    case None => d
    case Some(letter) =>
      var kept := WithoutLetter(d.queue, id);
      match ActionError(host, at)
      case None => d.(queue := kept)
      case Some(e) =>
        Dead(kept + [DeadLetter(d.nextId, rule.id, rule.name, letter.action, e, nowMs)], d.nextId + 1)
  }

  lemma ReplayedNumbered(d: Dead, host: Host, at: nat, rule: Rule, id: nat, nowMs: int)
    requires Numbered(d)
    ensures Numbered(Replayed(d, host, at, rule, id, nowMs))
  {
    var letter, e := FindLetter(d.queue, id), ActionError(host, at);
    if letter.Some? {
      var kept := d.(queue := WithoutLetter(d.queue, id));
      RemovedNumbered(d, id);
      if e.Some? {
        AppendedNumbered(kept, DeadLetter(d.nextId, rule.id, rule.name, letter.value.action, e.value, nowMs));
      }
    }
  }

  /** The letters a firing adds, and the ids it uses. */
  function FiredDead(d: Dead, host: Host, at: nat, rule: Rule, nowMs: int): Dead {
    var letters := Letters(rule, ErrorsOf(host, rule, at), nowMs, d.nextId);
    Dead(Enqueued(d.queue, letters), d.nextId + |letters|)
  }

  lemma LettersFresh(rule: Rule, errors: seq<Option<string>>, nowMs: int, nextId: nat)
    requires |errors| <= |rule.actions|
    ensures FreshLetters(Letters(rule, errors, nowMs, nextId), nextId)
  {
    LettersExact(rule, errors, nowMs, nextId);
  }

  lemma FiredNumbered(d: Dead, host: Host, at: nat, rule: Rule, nowMs: int)
    requires Numbered(d)
    ensures Numbered(FiredDead(d, host, at, rule, nowMs))
  {
    LettersFresh(rule, ErrorsOf(host, rule, at), nowMs, d.nextId);
    EnqueuedNumbered(d, Letters(rule, ErrorsOf(host, rule, at), nowMs, d.nextId));
  }

  class Engine {
    const cooldown: CooldownTable
    const history: RunHistory
    var dead: seq<DeadLetter>
    /** Every port call made so far. */
    var calls: seq<PortCall>
    /** Letter ids are never used twice. */
    var nextId: nat

    constructor (cooldown: CooldownTable, history: RunHistory, stored: seq<DeadLetter>, nextId: nat)
      ensures this.cooldown == cooldown && this.history == history
      ensures dead == stored && calls == [] && this.nextId == nextId
    {
      this.cooldown, this.history := cooldown, history;
      dead, calls, this.nextId := stored, [], nextId;
    }

    function Dead(): Dead
      reads this
    {
      DeadQueue.Dead(dead, nextId)
    }

    /** Letters are told apart by their ids. */
    ghost predicate Valid()
      reads this
    {
      Numbered(Dead())
    }

    method Fire(host: Host, rule: Rule, payload: Json, nowMs: int) returns (ghost fired: bool)
      modifies this, cooldown, history
      ensures fired == (WhenPasses(rule, payload) &&
                        Passes(old(cooldown.State()), Call(rule.id, rule.cooldownSecs, nowMs)))
      ensures cooldown.State() ==
              if WhenPasses(rule, payload)
              then Tried(old(cooldown.State()), Call(rule.id, rule.cooldownSecs, nowMs))
              else old(cooldown.State())
      ensures !fired ==> calls == old(calls) && Dead() == old(Dead()) && history.records == old(history.records)
      ensures fired ==>
              var errors := ErrorsOf(host, rule, |old(calls)|);
              && calls == old(calls) + CallsOf(host, rule, |old(calls)|)
              && history.records == LastN(old(history.records) + [RecordOf(rule, errors, nowMs)], HISTORY_CAP)
              && Dead() == FiredDead(old(Dead()), host, |old(calls)|, rule, nowMs)
      ensures old(Valid()) ==> Valid()
    {
      fired := false;
      if !WhenPasses(rule, payload) {
        return;
      }
      var passed := cooldown.TryFire(rule.id, rule.cooldownSecs, nowMs);
      if !passed {
        return;
      }
      fired := true;
      ghost var d, at := Dead(), |calls|;
      if Numbered(d) { FiredNumbered(d, host, at, rule, nowMs); }
      var errors, letters;
      calls, errors, letters := RunActions(host, calls, rule, nowMs, nextId);
      history.Push(RecordOf(rule, errors, nowMs));
      Bury(letters);
    }

    /** Appends the letters of a failing run and cuts the queue. */
    method Bury(letters: seq<DeadLetter>)
      modifies this`dead, this`nextId
      ensures Dead() == DeadQueue.Dead(Enqueued(old(dead), letters), old(nextId) + |letters|)
    {
      nextId := nextId + |letters|;
      if letters != [] {
        dead := dead + letters;
        var overflow := if |dead| > DEAD_LETTER_CAP then |dead| - DEAD_LETTER_CAP else 0;
        if overflow > 0 {
          dead := dead[overflow..];
        }
      }
    }

    method ClearDead()
      modifies this`dead
      ensures Dead() == old(Dead()).(queue := [])
      ensures old(Valid()) ==> Valid()
    {
      dead := [];
    }

    // The three critical sections of `replay`, and the whole of it with nobody in between.

    method ReplayLookup(id: nat) returns (action: Option<Action>)
      ensures match FindLetter(dead, id) case None => action == None case Some(l) => action == Some(l.action)
    {
      for i := 0 to |dead|
        invariant FindLetter(dead, id) == FindLetter(dead[i..], id)
      {
        assert dead[i..][1..] == dead[i + 1..];
        if dead[i].id == id {
          return Some(dead[i].action);
        }
      }
      return None;
    }

    method ReplayRemove(id: nat)
      modifies this`dead
      ensures dead == WithoutLetter(old(dead), id)
    {
      var kept := [];
      for i := 0 to |dead|
        invariant dead == old(dead) && kept == WithoutLetter(dead[..i], id)
      {
        assert dead[..i + 1][..i] == dead[..i];
        if dead[i].id != id {
          kept := kept + [dead[i]];
        }
      }
      assert dead[..|dead|] == dead;
      dead := kept;
    }

    method ReplayRequeue(letters: seq<DeadLetter>)
      modifies this`dead
      ensures dead == old(dead) + letters
    {
      if letters != [] {
        dead := dead + letters;
      }
    }

    method Replay(host: Host, id: nat, rule: Rule, nowMs: int) returns (found: bool)
      modifies this
      ensures found == FindLetter(old(dead), id).Some?
      ensures calls == old(calls) + if found
                                    then ActionCalls(host, rule, FindLetter(old(dead), id).value.action, |old(calls)|)
                                    else []
      ensures Dead() == Replayed(old(Dead()), host, |old(calls)|, rule, id, nowMs)
      ensures old(Valid()) ==> Valid()
    {
      if Numbered(Dead()) { ReplayedNumbered(Dead(), host, |calls|, rule, id, nowMs); }
      var looked := ReplayLookup(id);
      if looked.None? {
        return false;
      }
      var action := looked.value;
      ReplayRemove(id);
      var error;
      calls, error := RunAction(host, calls, rule, action);
      var letters := [];
      if error.Some? {
        letters := [DeadLetter(nextId, rule.id, rule.name, action, error.value, nowMs)];
        nextId := nextId + 1;
      }
      ReplayRequeue(letters);
      found := true;
    }
  }
}
