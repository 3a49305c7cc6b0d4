/** Starting and stopping the automation module: each start hands the scheduler thread a fresh
  * cancel token, each stop cancels the token of the current run. `start` and `stop` are atomic
  * here; scheduler threads take their steps in between, in any order.
  */
module Scheduler {

  import opened Wrappers

  /** Where a scheduler thread stands: before its first token check of the round, asleep, past
    * the second check with rules to fire, or gone. */
  datatype Phase = Top | Asleep | Armed | Exited

  datatype Thread = Thread(token: nat, phase: Phase)

  /** `cancelled[k]` is token k's flag; `token` is the module's current token; `running` is
    * whether the shutdown channel is in place. */
  datatype Module = Module(ready: bool, running: bool, token: nat, cancelled: seq<bool>, threads: seq<Thread>)

  datatype Step =
    | Start(spawned: bool)
    | Stop
    | Tick(thread: nat)

  /** What a step did that the outside can see. */
  datatype Event = Quiet | Checked(thread: nat, cancelled: bool) | Fired(thread: nat)

  function Started(m: Module, spawned: bool): Module {
    if m.running || !m.ready then m
    else
      var token := |m.cancelled|;
      m.(running := true, token := token, cancelled := m.cancelled + [false],
         threads := if spawned then m.threads + [Thread(token, Top)] else m.threads)
  }

  function Stopped(m: Module): Module
    requires m.token < |m.cancelled|
  {
    m.(running := false, cancelled := m.cancelled[m.token := true])
  }

  /** One step of a scheduler thread. */
  function Advance(t: Thread, cancelled: bool): Phase {
    match t.phase
    case Top => if cancelled then Exited else Asleep
    case Asleep => if cancelled then Exited else Armed
    case Armed => Top
    case Exited => Exited
  }

  ghost predicate WellFormed(m: Module) {
    m.token < |m.cancelled| && forall i :: 0 <= i < |m.threads| ==> m.threads[i].token < |m.cancelled|
  }

  function Next(m: Module, step: Step): (m': Module)
    requires WellFormed(m)
    ensures WellFormed(m')
  {
    match step
    case Start(spawned) => Started(m, spawned)
    case Stop => Stopped(m)
    case Tick(i) =>
      if i >= |m.threads| then m
      else
        var t := m.threads[i];
        m.(threads := m.threads[i := t.(phase := Advance(t, m.cancelled[t.token]))])
  }

  function EventOf(m: Module, step: Step): Event
    requires WellFormed(m)
  {
    if !step.Tick? || step.thread >= |m.threads| then Quiet
    else
      var i := step.thread;
      match m.threads[i].phase
      case Top => Checked(i, m.cancelled[m.threads[i].token])
      case Asleep => Checked(i, m.cancelled[m.threads[i].token])
      case Armed => Fired(i)
      case Exited => Quiet
  }

  /** Before the first start: one token that no thread holds. */
  function Fresh(ready: bool): (m: Module)
    ensures WellFormed(m)
  {
    Module(ready, false, 0, [false], [])
  }

  function Run(m: Module, steps: seq<Step>): (m': Module)
    requires WellFormed(m)
    ensures WellFormed(m')
    decreases steps
  {
    if steps == [] then m else Run(Next(m, steps[0]), steps[1..])
  }

  // ---------- the lifecycle object ----------

  class AutomationModule {
    var ready: bool
    var running: bool
    var token: nat
    var cancelled: seq<bool>
    var threads: seq<Thread>

    ghost function State(): Module
      reads this
    {
      Module(ready, running, token, cancelled, threads)
    }

    constructor (ready: bool)
      ensures State() == Fresh(ready)
    {
      this.ready, running, token, cancelled, threads := ready, false, 0, [false], [];
    }

    /** `start_dispatcher`; `spawned` is whether the operating system gave us the thread. */
    method StartDispatcher(spawned: bool)
      modifies this
      ensures State() == Started(old(State()), spawned)
    {
      if running {
        return;
      }
      if !ready {
        return;
      }
      running := true;
      token := |cancelled|;
      cancelled := cancelled + [false];
      if spawned {
        threads := threads + [Thread(token, Top)];
      }
    }

    method StopModule()
      requires WellFormed(State())
      modifies this
      ensures State() == Stopped(old(State()))
    {
      cancelled := cancelled[token := true];
      running := false;
    }
  }

  // ---------- one live generation ----------

  predicate Live(m: Module, i: nat)
    requires WellFormed(m) && i < |m.threads|
  {
    m.threads[i].phase != Exited && !m.cancelled[m.threads[i].token]
  }

  /** Every thread holds the current un-cancelled token of a running module, or a cancelled one;
    * and no two threads were given the same token. */
  ghost predicate Inv(m: Module) {
    && WellFormed(m)
    && (m.running ==> !m.cancelled[m.token])
    && (forall i :: 0 <= i < |m.threads| ==>
          (m.running && m.threads[i].token == m.token) || m.cancelled[m.threads[i].token])
    && forall i, j :: 0 <= i < j < |m.threads| ==> m.threads[i].token != m.threads[j].token
  }

  lemma StepKeeps(m: Module, step: Step)
    requires Inv(m)
    ensures Inv(Next(m, step))
  {
  }

  lemma {:induction false} RunKeeps(m: Module, steps: seq<Step>)
    requires Inv(m)
    ensures Inv(Run(m, steps))
    decreases steps
  {
    if steps != [] {
      StepKeeps(m, steps[0]);
      RunKeeps(Next(m, steps[0]), steps[1..]);
    }
  }

  /** Over any run of starts, stops and ticks at most one scheduler generation is live. */
  lemma OneLiveGeneration(ready: bool, steps: seq<Step>, i: nat, j: nat)
    requires i < |Run(Fresh(ready), steps).threads| && j < |Run(Fresh(ready), steps).threads|
    requires Live(Run(Fresh(ready), steps), i) && Live(Run(Fresh(ready), steps), j)
    ensures i == j && Run(Fresh(ready), steps).running
  {
    RunKeeps(Fresh(ready), steps);
    var m := Run(Fresh(ready), steps);
    assert m.threads[i].token == m.token == m.threads[j].token;
  }

  /** A cancelled token stays cancelled, and a thread keeps the token it was given. */
  lemma {:induction false} CancelledForever(m: Module, steps: seq<Step>, k: nat)
    requires WellFormed(m) && k < |m.cancelled| && m.cancelled[k]
    ensures k < |Run(m, steps).cancelled| && Run(m, steps).cancelled[k]
    decreases steps
  {
    if steps != [] { CancelledForever(Next(m, steps[0]), steps[1..], k); }
  }

  /** A second start without a stop changes nothing at all. */
  lemma RepeatedStartIsIdle(m: Module, first: bool, again: bool)
    ensures Started(Started(m, first), again) == Started(m, first)
  {
  }

  /** Nor do any number of them. */
  lemma {:induction false} RepeatedStartsAreIdle(m: Module, first: bool, more: seq<Step>)
    requires WellFormed(m) && forall k :: 0 <= k < |more| ==> more[k].Start?
    ensures WellFormed(Started(m, first)) && Run(Started(m, first), more) == Started(m, first)
    decreases more
  {
    if more != [] {
      RepeatedStartIsIdle(m, first, more[0].spawned);
      RepeatedStartsAreIdle(m, first, more[1..]);
    }
  }

  /** An engine that is not ready starts nothing, whatever is tried. */
  lemma {:induction false} NotReadyNeverRuns(steps: seq<Step>)
    ensures var m := Run(Fresh(false), steps); !m.ready && !m.running && m.threads == []
    decreases |steps|
  {
    NotReadyStays(Fresh(false), steps);
  }

  lemma {:induction false} NotReadyStays(m: Module, steps: seq<Step>)
    requires WellFormed(m) && !m.ready && !m.running && m.threads == []
    ensures var n := Run(m, steps); !n.ready && !n.running && n.threads == []
    decreases steps
  {
    if steps != [] { NotReadyStays(Next(m, steps[0]), steps[1..]); }
  }

  /** A start of a ready module that is not running leaves exactly the new thread live; */
  lemma StartMakesOneLive(m: Module, i: nat)
    requires Inv(m) && m.ready && !m.running && i <= |m.threads|
    ensures var n := Started(m, true);
            n.running && WellFormed(n) && |n.threads| == |m.threads| + 1 && (Live(n, i) <==> i == |m.threads|)
  {
  }

  /** a stop leaves none. */
  lemma StopLeavesNoneLive(m: Module, i: nat)
    requires Inv(m) && i < |m.threads|
    ensures !Stopped(m).running && !Live(Stopped(m), i)
  {
  }

  /** How often thread i fires during the steps. */
  function Firings(m: Module, steps: seq<Step>, i: nat): nat
    requires WellFormed(m)
    decreases steps
  {
    if steps == [] then 0
    else (if EventOf(m, steps[0]) == Fired(i) then 1 else 0) + Firings(Next(m, steps[0]), steps[1..], i)
  }

  /** Once its token is cancelled a thread fires at most once more, and only if it had passed its
    * last check before: no tick that checks its token after the stop fires a rule. */
  lemma {:induction false} NoFiringAfterCheck(m: Module, steps: seq<Step>, i: nat)
    requires WellFormed(m) && i < |m.threads| && m.cancelled[m.threads[i].token]
    ensures Firings(m, steps, i) <= if m.threads[i].phase == Armed then 1 else 0
    decreases steps
  {
    if steps != [] {
      NoFiringAfterCheck(Next(m, steps[0]), steps[1..], i);
    }
  }

  /** A stop cancels the token of every thread there is. */
  lemma StopCancelsAll(m: Module, i: nat)
    requires Inv(m) && i < |m.threads|
    ensures Stopped(m).cancelled[m.threads[i].token]
  {
  }

  /** After a stop no thread fires beyond the round it had checked for, whatever starts and stops follow. */
  lemma NoFiringAfterStop(ready: bool, before: seq<Step>, after: seq<Step>, i: nat)
    requires i < |Run(Fresh(ready), before).threads|
    ensures var m := Run(Fresh(ready), before);
            Firings(Stopped(m), after, i) <= if m.threads[i].phase == Armed then 1 else 0
  {
    RunKeeps(Fresh(ready), before);
    StopCancelsAll(Run(Fresh(ready), before), i);
    NoFiringAfterCheck(Stopped(Run(Fresh(ready), before)), after, i);
  }

  lemma RunCons(m: Module, a: Step, rest: seq<Step>, i: nat)
    requires WellFormed(m)
    ensures Run(m, [a] + rest) == Run(Next(m, a), rest)
    ensures Firings(m, [a] + rest, i) == (if EventOf(m, a) == Fired(i) then 1 else 0) + Firings(Next(m, a), rest, i)
  {
    assert ([a] + rest)[1..] == rest;
  }

  lemma TickAdvances(m: Module, i: nat, phase: Phase)
    requires WellFormed(m) && i < |m.threads| && Live(m, i) && phase == Advance(m.threads[i], false)
    ensures Next(m, Tick(i)) == m.(threads := m.threads[i := m.threads[i].(phase := phase)])
    ensures EventOf(m, Tick(i)) == Fired(i) <==> m.threads[i].phase.Armed?
  {
  }

  /** A live thread fires once in every three of its ticks, for as long as nobody stops the module. */
  lemma LiveThreadFires(m: Module, i: nat, steps: seq<Step>)
    requires WellFormed(m) && i < |m.threads| && Live(m, i) && m.threads[i].phase.Top?
    requires steps == [Tick(i)] + ([Tick(i)] + ([Tick(i)] + []))
    ensures Firings(m, steps, i) == 1 && Run(m, steps) == m
  {
    var one := Next(m, Tick(i));
    var two := Next(one, Tick(i));
    TickAdvances(m, i, Asleep);
    TickAdvances(one, i, Armed);
    TickAdvances(two, i, Top);
    assert Next(two, Tick(i)).threads == m.threads;
    RunCons(m, Tick(i), [Tick(i)] + ([Tick(i)] + []), i);
    RunCons(one, Tick(i), [Tick(i)] + [], i);
    RunCons(two, Tick(i), [], i);
  }

  // ---------- the daily tick ----------

  /** A rule with a daily trigger; times are minutes of the day. */
  datatype Daily = Daily(id: string, time: nat, enabled: bool)

  datatype Clock = Clock(date: int, time: nat)

  function Due(rules: seq<Daily>, time: nat): seq<string> {
    if rules == [] then []
    else Due(rules[..|rules| - 1], time) +
         (var r := rules[|rules| - 1]; if r.enabled && r.time == time then [r.id] else [])
  }

  /** Exactly the enabled rules of that minute are due, ... */
  lemma {:induction false} DueExact(rules: seq<Daily>, time: nat)
    ensures forall id :: id in Due(rules, time) <==>
              exists i :: 0 <= i < |rules| && rules[i].id == id && rules[i].enabled && rules[i].time == time
  {
    if rules != [] {
      var n := |rules| - 1;
      DueExact(rules[..n], time);
      forall id ensures id in Due(rules, time) <==>
                  exists i :: 0 <= i < |rules| && rules[i].id == id && rules[i].enabled && rules[i].time == time
      {
        if i :| 0 <= i < |rules| && rules[i].id == id && rules[i].enabled && rules[i].time == time {
          assert i < n ==> rules[..n][i] == rules[i];
        }
        if id in Due(rules[..n], time) {
          var i :| 0 <= i < n && rules[..n][i].id == id && rules[..n][i].enabled && rules[..n][i].time == time;
          assert rules[i].id == id;
        }
      }
    }
  }

  /** ... in the order of the rules. */
  lemma {:induction false} DueInOrder(a: seq<Daily>, b: seq<Daily>, time: nat)
    ensures Due(a + b, time) == Due(a, time) + Due(b, time)
  {
    if b == [] {
      assert a + b == a;
    } else {
      assert (a + b)[..|a + b| - 1] == a + b[..|b| - 1];
      DueInOrder(a, b[..|b| - 1], time);
    }
  }

  predicate ServedToday(lastDate: Option<int>, now: Clock) {
    lastDate == Some(now.date)
  }

  function Stamped(date: int, ids: seq<string>): seq<(int, string)> {
    seq(|ids|, i requires 0 <= i < |ids| => (date, ids[i]))
  }

  /** A tick: the rules as they are then, and the clock. */
  datatype Round = Round(rules: seq<Daily>, now: Clock)

  function DueAt(rounds: seq<Round>, k: nat): seq<string>
    requires k < |rounds|
  {
    Due(rounds[k].rules, rounds[k].now.time)
  }

  /** `last_date` after the first k ticks. */
  function LastDate(rounds: seq<Round>, k: nat): Option<int>
    requires k <= |rounds|
    decreases k, 0
  {
    if k == 0 then None
    else if FiredAt(rounds, k - 1) == [] then LastDate(rounds, k - 1)
    else Some(rounds[k - 1].now.date)
  }

  /** The rules fired by tick k. */
  function FiredAt(rounds: seq<Round>, k: nat): seq<string>
    requires k < |rounds|
    decreases k, 1
  {
    if ServedToday(LastDate(rounds, k), rounds[k].now) then [] else DueAt(rounds, k)
  }

  /** Everything the first k ticks fired. */
  function FiredUpTo(rounds: seq<Round>, k: nat): seq<(int, string)>
    requires k <= |rounds|
  {
    if k == 0 then []
    else FiredUpTo(rounds, k - 1) + Stamped(rounds[k - 1].now.date, FiredAt(rounds, k - 1))
  }

  /** The scheduler thread's loop variable and everything it fired. */
  class TickLoop {
    var lastDate: Option<int>
    var fired: seq<(int, string)>

    constructor ()
      ensures lastDate == None && fired == []
    {
      lastDate, fired := None, [];
    }

    method Tick(rules: seq<Daily>, now: Clock)
      modifies this
      ensures var due := if ServedToday(old(lastDate), now) then [] else Due(rules, now.time);
              && lastDate == (if due == [] then old(lastDate) else Some(now.date))
              && fired == old(fired) + Stamped(now.date, due)
    {
      if ServedToday(lastDate, now) {
        assert Stamped(now.date, []) == [];
        return;
      }
      var due := Due(rules, now.time);
      for k := 0 to |due|
        invariant fired == old(fired) + Stamped(now.date, due[..k])
        invariant lastDate == if k == 0 then old(lastDate) else Some(now.date)
      {
        assert due[..k + 1][..k] == due[..k];
        lastDate := Some(now.date);
        fired := fired + [(now.date, due[k])];
      }
      assert due[..|due|] == due;
    }

    /** A run of ticks from the start of the thread. */
    method Ticks(rounds: seq<Round>)
      requires lastDate == None && fired == []
      modifies this
      ensures lastDate == LastDate(rounds, |rounds|) && fired == FiredUpTo(rounds, |rounds|)
    {
      for k := 0 to |rounds|
        invariant lastDate == LastDate(rounds, k) && fired == FiredUpTo(rounds, k)
      {
        Tick(rounds[k].rules, rounds[k].now);
      }
    }
  }

  /** Tick j is the last one before k that had a rule due. */
  ghost predicate LastDueBefore(rounds: seq<Round>, k: nat, j: nat) {
    j < k <= |rounds| && DueAt(rounds, j) != [] && forall l :: j < l < k ==> DueAt(rounds, l) == []
  }

  lemma LastDateStep(rounds: seq<Round>, k: nat)
    requires k < |rounds|
    ensures LastDate(rounds, k + 1) == if DueAt(rounds, k) == [] then LastDate(rounds, k) else Some(rounds[k].now.date)
  {
    if !ServedToday(LastDate(rounds, k), rounds[k].now) {
      assert FiredAt(rounds, k) == DueAt(rounds, k);
    }
  }

  lemma {:induction false} NoLastDate(rounds: seq<Round>, k: nat)
    requires k <= |rounds| && LastDate(rounds, k).None?
    ensures forall j :: 0 <= j < k ==> DueAt(rounds, j) == []
  {
    if k > 0 {
      LastDateStep(rounds, k - 1);
      NoLastDate(rounds, k - 1);
    }
  }

  lemma {:induction false} LastDateIsLastDue(rounds: seq<Round>, k: nat) returns (j: nat)
    requires k <= |rounds| && LastDate(rounds, k).Some?
    ensures LastDueBefore(rounds, k, j) && rounds[j].now.date == LastDate(rounds, k).value
  {
    LastDateStep(rounds, k - 1);
    if DueAt(rounds, k - 1) != [] {
      j := k - 1;
    } else {
      j := LastDateIsLastDue(rounds, k - 1);
    }
  }

  /** Whatever the clock does and however the rules change, a tick fires its due rules unless the last tick
    * before it that had a rule due was of the same date. */
  lemma FiresUnlessLastDueIsToday(rounds: seq<Round>, k: nat)
    requires k < |rounds|
    ensures FiredAt(rounds, k) ==
            if exists j: nat :: LastDueBefore(rounds, k, j) && rounds[j].now.date == rounds[k].now.date
            then [] else DueAt(rounds, k)
  {
    if LastDate(rounds, k).None? {
      NoLastDate(rounds, k);
    } else {
      var j := LastDateIsLastDue(rounds, k);
      forall i: nat | LastDueBefore(rounds, k, i) ensures i == j {
      }
    }
  }

  /** On a clock that does not go back, a tick fires its due rules exactly when no earlier tick of
    * the same date had any rule due. So a date is served by one tick only. */
  lemma FiresIffFirstDueOfDate(rounds: seq<Round>, k: nat)
    requires k < |rounds| && forall i, j :: 0 <= i < j < |rounds| ==> rounds[i].now.date <= rounds[j].now.date
    ensures FiredAt(rounds, k) ==
            if exists j :: 0 <= j < k && rounds[j].now.date == rounds[k].now.date && DueAt(rounds, j) != []
            then [] else DueAt(rounds, k)
  {
    if LastDate(rounds, k).None? {
      NoLastDate(rounds, k);
    } else {
      var j := LastDateIsLastDue(rounds, k);
      forall i | 0 <= i < k && DueAt(rounds, i) != [] ensures rounds[i].now.date <= rounds[j].now.date {
        assert i <= j;
      }
    }
  }

  /** What is fired carries the date of its tick and the id of a rule that fired then, and all of that is there. */
  lemma {:induction false} FiredIsExact(rounds: seq<Round>, k: nat, date: int, id: string)
    requires k <= |rounds|
    ensures (date, id) in FiredUpTo(rounds, k) <==>
            exists j :: 0 <= j < k && rounds[j].now.date == date && id in FiredAt(rounds, j)
  {
    if k > 0 {
      FiredIsExact(rounds, k - 1, date, id);
      StampedExact(rounds[k - 1].now.date, FiredAt(rounds, k - 1), date, id);
    }
  }

  lemma StampedExact(date: int, ids: seq<string>, d: int, id: string)
    ensures (d, id) in Stamped(date, ids) <==> d == date && id in ids
  {
    var stamped := Stamped(date, ids);
    if i :| 0 <= i < |ids| && ids[i] == id {
      assert stamped[i] == (date, id);
    }
    if i :| 0 <= i < |stamped| && stamped[i] == (d, id) {
      assert ids[i] == id;
    }
  }

  ghost predicate NoRepeats<T>(s: seq<T>) {
    forall i, j :: 0 <= i < j < |s| ==> s[i] != s[j]
  }

  lemma NoRepeatsJoined<T>(a: seq<T>, b: seq<T>)
    requires NoRepeats(a) && NoRepeats(b) && forall x :: x in a ==> x !in b
    ensures NoRepeats(a + b)
  {
    var s := a + b;
    forall i, j | 0 <= i < j < |s| ensures s[i] != s[j] {
      assert i < |a| ==> s[i] in a;
      assert j >= |a| ==> s[j] in b;
    }
  }

  ghost predicate DistinctRules(rules: seq<Daily>) {
    forall i, j :: 0 <= i < j < |rules| ==> rules[i].id != rules[j].id
  }

  lemma {:induction false} DueHasNoRepeats(rules: seq<Daily>, time: nat)
    requires DistinctRules(rules)
    ensures NoRepeats(Due(rules, time))
  {
    if rules != [] {
      var n := |rules| - 1;
      DueHasNoRepeats(rules[..n], time);
      DueExact(rules[..n], time);
      NoRepeatsJoined(Due(rules[..n], time), if Due(rules, time) == Due(rules[..n], time) then [] else [rules[n].id]);
    }
  }

  /** On a clock that does not go back, no rule fires twice on one date, however often the loop wakes within its
    * minute and however the rules are edited. */
  lemma {:induction false} FiresOncePerDate(rounds: seq<Round>, k: nat)
    requires k <= |rounds| && forall i, j :: 0 <= i < j < |rounds| ==> rounds[i].now.date <= rounds[j].now.date
    requires forall i :: 0 <= i < |rounds| ==> DistinctRules(rounds[i].rules)
    ensures NoRepeats(FiredUpTo(rounds, k))
  {
    if k > 0 {
      var last := Stamped(rounds[k - 1].now.date, FiredAt(rounds, k - 1));
      FiresOncePerDate(rounds, k - 1);
      RoundHasNoRepeats(rounds, k - 1);
      forall x | x in FiredUpTo(rounds, k - 1) ensures x !in last {
        FiredBeforeIsNotFiredNow(rounds, k - 1, x);
      }
      NoRepeatsJoined(FiredUpTo(rounds, k - 1), last);
    }
  }

  lemma RoundHasNoRepeats(rounds: seq<Round>, k: nat)
    requires k < |rounds| && DistinctRules(rounds[k].rules)
    ensures NoRepeats(Stamped(rounds[k].now.date, FiredAt(rounds, k)))
  {
    DueHasNoRepeats(rounds[k].rules, rounds[k].now.time);
  }

  lemma FiredBeforeIsNotFiredNow(rounds: seq<Round>, k: nat, x: (int, string))
    requires k < |rounds| && forall i, j :: 0 <= i < j < |rounds| ==> rounds[i].now.date <= rounds[j].now.date
    requires x in FiredUpTo(rounds, k)
    ensures x !in Stamped(rounds[k].now.date, FiredAt(rounds, k))
  {
    FiredIsExact(rounds, k, x.0, x.1);
    StampedExact(rounds[k].now.date, FiredAt(rounds, k), x.0, x.1);
    FiresIffFirstDueOfDate(rounds, k);
  }

  /** Hence a rule set for 09:00 does not fire on a day on which another one fired at 08:00. */
  lemma LaterRuleIsSkipped(date: int)
    ensures var rules := [Daily("a", 480, true), Daily("b", 540, true)];
            var rounds := [Round(rules, Clock(date, 480)), Round(rules, Clock(date, 540))];
            FiredAt(rounds, 0) == ["a"] && DueAt(rounds, 1) == ["b"] && FiredAt(rounds, 1) == []
  {
    var rules := [Daily("a", 480, true), Daily("b", 540, true)];
    assert rules[..1] == [Daily("a", 480, true)] && rules[..1][..0] == [];
    assert Due(rules[..1], 480) == ["a"] && Due(rules[..1], 540) == [];
    var rounds := [Round(rules, Clock(date, 480)), Round(rules, Clock(date, 540))];
    assert DueAt(rounds, 0) == ["a"] && DueAt(rounds, 1) == ["b"];
  }
}
