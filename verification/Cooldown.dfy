/** The per-rule cooldown gate. The gate width is computed in 64-bit machine integers, so it is
  * written out here; times are mathematical integers.
  */
module Cooldown {

  const DEFAULT_COOLDOWN_SECS: nat := 5
  const TWO_63: int := 0x8000_0000_0000_0000
  const TWO_64: int := 0x1_0000_0000_0000_0000

  type U64 = n: int | 0 <= n < TWO_64

  /** `cooldown * 1000` as u64, wrapping as in a release build, then `as i64`. */
  function GateMs(cooldownSecs: U64): int {
    var cooldown := if cooldownSecs == 0 then DEFAULT_COOLDOWN_SECS else cooldownSecs;
    var ms := cooldown * 1000 % TWO_64;
    if ms < TWO_63 then ms else ms - TWO_64
  }

  /** The cooldown a rule asks for. */
  function ConfiguredMs(cooldownSecs: U64): int {
    1000 * if cooldownSecs == 0 then DEFAULT_COOLDOWN_SECS else cooldownSecs
  }

  /** The longest cooldown whose milliseconds still fit a signed 64-bit number. */
  const LONGEST_COOLDOWN_SECS: nat := 9_223_372_036_854_775

  datatype Table = Table(lastFired: map<string, int>, suppressed: nat)

  datatype Call = Call(rule: string, cooldownSecs: U64, nowMs: int)

  predicate Passes(t: Table, c: Call) {
    c.rule in t.lastFired ==> c.nowMs - t.lastFired[c.rule] >= GateMs(c.cooldownSecs)
  }

  function Tried(t: Table, c: Call): Table {
    if Passes(t, c) then t.(lastFired := t.lastFired[c.rule := c.nowMs])
    else t.(suppressed := t.suppressed + 1)
  }

  class CooldownTable {
    var lastFired: map<string, int>
    var suppressed: nat

    function State(): Table
      reads this
    {
      Table(lastFired, suppressed)
    }

    constructor ()
      ensures State() == Table(map[], 0)
    {
      lastFired, suppressed := map[], 0;
    }

    method TryFire(ruleId: string, cooldownSecs: U64, nowMs: int) returns (passed: bool)
      modifies this
      ensures var c := Call(ruleId, cooldownSecs, nowMs);
              passed == Passes(old(State()), c) && State() == Tried(old(State()), c)
    {
      var gateMs := GateMs(cooldownSecs);
      if ruleId in lastFired {
        var last := lastFired[ruleId];
        if nowMs - last < gateMs {
          suppressed := suppressed + 1;
          return false;
        }
      }
      lastFired := lastFired[ruleId := nowMs];
      return true;
    }
  }

  // ---------- call sequences ----------

  function After(calls: seq<Call>): Table {
    if calls == [] then Table(map[], 0) else Tried(After(calls[..|calls| - 1]), calls[|calls| - 1])
  }

  /** The times at which calls for `rule` were let through. */
  function Accepted(calls: seq<Call>, rule: string): seq<int> {
    if calls == [] then []
    else
      var init, last := calls[..|calls| - 1], calls[|calls| - 1];
      Accepted(init, rule) + if last.rule == rule && Passes(After(init), last) then [last.nowMs] else []
  }

  function AcceptedCount(calls: seq<Call>): nat {
    if calls == [] then 0
    else AcceptedCount(calls[..|calls| - 1]) +
         if Passes(After(calls[..|calls| - 1]), calls[|calls| - 1]) then 1 else 0
  }

  ghost predicate FixedCooldown(calls: seq<Call>, rule: string, cooldownSecs: U64) {
    forall i :: 0 <= i < |calls| && calls[i].rule == rule ==> calls[i].cooldownSecs == cooldownSecs
  }

  ghost predicate Spaced(times: seq<int>, gap: int) {
    forall i, j :: 0 <= i < j < |times| ==> times[j] - times[i] >= gap
  }

  lemma {:induction false} LastAccepted(calls: seq<Call>, rule: string)
    ensures rule in After(calls).lastFired <==> Accepted(calls, rule) != []
    ensures rule in After(calls).lastFired ==>
            After(calls).lastFired[rule] == Accepted(calls, rule)[|Accepted(calls, rule)| - 1]
  {
    if calls != [] { LastAccepted(calls[..|calls| - 1], rule); }
  }

  /** Whatever the clock does, each accepted call of a rule lies at least the gate after the one before,
    * even where the gate has wrapped to a negative number. */
  lemma {:induction false} NextAcceptedIsPastTheGate(calls: seq<Call>, rule: string, cooldownSecs: U64, i: nat)
    requires FixedCooldown(calls, rule, cooldownSecs) && i + 1 < |Accepted(calls, rule)|
    ensures Accepted(calls, rule)[i + 1] - Accepted(calls, rule)[i] >= GateMs(cooldownSecs)
  {
    var init := calls[..|calls| - 1];
    LastAccepted(init, rule);
    if i + 1 < |Accepted(init, rule)| { NextAcceptedIsPastTheGate(init, rule, cooldownSecs, i); }
  }

  /** Hence any two accepted calls lie that far apart in order, as long as the gate is not negative. */
  lemma {:induction false} AcceptedAreSpaced(calls: seq<Call>, rule: string, cooldownSecs: U64)
    requires FixedCooldown(calls, rule, cooldownSecs) && GateMs(cooldownSecs) >= 0
    ensures Spaced(Accepted(calls, rule), GateMs(cooldownSecs))
  {
    if calls != [] {
      var init := calls[..|calls| - 1];
      AcceptedAreSpaced(init, rule, cooldownSecs);
      LastAccepted(init, rule);
      SpacedAppend(Accepted(init, rule), calls[|calls| - 1].nowMs, GateMs(cooldownSecs));
    }
  }

  lemma SpacedAppend(times: seq<int>, now: int, gap: int)
    requires Spaced(times, gap) && gap >= 0
    ensures times == [] || now - times[|times| - 1] >= gap ==> Spaced(times + [now], gap)
  {
  }

  /** A window [a, b] lets through at most (b - a) / cooldown + 1 calls of a rule. */
  lemma AcceptedInWindow(calls: seq<Call>, rule: string, cooldownSecs: U64, from: nat, n: nat, a: int, b: int)
    requires FixedCooldown(calls, rule, cooldownSecs) && cooldownSecs <= LONGEST_COOLDOWN_SECS
    requires from + n <= |Accepted(calls, rule)| && n > 0
    requires forall i :: from <= i < from + n ==> a <= Accepted(calls, rule)[i] <= b
    ensures n <= (b - a) / ConfiguredMs(cooldownSecs) + 1
  {
    var times, g := Accepted(calls, rule), ConfiguredMs(cooldownSecs);
    GateIsExactIff(cooldownSecs);
    AcceptedAreSpaced(calls, rule, cooldownSecs);
    SpreadOut(times, g, from, n);
    assert a <= times[from] && times[from + n - 1] <= b;
    DivideBound(n - 1, g, b - a);
  }

  lemma {:induction false} SpreadOut(times: seq<int>, gap: int, from: nat, n: nat)
    requires Spaced(times, gap) && from + n <= |times| && n > 0
    ensures times[from + n - 1] - times[from] >= (n - 1) * gap
  {
    if n > 1 {
      SpreadOut(times, gap, from, n - 1);
      assert times[from + n - 1] - times[from + n - 2] >= gap;
      assert (n - 1) * gap == (n - 2) * gap + gap;
    }
  }

  lemma DivideBound(k: nat, g: int, d: int)
    requires g > 0 && k * g <= d
    ensures k <= d / g
  {
    var q := d / g;
    assert d < q * g + g;
    assert (q + 1) * g == q * g + g;
    if q < k { ProductGrows(q + 1, k, g); }
  }

  lemma ProductGrows(a: int, b: int, g: int)
    requires a <= b && g >= 0
    ensures a * g <= b * g
  {
  }

  /** Every call is either accepted or counted as suppressed. */
  lemma {:induction false} AcceptedPlusSuppressed(calls: seq<Call>)
    ensures AcceptedCount(calls) + After(calls).suppressed == |calls|
  {
    if calls != [] { AcceptedPlusSuppressed(calls[..|calls| - 1]); }
  }

  function OnlyRule(calls: seq<Call>, rule: string): seq<Call> {
    if calls == [] then []
    else OnlyRule(calls[..|calls| - 1], rule) +
         if calls[|calls| - 1].rule == rule then [calls[|calls| - 1]] else []
  }

  /** Calls for other rules change nothing for this one. */
  lemma {:induction false} RulesAreIndependent(calls: seq<Call>, rule: string)
    ensures Accepted(calls, rule) == Accepted(OnlyRule(calls, rule), rule)
  {
    if calls != [] {
      var init, last := calls[..|calls| - 1], calls[|calls| - 1];
      RulesAreIndependent(init, rule);
      LastAccepted(init, rule);
      LastAccepted(OnlyRule(init, rule), rule);
      var o := OnlyRule(calls, rule);
      if last.rule == rule {
        assert o[..|o| - 1] == OnlyRule(init, rule);
        assert Passes(After(init), last) <==> Passes(After(OnlyRule(init, rule)), last);
      } else {
        assert o == OnlyRule(init, rule);
      }
    }
  }

  /** The gate is the configured cooldown exactly up to the longest one. */
  lemma GateIsExactIff(cooldownSecs: U64)
    ensures GateMs(cooldownSecs) == ConfiguredMs(cooldownSecs) <==> cooldownSecs <= LONGEST_COOLDOWN_SECS
  {
  }

  /** The promise of a cooldown: whatever is called when, what passes lies that far apart. */
  ghost predicate KeepsApart(cooldownSecs: U64) {
    forall calls, rule :: FixedCooldown(calls, rule, cooldownSecs) ==>
      Spaced(Accepted(calls, rule), ConfiguredMs(cooldownSecs))
  }

  lemma OneCall(c: Call)
    ensures After([c]) == Table(map[c.rule := c.nowMs], 0) && Accepted([c], c.rule) == [c.nowMs]
  {
    assert [c][..0] == [];
    assert After([]) == Table(map[], 0) && Accepted([], c.rule) == [];
  }

  /** Past the longest cooldown two calls pass that are closer than it. */
  lemma WrappedGateIsTooNarrow(cooldownSecs: U64) returns (calls: seq<Call>)
    requires cooldownSecs > LONGEST_COOLDOWN_SECS
    ensures FixedCooldown(calls, "r", cooldownSecs) && |Accepted(calls, "r")| == 2
    ensures 0 <= Accepted(calls, "r")[1] - Accepted(calls, "r")[0] < ConfiguredMs(cooldownSecs)
  {
    var later := if GateMs(cooldownSecs) > 0 then GateMs(cooldownSecs) else 0;
    var first, second := Call("r", cooldownSecs, 0), Call("r", cooldownSecs, later);
    calls := [first, second];
    OneCall(first);
    assert calls[..1] == [first];
  }

  /** Accepted calls keep the configured distance, over all call sequences, if and only if the cooldown is at
    * most the longest one. */
  lemma KeepsApartIff(cooldownSecs: U64)
    ensures KeepsApart(cooldownSecs) <==> cooldownSecs <= LONGEST_COOLDOWN_SECS
  {
    if cooldownSecs <= LONGEST_COOLDOWN_SECS {
      GateIsExactIff(cooldownSecs);
      forall calls, rule | FixedCooldown(calls, rule, cooldownSecs)
        ensures Spaced(Accepted(calls, rule), ConfiguredMs(cooldownSecs))
      {
        AcceptedAreSpaced(calls, rule, cooldownSecs);
      }
    } else {
      var calls := WrappedGateIsTooNarrow(cooldownSecs);
      assert !Spaced(Accepted(calls, "r"), ConfiguredMs(cooldownSecs));
    }
  }

  /** One second past the longest cooldown the gate is negative and two calls of one moment pass; much
    * further on it is positive again, but far too narrow. */
  lemma WrappedGates()
    ensures GateMs(9_223_372_036_854_776) < 0
    ensures var c := Call("r", 9_223_372_036_854_776, 0); Accepted([c, c], "r") == [0, 0]
    ensures GateMs(18_446_744_073_709_552) == 384
  {
    var c := Call("r", 9_223_372_036_854_776, 0);
    OneCall(c);
    assert [c, c][..1] == [c];
  }
}
