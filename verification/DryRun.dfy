/** The dry-run planner, and its agreement with what a real firing does on the host's ports. */
module DryRun {

  import opened Rules
  import opened RuleEngine

  datatype ActionPlan = ActionPlan(kind: string, willExecute: bool)

  function KindOf(action: Action): string {
    match action
    case Publish(_, _) => "publish"
    case Notify(_, _) => "notify"
    case OpenUrl(_) => "open_url"
    case IpcCommand(_, _, _) => "ipc_command"
    case RunScript(_, _) => "run_script"
  }

  predicate Risky(action: Action) {
    action.OpenUrl? || action.IpcCommand? || action.RunScript?
  }

  function PlanRule(rule: Rule, payload: Json): (plans: seq<ActionPlan>)
    ensures |plans| == |rule.actions|
  {
    seq(|rule.actions|, i requires 0 <= i < |rule.actions| =>
      ActionPlan(KindOf(rule.actions[i]), WhenPasses(rule, payload) && Risky(rule.actions[i])))
  }

  /** The plan has one line an action, in order, under the name of its kind, and marks an action exactly when the
    * condition holds and the action leaves the event bus. */
  lemma PlanNamesTheActions(rule: Rule, payload: Json, i: nat)
    requires i < |rule.actions|
    ensures var line, action := PlanRule(rule, payload)[i], rule.actions[i];
            && (line.willExecute <==> WhenPasses(rule, payload) && External(CallOf(rule, action)))
            && (line.kind == "publish" <==> action.Publish?) && (line.kind == "notify" <==> action.Notify?)
            && (line.kind == "open_url" <==> action.OpenUrl?) && (line.kind == "ipc_command" <==> action.IpcCommand?)
            && (line.kind == "run_script" <==> action.RunScript?)
  {
    KindsDiffer(rule.actions[i]);
  }

  lemma KindsDiffer(action: Action)
    ensures KindOf(action)[0] == match action
                                 case Publish(_, _) => 'p' case Notify(_, _) => 'n' case OpenUrl(_) => 'o'
                                 case IpcCommand(_, _, _) => 'i' case RunScript(_, _) => 'r'
  {
  }

  // ---------- the plan against the run ----------

  /** The calls the plan announces: each action marked will_execute, as often as it is tried. */
  function PlannedBlocks(host: Host, rule: Rule, payload: Json, at: nat): (blocks: seq<seq<PortCall>>)
    ensures |blocks| == |rule.actions|
  {
    var plans := PlanRule(rule, payload);
    seq(|rule.actions|, i requires 0 <= i < |rule.actions| =>
      if plans[i].willExecute
      then Repeat(CallOf(rule, rule.actions[i]), Tries(host, StartOf(host, i, at))) else [])
  }

  lemma TailIsInternal(host: Host, rule: Rule, at: nat)
    ensures Externals(if Exhausted(host, at) then [] else [Audit(rule)]) == []
  {
    assert [Audit(rule)][..0] == [];
  }

  lemma OneActionExternals(host: Host, rule: Rule, action: Action, at: nat)
    ensures Externals(ActionCalls(host, rule, action, at)) ==
            if Risky(action) then Repeat(CallOf(rule, action), Tries(host, at)) else []
  {
    ExternalsConcat(Repeat(CallOf(rule, action), Tries(host, at)), if Exhausted(host, at) then [] else [Audit(rule)]);
    ExternalsRepeat(CallOf(rule, action), Tries(host, at));
    TailIsInternal(host, rule, at);
  }

  /** What a firing does on the external ports is the plan: exactly the actions marked
    * will_execute are called, in order, ... */
  lemma RunMatchesPlan(host: Host, rule: Rule, payload: Json, at: nat)
    requires WhenPasses(rule, payload)
    ensures Externals(CallsOf(host, rule, at)) == Flatten(PlannedBlocks(host, rule, payload, at))
  {
    var blocks := Blocks(host, rule, |rule.actions|, at);
    ExternalsFlatten(blocks);
    forall i | 0 <= i < |blocks| ensures ExternalBlocks(blocks)[i] == PlannedBlocks(host, rule, payload, at)[i] {
      OneActionExternals(host, rule, rule.actions[i], StartOf(host, i, at));
    }
    assert ExternalBlocks(blocks) == PlannedBlocks(host, rule, payload, at);
  }

  /** ... once to three times each, and nothing is announced when the condition fails. */
  lemma PlannedBlocksShape(host: Host, rule: Rule, payload: Json, at: nat, i: nat)
    requires i < |rule.actions|
    ensures var block := PlannedBlocks(host, rule, payload, at)[i];
            && (block != [] <==> WhenPasses(rule, payload) && External(CallOf(rule, rule.actions[i])))
            && (block != [] ==> 1 <= |block| <= 3)
            && forall k :: 0 <= k < |block| ==> block[k] == CallOf(rule, rule.actions[i])
  {
    RepeatedCalls(CallOf(rule, rule.actions[i]), Tries(host, StartOf(host, i, at)));
  }

  lemma {:induction false} RepeatedCalls(c: PortCall, n: nat)
    ensures forall k :: 0 <= k < n ==> Repeat(c, n)[k] == c
  {
    if n > 0 { RepeatedCalls(c, n - 1); }
  }
}
