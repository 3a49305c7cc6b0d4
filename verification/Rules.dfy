/** Rules, actions and the port calls they make. */
module Rules {

  import opened Wrappers
  import Conditions
  import Cooldown

  type Json = Conditions.Json

  datatype Action =
    | Publish(topic: string, payload: Json)
    | Notify(title: string, body: string)
    | OpenUrl(url: string)
    | IpcCommand(target: string, cmd: string, args: Json)
    | RunScript(path: string, func: string)

  datatype Rule = Rule(
    id: string, name: string, when: Option<Conditions.Expr>, actions: seq<Action>, cooldownSecs: Cooldown.U64)

  predicate WhenPasses(rule: Rule, payload: Json) {
    rule.when.None? || Conditions.Eval(rule.when.value, payload)
  }

  /** One call on the host's ports. */
  datatype PortCall =
    | PublishCall(topic: string, payload: Json)
    | UrlCall(url: string)
    | IpcCall(target: string, cmd: string, args: Json)
    | WasmCall(path: string, func: string)

  /** The event that reports a successful action. */
  function Audit(rule: Rule): PortCall {
    PublishCall("automation.rule_fired",
                Conditions.Obj(map["rule_id" := Conditions.Str(rule.id), "rule_name" := Conditions.Str(rule.name)]))
  }

  function CallOf(rule: Rule, action: Action): PortCall {
    match action
    case Publish(topic, payload) => PublishCall(topic, payload)
    case Notify(title, body) =>
      PublishCall("automation.notify",
                  Conditions.Obj(map["rule_id" := Conditions.Str(rule.id), "title" := Conditions.Str(title),
                                     "body" := Conditions.Str(body)]))
    case OpenUrl(url) => UrlCall(url)
    case IpcCommand(target, cmd, args) => IpcCall(target, cmd, args)
    case RunScript(path, func) => WasmCall(path, func)
  }

  /** A rule without a condition always passes, one with a condition exactly when it holds. */
  lemma PassesIff(rule: Rule, payload: Json)
    ensures WhenPasses(rule, payload) <==> (rule.when.Some? ==> Conditions.Eval(rule.when.value, payload))
  {
  }

  /** An action calls what it names: the topic with the payload, the URL, the module's command with its arguments,
    * the script's function; ... */
  lemma CallsWhatItNames(rule: Rule, x: string, y: string, v: Json)
    ensures CallOf(rule, Publish(x, v)) == PublishCall(x, v)
    ensures CallOf(rule, OpenUrl(x)) == UrlCall(x)
    ensures CallOf(rule, IpcCommand(x, y, v)) == IpcCall(x, y, v)
    ensures CallOf(rule, RunScript(x, y)) == WasmCall(x, y)
  {
  }

  lemma FieldIsThere(v: Json, field: string)
    requires v.Obj? && field in v.fields && '.' !in field
    ensures Conditions.PathIn(v, field) == Some(v.fields[field])
  {
    Conditions.OneSegment(v, field);
  }

  /** ... a notification goes out as an event that carries the rule, the title and the body. */
  lemma NotificationCarries(rule: Rule, title: string, body: string)
    ensures CallOf(rule, Notify(title, body)).PublishCall?
    ensures var v := CallOf(rule, Notify(title, body)).payload;
            && Conditions.PathIn(v, "rule_id") == Some(Conditions.Str(rule.id))
            && Conditions.PathIn(v, "title") == Some(Conditions.Str(title))
            && Conditions.PathIn(v, "body") == Some(Conditions.Str(body))
  {
    var v := CallOf(rule, Notify(title, body)).payload;
    FieldIsThere(v, "rule_id");
    FieldIsThere(v, "title");
    FieldIsThere(v, "body");
  }

  /** ... and what is reported after each success carries the rule's id and name. */
  lemma AuditCarries(rule: Rule)
    ensures Audit(rule).PublishCall?
    ensures Conditions.PathIn(Audit(rule).payload, "rule_id") == Some(Conditions.Str(rule.id))
    ensures Conditions.PathIn(Audit(rule).payload, "rule_name") == Some(Conditions.Str(rule.name))
  {
    FieldIsThere(Audit(rule).payload, "rule_id");
    FieldIsThere(Audit(rule).payload, "rule_name");
  }

  predicate External(c: PortCall) {
    !c.PublishCall?
  }

  function Externals(calls: seq<PortCall>): seq<PortCall> {
    if calls == [] then []
    else Externals(calls[..|calls| - 1]) +
         if External(calls[|calls| - 1]) then [calls[|calls| - 1]] else []
  }

  lemma {:induction false} ExternalsConcat(a: seq<PortCall>, b: seq<PortCall>)
    ensures Externals(a + b) == Externals(a) + Externals(b)
  {
    if b == [] {
      assert a + b == a;
    } else {
      assert (a + b)[..|a + b| - 1] == a + b[..|b| - 1];
      ExternalsConcat(a, b[..|b| - 1]);
    }
  }

  function Repeat(c: PortCall, n: nat): (s: seq<PortCall>)
    ensures |s| == n
  {
    if n == 0 then [] else Repeat(c, n - 1) + [c]
  }

  lemma {:induction false} ExternalsRepeat(c: PortCall, n: nat)
    ensures Externals(Repeat(c, n)) == if External(c) then Repeat(c, n) else []
  {
    if n > 0 {
      assert Repeat(c, n)[..n - 1] == Repeat(c, n - 1);
      ExternalsRepeat(c, n - 1);
    }
  }

  function Flatten(blocks: seq<seq<PortCall>>): seq<PortCall> {
    if blocks == [] then [] else Flatten(blocks[..|blocks| - 1]) + blocks[|blocks| - 1]
  }

  function ExternalBlocks(blocks: seq<seq<PortCall>>): (e: seq<seq<PortCall>>)
    ensures |e| == |blocks| && forall i :: 0 <= i < |e| ==> e[i] == Externals(blocks[i])
  {
    seq(|blocks|, i requires 0 <= i < |blocks| => Externals(blocks[i]))
  }

  lemma {:induction false} ExternalsFlatten(blocks: seq<seq<PortCall>>)
    ensures Externals(Flatten(blocks)) == Flatten(ExternalBlocks(blocks))
  {
    if blocks != [] {
      var init, last := blocks[..|blocks| - 1], blocks[|blocks| - 1];
      ExternalsFlatten(init);
      ExternalsConcat(Flatten(init), last);
      assert ExternalBlocks(blocks)[..|blocks| - 1] == ExternalBlocks(init);
    }
  }
}
