/** What each kind of flow node does: the value it outputs or the error it
    fails with, the one side effect it may have, and what it logs. The stores,
    the tools and how digits are read are parameters; the `n`-th tool call of a
    run may answer differently from every other. */
module Nodes {
  import opened Values
  import opened Catalog
  import opened Graph
  import opened Rollback
  import Tokens
  import Lexer
  import Expressions

  datatype ToolCall = ToolCall(serverId: string, tool: string, args: map<string, Value>)

  datatype Env = Env(
    agents: map<string, Agent>,
    servers: map<string, Server>,
    answer: (nat, ToolCall) -> Option<string>,
    read: Lexer.NumberReader)

  datatype Permissions = Permissions(resources: seq<string>, files: seq<string>, databases: seq<string>)

  datatype NodeError =
    | AgentMissing(id: string)
    | ServerMissing(id: string)
    | BadTransport(serverId: string)
    | CallFailed(serverId: string, tool: string)
    | ExpressionFailed(e: Tokens.ExprError)
    | PermissionDenied(kind: string, target: string)
    | UnknownType(typ: string)

  /** `Crashed` is the run-time fault of the condition language. */
  datatype NodeOutcome = Output(v: Value) | Failed(e: NodeError) | Crashed

  datatype LogEvent =
    | NodeExecuted(id: string)
    | AgentStarted(id: string, name: string)
    | ToolCalled(id: string)
    | OutputWritten(id: string)
    | RunFailed

  /** A node's whole reply; `calls` counts the tool calls of the run so far. */
  datatype Reply = Reply(out: NodeOutcome, effects: seq<Effect>, calls: nat, logs: seq<LogEvent>)

  function CheckServer(env: Env, id: string): Result<(), NodeError>
  {
    if id !in env.servers then Fail(ServerMissing(id))
    else if !env.servers[id].transportParses then Fail(BadTransport(id))
    else Ok(())
  }

  function SkillCall(agent: Agent, skill: Skill, input: Value): ToolCall
  {
    ToolCall(skill.serverId, skill.tool, map["input" := input, "prompt" := Str(agent.systemPrompt)])
  }

  /** The answers of the first `k` skills of an agent, or the first failure. */
  function SkillAnswers(env: Env, agent: Agent, k: nat, input: Value, calls: nat)
    : (r: (Result<seq<string>, NodeError>, nat))
    requires k <= |agent.skills|
  {
    if k == 0 then (Ok([]), calls)
    else
      var before := SkillAnswers(env, agent, k - 1, input, calls);
      if before.0.Fail? then before
      else
        var skill := agent.skills[k - 1];
        var server := CheckServer(env, skill.serverId);
        if server.Fail? then (Fail(server.error), before.1)
        else match env.answer(before.1, SkillCall(agent, skill, input))
          case None => (Fail(CallFailed(skill.serverId, skill.tool)), before.1 + 1)
          case Some(text) => (Ok(before.0.value + [text]), before.1 + 1)
  }

  function ToolArguments(node: Node, input: Value): map<string, Value>
  {
    if "input" in node.arguments then node.arguments else node.arguments["input" := input]
  }

  predicate Permitted(perms: Permissions, kind: string, target: string)
  {
    match kind
    case "database" => target in perms.databases
    case "file" => target in perms.files
    case "modbus" => target in perms.resources
    case _ => kind == "http"
  }

  function ResolveValue(v: Value, input: Value): Value
  {
    if v == Str("$input") || v == Str("$result") then input else v
  }

  function TriggerOutput(node: Node): Value
  {
    if node.value != Nil then node.value
    else
      var typ := if node.triggerType == "" then "manual" else node.triggerType;
      Map(map["triggered" := Bool(true), "type" := Str(typ)])
  }

  function AgentReply(env: Env, node: Node, input: Value, calls: nat): Reply
  {
    if node.agentId !in env.agents then Reply(Failed(AgentMissing(node.agentId)), [], calls, [])
    else
      var agent := env.agents[node.agentId];
      var logs := [AgentStarted(node.id, agent.name)];
      var answers := SkillAnswers(env, agent, |agent.skills|, input, calls);
      match answers.0
      case Fail(e) => Reply(Failed(e), [], answers.1, logs)
      case Ok(texts) =>
        Reply(Output(Map(map["agent" := Str(agent.name), "output" := Str(Joined(texts, "\n"))])), [], answers.1, logs)
  }

  function ToolReply(env: Env, node: Node, input: Value, calls: nat): Reply
  {
    var server := CheckServer(env, node.serverId);
    if server.Fail? then Reply(Failed(server.error), [], calls, [])
    else match env.answer(calls, ToolCall(node.serverId, node.tool, ToolArguments(node, input)))
      case None => Reply(Failed(CallFailed(node.serverId, node.tool)), [], calls + 1, [])
      case Some(text) =>
        Reply(Output(Map(map["server_id" := Str(node.serverId), "tool" := Str(node.tool), "output" := Str(text)])),
              [Effect("mcp_tool", node.serverId + "/" + node.tool, Str(text))],
              calls + 1,
              [ToolCalled(node.id)])
  }

  function OutputReply(perms: Permissions, node: Node, input: Value, calls: nat): Reply
  {
    if !Permitted(perms, node.kind, node.target) then
      Reply(Failed(PermissionDenied(node.kind, node.target)), [], calls, [])
    else
      var value := ResolveValue(node.value, input);
      Reply(Output(Map(map["kind" := Str(node.kind), "target" := Str(node.target), "value" := value])),
            [Effect(node.kind, node.target, value)],
            calls,
            [OutputWritten(node.id)])
  }

  function ConditionReply(env: Env, node: Node, input: Value, calls: nat): Reply
  {
    var out :=
      match Expressions.Eval(node.expression, map["result" := input], env.read)
      case Val(v) => Output(v)
      case Err(e) => Failed(ExpressionFailed(e))
      case Panic => Crashed;
    Reply(out, [], calls, [])
  }

  function NodeReply(env: Env, perms: Permissions, node: Node, input: Value, calls: nat): Reply
  {
    if node.typ == TRIGGER then Reply(Output(TriggerOutput(node)), [], calls, [])
    else if node.typ == AGENT then AgentReply(env, node, input, calls)
    else if node.typ == MCP_TOOL then ToolReply(env, node, input, calls)
    else if node.typ == CONDITION then ConditionReply(env, node, input, calls)
    else if node.typ == OUTPUT then OutputReply(perms, node, input, calls)
    else Reply(Failed(UnknownType(node.typ)), [], calls, [])
  }

  /** The handles whose edges become live once the node has output `v`. */
  function EmittedHandles(node: Node, v: Value): (hs: seq<string>)
    ensures |hs| == 1
  {
    if node.typ == CONDITION then if Truthy(v) then ["true"] else ["false"] else [""]
  }

  // ---- the objects ------------------------------------------------------

  lemma NoSkills(env: Env, agentId: string, input: Value, calls: nat)
    ensures agentId in env.agents ==> SkillAnswers(env, env.agents[agentId], 0, input, calls) == (Ok([]), calls)
  {
  }

  /** How the answers grow by one skill. */
  lemma NextSkill(env: Env, agent: Agent, k: nat, input: Value, calls: nat)
    requires k < |agent.skills| && SkillAnswers(env, agent, k, input, calls).0.Ok?
    ensures var before, skill := SkillAnswers(env, agent, k, input, calls), agent.skills[k];
            var server := CheckServer(env, skill.serverId);
            var answer := env.answer(before.1, SkillCall(agent, skill, input));
            SkillAnswers(env, agent, k + 1, input, calls) ==
              if server.Fail? then (Fail(server.error), before.1)
              else if answer.None? then (Fail(CallFailed(skill.serverId, skill.tool)), before.1 + 1)
              else (Ok(before.0.value + [answer.value]), before.1 + 1)
  {
  }

  lemma NoEffects(data: Data)
    ensures RecordsOf(data, []) == [] && ApplyAll(data, []) == data
  {
  }

  lemma OneEffect(data: Data, e: Effect)
    ensures RecordsOf(data, [e]) == [RecordOf(data, e)]
    ensures ApplyAll(data, [e]) == Applied(data, e)
  {
    assert [e][..0] == [];
  }

  lemma {:induction false} SkillFailureSticks(env: Env, agent: Agent, k: nat, input: Value, calls: nat)
    requires k <= |agent.skills| && SkillAnswers(env, agent, k, input, calls).0.Fail?
    ensures SkillAnswers(env, agent, |agent.skills|, input, calls) == SkillAnswers(env, agent, k, input, calls)
    decreases |agent.skills| - k
  {
    if k < |agent.skills| {
      SkillFailureSticks(env, agent, k + 1, input, calls);
    }
  }

  /** Per-run state: node outputs, log, tool calls made, and the undo log. */
  class ExecContext {
    const env: Env
    const perms: Permissions
    const rb: RollbackLog
    var outputs: map<string, Value>
    var logs: seq<LogEvent>
    var calls: nat

    constructor (env: Env, perms: Permissions, rb: RollbackLog)
      ensures this.env == env && this.perms == perms && this.rb == rb
      ensures outputs == map[] && logs == [] && calls == 0
    {
      this.env, this.perms, this.rb := env, perms, rb;
      outputs, logs, calls := map[], [], 0;
    }

    method Log(event: LogEvent)
      modifies this`logs
      ensures logs == old(logs) + [event]
    {
      logs := logs + [event];
    }

    /** Calls a tool; the answer depends on how many calls came before. */
    method CallTool(call: ToolCall) returns (r: Option<string>)
      modifies this`calls
      ensures r == env.answer(old(calls), call) && calls == old(calls) + 1
    {
      r := env.answer(calls, call);
      calls := calls + 1;
    }

    /** The run's state has moved on by exactly what `reply` says. */
    twostate predicate Advanced(reply: Reply)
      reads this, rb, rb.store
    {
      && outputs == old(outputs)
      && logs == old(logs) + reply.logs
      && calls == reply.calls
      && rb.records == old(rb.records) + RecordsOf(old(rb.store.data), reply.effects)
      && rb.store.data == ApplyAll(old(rb.store.data), reply.effects)
      && rb.store.undoLog == old(rb.store.undoLog)
    }

    method RunAgent(node: Node, input: Value) returns (out: NodeOutcome)
      modifies this
      ensures out == AgentReply(env, node, input, old(calls)).out
      ensures Advanced(AgentReply(env, node, input, old(calls)))
    {
      NoEffects(rb.store.data);
      hide RecordsOf, ApplyAll, Joined, CheckServer, SkillCall, SkillAnswers;
      NoSkills(env, node.agentId, input, calls);
      if node.agentId !in env.agents {
        return Failed(AgentMissing(node.agentId));
      }
      var agent := env.agents[node.agentId];
      Log(AgentStarted(node.id, agent.name));
      var texts := [];
      for k := 0 to |agent.skills|
        invariant SkillAnswers(env, agent, k, input, old(calls)) == (Ok(texts), calls)
        invariant outputs == old(outputs) && logs == old(logs) + [AgentStarted(node.id, agent.name)]
      {
        NextSkill(env, agent, k, input, old(calls));
        var skill := agent.skills[k];
        var server := CheckServer(env, skill.serverId);
        if server.Fail? {
          SkillFailureSticks(env, agent, k + 1, input, old(calls));
          return Failed(server.error);
        }
        var res := CallTool(SkillCall(agent, skill, input));
        if res.None? {
          SkillFailureSticks(env, agent, k + 1, input, old(calls));
          return Failed(CallFailed(skill.serverId, skill.tool));
        }
        texts := texts + [res.value];
      }
      return Output(Map(map["agent" := Str(agent.name), "output" := Str(Joined(texts, "\n"))]));
    }

    method RunMcpTool(node: Node, input: Value) returns (out: NodeOutcome)
      modifies this, rb, rb.store
      ensures out == ToolReply(env, node, input, old(calls)).out
      ensures Advanced(ToolReply(env, node, input, old(calls)))
    {
      var server := CheckServer(env, node.serverId);
      if server.Fail? {
        return Failed(server.error);
      }
      var args := node.arguments;
      if "input" !in args {
        args := args["input" := input];
      }
      var res := CallTool(ToolCall(node.serverId, node.tool, args));
      if res.None? {
        return Failed(CallFailed(node.serverId, node.tool));
      }
      Log(ToolCalled(node.id));
      var e := Effect("mcp_tool", node.serverId + "/" + node.tool, Str(res.value));
      OneEffect(rb.store.data, e);
      rb.Apply(e);
      return Output(Map(map["server_id" := Str(node.serverId), "tool" := Str(node.tool), "output" := Str(res.value)]));
    }

    method RunOutput(node: Node, input: Value) returns (out: NodeOutcome)
      modifies this, rb, rb.store
      ensures out == OutputReply(perms, node, input, old(calls)).out
      ensures Advanced(OutputReply(perms, node, input, old(calls)))
    {
      if !Permitted(perms, node.kind, node.target) {
        return Failed(PermissionDenied(node.kind, node.target));
      }
      var value := ResolveValue(node.value, input);
      var e := Effect(node.kind, node.target, value);
      OneEffect(rb.store.data, e);
      rb.Apply(e);
      Log(OutputWritten(node.id));
      return Output(Map(map["kind" := Str(node.kind), "target" := Str(node.target), "value" := value]));
    }

    /** Runs one node. */
    method ExecuteNode(node: Node, input: Value) returns (out: NodeOutcome)
      modifies this, rb, rb.store
      ensures out == NodeReply(env, perms, node, input, old(calls)).out
      ensures Advanced(NodeReply(env, perms, node, input, old(calls)))
    {
      if node.typ == TRIGGER {
        return Output(TriggerOutput(node));
      } else if node.typ == AGENT {
        out := RunAgent(node, input);
      } else if node.typ == MCP_TOOL {
        out := RunMcpTool(node, input);
      } else if node.typ == CONDITION {
        var r := Expressions.EvalExpression(node.expression, map["result" := input], env.read);
        match r {
          case Val(v) => out := Output(v);
          case Err(e) => out := Failed(ExpressionFailed(e));
          case Panic => out := Crashed;
        }
      } else if node.typ == OUTPUT {
        out := RunOutput(node, input);
      } else {
        return Failed(UnknownType(node.typ));
      }
    }
  }

  // ---- properties -------------------------------------------------------

  /** Which handle a node emits, outright: a condition "true", unless its output
      is null, false, the empty string or the number zero, and then "false"; any
      other node the nameless one. */
  lemma EmittedExactly(node: Node, v: Value, handle: string)
    ensures handle in EmittedHandles(node, v) <==>
            if node.typ == "condition" then
              var no := v == Nil || v == Bool(false) || v == Str("") || v == Num(0.0);
              (handle == "true" && !no) || (handle == "false" && no)
            else handle == ""
  {
  }

  /** An agent node succeeds exactly if every skill's server is usable and every
      call is answered; the answers are then those calls' answers in order. */
  lemma {:induction false} SkillAnswersExactly(env: Env, agent: Agent, k: nat, input: Value, calls: nat)
    requires k <= |agent.skills|
    ensures var r := SkillAnswers(env, agent, k, input, calls);
            && (r.0.Ok? <==> forall i :: 0 <= i < k ==>
                  CheckServer(env, agent.skills[i].serverId).Ok?
                  && env.answer(calls + i, SkillCall(agent, agent.skills[i], input)).Some?)
            && (r.0.Ok? ==> r.1 == calls + k && |r.0.value| == k && forall i :: 0 <= i < k ==>
                  env.answer(calls + i, SkillCall(agent, agent.skills[i], input)) == Some(r.0.value[i]))
  {
    hide CheckServer, SkillCall;
    if k > 0 {
      SkillAnswersExactly(env, agent, k - 1, input, calls);
    }
  }

  /** A node that fails or crashes has had no effect, and one node has at most
      one: so stopping at a failed node leaves nothing of it to undo. */
  lemma FailuresHaveNoEffect(env: Env, perms: Permissions, node: Node, input: Value, calls: nat)
    ensures var r := NodeReply(env, perms, node, input, calls);
            && |r.effects| <= 1
            && (!r.out.Output? ==> r.effects == [])
  {
  }

  /** A trigger outputs its value or, without one, that it was triggered and how. */
  lemma TriggerNodeExactly(env: Env, perms: Permissions, node: Node, input: Value, calls: nat)
    requires node.typ == "trigger"
    ensures var r := NodeReply(env, perms, node, input, calls);
            && r.effects == [] && r.calls == calls
            && (node.value != Nil ==> r.out == Output(node.value))
            && (node.value == Nil ==>
                  var how := if node.triggerType == "" then "manual" else node.triggerType;
                  r.out == Output(Map(map["triggered" := Bool(true), "type" := Str(how)])))
  {
  }

  /** A condition outputs what its expression comes to with `result` bound to the
      input, and nothing else. */
  lemma ConditionNodeExactly(env: Env, perms: Permissions, node: Node, input: Value, calls: nat)
    requires node.typ == "condition"
    ensures var r := NodeReply(env, perms, node, input, calls);
            var answer := Expressions.Eval(node.expression, map["result" := input], env.read);
            && r.effects == [] && r.calls == calls
            && (forall v :: r.out == Output(v) <==> answer == Tokens.Val(v))
            && (r.out.Crashed? <==> answer.Panic?)
  {
    hide Expressions.Eval;
  }

  /** An agent node succeeds exactly if its agent is known, the server of every
      skill is known with a transport that parses, and every call is answered.
      Its output is then the agent's name and the answers joined by line breaks,
      in the order of the skills, each called with the input and the prompt. */
  lemma AgentNodeExactly(env: Env, perms: Permissions, node: Node, input: Value, calls: nat, texts: seq<string>)
    requires node.typ == "agent" && node.agentId in env.agents
    requires var agent := env.agents[node.agentId];
             |texts| == |agent.skills| && forall i :: 0 <= i < |texts| ==>
               var skill := agent.skills[i];
               && skill.serverId in env.servers && env.servers[skill.serverId].transportParses
               && env.answer(calls + i, ToolCall(skill.serverId, skill.tool,
                                                 map["input" := input, "prompt" := Str(agent.systemPrompt)]))
                  == Some(texts[i])
    ensures var r := NodeReply(env, perms, node, input, calls);
            && r.effects == [] && r.calls == calls + |texts|
            && r.out == Output(Map(map["agent" := Str(env.agents[node.agentId].name),
                                       "output" := Str(Joined(texts, "\n"))]))
  {
    var agent := env.agents[node.agentId];
    SkillAnswersExactly(env, agent, |agent.skills|, input, calls);
    var answers := SkillAnswers(env, agent, |agent.skills|, input, calls);
    hide SkillAnswers, Joined;
    assert answers.0.Ok?;
    assert answers.0.value == texts;
  }

  lemma AgentNodeFails(env: Env, perms: Permissions, node: Node, input: Value, calls: nat)
    requires node.typ == "agent"
    ensures var r := NodeReply(env, perms, node, input, calls);
            && r.effects == [] && !r.out.Crashed?
            && (r.out.Output? <==>
                  && node.agentId in env.agents
                  && var agent := env.agents[node.agentId];
                     forall i :: 0 <= i < |agent.skills| ==>
                       var skill := agent.skills[i];
                       && skill.serverId in env.servers && env.servers[skill.serverId].transportParses
                       && var call := ToolCall(skill.serverId, skill.tool,
                                               map["input" := input, "prompt" := Str(agent.systemPrompt)]);
                          env.answer(calls + i, call).Some?)
  {
    if node.agentId in env.agents {
      var agent := env.agents[node.agentId];
      SkillAnswersExactly(env, agent, |agent.skills|, input, calls);
      hide SkillAnswers, Joined;
    }
  }

  /** A tool node succeeds exactly if its server is known with a transport that
      parses and the call is answered. The call has the node's arguments, and the
      input as the argument `input` unless they have one. It leaves the answer as
      its one effect and in its output. */
  lemma ToolNodeExactly(env: Env, perms: Permissions, node: Node, input: Value, calls: nat)
    requires node.typ == "mcp_tool"
    ensures var r := NodeReply(env, perms, node, input, calls);
            var args := if "input" in node.arguments then node.arguments else node.arguments["input" := input];
            var usable := node.serverId in env.servers && env.servers[node.serverId].transportParses;
            var answer := env.answer(calls, ToolCall(node.serverId, node.tool, args));
            && r.calls == (if usable then calls + 1 else calls) && !r.out.Crashed?
            && (r.out.Output? <==> usable && answer.Some?)
            && (!r.out.Output? ==> r.effects == [])
            && (r.out.Output? ==>
                  && r.effects == [Effect("mcp_tool", node.serverId + "/" + node.tool, Str(answer.value))]
                  && r.out.v == Map(map["server_id" := Str(node.serverId), "tool" := Str(node.tool),
                                        "output" := Str(answer.value)]))
  {
  }

  /** An output node succeeds exactly if its target is on the list for its kind,
      or it is an HTTP target. It leaves its value there, or its input if the
      value says so. */
  lemma OutputNodeExactly(env: Env, perms: Permissions, node: Node, input: Value, calls: nat)
    requires node.typ == "output"
    ensures var r := NodeReply(env, perms, node, input, calls);
            var value := if node.value == Str("$input") || node.value == Str("$result") then input else node.value;
            && r.calls == calls && !r.out.Crashed?
            && (r.out.Output? <==>
                  || (node.kind == "database" && node.target in perms.databases)
                  || (node.kind == "file" && node.target in perms.files)
                  || (node.kind == "modbus" && node.target in perms.resources)
                  || node.kind == "http")
            && (!r.out.Output? ==> r.effects == [] && r.out == Failed(PermissionDenied(node.kind, node.target)))
            && (r.out.Output? ==>
                  && r.effects == [Effect(node.kind, node.target, value)]
                  && r.out.v == Map(map["kind" := Str(node.kind), "target" := Str(node.target), "value" := value]))
  {
  }

  /** Effect containment, node by node: a database, file or modbus effect names
      an entry of the matching permission list. */
  lemma EffectsArePermitted(env: Env, perms: Permissions, node: Node, input: Value, calls: nat, e: Effect)
    requires ValidNode(node) && e in NodeReply(env, perms, node, input, calls).effects
    ensures e.kind in KINDS
    ensures e.kind == "database" ==> e.target in perms.databases
    ensures e.kind == "file" ==> e.target in perms.files
    ensures e.kind == "modbus" ==> e.target in perms.resources
  {
  }
}
