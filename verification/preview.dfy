/**
 * The preview panel: `exportWorkflowDefinition` compiles the canvas into an
 * execution request (with a system prompt and output mappings),
 * `validateWorkflowForPreview` gates the chat, `formatWorkflowResponse`
 * digs the reply out of the backend's JSON, and `sendChatMessage` is a
 * guarded two-phase exchange: the request goes out, and the reply (or the
 * failure) comes back later. The HTTP call is a parameter: the reply as a
 * JSON value, or `None` when the call throws.
 */
module PreviewWorkflow {
  import opened Wrappers
  import opened Text
  import opened Models
  import opened Instructions
  import opened CompilerCommon

  // ---------------------------------------------------------------------------
  // Output mapping
  // ---------------------------------------------------------------------------

  /** The variable one schema property of node `nodeId` is published as. */
  function OutputVariableOf(nodeId: string, p: SchemaProperty): (v: OutputVariable)
    ensures v.path == "nodes." + nodeId + ".output." + p.name
    ensures v.varType == SchemaTypeName(p.propType)
    ensures Truthy(p.description) ==> v.description == p.description.value
    ensures !Truthy(p.description) ==> v.description == "Output property: " + p.name
  {
    OutputVariable("nodes." + nodeId + ".output." + p.name, SchemaTypeName(p.propType),
                   OrElse(p.description, "Output property: " + p.name))
  }

  /**
   * `generateOutputMapping`: one output variable per property name (a later
   * property with the same name overwrites an earlier one), each under
   * `nodes.<nodeId>.output.<name>`, its description defaulting to
   * `Output property: <name>`.
   */
  function GenerateOutputMapping(schema: JsonSchema, nodeId: string): (r: OutputMapping)
    ensures r.nodeId == nodeId
    ensures forall k :: k in r.outputVariables <==> exists i :: 0 <= i < |schema.properties| && schema.properties[i].name == k
    ensures forall k :: k in r.outputVariables ==> r.outputVariables[k].path == "nodes." + nodeId + ".output." + k
    ensures forall k :: k in r.outputVariables ==>
              exists i :: && 0 <= i < |schema.properties| && schema.properties[i].name == k
                          && r.outputVariables[k].varType == SchemaTypeName(schema.properties[i].propType)
                          && (Truthy(schema.properties[i].description) ==> r.outputVariables[k].description == schema.properties[i].description.value)
                          && (!Truthy(schema.properties[i].description) ==> r.outputVariables[k].description == "Output property: " + k)
    ensures forall k :: k in r.outputVariables ==>
              && LastNamed(schema.properties, k).Some?
              && r.outputVariables[k] == OutputVariableOf(nodeId, schema.properties[LastNamed(schema.properties, k).value])
  {
    var vars := LastWins(schema.properties, KeepAll, PropertyName, OutputVariableFor(nodeId));
    OutputMappingKeys(schema.properties, nodeId);
    OutputMappingValues(schema.properties, nodeId);
    OutputMappingDescribed(schema.properties, nodeId);
    OutputMapping(nodeId, vars)
  }

  // The loop of `generateOutputMapping` as an instance of `LastWins`: every
  // property is kept and keyed by its name.

  predicate KeepAll(p: SchemaProperty) { true }
  function PropertyName(p: SchemaProperty): string { p.name }
  function OutputVariableFor(nodeId: string): SchemaProperty -> OutputVariable {
    p => OutputVariableOf(nodeId, p)
  }

  lemma OutputMappingKeys(props: seq<SchemaProperty>, nodeId: string)
    ensures var vars := LastWins(props, KeepAll, PropertyName, OutputVariableFor(nodeId));
            forall k :: k in vars <==> exists i :: 0 <= i < |props| && props[i].name == k
  {
    var vars := LastWins(props, KeepAll, PropertyName, OutputVariableFor(nodeId));
    forall k ensures k in vars <==> exists i :: 0 <= i < |props| && props[i].name == k {
      if exists i :: 0 <= i < |props| && props[i].name == k {
        var i :| 0 <= i < |props| && props[i].name == k;
        assert KeepAll(props[i]) && PropertyName(props[i]) == k;
      }
    }
  }

  lemma OutputMappingDescribed(props: seq<SchemaProperty>, nodeId: string)
    ensures var vars := LastWins(props, KeepAll, PropertyName, OutputVariableFor(nodeId));
            && (forall k :: k in vars ==> vars[k].path == "nodes." + nodeId + ".output." + k)
            && forall k :: k in vars ==>
                 exists i :: && 0 <= i < |props| && props[i].name == k
                             && vars[k].varType == SchemaTypeName(props[i].propType)
                             && (Truthy(props[i].description) ==> vars[k].description == props[i].description.value)
                             && (!Truthy(props[i].description) ==> vars[k].description == "Output property: " + k)
  {
    var vars := LastWins(props, KeepAll, PropertyName, OutputVariableFor(nodeId));
    forall k | k in vars
      ensures vars[k].path == "nodes." + nodeId + ".output." + k
      ensures exists i :: && 0 <= i < |props| && props[i].name == k
                          && vars[k].varType == SchemaTypeName(props[i].propType)
                          && (Truthy(props[i].description) ==> vars[k].description == props[i].description.value)
                          && (!Truthy(props[i].description) ==> vars[k].description == "Output property: " + k)
    {
      var i := LastKept(props, KeepAll, PropertyName, k).value;
      assert vars[k] == OutputVariableFor(nodeId)(props[i]);
      assert props[i].name == k;
    }
  }

  /** The index of the last property named `k`, if any. */
  function LastNamed(props: seq<SchemaProperty>, k: string): (r: Option<nat>)
    ensures r.None? <==> forall i :: 0 <= i < |props| ==> props[i].name != k
    ensures r.Some? ==> && r.value < |props| && props[r.value].name == k
                        && forall j :: r.value < j < |props| ==> props[j].name != k
  {
    LastKept(props, KeepAll, PropertyName, k)
  }

  lemma OutputMappingValues(props: seq<SchemaProperty>, nodeId: string)
    ensures var vars := LastWins(props, KeepAll, PropertyName, OutputVariableFor(nodeId));
            forall k :: k in vars ==>
              && LastNamed(props, k).Some?
              && vars[k] == OutputVariableOf(nodeId, props[LastNamed(props, k).value])
  {
    var vars := LastWins(props, KeepAll, PropertyName, OutputVariableFor(nodeId));
    forall k | k in vars
      ensures LastNamed(props, k).Some? && vars[k] == OutputVariableOf(nodeId, props[LastNamed(props, k).value])
    {
      assert vars[k] == OutputVariableFor(nodeId)(props[LastKept(props, KeepAll, PropertyName, k).value]);
    }
  }

  // ---------------------------------------------------------------------------
  // Node compilation
  // ---------------------------------------------------------------------------

  /** The agent `config` of the preview: prompt and system prompt share the instructions, with different defaults. */
  function AgentConfigPreview(c: AgentConfig, aliasMap: map<string, string>): (r: NodeConfigOut)
    ensures r.AgentConfigOut? && r.provider == "azure_openai"
    ensures r.model == if Truthy(c.model) then c.model.value else DefaultModel
    ensures r.prompt == ProcessAgentInstructions(if Truthy(c.instructions) then c.instructions.value else DefaultPrompt, Some(c))
    ensures r.systemPrompt == Some(ProcessAgentInstructions(if Truthy(c.instructions) then c.instructions.value else DefaultSystemPrompt, Some(c)))
    ensures r.temperature == 0.7 && r.maxTokens == 500 && r.timeout == 60
    ensures r.responseFormat.Some? <==> JsonRequested(Some(c))
    ensures r.responseFormat.Some? ==> r.responseFormat.value == "json_object"
  {
    AgentConfigOut(
      "azure_openai",
      OrElse(c.model, DefaultModel),
      ResolveAliasVariables(ProcessAgentInstructions(OrElse(c.instructions, DefaultPrompt), Some(c)), aliasMap),
      Some(ResolveAliasVariables(ProcessAgentInstructions(OrElse(c.instructions, DefaultSystemPrompt), Some(c)), aliasMap)),
      0.7, 500, 60,
      if JsonRequested(Some(c)) then Some("json_object") else None)
  }

  /** The `config` and `output_mapping` the preview emits for one node. */
  function PreviewConfig(n: WorkflowNode, aliasMap: map<string, string>): (r: (NodeConfigOut, Option<OutputMapping>))
    ensures r.1.Some? <==> n.nodeType == Agent && JsonRequested(AgentConfigOfNode(n))
  {
    match n.nodeType
    case Start => (StartConfigOf(n), None)
    case End => (EndConfigOf(n), None)
    case Agent =>
      (match AgentConfigOfNode(n)
       case None => (NoConfig, None)
       case Some(c) =>
         (AgentConfigPreview(c, aliasMap),
          if JsonRequested(Some(c)) then Some(GenerateOutputMapping(c.jsonSchema.value, n.id)) else None))
    case Mcp =>
      (match MCPConfigOfNode(n)
       case None => (NoConfig, None)
       case Some(c) => (McpToolConfigOf(c, aliasMap), None))
    case _ => (NoConfig, None)
  }

  /** One canvas node as the preview compiles it. */
  function ExportNode(n: WorkflowNode, conns: seq<WorkflowConnection>, aliasMap: map<string, string>): (r: CompiledNode)
    ensures r.id == n.id && r.name == n.labelText && r.alias == n.alias
    ensures r.nodeType == CompiledType(n)
    ensures r.next == NextOf(conns, n.id) && r.dependencies == DependenciesOf(conns, n.id)
  {
    var (config, mapping) := PreviewConfig(n, aliasMap);
    CompiledNode(n.id, CompiledType(n), n.labelText, n.alias, config, NextOf(conns, n.id), DependenciesOf(conns, n.id), mapping)
  }

  const PreviewWorkflowId := "canvas_preview_workflow"

  /** `exportWorkflowDefinition`: one compiled node per canvas node, in canvas order, and the user's message as input. */
  function ExportWorkflowDefinition(nodes: seq<WorkflowNode>, conns: seq<WorkflowConnection>, userInput: string)
    : (r: WorkflowExecutionRequest)
    ensures r.definition.id == "canvas_preview_workflow" && r.definition.name == "Canvas Workflow"
    ensures r.inputData == map["user_request" := userInput] && r.runId.None?
    ensures |r.definition.nodes| == |nodes|
    ensures forall i :: 0 <= i < |nodes| ==>
              && r.definition.nodes[i].id == nodes[i].id
              && r.definition.nodes[i].name == nodes[i].labelText
              && r.definition.nodes[i].alias == nodes[i].alias
              && r.definition.nodes[i].next == NextOf(conns, nodes[i].id)
              && r.definition.nodes[i].dependencies == DependenciesOf(conns, nodes[i].id)
    ensures forall i :: 0 <= i < |nodes| ==> r.definition.nodes[i] == ExportNode(nodes[i], conns, CreateAliasMapping(nodes))
  {
    var aliasMap := CreateAliasMapping(nodes);
    WorkflowExecutionRequest(
      Definition(PreviewWorkflowId, "Canvas Workflow", Some("Interactive workflow generated from visual canvas designer"),
                 seq(|nodes|, i requires 0 <= i < |nodes| => ExportNode(nodes[i], conns, aliasMap))),
      map["user_request" := userInput],
      None)
  }

  /** What each node type compiles to in the preview. */
  lemma ExportConfigByType(n: WorkflowNode, conns: seq<WorkflowConnection>, aliasMap: map<string, string>)
    ensures var r := ExportNode(n, conns, aliasMap);
            && (n.nodeType == Start ==> r.config == StartConfig(n.labelText, "Start workflow execution"))
            && (n.nodeType == End ==> r.config == EndConfig(n.labelText, "End workflow execution", true))
            && (n.nodeType == Agent && AgentConfigOfNode(n).Some? ==>
                  && r.config.AgentConfigOut? && r.config.systemPrompt.Some?
                  && (r.config.responseFormat.Some? <==> JsonRequested(AgentConfigOfNode(n)))
                  && (r.outputMapping.Some? <==> JsonRequested(AgentConfigOfNode(n))))
            && (n.nodeType == Mcp && MCPConfigOfNode(n).Some? ==> r.nodeType == "mcp_tool" && r.config.McpToolConfig?)
            && ((n.nodeType in {IfElse, Sequential, Parallel}
                 || (n.nodeType == Agent && AgentConfigOfNode(n).None?)
                 || (n.nodeType == Mcp && MCPConfigOfNode(n).None?)) ==>
                  r.config == NoConfig && r.nodeType == NodeTypeName(n.nodeType) && r.outputMapping.None?)
  {
  }

  /** A JSON agent's output mapping is keyed by the node id and lists exactly its schema's property names. */
  lemma ExportOutputMappingCoversSchema(n: WorkflowNode, conns: seq<WorkflowConnection>, aliasMap: map<string, string>)
    requires n.nodeType == Agent && JsonRequested(AgentConfigOfNode(n))
    ensures var r := ExportNode(n, conns, aliasMap);
            var props := AgentConfigOfNode(n).value.jsonSchema.value.properties;
            && r.outputMapping.Some? && r.outputMapping.value.nodeId == n.id
            && forall k :: k in r.outputMapping.value.outputVariables <==> exists i :: 0 <= i < |props| && props[i].name == k
  {
  }

  // ---------------------------------------------------------------------------
  // Preview gate
  // ---------------------------------------------------------------------------

  /** `nodes.some(node => node.type === t)`. */
  function HasNodeOfType(nodes: seq<WorkflowNode>, t: NodeType): (r: bool)
    ensures r <==> exists i :: 0 <= i < |nodes| && nodes[i].nodeType == t
    decreases |nodes|
  {
    if |nodes| == 0 then false
    else if nodes[0].nodeType == t then true
    else
      assert forall i :: 1 <= i < |nodes| ==> nodes[i] == nodes[1..][i - 1];
      HasNodeOfType(nodes[1..], t)
  }

  /** `validateWorkflowForPreview`: at least one start, one agent and one end node. */
  function ValidateWorkflowForPreview(nodes: seq<WorkflowNode>): (r: bool)
    ensures r <==> && (exists i :: 0 <= i < |nodes| && nodes[i].nodeType == Start)
                   && (exists i :: 0 <= i < |nodes| && nodes[i].nodeType == Agent)
                   && (exists i :: 0 <= i < |nodes| && nodes[i].nodeType == End)
  {
    HasNodeOfType(nodes, Start) && HasNodeOfType(nodes, Agent) && HasNodeOfType(nodes, End)
  }

  // ---------------------------------------------------------------------------
  // Reply extraction
  // ---------------------------------------------------------------------------

  /** JavaScript truthiness of a JSON value. */
  predicate TruthyValue(v: Value) {
    match v
    case Str(s) => s != ""
    case Num(n) => n != 0
    case Bool(b) => b
    case Null => false
    case Undefined => false
    case Arr(_) => true
    case Obj(_) => true
  }

  /** `v?.[key]`: an object's member (the last one with that key, as `JSON.parse` keeps), otherwise `undefined`. */
  function Member(v: Value, key: string): (r: Value)
    ensures !v.Obj? ==> r == Undefined
  {
    match v
    case Obj(fields) =>
      (match LastKept(fields, (f: Field) => true, (f: Field) => f.key, key)
       case None => Undefined
       case Some(i) => fields[i].value)
    case _ => Undefined
  }

  /** `v?.k1?.k2…`: optional chaining along a path of keys. */
  function PathGet(v: Value, path: seq<string>): Value
    decreases |path|
  {
    if |path| == 0 then v else PathGet(Member(v, path[0]), path[1..])
  }

  /** The four places a reply is looked for, in the order they are tried. */
  const ResponsePaths: seq<seq<string>> := [
    ["output", "agent", "full", "response"],
    ["node_results", "agent", "output", "response"],
    ["execution_result", "node_outputs", "agent", "output", "response"],
    ["response"]]

  const FormatFallback := "I received your message but had trouble formatting the response. Please try again."

  /** The first truthy candidate, or the fallback when none is. */
  function FirstTruthy(cands: seq<Value>, fallback: Value): (r: Value)
    ensures (forall i :: 0 <= i < |cands| ==> !TruthyValue(cands[i])) ==> r == fallback
    ensures (exists i :: 0 <= i < |cands| && TruthyValue(cands[i])) ==>
              exists i :: && 0 <= i < |cands| && TruthyValue(cands[i]) && r == cands[i]
                          && forall j :: 0 <= j < i ==> !TruthyValue(cands[j])
    decreases |cands|
  {
    if |cands| == 0 then fallback
    else if TruthyValue(cands[0]) then cands[0]
    else
      var r := FirstTruthy(cands[1..], fallback);
      assert forall i :: 1 <= i < |cands| ==> cands[i] == cands[1..][i - 1];
      if exists i :: 0 <= i < |cands| && TruthyValue(cands[i]) then
        var k :| && 0 <= k < |cands[1..]| && TruthyValue(cands[1..][k]) && r == cands[1..][k]
                 && forall j :: 0 <= j < k ==> !TruthyValue(cands[1..][j]);
        assert forall j :: 0 <= j < k + 1 ==> !TruthyValue(cands[j]) by {
          forall j | 0 <= j < k + 1 ensures !TruthyValue(cands[j]) {
            if j > 0 { assert cands[j] == cands[1..][j - 1]; }
          }
        }
        r
      else r
  }

  /** `formatWorkflowResponse`: the first truthy value found along the four paths, else the fixed apology. */
  function FormatWorkflowResponse(response: Value): (r: Value)
    ensures (forall i :: 0 <= i < 4 ==> !TruthyValue(PathGet(response, ResponsePaths[i]))) ==> r == Str(FormatFallback)
    ensures (exists i :: 0 <= i < 4 && TruthyValue(PathGet(response, ResponsePaths[i]))) ==>
              exists i :: && 0 <= i < 4 && TruthyValue(PathGet(response, ResponsePaths[i]))
                          && r == PathGet(response, ResponsePaths[i])
                          && forall j :: 0 <= j < i ==> !TruthyValue(PathGet(response, ResponsePaths[j]))
  {
    var cands := seq(4, i requires 0 <= i < 4 => PathGet(response, ResponsePaths[i]));
    assert forall i :: 0 <= i < 4 ==> cands[i] == PathGet(response, ResponsePaths[i]);
    var r := FirstTruthy(cands, Str(FormatFallback));
    assert (exists i :: 0 <= i < 4 && TruthyValue(PathGet(response, ResponsePaths[i]))) ==>
              exists i :: && 0 <= i < 4 && TruthyValue(PathGet(response, ResponsePaths[i]))
                          && r == PathGet(response, ResponsePaths[i])
                          && forall j :: 0 <= j < i ==> !TruthyValue(PathGet(response, ResponsePaths[j])) by {
      if exists i :: 0 <= i < 4 && TruthyValue(PathGet(response, ResponsePaths[i])) {
        var i :| 0 <= i < 4 && TruthyValue(PathGet(response, ResponsePaths[i]));
        assert TruthyValue(cands[i]);
      }
    }
    r
  }

  /** A bare `{ "response": … }` reply is shown as is, since no earlier path exists in it. */
  lemma BareResponseShown(text: string)
    requires text != ""
    ensures FormatWorkflowResponse(Obj([Field("response", Str(text))])) == Str(text)
  {
    var v := Obj([Field("response", Str(text))]);
    assert Member(v, "response") == Str(text);
    assert Member(v, "output") == Undefined;
    assert Member(v, "node_results") == Undefined;
    assert Member(v, "execution_result") == Undefined;
    assert PathGet(v, ResponsePaths[0]) == Undefined;
    assert PathGet(v, ResponsePaths[1]) == Undefined;
    assert PathGet(v, ResponsePaths[2]) == Undefined;
    assert PathGet(v, ResponsePaths[3]) == Str(text);
  }

  // ---------------------------------------------------------------------------
  // The chat exchange
  // ---------------------------------------------------------------------------

  datatype Role = UserRole | AssistantRole

  /** A chat bubble; its id and timestamp are not modelled. */
  datatype ChatMessage = ChatMessage(role: Role, content: Value)

  datatype Chat = Chat(messages: seq<ChatMessage>, input: string, executing: bool)

  const WelcomeText := "Hello! I'm your AI Assistant. This is a preview of your workflow. Send me a message to test how your workflow responds."
  const ErrorReply := "I apologize, but I encountered an error while processing your request. This might be because the workflow execution backend isn't running or there's a configuration issue. Please check that your workflow nodes are properly configured."

  /** `initializePreview`: an invalid workflow leaves the chat alone; otherwise it restarts with the welcome message. */
  function InitializePreview(chat: Chat, nodes: seq<WorkflowNode>): (r: Chat)
    ensures !ValidateWorkflowForPreview(nodes) ==> r == chat
    ensures ValidateWorkflowForPreview(nodes) ==>
              r.input == "" && !r.executing && r.messages == [ChatMessage(AssistantRole, Str(WelcomeText))]
  {
    if !ValidateWorkflowForPreview(nodes) then chat
    else Chat([ChatMessage(AssistantRole, Str(WelcomeText))], "", false)
  }

  /**
   * The chat side of the synchronous half of `sendChatMessage`: a blank
   * message or a send while another is in flight does nothing at all (the
   * input is not even cleared); otherwise the trimmed message is posted, the
   * input cleared, the flag raised, and the message handed on for sending.
   */
  function BeginSend(chat: Chat): (r: (Chat, Option<string>))
    ensures r.1.None? <==> IsBlank(chat.input) || chat.executing
    ensures r.1.None? ==> r.0 == chat
    ensures r.1.Some? ==>
              && r.1.value == Trim(chat.input) && r.1.value != ""
              && r.0.executing && r.0.input == ""
              && r.0.messages == chat.messages + [ChatMessage(UserRole, Str(r.1.value))]
  {
    var message := Trim(chat.input);
    TrimEmptyIffBlank(chat.input);
    if message == "" || chat.executing then (chat, None)
    else (Chat(chat.messages + [ChatMessage(UserRole, Str(message))], "", true), Some(message))
  }

  /** The synchronous half of `sendChatMessage`: the chat update, and the compiled request when a message goes out. */
  function SendChatMessage(chat: Chat, nodes: seq<WorkflowNode>, conns: seq<WorkflowConnection>)
    : (r: (Chat, Option<WorkflowExecutionRequest>))
    ensures r.0 == BeginSend(chat).0
    ensures r.1.Some? <==> BeginSend(chat).1.Some?
    ensures r.1.Some? ==>
              && r.1.value.inputData == map["user_request" := Trim(chat.input)]
              && |r.1.value.definition.nodes| == |nodes|
              && r.1.value == ExportWorkflowDefinition(nodes, conns, Trim(chat.input))
  {
    var (next, message) := BeginSend(chat);
    match message
    case None => (next, None)
    case Some(m) => (next, Some(ExportWorkflowDefinition(nodes, conns, m)))
  }

  /** Posting an assistant reply and, as `finally` does, lowering the flag. */
  function PostReply(chat: Chat, reply: Value): (r: Chat)
    ensures !r.executing && r.input == chat.input
    ensures |r.messages| == |chat.messages| + 1 && r.messages[..|chat.messages|] == chat.messages
    ensures r.messages[|chat.messages|] == ChatMessage(AssistantRole, reply)
  {
    Chat(chat.messages + [ChatMessage(AssistantRole, reply)], chat.input, false)
  }

  /** The asynchronous half of `sendChatMessage`: the formatted reply, or the apology when the call threw. */
  function CompleteSend(chat: Chat, outcome: Option<Value>): (r: Chat)
    ensures r == PostReply(chat, if outcome.None? then Str(ErrorReply) else FormatWorkflowResponse(outcome.value))
    ensures outcome.None? ==> r.messages[|chat.messages|].content == Str(ErrorReply)
  {
    match outcome
    case None => PostReply(chat, Str(ErrorReply))
    case Some(v) => PostReply(chat, FormatWorkflowResponse(v))
  }

  /** A whole exchange: either nothing happens, or exactly the user's message and one reply are added and the flag ends lowered. */
  lemma SendChatMessageExchange(chat: Chat, reply: Value)
    requires !chat.executing && !IsBlank(chat.input)
    ensures var (sent, message) := BeginSend(chat);
            var done := PostReply(sent, reply);
            && message.Some? && !done.executing && done.input == ""
            && done.messages == chat.messages + [ChatMessage(UserRole, Str(Trim(chat.input))), ChatMessage(AssistantRole, reply)]
  {
    var (sent, message) := BeginSend(chat);
    var done := PostReply(sent, reply);
    assert done.messages == sent.messages + [ChatMessage(AssistantRole, reply)];
  }

  /** While a request is in flight a second send is ignored, so at most one request is outstanding. */
  lemma AtMostOneRequestInFlight(chat: Chat, nodes: seq<WorkflowNode>, conns: seq<WorkflowConnection>, typed: string)
    requires SendChatMessage(chat, nodes, conns).1.Some?
    ensures var sent := SendChatMessage(chat, nodes, conns).0;
            SendChatMessage(sent.(input := typed), nodes, conns) == (sent.(input := typed), None)
  {
  }
}
