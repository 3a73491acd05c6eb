/**
 * The execution service's half of the compiler and its reply reader:
 * `convertCanvasToExecutionRequest` with `configureNodeByType` (the preview's
 * compiler without the system prompt and without output mappings), and
 * `extractAIResponse`. The HTTP calls and the execution-state subject are not
 * modelled.
 */
module ExecutionService {
  import opened Wrappers
  import opened Models
  import opened Instructions
  import opened CompilerCommon
  import PreviewWorkflow

  // ---------------------------------------------------------------------------
  // Compilation
  // ---------------------------------------------------------------------------

  /** The agent `config` of the service: a prompt only, and `response_format` under the JSON condition. */
  function AgentConfigService(c: AgentConfig, aliasMap: map<string, string>): (r: NodeConfigOut)
    ensures r.AgentConfigOut? && r.provider == "azure_openai" && r.systemPrompt.None?
    ensures r.prompt == ProcessAgentInstructions(if Truthy(c.instructions) then c.instructions.value else DefaultPrompt, Some(c))
    ensures r.responseFormat.Some? <==> JsonRequested(Some(c))
  {
    AgentConfigOut(
      "azure_openai",
      OrElse(c.model, DefaultModel),
      ResolveAliasVariables(ProcessAgentInstructions(OrElse(c.instructions, DefaultPrompt), Some(c)), aliasMap),
      None,
      0.7, 500, 60,
      if JsonRequested(Some(c)) then Some("json_object") else None)
  }

  /** `configureNodeByType`. */
  function ConfigureNodeByType(n: WorkflowNode, aliasMap: map<string, string>): (r: NodeConfigOut)
    ensures r.AgentConfigOut? ==> r.systemPrompt.None?
  {
    match n.nodeType
    case Start => StartConfigOf(n)
    case End => EndConfigOf(n)
    case Agent =>
      (match AgentConfigOfNode(n)
       case None => NoConfig
       case Some(c) => AgentConfigService(c, aliasMap))
    case Mcp =>
      (match MCPConfigOfNode(n)
       case None => NoConfig
       case Some(c) => McpToolConfigOf(c, aliasMap))
    case _ => NoConfig
  }

  /** One canvas node as the service compiles it: never an output mapping. */
  function ConvertNode(n: WorkflowNode, conns: seq<WorkflowConnection>, aliasMap: map<string, string>): (r: CompiledNode)
    ensures r.id == n.id && r.name == n.labelText && r.alias == n.alias
    ensures r.nodeType == CompiledType(n)
    ensures r.next == NextOf(conns, n.id) && r.dependencies == DependenciesOf(conns, n.id)
    ensures r.outputMapping.None?
  {
    CompiledNode(n.id, CompiledType(n), n.labelText, n.alias, ConfigureNodeByType(n, aliasMap),
                 NextOf(conns, n.id), DependenciesOf(conns, n.id), None)
  }

  const DefaultWorkflowId := "canvas_workflow"

  /** `convertCanvasToExecutionRequest`: the id is `workflowId || 'canvas_workflow'`. */
  function ConvertCanvasToExecutionRequest(nodes: seq<WorkflowNode>, conns: seq<WorkflowConnection>,
                                           userInput: string, workflowId: Option<string>)
    : (r: WorkflowExecutionRequest)
    ensures Truthy(workflowId) ==> r.definition.id == workflowId.value
    ensures !Truthy(workflowId) ==> r.definition.id == "canvas_workflow"
    ensures r.inputData == map["user_request" := userInput] && r.runId.None?
    ensures |r.definition.nodes| == |nodes|
    ensures forall i :: 0 <= i < |nodes| ==>
              && r.definition.nodes[i].id == nodes[i].id
              && r.definition.nodes[i].name == nodes[i].labelText
              && r.definition.nodes[i].alias == nodes[i].alias
              && r.definition.nodes[i].next == NextOf(conns, nodes[i].id)
              && r.definition.nodes[i].dependencies == DependenciesOf(conns, nodes[i].id)
              && r.definition.nodes[i].outputMapping.None?
    ensures forall i :: 0 <= i < |nodes| ==> r.definition.nodes[i] == ConvertNode(nodes[i], conns, CreateAliasMapping(nodes))
  {
    var aliasMap := CreateAliasMapping(nodes);
    WorkflowExecutionRequest(
      Definition(OrElse(workflowId, DefaultWorkflowId), "Canvas Workflow", Some("Workflow generated from visual canvas designer"),
                 seq(|nodes|, i requires 0 <= i < |nodes| => ConvertNode(nodes[i], conns, aliasMap))),
      map["user_request" := userInput],
      None)
  }

  /** What the preview emits beyond the service: the system prompt and the output mapping. */
  function WithoutPreviewExtras(c: CompiledNode): (r: CompiledNode)
    ensures r.outputMapping.None?
    ensures r.id == c.id && r.nodeType == c.nodeType && r.next == c.next && r.dependencies == c.dependencies
  {
    c.(config := if c.config.AgentConfigOut? then c.config.(systemPrompt := None) else c.config,
       outputMapping := None)
  }

  /** The two compilers agree on every node, up to the preview's system prompt and output mapping. */
  lemma CompilersAgreeOnNodes(n: WorkflowNode, conns: seq<WorkflowConnection>, aliasMap: map<string, string>)
    ensures ConvertNode(n, conns, aliasMap) == WithoutPreviewExtras(PreviewWorkflow.ExportNode(n, conns, aliasMap))
  {
  }

  /** Whole requests agree likewise; only the definition's id and description differ. */
  lemma CompilersAgree(nodes: seq<WorkflowNode>, conns: seq<WorkflowConnection>, userInput: string, workflowId: Option<string>)
    ensures var s := ConvertCanvasToExecutionRequest(nodes, conns, userInput, workflowId);
            var p := PreviewWorkflow.ExportWorkflowDefinition(nodes, conns, userInput);
            && s.inputData == p.inputData && s.definition.name == p.definition.name
            && |s.definition.nodes| == |p.definition.nodes|
            && forall i :: 0 <= i < |nodes| ==> s.definition.nodes[i] == WithoutPreviewExtras(p.definition.nodes[i])
  {
    var m := CreateAliasMapping(nodes);
    forall i | 0 <= i < |nodes|
      ensures ConvertNode(nodes[i], conns, m) == WithoutPreviewExtras(PreviewWorkflow.ExportNode(nodes[i], conns, m))
    {
      CompilersAgreeOnNodes(nodes[i], conns, m);
    }
  }

  // ---------------------------------------------------------------------------
  // extractAIResponse
  // ---------------------------------------------------------------------------

  const ExtractFallback := "I received your message but had trouble formatting the response. Please try again."
  const ExtractError := "Error processing AI response. Please try again."

  predicate IsAgentResult(r: NodeResult) { r.nodeType == "agent" }

  /** The least index whose element satisfies `p`. */
  function FirstWhere<T>(xs: seq<T>, p: T -> bool): (r: Option<nat>)
    ensures r.None? <==> forall i :: 0 <= i < |xs| ==> !p(xs[i])
    ensures r.Some? ==> r.value < |xs| && p(xs[r.value]) && forall j :: 0 <= j < r.value ==> !p(xs[j])
    decreases |xs|
  {
    if |xs| == 0 then None
    else if p(xs[0]) then Some(0)
    else
      assert forall i :: 1 <= i < |xs| ==> xs[i] == xs[1..][i - 1];
      match FirstWhere(xs[1..], p)
      case None => None
      case Some(k) => Some(k + 1)
  }

  /** Whether the first agent result exists and carries a truthy response. */
  predicate FirstAgentAnswers(ns: seq<NodeResult>) {
    exists i :: && 0 <= i < |ns| && IsAgentResult(ns[i]) && Truthy(ns[i].response)
                && forall j :: 0 <= j < i ==> !IsAgentResult(ns[j])
  }

  /**
   * `extractAIResponse`: the first agent result's response if truthy, else
   * the first truthy response of any node, else the fallback; a missing
   * `nodes` array makes `.filter` throw, which the `catch` turns into the
   * error text.
   */
  function ExtractAIResponse(resp: WorkflowExecutionResponse): (r: string)
    ensures resp.nodes.None? ==> r == ExtractError
    ensures resp.nodes.Some? ==>
              var ns := resp.nodes.value;
              && (forall i :: (&& 0 <= i < |ns| && IsAgentResult(ns[i]) && Truthy(ns[i].response)
                               && (forall j :: 0 <= j < i ==> !IsAgentResult(ns[j]))) ==> r == ns[i].response.value)
              && ((forall i :: 0 <= i < |ns| ==> !Truthy(ns[i].response)) ==> r == ExtractFallback)
    ensures resp.nodes.Some? ==>
              var ns := resp.nodes.value;
              r == ExtractFallback || exists i :: 0 <= i < |ns| && Truthy(ns[i].response) && r == ns[i].response.value
    ensures resp.nodes.Some? && !FirstAgentAnswers(resp.nodes.value) ==>
              var ns := resp.nodes.value;
              forall k :: (&& 0 <= k < |ns| && Truthy(ns[k].response)
                           && (forall j :: 0 <= j < k ==> !Truthy(ns[j].response))) ==> r == ns[k].response.value
  {
    match resp.nodes
    case None => ExtractError
    case Some(ns) =>
      var firstAgent := FirstWhere(ns, IsAgentResult);
      if firstAgent.Some? && Truthy(ns[firstAgent.value].response) then
        assert FirstAgentAnswers(ns);
        ns[firstAgent.value].response.value
      else
        assert !FirstAgentAnswers(ns) by {
          forall i | 0 <= i < |ns| && IsAgentResult(ns[i]) && forall j :: 0 <= j < i ==> !IsAgentResult(ns[j])
            ensures !Truthy(ns[i].response)
          {
            assert firstAgent.Some? && firstAgent.value == i;
          }
        }
        match FirstWhere(ns, TruthyResponse)
        case None => ExtractFallback
        case Some(k) => ns[k].response.value
  }

  predicate TruthyResponse(n: NodeResult) { Truthy(n.response) }

  /** When the first agent has no response, the first node with one answers, even if it is not an agent. */
  lemma SilentAgentFallsThrough(resp: WorkflowExecutionResponse, k: nat)
    requires resp.nodes.Some? && k < |resp.nodes.value|
    requires forall i :: 0 <= i < |resp.nodes.value| && IsAgentResult(resp.nodes.value[i]) ==> !Truthy(resp.nodes.value[i].response)
    requires Truthy(resp.nodes.value[k].response)
    requires forall j :: 0 <= j < k ==> !Truthy(resp.nodes.value[j].response)
    ensures ExtractAIResponse(resp) == resp.nodes.value[k].response.value
  {
    var ns := resp.nodes.value;
    var firstAgent := FirstWhere(ns, IsAgentResult);
    var p := (n: NodeResult) => Truthy(n.response);
    var f := FirstWhere(ns, p);
    assert f.Some? by { assert p(ns[k]); }
  }
}
