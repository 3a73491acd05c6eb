/**
 * The pieces both workflow compilers (the preview's `exportWorkflowDefinition`
 * and the execution service's `convertCanvasToExecutionRequest`) share: the
 * `next`/`dependencies` lists derived from connections, the alias-to-id map,
 * the alias resolver that leaves every value as it is, and the MCP tool
 * configuration with its `||` defaults.
 */
module CompilerCommon {
  import opened Wrappers
  import opened Models
  import opened Aliases

  // ---------------------------------------------------------------------------
  // next / dependencies
  // ---------------------------------------------------------------------------

  /** `connections.filter(c => c.sourceNodeId === id).map(c => c.targetNodeId)`. */
  function NextOf(conns: seq<WorkflowConnection>, id: string): (r: seq<string>)
    ensures |r| <= |conns|
    ensures forall t :: t in r <==> exists k :: 0 <= k < |conns| && conns[k].sourceNodeId == id && conns[k].targetNodeId == t
    decreases |conns|
  {
    if |conns| == 0 then []
    else
      var rest := NextOf(conns[..|conns| - 1], id);
      var c := conns[|conns| - 1];
      assert forall k :: 0 <= k < |conns| - 1 ==> conns[..|conns| - 1][k] == conns[k];
      if c.sourceNodeId == id then rest + [c.targetNodeId] else rest
  }

  /** `connections.filter(c => c.targetNodeId === id).map(c => c.sourceNodeId)`. */
  function DependenciesOf(conns: seq<WorkflowConnection>, id: string): (r: seq<string>)
    ensures |r| <= |conns|
    ensures forall s :: s in r <==> exists k :: 0 <= k < |conns| && conns[k].targetNodeId == id && conns[k].sourceNodeId == s
    decreases |conns|
  {
    if |conns| == 0 then []
    else
      var rest := DependenciesOf(conns[..|conns| - 1], id);
      var c := conns[|conns| - 1];
      assert forall k :: 0 <= k < |conns| - 1 ==> conns[..|conns| - 1][k] == conns[k];
      if c.targetNodeId == id then rest + [c.sourceNodeId] else rest
  }

  /** The number of connections leaving `id`. */
  function OutDegree(conns: seq<WorkflowConnection>, id: string): nat {
    |set k | 0 <= k < |conns| && conns[k].sourceNodeId == id|
  }

  /** A later connection extends `next` at the end, so `next` follows connection order. */
  lemma NextOfAppend(conns: seq<WorkflowConnection>, c: WorkflowConnection, id: string)
    ensures NextOf(conns + [c], id) == NextOf(conns, id) + (if c.sourceNodeId == id then [c.targetNodeId] else [])
  {
    assert (conns + [c])[..|conns|] == conns;
  }

  /** Likewise for `dependencies`. */
  lemma DependenciesOfAppend(conns: seq<WorkflowConnection>, c: WorkflowConnection, id: string)
    ensures DependenciesOf(conns + [c], id) == DependenciesOf(conns, id) + (if c.targetNodeId == id then [c.sourceNodeId] else [])
  {
    assert (conns + [c])[..|conns|] == conns;
  }

  /** A connection A→B puts B in A's `next` and A in B's `dependencies`; dangling ids are kept. */
  lemma ConnectionListedBothWays(conns: seq<WorkflowConnection>, k: nat)
    requires k < |conns|
    ensures conns[k].targetNodeId in NextOf(conns, conns[k].sourceNodeId)
    ensures conns[k].sourceNodeId in DependenciesOf(conns, conns[k].targetNodeId)
  {
  }

  /** `next` has one entry per outgoing connection, duplicates included. */
  lemma {:induction false} NextOfCountsOutgoing(conns: seq<WorkflowConnection>, id: string)
    ensures |NextOf(conns, id)| == OutDegree(conns, id)
    decreases |conns|
  {
    if |conns| > 0 {
      var init := conns[..|conns| - 1];
      NextOfCountsOutgoing(init, id);
      var before := set k | 0 <= k < |init| && init[k].sourceNodeId == id;
      var after := set k | 0 <= k < |conns| && conns[k].sourceNodeId == id;
      if conns[|conns| - 1].sourceNodeId == id {
        assert after == before + {|conns| - 1};
      } else {
        assert after == before;
      }
    }
  }

  // ---------------------------------------------------------------------------
  // Keyed objects built by repeated assignment
  // ---------------------------------------------------------------------------

  /** The last element of `xs` that is kept and carries key `k`. */
  function LastKept<T>(xs: seq<T>, keep: T -> bool, key: T -> string, k: string): (r: Option<nat>)
    ensures r.None? <==> forall i :: 0 <= i < |xs| ==> !(keep(xs[i]) && key(xs[i]) == k)
    ensures r.Some? ==> && r.value < |xs| && keep(xs[r.value]) && key(xs[r.value]) == k
                        && forall j :: r.value < j < |xs| ==> !(keep(xs[j]) && key(xs[j]) == k)
    decreases |xs|
  {
    if |xs| == 0 then None
    else if keep(xs[|xs| - 1]) && key(xs[|xs| - 1]) == k then Some(|xs| - 1)
    else
      var init := xs[..|xs| - 1];
      assert forall i :: 0 <= i < |init| ==> init[i] == xs[i];
      LastKept(init, keep, key, k)
  }

  /**
   * `for (const x of xs) if (keep(x)) obj[key(x)] = val(x)`: the keys are
   * those of the kept elements, and each maps to the value of the LAST kept
   * element carrying it.
   */
  function LastWins<T, V>(xs: seq<T>, keep: T -> bool, key: T -> string, val: T -> V): (m: map<string, V>)
    ensures forall k :: k in m <==> LastKept(xs, keep, key, k).Some?
    ensures forall k :: k in m ==> m[k] == val(xs[LastKept(xs, keep, key, k).value])
    decreases |xs|
  {
    if |xs| == 0 then map[]
    else
      var init := xs[..|xs| - 1];
      var x := xs[|xs| - 1];
      var m0 := LastWins(init, keep, key, val);
      if keep(x) then m0[key(x) := val(x)] else m0
  }

  /** `createAliasMapping`: every non-empty alias maps to the id of the last node carrying it. */
  function CreateAliasMapping(nodes: seq<WorkflowNode>): (m: map<string, string>)
    ensures forall a :: a in m <==> a != "" && exists i :: 0 <= i < |nodes| && nodes[i].alias == a
    ensures forall a :: a in m ==>
              exists i :: && 0 <= i < |nodes| && nodes[i].alias == a && m[a] == nodes[i].id
                          && forall j :: i < j < |nodes| ==> nodes[j].alias != a
  {
    AliasMappingKeys(nodes);
    AliasMappingValues(nodes);
    LastWins(nodes, HasAlias, AliasOf, IdOf)
  }

  predicate HasAlias(n: WorkflowNode) { n.alias != "" }
  function AliasOf(n: WorkflowNode): string { n.alias }
  function IdOf(n: WorkflowNode): string { n.id }

  lemma AliasMappingKeys(nodes: seq<WorkflowNode>)
    ensures var m := LastWins(nodes, HasAlias, AliasOf, IdOf);
            forall a :: a in m <==> a != "" && exists i :: 0 <= i < |nodes| && nodes[i].alias == a
  {
    var m := LastWins(nodes, HasAlias, AliasOf, IdOf);
    forall a ensures a in m <==> a != "" && exists i :: 0 <= i < |nodes| && nodes[i].alias == a {
      if a != "" && exists i :: 0 <= i < |nodes| && nodes[i].alias == a {
        var i :| 0 <= i < |nodes| && nodes[i].alias == a;
        assert HasAlias(nodes[i]) && AliasOf(nodes[i]) == a;
      }
    }
  }

  lemma AliasMappingValues(nodes: seq<WorkflowNode>)
    ensures var m := LastWins(nodes, HasAlias, AliasOf, IdOf);
            forall a :: a in m ==>
              exists i :: && 0 <= i < |nodes| && nodes[i].alias == a && m[a] == nodes[i].id
                          && forall j :: i < j < |nodes| ==> nodes[j].alias != a
  {
    var m := LastWins(nodes, HasAlias, AliasOf, IdOf);
    forall a | a in m
      ensures exists i :: && 0 <= i < |nodes| && nodes[i].alias == a && m[a] == nodes[i].id
                          && forall j :: i < j < |nodes| ==> nodes[j].alias != a
    {
      var i := LastKept(nodes, HasAlias, AliasOf, a).value;
      forall j | i < j < |nodes| ensures nodes[j].alias != a {
        assert !(HasAlias(nodes[j]) && AliasOf(nodes[j]) == a);
      }
    }
  }

  /** With unique aliases the mapping sends each node's alias to that node's id. */
  lemma AliasMappingInvertsAliases(nodes: seq<WorkflowNode>, i: nat)
    requires AliasesUnique(nodes)
    requires i < |nodes| && nodes[i].alias != ""
    ensures nodes[i].alias in CreateAliasMapping(nodes)
    ensures CreateAliasMapping(nodes)[nodes[i].alias] == nodes[i].id
  {
    var m := CreateAliasMapping(nodes);
    var a := nodes[i].alias;
    var k :| && 0 <= k < |nodes| && nodes[k].alias == a && m[a] == nodes[k].id
             && forall j :: k < j < |nodes| ==> nodes[j].alias != a;
  }

  // ---------------------------------------------------------------------------
  // Alias resolution (identity: the backend understands aliases itself)
  // ---------------------------------------------------------------------------

  /** `resolveAliasVariables`: the text is returned as it is, whatever the map holds. */
  function ResolveAliasVariables(text: string, aliasMap: map<string, string>): string {
    text
  }

  /** `resolveAliasVariablesInObject`: strings resolved, arrays and objects rebuilt element by element, the rest returned as is. */
  function ResolveInObject(v: Value, aliasMap: map<string, string>): Value
    decreases v
  {
    match v
    case Str(s) => Str(ResolveAliasVariables(s, aliasMap))
    case Arr(items) => Arr(seq(|items|, i requires 0 <= i < |items| => ResolveInObject(items[i], aliasMap)))
    case Obj(fields) => Obj(ResolveFields(v, fields, aliasMap))
    case _ => v
  }

  function ResolveFields(parent: Value, fields: seq<Field>, aliasMap: map<string, string>): seq<Field>
    requires forall i :: 0 <= i < |fields| ==> fields[i].value < parent
    decreases parent, |fields|
  {
    if |fields| == 0 then []
    else [Field(fields[0].key, ResolveInObject(fields[0].value, aliasMap))] + ResolveFields(parent, fields[1..], aliasMap)
  }

  /** Resolution preserves every value exactly, however deeply nested. */
  lemma {:induction false} ResolveInObjectIdentity(v: Value, aliasMap: map<string, string>)
    ensures ResolveInObject(v, aliasMap) == v
    decreases v
  {
    match v
    case Arr(items) =>
      forall i | 0 <= i < |items| ensures ResolveInObject(items[i], aliasMap) == items[i] {
        ResolveInObjectIdentity(items[i], aliasMap);
      }
    case Obj(fields) =>
      ResolveFieldsIdentity(v, fields, aliasMap);
    case _ =>
  }

  lemma {:induction false} ResolveFieldsIdentity(parent: Value, fields: seq<Field>, aliasMap: map<string, string>)
    requires forall i :: 0 <= i < |fields| ==> fields[i].value < parent
    ensures ResolveFields(parent, fields, aliasMap) == fields
    decreases parent, |fields|
  {
    if |fields| > 0 {
      ResolveInObjectIdentity(fields[0].value, aliasMap);
      ResolveFieldsIdentity(parent, fields[1..], aliasMap);
    }
  }

  /** `resolveAliasVariablesInObject(toolArguments || {})` on the argument map. */
  function ResolveArguments(args: Option<map<string, Value>>, aliasMap: map<string, string>): (r: map<string, Value>)
    ensures args.None? ==> r == map[]
    ensures args.Some? ==> r.Keys == args.value.Keys
  {
    var m := args.GetOr(map[]);
    map k | k in m :: ResolveInObject(m[k], aliasMap)
  }

  /** The compiled tool arguments equal the node's arguments, key for key and value for value. */
  lemma ResolveArgumentsIdentity(args: map<string, Value>, aliasMap: map<string, string>)
    ensures ResolveArguments(Some(args), aliasMap) == args
  {
    forall k | k in args ensures ResolveInObject(args[k], aliasMap) == args[k] {
      ResolveInObjectIdentity(args[k], aliasMap);
    }
  }

  // ---------------------------------------------------------------------------
  // Shared per-type configuration
  // ---------------------------------------------------------------------------

  const DefaultServerUrl := "http://localhost:8080"
  const DefaultServerTimeout := 30
  const DefaultToolName := "get_oauth_token"
  const DefaultToolTimeout := 60
  const DefaultRetryAttempts := 3

  /** The `config` of an `mcp` node that has an `mcpConfig`: every falsy field takes its default. */
  function McpToolConfigOf(c: MCPConfig, aliasMap: map<string, string>): (r: NodeConfigOut)
    ensures r.McpToolConfig?
    ensures r.server.serverType == ServerTypeName(c.server.serverType)
    ensures Truthy(c.server.url) ==> r.server.url == c.server.url.value
    ensures !Truthy(c.server.url) ==> r.server.url == DefaultServerUrl
    ensures r.server.timeout == if TruthyNum(c.server.timeout) then c.server.timeout.value else DefaultServerTimeout
    ensures r.toolName == if Truthy(c.toolName) then c.toolName.value else DefaultToolName
    ensures r.timeout == if TruthyNum(c.timeout) then c.timeout.value else DefaultToolTimeout
    ensures r.retryAttempts == if TruthyNum(c.retryAttempts) then c.retryAttempts.value else DefaultRetryAttempts
  {
    McpToolConfig(
      ServerOut(ServerTypeName(c.server.serverType), OrElse(c.server.url, DefaultServerUrl),
                OrElseNum(c.server.timeout, DefaultServerTimeout)),
      OrElse(c.toolName, DefaultToolName),
      ResolveArguments(c.toolArguments, aliasMap),
      OrElseNum(c.timeout, DefaultToolTimeout),
      OrElseNum(c.retryAttempts, DefaultRetryAttempts))
  }

  /** The tool arguments survive compilation unchanged; an absent map becomes `{}`. */
  lemma McpToolArgumentsPreserved(c: MCPConfig, aliasMap: map<string, string>)
    ensures McpToolConfigOf(c, aliasMap).toolArguments == c.toolArguments.GetOr(map[])
  {
    ResolveArgumentsIdentity(c.toolArguments.GetOr(map[]), aliasMap);
  }

  /** `||` treats zero as missing: a configured timeout of 0 is replaced by 60, and an empty URL by the default. */
  lemma ZeroTimeoutBecomesDefault(c: MCPConfig, aliasMap: map<string, string>)
    requires c.timeout == Some(0) && c.server.url == Some("")
    ensures McpToolConfigOf(c, aliasMap).timeout == 60
    ensures McpToolConfigOf(c, aliasMap).server.url == "http://localhost:8080"
  {
  }

  /** `start`: `{ name: label, description: 'Start workflow execution' }`. */
  function StartConfigOf(n: WorkflowNode): (r: NodeConfigOut)
    ensures r.StartConfig? && r.name == n.labelText
  {
    StartConfig(n.labelText, "Start workflow execution")
  }

  /** `end`: `{ name: label, description: 'End workflow execution', collect_outputs: true }`. */
  function EndConfigOf(n: WorkflowNode): (r: NodeConfigOut)
    ensures r.EndConfig? && r.name == n.labelText && r.collectOutputs
  {
    EndConfig(n.labelText, "End workflow execution", true)
  }

  /** The agent configuration of a node, when the node carries one. */
  function AgentConfigOfNode(n: WorkflowNode): Option<AgentConfig> {
    if n.data.Some? then n.data.value.agentConfig else None
  }

  /** The MCP configuration of a node, when the node carries one. */
  function MCPConfigOfNode(n: WorkflowNode): Option<MCPConfig> {
    if n.data.Some? then n.data.value.mcpConfig else None
  }

  /** The emitted `type`: `mcp_tool` for a configured MCP node, the canvas type otherwise. */
  function CompiledType(n: WorkflowNode): (r: string)
    ensures r == "mcp_tool" <==> n.nodeType == Mcp && MCPConfigOfNode(n).Some?
  {
    if n.nodeType == Mcp && MCPConfigOfNode(n).Some? then "mcp_tool" else NodeTypeName(n.nodeType)
  }

  const DefaultModel := "gpt-35-turbo"
  const DefaultPrompt := "You are a helpful AI assistant. User request: ${workflow.input.user_request}"
  const DefaultSystemPrompt := "You are a helpful AI assistant with expertise across multiple domains. Provide detailed, accurate, and practical responses to user queries."
}
