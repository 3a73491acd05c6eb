/**
 * The application shell's handlers for the selected node and its JSON-schema
 * modal, and the variable lists the shell shows for a node. Each handler is
 * a function of the node it edits; `EditSelected` puts the edited node back
 * where `getSelectedNode` found it.
 */
module AppEditor {
  import opened Wrappers
  import opened Text
  import opened Models
  import opened Aliases
  import opened NodeConfig
  import opened GraphStore

  /** Write `n` back over the selected node (the shell mutates the object `getSelectedNode` returned). */
  function EditSelected(st: AppState, n: WorkflowNode): (r: AppState)
    requires SelectedNode(st).Some? && n.id == SelectedNode(st).value.id
    ensures r == st.(nodes := st.nodes[FindNode(st.nodes, n.id).value := n])
    ensures SelectedNode(r) == Some(n)
    ensures forall i :: 0 <= i < |st.nodes| && st.nodes[i].id != n.id ==> r.nodes[i] == st.nodes[i]
  {
    var i := FindNode(st.nodes, st.selectedNodeId.value).value;
    var r := st.(nodes := st.nodes[i := n]);
    assert forall j :: 0 <= j < |r.nodes| ==> r.nodes[j].id == st.nodes[j].id;
    assert FindNode(r.nodes, n.id) == Some(i) by {
      var f := FindNode(r.nodes, n.id);
      assert r.nodes[i].id == n.id;
      assert f.Some? && f.value == i;
    }
    r
  }

  // ---------------------------------------------------------------------------
  // Agent handlers
  // ---------------------------------------------------------------------------

  /**
   * The shell's `removeAgentStateVariable`: without a variable list nothing
   * happens; otherwise the protected splice. No node-type check.
   */
  function RemoveAgentStateVariable(n: WorkflowNode, index: int): (r: WorkflowNode)
    ensures StateVariablesOf(n).None? ==> r == n
    ensures StateVariablesOf(n).Some? ==>
              && StateVariablesOf(r) == Some(RemoveStateVariable(StateVariablesOf(n).value, index))
              && r.(data := n.data) == n
              && r.data.value.(agentConfig := n.data.value.agentConfig) == n.data.value
              && r.data.value.agentConfig.value.(stateVariables := StateVariablesOf(n)) == n.data.value.agentConfig.value
  {
    match StateVariablesOf(n)
    case None => n
    case Some(vars) =>
      var d := n.data.value;
      var c := d.agentConfig.value;
      n.(data := Some(d.(agentConfig := Some(c.(stateVariables := Some(RemoveStateVariable(vars, index)))))))
  }

  /** The shell's guard keeps `user_request` for every in-range or larger index. */
  lemma ShellRemoveKeepsUserRequest(n: WorkflowNode, index: int)
    requires index >= 0
    requires StateVariablesOf(n).Some? && HasUserRequest(StateVariablesOf(n).value)
    ensures HasUserRequest(StateVariablesOf(RemoveAgentStateVariable(n, index)).value)
  {
    RemoveStateVariableKeepsUserRequest(StateVariablesOf(n).value, index);
  }

  /**
   * What a shell handler that reads the agent configuration unchecked leaves
   * behind: the edited node, or the `TypeError` JavaScript raises when an
   * agent node has no configuration (a node dropped on the canvas starts
   * with empty data, and only the panel's initialiser fills it in).
   */
  datatype Handled = Done(node: WorkflowNode) | TypeError

  /** The shell's `onOutputFormatChange`: on an agent node a format other than `json` drops the schema. */
  function OutputFormatChange(n: WorkflowNode): (r: Handled)
    ensures n.nodeType != Agent ==> r == Done(n)
    ensures n.nodeType == Agent && !HasAgentConfig(n) ==> r == TypeError
    ensures n.nodeType == Agent && HasAgentConfig(n) ==>
              && r.Done?
              && AgentConfigEdit(n, r.node)
              && r.node.data.value.agentConfig.value == ClearSchemaUnlessJson(n.data.value.agentConfig.value)
  {
    if n.nodeType != Agent then Done(n)
    else if !HasAgentConfig(n) then TypeError
    else
      var d := n.data.value;
      Done(n.(data := Some(d.(agentConfig := Some(ClearSchemaUnlessJson(d.agentConfig.value))))))
  }

  /** The shell's `onAgentNameChange`: sets the configured name, then the canvas label. */
  function AgentNameChange(n: WorkflowNode, newName: string): (r: Handled)
    ensures n.nodeType != Agent ==> r == Done(n)
    ensures n.nodeType == Agent && !HasAgentConfig(n) ==> r == TypeError
    ensures n.nodeType == Agent && HasAgentConfig(n) ==>
              && r.Done?
              && r.node.labelText == NameLabel(newName, "Agent")
              && AgentConfigEdit(n, r.node.(labelText := n.labelText))
              && r.node.data.value.agentConfig.value == n.data.value.agentConfig.value.(name := Some(newName))
  {
    if n.nodeType != Agent then Done(n)
    else if !HasAgentConfig(n) then TypeError
    else
      var d := n.data.value;
      var c := d.agentConfig.value.(name := Some(newName));
      Done(n.(data := Some(d.(agentConfig := Some(c))), labelText := NameLabel(newName, "Agent")))
  }

  /**
   * An agent node freshly dropped on the canvas makes both handlers throw
   * until the properties panel has initialised its configuration; afterwards
   * they succeed.
   */
  lemma FreshAgentNeedsPanelInitialisation(st: AppState, freshId: string, pos: Position, newName: string)
    requires !st.isCanvasNodeDragging
    ensures var n := OnCanvasDrop(st, Agent, true, freshId, pos).nodes[|st.nodes|];
            && OutputFormatChange(n) == TypeError
            && AgentNameChange(n, newName) == TypeError
            && OutputFormatChange(EnsureAgentData(n)).Done?
            && AgentNameChange(EnsureAgentData(n), newName).Done?
  {
  }

  // ---------------------------------------------------------------------------
  // MCP handlers
  // ---------------------------------------------------------------------------

  /** The shell's `onMCPNameChange`: initialises MCP data, sets the configured name and the label. */
  function MCPNameChange(n: WorkflowNode, newName: string): (r: WorkflowNode)
    ensures n.nodeType != Mcp ==> r == n
    ensures n.nodeType == Mcp ==>
              && r.labelText == NameLabel(newName, "MCP")
              && r.data.Some? && r.data.value.mcpConfig.Some?
              && var e := EnsureMCPData(n, Shell);
                 && MCPConfigEdit(e, r.(labelText := e.labelText))
                 && r.data.value.mcpConfig.value == e.data.value.mcpConfig.value.(name := Some(newName))
  {
    if n.nodeType != Mcp then n
    else
      var e := EnsureMCPData(n, Shell);
      var d := e.data.value;
      e.(data := Some(d.(mcpConfig := Some(d.mcpConfig.value.(name := Some(newName))))), labelText := NameLabel(newName, "MCP"))
  }

  /** The shell's `onMCPServerTypeChange`: initialises MCP data and drops the other transport's settings. */
  function ServerTypeChange(n: WorkflowNode): (r: WorkflowNode)
    ensures n.nodeType != Mcp ==> r == n
    ensures n.nodeType == Mcp ==>
              && var e := EnsureMCPData(n, Shell);
                 && MCPConfigEdit(e, r)
                 && var c := e.data.value.mcpConfig.value;
                    r.data.value.mcpConfig.value == c.(server := SwitchServerFields(c.server))
  {
    if n.nodeType != Mcp then n
    else
      var e := EnsureMCPData(n, Shell);
      var d := e.data.value;
      var c := d.mcpConfig.value;
      e.(data := Some(d.(mcpConfig := Some(c.(server := SwitchServerFields(c.server))))))
  }

  /** After a server-type switch an http server has no stdio settings and a stdio server no url. */
  lemma ServerTypeChangeClearsOtherTransport(n: WorkflowNode)
    requires n.nodeType == Mcp
    ensures var s := ServerTypeChange(n).data.value.mcpConfig.value.server;
            && (s.serverType == Http ==> s.command.None? && s.args.None?)
            && (s.serverType == Stdio ==> s.url.None?)
  {
  }

  /**
   * The shell's `addMCPToolArgument` with the key choice corrected: after
   * initialising MCP data and the argument map, one fresh `arg_<n>` key is
   * bound to `''`.
   */
  function AddMCPToolArgument(n: WorkflowNode): (r: WorkflowNode)
    ensures n.nodeType != Mcp ==> r == n
    ensures n.nodeType == Mcp ==>
              var e := EnsureMCPData(n, Shell);
              var before := ArgumentsOf(e).GetOr(map[]);
              && ArgumentsEdit(e, r)
              && ArgumentsOf(r).Some?
              && |ArgumentsOf(r).value| == |before| + 1
              && exists k :: k !in before && ArgumentsOf(r).value == before[k := Str("")]
  {
    if n.nodeType != Mcp then n
    else
      var e := EnsureMCPData(n, Shell);
      WithArguments(e, AddArgumentCorrected(ArgumentsOf(e).GetOr(map[])))
  }

  /** The shell's `addMCPToolArgument` as written, for comparison with the corrected handler. */
  function AddMCPToolArgumentAsWritten(n: WorkflowNode): (r: WorkflowNode)
    ensures n.nodeType != Mcp ==> r == n
    ensures n.nodeType == Mcp ==>
              var e := EnsureMCPData(n, Shell);
              && ArgumentsEdit(e, r)
              && ArgumentsOf(r) == Some(AddArgumentAsWritten(ArgumentsOf(e).GetOr(map[])))
  {
    if n.nodeType != Mcp then n
    else
      var e := EnsureMCPData(n, Shell);
      WithArguments(e, AddArgumentAsWritten(ArgumentsOf(e).GetOr(map[])))
  }

  /** The two agree exactly when the key the source computes is still free. */
  lemma AddMCPToolArgumentAgrees(n: WorkflowNode)
    requires n.nodeType == Mcp
    requires ShellArgumentKey(ArgumentsOf(EnsureMCPData(n, Shell)).GetOr(map[])) !in ArgumentsOf(EnsureMCPData(n, Shell)).GetOr(map[])
    ensures AddMCPToolArgument(n) == AddMCPToolArgumentAsWritten(n)
  {
  }

  /** `removeMCPToolArgument`, `updateMCPToolArgumentKey`, `updateMCPToolArgumentValue`: no-ops without an argument map. */
  function RemoveMCPToolArgument(n: WorkflowNode, key: string): (r: WorkflowNode)
    ensures ArgumentsOf(n).None? ==> r == n
    ensures ArgumentsOf(n).Some? ==>
              && ArgumentsEdit(n, r)
              && ArgumentsOf(r) == Some(RemoveArgument(ArgumentsOf(n).value, key))
  {
    match ArgumentsOf(n)
    case None => n
    case Some(args) => WithArguments(n, RemoveArgument(args, key))
  }

  function UpdateMCPToolArgumentKey(n: WorkflowNode, oldKey: string, newKey: string): (r: WorkflowNode)
    ensures ArgumentsOf(n).None? ==> r == n
    ensures ArgumentsOf(n).Some? ==> ArgumentsEdit(n, r)
    ensures ArgumentsOf(n).Some? && (IsBlank(newKey) || oldKey == newKey) ==> r == n
    ensures ArgumentsOf(n).Some? && !IsBlank(newKey) && oldKey != newKey ==>
              var args := ArgumentsOf(n).value;
              && ArgumentsOf(r).Some?
              && var moved := ArgumentsOf(r).value;
              && moved.Keys == args.Keys - {oldKey} + {newKey}
              && moved[newKey] == (if oldKey in args then args[oldKey] else Undefined)
              && forall k :: k in args && k != oldKey && k != newKey ==> moved[k] == args[k]
  {
    match ArgumentsOf(n)
    case None => n
    case Some(args) => WithArguments(n, UpdateArgumentKey(args, oldKey, newKey))
  }

  function UpdateMCPToolArgumentValue(n: WorkflowNode, key: string, v: Value): (r: WorkflowNode)
    ensures ArgumentsOf(n).None? ==> r == n
    ensures ArgumentsOf(n).Some? ==>
              && ArgumentsEdit(n, r)
              && ArgumentsOf(r) == Some(SetArgumentValue(ArgumentsOf(n).value, key, v))
  {
    match ArgumentsOf(n)
    case None => n
    case Some(args) => WithArguments(n, SetArgumentValue(args, key, v))
  }

  // ---------------------------------------------------------------------------
  // Alias change
  // ---------------------------------------------------------------------------

  /** Whether the shell's validator accepts `newAlias`, cleaned, for node `n`. */
  predicate AliasAccepted(nodes: seq<WorkflowNode>, n: WorkflowNode, newAlias: string) {
    ValidateAlias(nodes, Normalize(newAlias), Some(n.id)).Valid?
  }

  /**
   * The shell's `onAliasChange`: the trimmed, lower-cased alias is assigned
   * to the selected node only if the shell's validator accepts it.
   */
  function AliasChange(st: AppState, newAlias: string): (r: AppState)
    ensures SelectedNode(st).None? ==> r == st
    ensures SelectedNode(st).Some? && !AliasAccepted(st.nodes, SelectedNode(st).value, newAlias) ==> r == st
    ensures SelectedNode(st).Some? && AliasAccepted(st.nodes, SelectedNode(st).value, newAlias) ==>
              var n := SelectedNode(st).value;
              r == st.(nodes := st.nodes[FindNode(st.nodes, n.id).value := n.(alias := Normalize(newAlias))])
  {
    var sel := SelectedNode(st);
    if sel.None? then st
    else if AliasAccepted(st.nodes, sel.value, newAlias) then EditSelected(st, sel.value.(alias := Normalize(newAlias)))
    else st
  }

  /** Renaming node `k` to an alias no other node carries keeps aliases unique. */
  lemma SetAliasKeepsUniqueness(nodes: seq<WorkflowNode>, k: nat, n: WorkflowNode)
    requires k < |nodes| && AliasesUnique(nodes)
    requires forall i :: 0 <= i < |nodes| && i != k ==> nodes[i].alias != n.alias
    ensures AliasesUnique(nodes[k := n])
  {
  }

  lemma SetNodeKeepsIds(nodes: seq<WorkflowNode>, k: nat, n: WorkflowNode)
    requires k < |nodes| && NodeIdsUnique(nodes) && n.id == nodes[k].id
    ensures NodeIdsUnique(nodes[k := n])
  {
  }

  /** An alias the shell's validator accepts for node `k` is well formed, and no other node carries it. */
  lemma AcceptedAliasIsFree(nodes: seq<WorkflowNode>, k: nat, newAlias: string)
    requires k < |nodes| && AliasesUnique(nodes) && NodeIdsUnique(nodes)
    requires AliasAccepted(nodes, nodes[k], newAlias)
    ensures var clean := Normalize(newAlias);
            && MatchesAliasPattern(clean) && 2 <= |clean| <= 20
            && forall i :: 0 <= i < |nodes| && i != k ==> nodes[i].alias != clean
  {
    ValidateAliasUniqueness(nodes, Normalize(newAlias), Some(nodes[k].id));
    NormalizeIdempotent(newAlias);
  }

  /** An accepted alias change keeps aliases and node ids unique. */
  lemma AliasChangePreservesUniqueness(st: AppState, newAlias: string)
    requires AliasesUnique(st.nodes) && NodeIdsUnique(st.nodes)
    ensures AliasesUnique(AliasChange(st, newAlias).nodes)
    ensures NodeIdsUnique(AliasChange(st, newAlias).nodes)
  {
    if SelectedNode(st).Some? && AliasAccepted(st.nodes, SelectedNode(st).value, newAlias) {
      var n := SelectedNode(st).value;
      var m := n.(alias := Normalize(newAlias));
      var k := FindNode(st.nodes, n.id).value;
      AcceptedAliasIsFree(st.nodes, k, newAlias);
      assert AliasChange(st, newAlias).nodes == st.nodes[k := m];
      SetAliasKeepsUniqueness(st.nodes, k, m);
      SetNodeKeepsIds(st.nodes, k, m);
    }
  }

  /** After an accepted alias change the selected node carries a well-formed alias of length 2 to 20. */
  lemma AliasChangeWellFormed(st: AppState, newAlias: string)
    requires AliasesUnique(st.nodes) && NodeIdsUnique(st.nodes)
    ensures var r := AliasChange(st, newAlias);
            r != st ==> MatchesAliasPattern(SelectedNode(r).value.alias) && 2 <= |SelectedNode(r).value.alias| <= 20
  {
    var r := AliasChange(st, newAlias);
    if SelectedNode(st).Some? && AliasAccepted(st.nodes, SelectedNode(st).value, newAlias) {
      var n := SelectedNode(st).value;
      var m := n.(alias := Normalize(newAlias));
      AcceptedAliasIsFree(st.nodes, FindNode(st.nodes, n.id).value, newAlias);
      assert r == EditSelected(st, m);
    }
  }

  // ---------------------------------------------------------------------------
  // Variable lists shown for a node
  // ---------------------------------------------------------------------------

  datatype NodeOutput = NodeOutput(path: string, varType: string, description: Option<string>)

  /** `workflow.<alias>.<field>`. */
  function AliasPath(alias: string, field: string): string {
    "workflow." + alias + "." + field
  }

  predicate UnderPrefix(pre: string, path: string) {
    |pre| <= |path| && path[..|pre|] == pre
  }

  lemma AliasPathUnderPrefix(alias: string, field: string)
    ensures UnderPrefix("workflow." + alias + ".", AliasPath(alias, field))
  {
    assert AliasPath(alias, field) == ("workflow." + alias + ".") + field;
  }

  /**
   * `getNodeOutputs`: nothing for a node without an alias; otherwise the
   * output and status paths, plus success and tool_name for mcp nodes.
   */
  function GetNodeOutputs(n: WorkflowNode): (r: seq<NodeOutput>)
    ensures n.alias == "" ==> r == []
    ensures n.alias != "" ==> |r| == (if n.nodeType == Mcp then 4 else 2)
    ensures n.alias != "" ==>
              && r[0].path == AliasPath(n.alias, "output")
              && r[0].varType == (if n.nodeType == Agent then "string|object" else "object")
              && r[1].path == AliasPath(n.alias, "status")
    ensures n.nodeType == Mcp && n.alias != "" ==>
              r[2].path == AliasPath(n.alias, "success") && r[3].path == AliasPath(n.alias, "tool_name")
    ensures forall i :: 0 <= i < |r| ==> r[i].description.Some?
  {
    if n.alias == "" then []
    else
      var base := [
        NodeOutput(AliasPath(n.alias, "output"), if n.nodeType == Agent then "string|object" else "object", Some("Full node response")),
        NodeOutput(AliasPath(n.alias, "status"), "string", Some("Execution status (success/failed)"))
      ];
      if n.nodeType == Mcp then
        base + [
          NodeOutput(AliasPath(n.alias, "success"), "boolean", Some("Tool execution success flag")),
          NodeOutput(AliasPath(n.alias, "tool_name"), "string", Some("Name of the executed tool"))
        ]
      else base
  }

  /**
   * `getJsonSchemaProperties`: for an aliased agent node with a schema, one
   * entry per property, in order, under `workflow.<alias>.<property>`.
   */
  function GetJsonSchemaProperties(n: WorkflowNode): (r: seq<NodeOutput>)
    ensures n.alias == "" || n.nodeType != Agent || SchemaOf(n).None? ==> r == []
    ensures n.alias != "" && n.nodeType == Agent && SchemaOf(n).Some? ==>
              var ps := SchemaOf(n).value.properties;
              && |r| == |ps|
              && forall i :: 0 <= i < |ps| ==>
                   r[i] == NodeOutput(AliasPath(n.alias, ps[i].name), SchemaTypeName(ps[i].propType), ps[i].description)
  {
    if n.alias == "" || n.nodeType != Agent then []
    else match SchemaOf(n)
      case None => []
      case Some(s) => seq(|s.properties|, i requires 0 <= i < |s.properties| =>
                        NodeOutput(AliasPath(n.alias, s.properties[i].name), SchemaTypeName(s.properties[i].propType), s.properties[i].description))
  }

  lemma NodeOutputsUnderAlias(n: WorkflowNode)
    ensures forall i :: 0 <= i < |GetNodeOutputs(n)| ==> UnderPrefix("workflow." + n.alias + ".", GetNodeOutputs(n)[i].path)
  {
    var outs := GetNodeOutputs(n);
    if n.alias != "" {
      AliasPathUnderPrefix(n.alias, "output");
      AliasPathUnderPrefix(n.alias, "status");
      if n.nodeType == Mcp {
        AliasPathUnderPrefix(n.alias, "success");
        AliasPathUnderPrefix(n.alias, "tool_name");
      }
    }
  }

  lemma SchemaPathsUnderAlias(n: WorkflowNode)
    ensures forall i :: 0 <= i < |GetJsonSchemaProperties(n)| ==> UnderPrefix("workflow." + n.alias + ".", GetJsonSchemaProperties(n)[i].path)
  {
    var props := GetJsonSchemaProperties(n);
    forall i | 0 <= i < |props| ensures UnderPrefix("workflow." + n.alias + ".", props[i].path) {
      AliasPathUnderPrefix(n.alias, SchemaOf(n).value.properties[i].name);
    }
  }

  /** Every path the shell lists for a node lives under that node's alias. */
  lemma OutputPathsUnderAlias(n: WorkflowNode)
    ensures var pre := "workflow." + n.alias + ".";
            forall o :: o in GetNodeOutputs(n) + GetJsonSchemaProperties(n) ==>
              |pre| <= |o.path| && o.path[..|pre|] == pre
  {
    var pre := "workflow." + n.alias + ".";
    var outs, props := GetNodeOutputs(n), GetJsonSchemaProperties(n);
    NodeOutputsUnderAlias(n);
    SchemaPathsUnderAlias(n);
    forall o: NodeOutput | o in outs + props ensures UnderPrefix(pre, o.path) {
      var i :| 0 <= i < |outs + props| && (outs + props)[i] == o;
      if i >= |outs| { assert o == props[i - |outs|]; }
    }
  }
}
