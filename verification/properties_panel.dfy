/**
 * The properties panel's handlers for the selected node. The panel edits
 * the node object it shares with the shell in place and then (usually)
 * emits `nodeUpdate`; each handler returns the node after the edit and
 * whether the event was emitted. Its initialisers, its alias validator and
 * its argument-key scheme differ from the shell's.
 */
module PropertiesPanel {
  import opened Wrappers
  import opened Text
  import opened Models
  import opened Aliases
  import opened NodeConfig
  import opened GraphStore

  /** The node after the handler ran, and whether `nodeUpdate` was emitted for it. */
  datatype Outcome = Outcome(node: WorkflowNode, emitted: bool)

  /** The message the panel shows for each failure of its own validator. */
  function PanelErrorMessage(e: AliasError): string {
    match e
    case Required => "Alias is required"
    case BadFormat => "Alias must start with a letter and contain only lowercase letters, numbers, and underscores"
    case Duplicate => "This alias is already used by another node"
    case BadLength => ""
    case Reserved => ""
  }

  function AgentConfigOf(n: WorkflowNode): AgentConfig
    requires HasAgentConfig(n)
  {
    n.data.value.agentConfig.value
  }

  function WithAgentConfig(n: WorkflowNode, c: AgentConfig): (r: WorkflowNode)
    requires n.data.Some?
    ensures HasAgentConfig(r) && AgentConfigOf(r) == c
    ensures r.data.value.(agentConfig := n.data.value.agentConfig) == n.data.value
    ensures r.(data := n.data) == n
  {
    n.(data := Some(n.data.value.(agentConfig := Some(c))))
  }

  // ---------------------------------------------------------------------------
  // Agent handlers
  // ---------------------------------------------------------------------------

  /** `onAgentNameChange`: on an agent node, initialise, set the name and the trimmed label, emit. */
  function AgentNameChange(n: WorkflowNode, newName: string): (r: Outcome)
    ensures n.nodeType != Agent ==> r == Outcome(n, false)
    ensures n.nodeType == Agent ==>
              var e := EnsureAgentData(n);
              && r.emitted
              && r.node.labelText == NameLabel(newName, "Agent")
              && AgentConfigEdit(e, r.node.(labelText := e.labelText))
              && AgentConfigOf(r.node) == AgentConfigOf(e).(name := Some(newName))
              && StateVariablesOf(r.node).Some? && HasUserRequest(StateVariablesOf(r.node).value)
  {
    if n.nodeType != Agent then Outcome(n, false)
    else
      var e := EnsureAgentData(n);
      var c := AgentConfigOf(e).(name := Some(newName));
      Outcome(WithAgentConfig(e, c).(labelText := NameLabel(newName, "Agent")), true)
  }

  /** `onOutputFormatChange`: for any node type, initialise agent data, drop the schema unless json, emit. */
  function OutputFormatChange(n: WorkflowNode): (r: Outcome)
    ensures r.emitted && AgentConfigEdit(EnsureAgentData(n), r.node)
    ensures AgentConfigOf(r.node) == ClearSchemaUnlessJson(AgentConfigOf(EnsureAgentData(n)))
    ensures SchemaOf(r.node).Some? ==> AgentConfigOf(r.node).outputFormat == Some(Json)
  {
    var e := EnsureAgentData(n);
    Outcome(WithAgentConfig(e, ClearSchemaUnlessJson(AgentConfigOf(e))), true)
  }

  /** `addAgentStateVariable`: on an agent node, initialise and append a blank string variable. */
  function AddAgentStateVariable(n: WorkflowNode): (r: Outcome)
    ensures n.nodeType != Agent ==> r == Outcome(n, false)
    ensures n.nodeType == Agent ==>
              var e := EnsureAgentData(n);
              var before := StateVariablesOf(e).value;
              && r.emitted
              && AgentConfigEdit(e, r.node)
              && AgentConfigOf(r.node) == AgentConfigOf(e).(stateVariables := Some(before + [Variable("", "string", Some(""))]))
  {
    if n.nodeType != Agent then Outcome(n, false)
    else
      var e := EnsureAgentData(n);
      var c := AgentConfigOf(e);
      Outcome(WithAgentConfig(e, c.(stateVariables := Some(c.stateVariables.value + [Variable("", "string", Some(""))]))), true)
  }

  /**
   * `removeAgentStateVariable`: on an agent node, initialise; refuse (without
   * emitting) when the variable at `index` is `user_request`; otherwise splice
   * and emit. The initialisation persists even when the removal is refused.
   */
  function RemoveAgentStateVariable(n: WorkflowNode, index: int): (r: Outcome)
    ensures n.nodeType != Agent ==> r == Outcome(n, false)
    ensures n.nodeType == Agent ==>
              var e := EnsureAgentData(n);
              var before := StateVariablesOf(e).value;
              var refused := 0 <= index < |before| && before[index].name == UserRequest;
              && r.emitted == !refused
              && (refused ==> r.node == e)
              && AgentConfigEdit(e, r.node)
              && AgentConfigOf(r.node) == AgentConfigOf(e).(stateVariables := Some(RemoveStateVariable(before, index)))
  {
    if n.nodeType != Agent then Outcome(n, false)
    else
      var e := EnsureAgentData(n);
      var c := AgentConfigOf(e);
      var vars := c.stateVariables.value;
      if 0 <= index < |vars| && vars[index].name == UserRequest then Outcome(e, false)
      else Outcome(WithAgentConfig(e, c.(stateVariables := Some(RemoveAt(vars, index)))), true)
  }

  /** With a non-negative index an agent node keeps its `user_request` variable. */
  lemma PanelRemoveKeepsUserRequest(n: WorkflowNode, index: int)
    requires n.nodeType == Agent && index >= 0
    ensures HasUserRequest(StateVariablesOf(RemoveAgentStateVariable(n, index).node).value)
  {
    RemoveStateVariableKeepsUserRequest(StateVariablesOf(EnsureAgentData(n)).value, index);
  }

  // ---------------------------------------------------------------------------
  // MCP handlers
  // ---------------------------------------------------------------------------

  function MCPConfigOf(n: WorkflowNode): MCPConfig
    requires n.data.Some? && n.data.value.mcpConfig.Some?
  {
    n.data.value.mcpConfig.value
  }

  /** `onMCPNameChange`: on an mcp node, initialise, set the name and the trimmed label, emit. */
  function MCPNameChange(n: WorkflowNode, newName: string): (r: Outcome)
    ensures n.nodeType != Mcp ==> r == Outcome(n, false)
    ensures n.nodeType == Mcp ==>
              && r.emitted
              && r.node.labelText == NameLabel(newName, "MCP")
              && var e := EnsureMCPData(n, Panel);
                 && MCPConfigEdit(e, r.node.(labelText := e.labelText))
                 && MCPConfigOf(r.node) == MCPConfigOf(e).(name := Some(newName))
  {
    if n.nodeType != Mcp then Outcome(n, false)
    else
      var e := EnsureMCPData(n, Panel);
      var d := e.data.value;
      Outcome(e.(data := Some(d.(mcpConfig := Some(d.mcpConfig.value.(name := Some(newName))))),
                 labelText := NameLabel(newName, "MCP")), true)
  }

  /** `onMCPServerTypeChange`: the panel only re-emits the node; it clears no field. */
  function MCPServerTypeChange(n: WorkflowNode): (r: Outcome)
    ensures r.node == n
    ensures r.emitted <==> n.nodeType == Mcp
  {
    Outcome(n, n.nodeType == Mcp)
  }

  /** The argument map an mcp node has after initialisation, if any. */
  function InitialisedArguments(n: WorkflowNode): Option<map<string, Value>> {
    ArgumentsOf(EnsureMCPData(n, Panel))
  }

  /**
   * `onMCPArgumentKeyChange`: on an mcp node and a changed key, initialise
   * and move the value to the new key, emit. The source dereferences the
   * argument map unchecked, so an existing configuration must hold one.
   */
  function ArgumentKeyChange(n: WorkflowNode, oldKey: string, newKey: string): (r: Outcome)
    requires n.nodeType == Mcp && newKey != oldKey ==> InitialisedArguments(n).Some?
    ensures n.nodeType != Mcp || newKey == oldKey ==> r == Outcome(n, false)
    ensures n.nodeType == Mcp && newKey != oldKey ==>
              && r.emitted
              && ArgumentsEdit(EnsureMCPData(n, Panel), r.node)
              && ArgumentsOf(r.node) == Some(RenameArgument(InitialisedArguments(n).value, oldKey, newKey))
  {
    if n.nodeType != Mcp || newKey == oldKey then Outcome(n, false)
    else
      var e := EnsureMCPData(n, Panel);
      Outcome(WithArguments(e, RenameArgument(ArgumentsOf(e).value, oldKey, newKey)), true)
  }

  /** `onMCPArgumentValueChange`: on an mcp node, initialise and set the string value, emit. */
  function ArgumentValueChange(n: WorkflowNode, key: string, newValue: string): (r: Outcome)
    requires n.nodeType == Mcp ==> InitialisedArguments(n).Some?
    ensures n.nodeType != Mcp ==> r == Outcome(n, false)
    ensures n.nodeType == Mcp ==>
              && r.emitted
              && ArgumentsEdit(EnsureMCPData(n, Panel), r.node)
              && ArgumentsOf(r.node) == Some(SetArgumentValue(InitialisedArguments(n).value, key, Str(newValue)))
  {
    if n.nodeType != Mcp then Outcome(n, false)
    else
      var e := EnsureMCPData(n, Panel);
      Outcome(WithArguments(e, SetArgumentValue(ArgumentsOf(e).value, key, Str(newValue))), true)
  }

  /** `addMCPToolArgument`: on an mcp node, initialise and bind the first free `arg`, `arg1`, ... to `''`. */
  function AddMCPToolArgument(n: WorkflowNode): (r: Outcome)
    requires n.nodeType == Mcp ==> InitialisedArguments(n).Some?
    ensures n.nodeType != Mcp ==> r == Outcome(n, false)
    ensures n.nodeType == Mcp ==>
              var before := InitialisedArguments(n).value;
              && r.emitted
              && ArgumentsEdit(EnsureMCPData(n, Panel), r.node)
              && ArgumentsOf(r.node).Some?
              && var after := ArgumentsOf(r.node).value;
                 && |after| == |before| + 1
                 && (exists k :: k !in before && after == before[k := Str("")])
                 && after == before[FirstFree("arg", before.Keys) := Str("")]
  {
    if n.nodeType != Mcp then Outcome(n, false)
    else
      var e := EnsureMCPData(n, Panel);
      Outcome(WithArguments(e, AddArgumentPanel(ArgumentsOf(e).value)), true)
  }

  /** `removeMCPToolArgument`: on an mcp node, initialise and delete the key, emit. */
  function RemoveMCPToolArgument(n: WorkflowNode, key: string): (r: Outcome)
    requires n.nodeType == Mcp ==> InitialisedArguments(n).Some?
    ensures n.nodeType != Mcp ==> r == Outcome(n, false)
    ensures n.nodeType == Mcp ==>
              && r.emitted
              && ArgumentsEdit(EnsureMCPData(n, Panel), r.node)
              && ArgumentsOf(r.node) == Some(RemoveArgument(InitialisedArguments(n).value, key))
  {
    if n.nodeType != Mcp then Outcome(n, false)
    else
      var e := EnsureMCPData(n, Panel);
      Outcome(WithArguments(e, RemoveArgument(ArgumentsOf(e).value, key)), true)
  }

  /** Adding an argument and removing it again restores the initialised map. */
  lemma AddThenRemoveMCPToolArgument(n: WorkflowNode)
    requires n.nodeType == Mcp && InitialisedArguments(n).Some?
    ensures var added := AddMCPToolArgument(n).node;
            var k := FirstFree("arg", InitialisedArguments(n).value.Keys);
            InitialisedArguments(added).Some? &&
            ArgumentsOf(RemoveMCPToolArgument(added, k).node) == InitialisedArguments(n)
  {
    var added := AddMCPToolArgument(n).node;
    assert EnsureMCPData(added, Panel) == added;
    AddThenRemoveArgument(InitialisedArguments(n).value);
  }

  // ---------------------------------------------------------------------------
  // Alias change
  // ---------------------------------------------------------------------------

  /**
   * `onAliasChange`: an absent value is ignored; otherwise the trimmed,
   * lower-cased alias is assigned and emitted only if the panel's validator
   * accepts it against the other nodes.
   */
  function AliasChange(nodes: seq<WorkflowNode>, n: WorkflowNode, newAlias: Option<string>): (r: Outcome)
    ensures newAlias.None? ==> r == Outcome(n, false)
    ensures newAlias.Some? ==>
              var clean := Normalize(newAlias.value);
              if PanelValidateAlias(nodes, clean, n.id).Valid? then r == Outcome(n.(alias := clean), true)
              else r == Outcome(n, false)
  {
    match newAlias
    case None => Outcome(n, false)
    case Some(a) =>
      var clean := Normalize(a);
      if PanelValidateAlias(nodes, clean, n.id).Valid? then Outcome(n.(alias := clean), true) else Outcome(n, false)
  }

  /**
   * When the shell applies the emitted node (`onNodeUpdated`), unique aliases
   * and ids stay unique: the panel checks the alias against every other node id.
   */
  lemma PanelAliasChangeKeepsUniqueness(nodes: seq<WorkflowNode>, n: WorkflowNode, newAlias: Option<string>)
    requires AliasesUnique(nodes) && NodeIdsUnique(nodes)
    requires n in nodes
    ensures AliasesUnique(ReplaceNode(nodes, AliasChange(nodes, n, newAlias).node))
    ensures NodeIdsUnique(ReplaceNode(nodes, AliasChange(nodes, n, newAlias).node))
  {
    var m := AliasChange(nodes, n, newAlias).node;
    assert NodeIdInUse(nodes, n.id) by {
      var i :| 0 <= i < |nodes| && nodes[i] == n;
    }
    var k := FindNode(nodes, n.id).value;
    var r := ReplaceNode(nodes, m);
    assert r == nodes[k := m];
    forall i, j | 0 <= i < j < |r| ensures r[i].alias != r[j].alias && r[i].id != r[j].id {
      if i == k || j == k {
        var o := if i == k then j else i;
        assert nodes[o].id != n.id;
      }
    }
  }
}
