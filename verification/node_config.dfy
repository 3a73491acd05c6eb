/**
 * The per-node configuration mutators shared by the application shell and
 * the properties panel, as pure functions on the configuration values: the
 * lazy initialisers of agent and MCP data, list edits with JavaScript
 * `splice` semantics, schema property edits and the tool-argument map edits.
 */
module NodeConfig {
  import opened Wrappers
  import opened Text
  import opened Models
  import opened Aliases

  // ---------------------------------------------------------------------------
  // Accessors of a node's configuration bags
  // ---------------------------------------------------------------------------

  predicate HasAgentConfig(n: WorkflowNode) {
    n.data.Some? && n.data.value.agentConfig.Some?
  }

  /** The node's agent variable list, when the node has one. */
  function StateVariablesOf(n: WorkflowNode): Option<seq<Variable>> {
    if n.data.Some? && n.data.value.agentConfig.Some? then n.data.value.agentConfig.value.stateVariables else None
  }

  /** The schema of an agent node's configuration, if any. */
  function SchemaOf(n: WorkflowNode): Option<JsonSchema> {
    if n.data.Some? && n.data.value.agentConfig.Some? then n.data.value.agentConfig.value.jsonSchema else None
  }

  /** The node's tool arguments, when it has an MCP configuration holding them. */
  function ArgumentsOf(n: WorkflowNode): Option<map<string, Value>> {
    if n.data.Some? && n.data.value.mcpConfig.Some? then n.data.value.mcpConfig.value.toolArguments else None
  }

  /**
   * `b` is `a` with at most its agent configuration replaced: every other
   * field of the node and of its data bag is unchanged.
   */
  predicate AgentConfigEdit(a: WorkflowNode, b: WorkflowNode) {
    && a.data.Some? && HasAgentConfig(b)
    && b.data.value.(agentConfig := a.data.value.agentConfig) == a.data.value
    && b.(data := a.data) == a
  }

  /** `b` is `a` with at most its MCP configuration replaced. */
  predicate MCPConfigEdit(a: WorkflowNode, b: WorkflowNode) {
    && a.data.Some? && b.data.Some? && b.data.value.mcpConfig.Some?
    && b.data.value.(mcpConfig := a.data.value.mcpConfig) == a.data.value
    && b.(data := a.data) == a
  }

  /** `b` is `a` with at most the tool-argument map of its MCP configuration replaced. */
  predicate ArgumentsEdit(a: WorkflowNode, b: WorkflowNode) {
    && a.data.Some? && a.data.value.mcpConfig.Some?
    && MCPConfigEdit(a, b)
    && b.data.value.mcpConfig.value.(toolArguments := a.data.value.mcpConfig.value.toolArguments) == a.data.value.mcpConfig.value
  }

  function WithArguments(n: WorkflowNode, args: map<string, Value>): (r: WorkflowNode)
    requires n.data.Some? && n.data.value.mcpConfig.Some?
    ensures ArgumentsOf(r) == Some(args)
    ensures ArgumentsEdit(n, r)
  {
    var d := n.data.value;
    n.(data := Some(d.(mcpConfig := Some(d.mcpConfig.value.(toolArguments := Some(args))))))
  }

  // ---------------------------------------------------------------------------
  // Array.prototype.splice(index, 1)
  // ---------------------------------------------------------------------------

  /** Where `splice(index, …)` starts: a negative index counts from the end, clamped to the bounds. */
  function SpliceStart(len: nat, index: int): (k: nat)
    ensures k <= len
    ensures 0 <= index <= len ==> k == index
    ensures index < 0 && len + index >= 0 ==> k == len + index
  {
    if index < 0 then (if len + index < 0 then 0 else len + index)
    else if index > len then len
    else index
  }

  /** `s.splice(index, 1)`: removes the element at the resolved start, if there is one. */
  function RemoveAt<T>(s: seq<T>, index: int): (r: seq<T>)
    ensures var k := SpliceStart(|s|, index);
            && (k < |s| ==> |r| == |s| - 1 && multiset(r) + multiset{s[k]} == multiset(s))
            && (k == |s| ==> r == s)
            && (forall i :: 0 <= i < k && i < |r| ==> r[i] == s[i])
            && (forall i :: k <= i < |r| ==> r[i] == s[i + 1])
  {
    var k := SpliceStart(|s|, index);
    if k < |s| then
      assert s == s[..k] + [s[k]] + s[k + 1..];
      s[..k] + s[k + 1..]
    else s
  }

  // ---------------------------------------------------------------------------
  // Agent state variables
  // ---------------------------------------------------------------------------

  const UserRequest := "user_request"

  /** The variable every agent must keep: it carries the user's message into the prompt. */
  const UserRequestVariable := Variable(UserRequest, "string", Some("The user's input message or query"))

  predicate HasUserRequest(vars: seq<Variable>) {
    exists i :: 0 <= i < |vars| && vars[i].name == UserRequest
  }

  /**
   * `removeAgentStateVariable(index)`: refuses to remove a `user_request`
   * variable found at `index`, otherwise splices. Reading `vars[index]` at a
   * negative index yields `undefined`, so the guard only sees in-range indices.
   */
  function RemoveStateVariable(vars: seq<Variable>, index: int): (r: seq<Variable>)
    ensures 0 <= index < |vars| && vars[index].name == UserRequest ==> r == vars
    ensures 0 <= index < |vars| && vars[index].name != UserRequest ==>
              |r| == |vars| - 1 && multiset(r) + multiset{vars[index]} == multiset(vars)
    ensures index >= |vars| ==> r == vars
    ensures !(0 <= index < |vars| && vars[index].name == UserRequest) ==> r == RemoveAt(vars, index)
  {
    if 0 <= index < |vars| && vars[index].name == UserRequest then vars
    else RemoveAt(vars, index)
  }

  /** With a non-negative index the guard is complete: a present `user_request` survives. */
  lemma RemoveStateVariableKeepsUserRequest(vars: seq<Variable>, index: int)
    requires index >= 0
    requires HasUserRequest(vars)
    ensures HasUserRequest(RemoveStateVariable(vars, index))
  {
    var j :| 0 <= j < |vars| && vars[j].name == UserRequest;
    var r := RemoveStateVariable(vars, index);
    if index < |vars| && vars[index].name != UserRequest {
      if j < index {
        assert r[j] == vars[j];
      } else {
        assert j > index;
        assert r[j - 1] == vars[j];
      }
    }
  }

  /** A negative index bypasses the guard: `splice(-1, 1)` removes the last variable whatever its name. */
  lemma NegativeIndexBypassesGuard()
    ensures RemoveStateVariable([UserRequestVariable], -1) == []
  {
  }

  /** The agent configuration a node gets the first time it is edited in the panel. */
  function DefaultAgentConfig(nodeLabel: string): AgentConfig {
    AgentConfig(
      name := Some(nodeLabel),
      instructions := Some("You are a helpful assistant. User request: ${user_request}"),
      context := Some(RecentMessages),
      model := Some("gpt-35-turbo"),
      stateVariables := Some([UserRequestVariable]),
      tools := Some([]),
      outputFormat := Some(OutputFormat.Text),
      jsonSchema := None)
  }

  /** The variable list with `user_request` appended if no variable of that name exists. */
  function WithUserRequest(vars: seq<Variable>): (r: seq<Variable>)
    ensures HasUserRequest(r)
    ensures HasUserRequest(vars) ==> r == vars
    ensures !HasUserRequest(vars) ==> r == vars + [UserRequestVariable]
  {
    if HasUserRequest(vars) then vars
    else
      var r := vars + [UserRequestVariable];
      assert r[|vars|].name == UserRequest;
      r
  }

  /**
   * The panel's `ensureAgentData`: creates `data` and a default agent
   * configuration if missing, creates the variable list if missing and
   * appends `user_request` if absent. Nothing but the agent configuration changes.
   */
  function EnsureAgentData(n: WorkflowNode): (r: WorkflowNode)
    ensures r.data.Some? && r.data.value.agentConfig.Some?
    ensures r.data.value.agentConfig.value.stateVariables.Some?
    ensures HasUserRequest(r.data.value.agentConfig.value.stateVariables.value)
    ensures r.(data := n.data) == n
    ensures var d := n.data.GetOr(EmptyData);
            r.data.value.(agentConfig := d.agentConfig) == d
    ensures n.data.Some? && n.data.value.agentConfig.Some? ==>
              var c := n.data.value.agentConfig.value;
              && r.data.value.agentConfig.value.(stateVariables := c.stateVariables) == c
              && (c.stateVariables.Some? ==>
                    var vs := c.stateVariables.value;
                    var rs := r.data.value.agentConfig.value.stateVariables.value;
                    |vs| <= |rs| <= |vs| + 1 && rs[..|vs|] == vs
                    && rs == WithUserRequest(vs))
    ensures n.data.None? || n.data.value.agentConfig.None? ==>
              r.data.value.agentConfig.value == DefaultAgentConfig(n.labelText)
    ensures n.data.Some? && n.data.value.agentConfig.Some? && n.data.value.agentConfig.value.stateVariables.None? ==>
              r.data.value.agentConfig.value.stateVariables == Some([UserRequestVariable])
  {
    var d := n.data.GetOr(EmptyData);
    var c := d.agentConfig.GetOr(DefaultAgentConfig(n.labelText));
    n.(data := Some(d.(agentConfig := Some(EnsureVariables(c)))))
  }

  /** The configuration with its variable list created if missing and `user_request` appended if absent. */
  function EnsureVariables(c: AgentConfig): (r: AgentConfig)
    ensures r.stateVariables.Some? && HasUserRequest(r.stateVariables.value)
    ensures r.(stateVariables := c.stateVariables) == c
    ensures c.stateVariables.Some? ==>
              var vs := c.stateVariables.value;
              var rs := r.stateVariables.value;
              |vs| <= |rs| <= |vs| + 1 && rs[..|vs|] == vs
  {
    c.(stateVariables := Some(WithUserRequest(c.stateVariables.GetOr([UserRequestVariable]))))
  }

  lemma EnsureAgentDataIdempotent(n: WorkflowNode)
    ensures EnsureAgentData(EnsureAgentData(n)) == EnsureAgentData(n)
  {
  }

  /** A node whose agent configuration is complete is left exactly as it is. */
  lemma EnsureAgentDataNoOp(n: WorkflowNode)
    requires n.data.Some? && n.data.value.agentConfig.Some?
    requires n.data.value.agentConfig.value.stateVariables.Some?
    requires HasUserRequest(n.data.value.agentConfig.value.stateVariables.value)
    ensures EnsureAgentData(n) == n
  {
  }

  /** `onOutputFormatChange`: the JSON schema survives only while the format is `json`. */
  function ClearSchemaUnlessJson(c: AgentConfig): (r: AgentConfig)
    ensures r.jsonSchema.Some? ==> r.outputFormat == Some(Json)
    ensures c.outputFormat == Some(Json) ==> r == c
    ensures r.(jsonSchema := c.jsonSchema) == c
  {
    if c.outputFormat != Some(Json) then c.(jsonSchema := None) else c
  }

  // ---------------------------------------------------------------------------
  // MCP configuration
  // ---------------------------------------------------------------------------

  /** Which component's initialiser runs: the two differ in description and tool list. */
  datatype Host = Shell | Panel

  const DefaultServer := MCPServerConfig(Http, Some("http://localhost:8080"), Some(30), None, None)

  function DefaultMCPConfig(nodeLabel: string, host: Host): (r: MCPConfig)
    ensures r.server == DefaultServer && r.toolArguments == Some(map[])
    ensures r.timeout == Some(60) && r.retryAttempts == Some(3)
  {
    MCPConfig(
      name := Some(nodeLabel),
      description := Some(if host == Shell then "MCP tool integration" else ""),
      server := DefaultServer,
      toolName := Some(""),
      toolArguments := Some(map[]),
      timeout := Some(60),
      retryAttempts := Some(3),
      availableTools := if host == Shell then Some([]) else None)
  }

  /** `ensureMCPData`: creates `data` and a default MCP configuration if missing; an existing one is kept whole. */
  function EnsureMCPData(n: WorkflowNode, host: Host): (r: WorkflowNode)
    ensures r.data.Some? && r.data.value.mcpConfig.Some?
    ensures r.(data := n.data) == n
    ensures var d := n.data.GetOr(EmptyData);
            r.data.value.(mcpConfig := d.mcpConfig) == d
    ensures n.data.Some? && n.data.value.mcpConfig.Some? ==> r == n
    ensures n.data.None? || n.data.value.mcpConfig.None? ==>
              r.data.value.mcpConfig.value == DefaultMCPConfig(n.labelText, host)
  {
    var d := n.data.GetOr(EmptyData);
    if d.mcpConfig.Some? then n.(data := Some(d))
    else n.(data := Some(d.(mcpConfig := Some(DefaultMCPConfig(n.labelText, host)))))
  }

  lemma EnsureMCPDataIdempotent(n: WorkflowNode, host: Host, host': Host)
    ensures EnsureMCPData(EnsureMCPData(n, host), host') == EnsureMCPData(n, host)
  {
  }

  /** The shell's `onMCPServerTypeChange`: drop the settings of the other transport. */
  function SwitchServerFields(s: MCPServerConfig): (r: MCPServerConfig)
    ensures r.serverType == s.serverType
    ensures r.serverType == Http ==> r.command.None? && r.args.None? && r.url == s.url
    ensures r.serverType == Stdio ==> r.url.None? && r.command == s.command && r.args == s.args
    ensures r.timeout == s.timeout
  {
    match s.serverType
    case Http => s.(command := None, args := None)
    case Stdio => s.(url := None)
  }

  lemma SwitchServerFieldsIdempotent(s: MCPServerConfig)
    ensures SwitchServerFields(SwitchServerFields(s)) == SwitchServerFields(s)
  {
  }

  // ---------------------------------------------------------------------------
  // Schema properties (the shell's JSON schema modal)
  // ---------------------------------------------------------------------------

  const NewSchemaProperty := SchemaProperty("", SString, Some(""), false, Some([]))

  /** `addSchemaProperty`: appends a blank string property. */
  function AddSchemaProperty(s: JsonSchema): (r: JsonSchema)
    ensures r.name == s.name
    ensures |r.properties| == |s.properties| + 1
    ensures r.properties[..|s.properties|] == s.properties
    ensures r.properties[|s.properties|] == NewSchemaProperty
  {
    s.(properties := s.properties + [NewSchemaProperty])
  }

  function RemoveSchemaProperty(s: JsonSchema, index: int): (r: JsonSchema)
    ensures r.name == s.name
    ensures r.properties == RemoveAt(s.properties, index)
    ensures var k := SpliceStart(|s.properties|, index);
            k < |s.properties| ==>
              (|r.properties| == |s.properties| - 1
               && multiset(r.properties) + multiset{s.properties[k]} == multiset(s.properties))
  {
    s.(properties := RemoveAt(s.properties, index))
  }

  /** Removing the property just added restores the schema. */
  lemma AddThenRemoveSchemaProperty(s: JsonSchema)
    ensures RemoveSchemaProperty(AddSchemaProperty(s), |s.properties|) == s
  {
    var added := AddSchemaProperty(s).properties;
    assert added[..|s.properties|] == s.properties;
  }

  /** `onPropertyTypeChange`: a non-enum property loses its values, an enum one gets a list. */
  function PropertyTypeChange(p: SchemaProperty): (r: SchemaProperty)
    ensures r.enumValues.Some?
    ensures p.propType != SEnum ==> r.enumValues == Some([])
    ensures p.propType == SEnum && p.enumValues.Some? ==> r == p
    ensures r.(enumValues := p.enumValues) == p
  {
    if p.propType != SEnum then p.(enumValues := Some([]))
    else if p.enumValues.None? then p.(enumValues := Some([]))
    else p
  }

  /**
   * `addEnumValue`: blank input is ignored; otherwise the trimmed value is
   * appended to the property's list. The source dereferences the property
   * unchecked, so the index must name one.
   */
  function AddEnumValue(s: JsonSchema, propertyIndex: int, value: string): (r: JsonSchema)
    requires !IsBlank(value) ==> 0 <= propertyIndex < |s.properties|
    ensures IsBlank(value) ==> r == s
    ensures !IsBlank(value) ==>
              && r.name == s.name
              && |r.properties| == |s.properties|
              && (forall i :: 0 <= i < |s.properties| && i != propertyIndex ==> r.properties[i] == s.properties[i])
              && var p := s.properties[propertyIndex];
                 var q := r.properties[propertyIndex];
                 && q.(enumValues := p.enumValues) == p
                 && q.enumValues == Some(p.enumValues.GetOr([]) + [Trim(value)])
  {
    TrimEmptyIffBlank(value);
    if Trim(value) == "" then s
    else
      var p := s.properties[propertyIndex];
      var q := p.(enumValues := Some(p.enumValues.GetOr([]) + [Trim(value)]));
      s.(properties := s.properties[propertyIndex := q])
  }

  /** Every value `addEnumValue` appends is non-empty and carries no surrounding white space. */
  lemma AddEnumValueTrimmed(s: JsonSchema, propertyIndex: int, value: string)
    requires !IsBlank(value) && 0 <= propertyIndex < |s.properties|
    ensures var vs := AddEnumValue(s, propertyIndex, value).properties[propertyIndex].enumValues.value;
            var v := vs[|vs| - 1];
            v != "" && !IsSpace(v[0]) && !IsSpace(v[|v| - 1])
  {
    TrimEmptyIffBlank(value);
    var t := Trim(value);
    assert t == TrimEnd(TrimStart(value));
  }

  /** `removeEnumValue`: splices the property's list when it has one. */
  function RemoveEnumValue(s: JsonSchema, propertyIndex: int, valueIndex: int): (r: JsonSchema)
    requires 0 <= propertyIndex < |s.properties|
    ensures |r.properties| == |s.properties|
    ensures forall i :: 0 <= i < |s.properties| && i != propertyIndex ==> r.properties[i] == s.properties[i]
    ensures var p := s.properties[propertyIndex];
            var q := r.properties[propertyIndex];
            && q.(enumValues := p.enumValues) == p
            && (p.enumValues.None? ==> q.enumValues.None?)
            && (p.enumValues.Some? ==> q.enumValues == Some(RemoveAt(p.enumValues.value, valueIndex)))
  {
    var p := s.properties[propertyIndex];
    match p.enumValues
    case None => s
    case Some(vs) => s.(properties := s.properties[propertyIndex := p.(enumValues := Some(RemoveAt(vs, valueIndex)))])
  }

  // ---------------------------------------------------------------------------
  // Tool arguments (`{ [key: string]: any }`)
  // ---------------------------------------------------------------------------

  /** The panel's `addMCPToolArgument`: the first free of `arg`, `arg1`, `arg2`, ... bound to `''`. */
  function AddArgumentPanel(args: map<string, Value>): (r: map<string, Value>)
    ensures exists k :: k !in args && r == args[k := Str("")]
    ensures |r| == |args| + 1
    ensures r == args[FirstFree("arg", args.Keys) := Str("")]
    ensures exists k: nat ::
              && Suffixed("arg", k) !in args
              && (forall j: nat :: j < k ==> Suffixed("arg", j) in args)
              && r == args[Suffixed("arg", k) := Str("")]
  {
    var k := FirstFree("arg", args.Keys);
    args[k := Str("")]
  }

  /** The key the shell's `addMCPToolArgument` writes: `arg_` followed by one more than the key count. */
  function ShellArgumentKey(args: map<string, Value>): (k: string)
    ensures k == Suffixed("arg_", |args| + 1)
  {
    "arg_" + NatToString(|args| + 1)
  }

  /** The shell's `addMCPToolArgument` as written: it may pick a key that is already bound. */
  function AddArgumentAsWritten(args: map<string, Value>): (r: map<string, Value>)
    ensures ShellArgumentKey(args) in r && r[ShellArgumentKey(args)] == Str("")
    ensures r.Keys == args.Keys + {ShellArgumentKey(args)}
    ensures forall k :: k in args && k != ShellArgumentKey(args) ==> r[k] == args[k]
  {
    args[ShellArgumentKey(args) := Str("")]
  }

  /**
   * After adding `arg_1`, `arg_2` and deleting `arg_1`, adding again picks
   * `arg_2` once more: no argument is added and the value of `arg_2` is lost.
   */
  lemma AddArgumentOverwrites()
    ensures var args := map["arg_2" := Str("x")];
            && AddArgumentAsWritten(args) == map["arg_2" := Str("")]
            && |AddArgumentAsWritten(args)| == |args|
  {
    var args := map["arg_2" := Str("x")];
    assert |args| == 1;
    assert NatToString(2) == "2";
    assert ShellArgumentKey(args) == "arg_2";
  }

  /**
   * The shell's `addMCPToolArgument` as intended: the first `arg_<n>` with
   * `n` at least one more than the key count that is still free.
   */
  function AddArgumentCorrected(args: map<string, Value>): (r: map<string, Value>)
    ensures exists k :: k !in args && r == args[k := Str("")]
    ensures |r| == |args| + 1
    ensures ShellArgumentKey(args) !in args ==> r == AddArgumentAsWritten(args)
  {
    var n := FirstFreeFrom("arg_", args.Keys, |args| + 1, |args| + 1);
    args[Suffixed("arg_", n) := Str("")]
  }

  /** `removeMCPToolArgument`: `delete args[key]`. */
  function RemoveArgument(args: map<string, Value>, key: string): (r: map<string, Value>)
    ensures key !in r
    ensures r.Keys == args.Keys - {key}
    ensures forall k :: k in r ==> r[k] == args[k]
  {
    args - {key}
  }

  lemma RemoveAfterInsert(args: map<string, Value>, k: string, v: Value)
    requires k !in args
    ensures RemoveArgument(args[k := v], k) == args
  {
    var r := RemoveArgument(args[k := v], k);
    assert r.Keys == args.Keys;
  }

  /** Deleting the argument just added restores the map. */
  lemma AddThenRemoveArgument(args: map<string, Value>)
    ensures RemoveArgument(AddArgumentPanel(args), FirstFree("arg", args.Keys)) == args
  {
    RemoveAfterInsert(args, FirstFree("arg", args.Keys), Str(""));
  }

  /**
   * The panel's `onMCPArgumentKeyChange`: unless the key is unchanged, move
   * the value of `oldKey` (JavaScript `undefined` if unbound) to `newKey`.
   */
  function RenameArgument(args: map<string, Value>, oldKey: string, newKey: string): (r: map<string, Value>)
    ensures newKey == oldKey ==> r == args
    ensures newKey != oldKey ==>
              && r.Keys == args.Keys - {oldKey} + {newKey}
              && r[newKey] == (if oldKey in args then args[oldKey] else Undefined)
              && forall k :: k in args && k != oldKey && k != newKey ==> r[k] == args[k]
  {
    if newKey == oldKey then args
    else
      var v := if oldKey in args then args[oldKey] else Undefined;
      (args - {oldKey})[newKey := v]
  }

  /** Renaming a bound key to a free one and back restores the map. */
  lemma RenameArgumentInverse(args: map<string, Value>, oldKey: string, newKey: string)
    requires oldKey in args && newKey !in args
    ensures RenameArgument(RenameArgument(args, oldKey, newKey), newKey, oldKey) == args
  {
  }

  /** The shell's `updateMCPToolArgumentKey`: as the panel's, but a blank new key is ignored. */
  function UpdateArgumentKey(args: map<string, Value>, oldKey: string, newKey: string): (r: map<string, Value>)
    ensures IsBlank(newKey) ==> r == args
    ensures !IsBlank(newKey) ==> r == RenameArgument(args, oldKey, newKey)
  {
    TrimEmptyIffBlank(newKey);
    if oldKey != newKey && Trim(newKey) != "" then RenameArgument(args, oldKey, newKey) else args
  }

  /** The value setters of both components: `args[key] = value`. */
  function SetArgumentValue(args: map<string, Value>, key: string, v: Value): (r: map<string, Value>)
    ensures key in r && r[key] == v
    ensures r.Keys == args.Keys + {key}
    ensures forall k :: k in args && k != key ==> r[k] == args[k]
  {
    args[key := v]
  }

  // ---------------------------------------------------------------------------
  // Name changes
  // ---------------------------------------------------------------------------

  /** The canvas label after a name change: the trimmed name, or `fallback` if blank. */
  function NameLabel(newName: string, fallback: string): (r: string)
    ensures IsBlank(newName) ==> r == fallback
    ensures !IsBlank(newName) ==> r == Trim(newName) && r != ""
  {
    TrimEmptyIffBlank(newName);
    if newName != "" && Trim(newName) != "" then Trim(newName) else fallback
  }

  /** A label the name handlers produce is already trimmed, so setting it as the name again keeps it. */
  lemma NameLabelStable(newName: string, fallback: string)
    requires !IsBlank(fallback) && Trim(fallback) == fallback
    ensures NameLabel(NameLabel(newName, fallback), fallback) == NameLabel(newName, fallback)
  {
    var r := NameLabel(newName, fallback);
    if !IsBlank(newName) {
      assert r == Trim(newName) && r != "";
      assert !IsSpace(r[0]) && !IsSpace(r[|r| - 1]);
      TrimOfTrimmed(r);
      assert !IsBlank(r);
    }
  }
}
