# Workflow builder core, modelled in Dafny

This project models the logic core of an Angular AI-workflow builder. Users
drop typed nodes (start, agent, end, MCP tool, if/else, sequential,
parallel) on a canvas, wire them output-to-input and configure them in a
properties panel. The canvas is then compiled into a workflow-execution
request for a backend, and the backend's per-node results are shown as an
activity timeline.

The model covers the pure decisions of that core. Each piece is a pure
function over immutable datatypes:

- **Aliases** (`aliases.dfy`): the alias registry.
  - Fresh aliases `base`, `base1`, `base2`, …
  - The application shell's validator (trims and lower-cases first) and the
    properties panel's validator (format and uniqueness only). The two
    disagree and are kept apart.
  - The suggestion sanitiser.
- **Per-node configuration mutators** (`node_config.dfy`):
  - lazy initialisation of agent and MCP data;
  - JavaScript `splice` semantics for list removal;
  - the protected `user_request` variable;
  - schema-property and enum edits;
  - tool-argument map edits;
  - name-to-label handling.
- **Connection-drawing protocol** (`protocol.dfy`): the canvas's three-field
  state machine and the `canConnectNodes` test shared by canvas and shell.
- **Shell graph store** (`graph_store.dfy`, `app_editor.dfy`):
  - nodes, connections, selection, drag flags;
  - drops, selection, deletion with cascading connection removal;
  - alias changes, handlers on the selected node, the variable paths
    listed for a node; a handler that dereferences a missing agent
    configuration ends in `TypeError` (`AppEditor.Handled`), as the
    JavaScript does;
  - a store invariant preserved by every event.
- **Properties panel handlers** (`properties_panel.dfy`): each returns the
  edited node and whether `nodeUpdate` was emitted.
- **The two compilers**:
  - the preview's `exportWorkflowDefinition` (`preview.dfy`);
  - the execution service's `convertCanvasToExecutionRequest`
    (`execution_service.dfy`);
  - their shared parts (`compile_common.dfy`): `next`/`dependencies`,
    alias map, MCP defaults;
  - the `${name}` instruction rewrite (`instructions.dfy`), modelled as the
    left-to-right global regular-expression replace it is.
- **Preview chat guards and reply extraction** (`preview.dfy`,
  `execution_service.dfy`).
- **Activity timeline** (`timeline.dfy`):
  - stable priority sort (start, others, end);
  - status mapping and description synthesis;
  - truncation;
  - the expanded-panel sets.

Shared helpers: `wrappers.dfy` (`Option`), `text.dfy` (JavaScript `trim`,
ASCII `toLowerCase`, the `\s` and `\w` classes, decimal rendering) and
`models.dfy` (the data model of `workflow.models.ts`).

## Model

| member | source | states |
|---|---|---|
| Aliases.FirstFree | ai-agent-builder/src/app/app.component.ts:150-172 | The name chosen is free, every earlier candidate of base, base1, base2, … is taken, and the base itself is chosen when it is free; the search always ends. |
| Aliases.GenerateUniqueAlias | ai-agent-builder/src/app/app.component.ts:150-177 | A new node's alias is carried by no existing node and is the first free one of the type's base token followed by 1, 2, …. |
| Aliases.FindByAlias | ai-agent-builder/src/app/app.component.ts:175-177 | The alias is in use exactly when some node carries it; the index returned is the first such node. |
| Aliases.ValidateAlias | ai-agent-builder/src/app/app.component.ts:180-212 | Each outcome holds exactly under its condition, checked in source order on the trimmed, lower-cased alias: blank input is required; then a pattern mismatch is a bad format; then a length outside 2..20 is a bad length; then a reserved word is reserved; then a first carrier with another id is a duplicate; otherwise valid. |
| Aliases.ValidateAliasUniqueness | ai-agent-builder/src/app/app.component.ts:180-212 | With unique aliases the shell accepts an alias exactly when it is well formed, of admissible length, not reserved, and carried by no node but the current one. |
| Aliases.PanelValidateAlias | ai-agent-builder/src/app/components/properties-panel/properties-panel.component.ts:396-416 | The panel accepts exactly the aliases that match the pattern and that no node with another id carries; each failure holds exactly under its condition: empty is required, then a pattern mismatch is a bad format, then a carrier with another id is a duplicate. |
| Aliases.NormalizeIdempotent | ai-agent-builder/src/app/app.component.ts:182-186 | Trimming and lower-casing twice is the same as once, so the shell judges `AB` exactly as `ab`. |
| Aliases.ValidateAliasNormalized | ai-agent-builder/src/app/app.component.ts:180-212 | The shell gives the same verdict on an alias and on its normalised form. |
| Aliases.ShellValidImpliesPanelValid | ai-agent-builder/src/app/app.component.ts:180-212 | With unique aliases, every alias the shell accepts is accepted by the panel in its normalised form. |
| Aliases.PanelAcceptsReservedWord | ai-agent-builder/src/app/components/properties-panel/properties-panel.component.ts:396-416 | The converse fails: the panel accepts `workflow`, which the shell rejects as reserved. |
| Aliases.SanitizeAlias | ai-agent-builder/src/app/app.component.ts:215-223 | A suggested alias contains only lower-case letters, digits and single underscores, has at most 20 characters, starts with a letter and does not end with an underscore. |
| Aliases.SanitizedAliasIsWellFormed | ai-agent-builder/src/app/app.component.ts:180-223 | A suggestion of two or more characters can be rejected by the shell only as reserved or duplicate. |
| Aliases.SanitizeKeepsCanonicalAlias | ai-agent-builder/src/app/app.component.ts:215-223 | A label of lower-case letters and digits, starting with a letter and at most 20 long, is suggested as itself. |
| Aliases.SanitizeCollapsesSpaces | ai-agent-builder/src/app/app.component.ts:215-223 | Upper case is lowered and a run of white space becomes one underscore: `A  b` is suggested as `a_b`. |
| Aliases.SanitizeDropsUnderscores | ai-agent-builder/src/app/app.component.ts:215-223 | Underscores the user typed are stripped, so `a_b` is suggested as `ab`. |
| NodeConfig.RemoveAt | ai-agent-builder/src/app/components/properties-panel/properties-panel.component.ts:197-218 | `splice(index, 1)` removes exactly the element at the resolved start, a negative index counting from the end; the order of the rest is kept, and an index past the end removes nothing. |
| NodeConfig.RemoveStateVariable | ai-agent-builder/src/app/app.component.ts:1023-1036 | A `user_request` variable named by the index is never removed; in every other case the list is spliced at the index as `splice(index, 1)` does, so a named non-protected variable is removed and nothing else; an index past the end changes nothing. |
| NodeConfig.RemoveStateVariableKeepsUserRequest | ai-agent-builder/src/app/app.component.ts:1023-1036 | With a non-negative index, a list that holds `user_request` still holds it after a removal. |
| NodeConfig.NegativeIndexBypassesGuard | ai-agent-builder/src/app/components/properties-panel/properties-panel.component.ts:197-218 | Index -1 removes a lone `user_request` variable, because the guard reads `undefined` at a negative index. |
| NodeConfig.WithUserRequest | ai-agent-builder/src/app/components/properties-panel/properties-panel.component.ts:71-113 | The variable list afterwards holds `user_request`; it is unchanged if it already did, and otherwise the variable is appended. |
| NodeConfig.EnsureAgentData | ai-agent-builder/src/app/components/properties-panel/properties-panel.component.ts:71-113 | Afterwards the node has an agent configuration whose variable list holds `user_request`. A missing configuration becomes the default one, named after the label; a missing list becomes `[user_request]`; an existing list gets `user_request` appended only if absent. Nothing outside the agent configuration changes. |
| NodeConfig.EnsureAgentDataIdempotent | ai-agent-builder/src/app/components/properties-panel/properties-panel.component.ts:71-113 | Initialising agent data twice is the same as once. |
| NodeConfig.EnsureAgentDataNoOp | ai-agent-builder/src/app/components/properties-panel/properties-panel.component.ts:71-113 | A node whose configuration already holds `user_request` is left exactly as it is. |
| NodeConfig.ClearSchemaUnlessJson | ai-agent-builder/src/app/components/properties-panel/properties-panel.component.ts:161-176 | A schema survives only under the `json` format; under `json` nothing changes; only the schema field can change. |
| NodeConfig.EnsureMCPData | ai-agent-builder/src/app/components/properties-panel/properties-panel.component.ts:116-135 | Afterwards the node has an MCP configuration; an existing one is kept whole, a missing one is the default (http on localhost:8080, timeout 60, 3 retries, no arguments). |
| NodeConfig.EnsureMCPDataIdempotent | ai-agent-builder/src/app/app.component.ts:958-978 | Initialising MCP data a second time, by either component, changes nothing. |
| NodeConfig.SwitchServerFields | ai-agent-builder/src/app/app.component.ts:1206-1222 | After a transport switch an http server keeps its URL and loses command and args, and a stdio server keeps command and args and loses its URL. |
| NodeConfig.SwitchServerFieldsIdempotent | ai-agent-builder/src/app/app.component.ts:1206-1222 | Repeating the switch for the same transport changes nothing more. |
| NodeConfig.AddSchemaProperty | ai-agent-builder/src/app/app.component.ts:1106-1117 | The existing properties are kept in order and one blank string property is appended. |
| NodeConfig.RemoveSchemaProperty | ai-agent-builder/src/app/app.component.ts:1119-1122 | The property list is spliced at the index as `splice(index, 1)` does: the one property at the resolved start is removed and the multiset of the others is kept. |
| NodeConfig.AddThenRemoveSchemaProperty | ai-agent-builder/src/app/app.component.ts:1106-1122 | Removing the property just added restores the schema. |
| NodeConfig.PropertyTypeChange | ai-agent-builder/src/app/app.component.ts:1146-1157 | A property that is not an enum gets an empty value list, an enum keeps its list or gets an empty one, and nothing else changes. |
| NodeConfig.AddEnumValue | ai-agent-builder/src/app/app.component.ts:1125-1135 | Blank input changes nothing; otherwise only the chosen property changes, and it gains the trimmed value at the end of its list. |
| NodeConfig.AddEnumValueTrimmed | ai-agent-builder/src/app/app.component.ts:1125-1135 | The value appended is non-empty and has no surrounding white space. |
| NodeConfig.RemoveEnumValue | ai-agent-builder/src/app/app.component.ts:1137-1143 | Only the chosen property changes, by a splice of its value list; a property without a list keeps none. |
| NodeConfig.AddArgumentPanel | ai-agent-builder/src/app/components/properties-panel/properties-panel.component.ts:307-328 | Exactly one new key is added, bound to the empty string: the first of `arg`, `arg1`, `arg2`, … that is not yet bound. |
| NodeConfig.AddArgumentAsWritten | ai-agent-builder/src/app/app.component.ts:1413-1427 | The shell binds `arg_<count+1>` to the empty string whether or not that key is already bound, keeping every other key. |
| NodeConfig.AddArgumentOverwrites | ai-agent-builder/src/app/app.component.ts:1413-1427 | From `{arg_2: "x"}` the shell's handler adds no argument and wipes the value of `arg_2`. |
| NodeConfig.AddArgumentCorrected | ai-agent-builder/src/app/app.component.ts:1413-1427 | The corrected handler always adds exactly one fresh key bound to the empty string, and agrees with the source whenever the source's key is free. |
| NodeConfig.RemoveArgument | ai-agent-builder/src/app/components/properties-panel/properties-panel.component.ts:331-342 | The key is unbound afterwards; every other binding is kept. |
| NodeConfig.AddThenRemoveArgument | ai-agent-builder/src/app/components/properties-panel/properties-panel.component.ts:307-342 | Deleting the argument just added restores the argument map. |
| NodeConfig.RenameArgument | ai-agent-builder/src/app/components/properties-panel/properties-panel.component.ts:269-288 | An unchanged key changes nothing; otherwise the old key's value (`undefined` if unbound) moves to the new key, the old key goes, and other bindings are kept. |
| NodeConfig.RenameArgumentInverse | ai-agent-builder/src/app/components/properties-panel/properties-panel.component.ts:269-288 | Renaming a bound key to a free one and back restores the map. |
| NodeConfig.UpdateArgumentKey | ai-agent-builder/src/app/app.component.ts:1450-1460 | A blank new key changes nothing; otherwise the shell renames exactly as the panel does. |
| NodeConfig.SetArgumentValue | ai-agent-builder/src/app/components/properties-panel/properties-panel.component.ts:291-304 | The key is bound to the new value; every other binding is kept. |
| NodeConfig.NameLabel | ai-agent-builder/src/app/app.component.ts:1225-1252 | A blank name resets the label to the type's default; otherwise the label is the trimmed name, never empty. |
| NodeConfig.NameLabelStable | ai-agent-builder/src/app/components/properties-panel/properties-panel.component.ts:142-158 | Applying the label as a name again leaves it unchanged. |
| ConnectionProtocol.FindPair | ai-agent-builder/src/app/components/canvas/canvas.component.ts:218-231 | A connection between the two nodes is found exactly when one exists, and the one found has that source and target. |
| ConnectionProtocol.CanConnectNodes | ai-agent-builder/src/app/components/canvas/canvas.component.ts:218-231 | A connection is allowed exactly from an output handle to an input handle of a different node, and only when no connection already joins that source to that target. |
| ConnectionProtocol.CreateConnection | ai-agent-builder/src/app/components/canvas/canvas.component.ts:233-244 | The new connection joins the two nodes from output to input under the given id. |
| ConnectionProtocol.AddLegalConnection | ai-agent-builder/src/app/components/canvas/canvas.component.ts:193-244 | Adding a connection that is allowed, under a fresh id, keeps the list free of self-loops, duplicate pairs and duplicate ids, with every connection running output to input. |
| ConnectionProtocol.StartConnection | ai-agent-builder/src/app/components/canvas/canvas.component.ts:144-161 | Mouse-down starts connecting from that handle, with no preview path yet. |
| ConnectionProtocol.OnConnectionDrag | ai-agent-builder/src/app/components/canvas/canvas.component.ts:163-191 | A mouse-move never changes the origin or the connecting flag; it replaces the preview path only while connecting from a node that exists and the canvas element is found. |
| ConnectionProtocol.Target | ai-agent-builder/src/app/components/canvas/canvas.component.ts:193-216 | The release targets a handle only when a handle element with a non-empty node id and a handle type is under the cursor. |
| ConnectionProtocol.EndConnection | ai-agent-builder/src/app/components/canvas/canvas.component.ts:193-216 | A release produces a connection exactly when connecting over a targeted handle that the legality test accepts, and that connection runs from the origin to the target; the state always returns to idle. |
| ConnectionProtocol.EndConnectionPreservesWellFormed | ai-agent-builder/src/app/components/canvas/canvas.component.ts:193-244 | Whatever a release commits keeps the connection list well formed. |
| ConnectionProtocol.NoConnectionFromInput | ai-agent-builder/src/app/components/canvas/canvas.component.ts:144-231 | A gesture started on an input handle never produces a connection. |
| ConnectionProtocol.NoSelfConnection | ai-agent-builder/src/app/components/canvas/canvas.component.ts:144-231 | A gesture released over its own node never produces a connection, however many mouse-moves come in between. |
| ConnectionProtocol.DraggedKeepsOrigin | ai-agent-builder/src/app/components/canvas/canvas.component.ts:163-191 | Any number of mouse-moves keeps the connecting flag and the origin. |
| ConnectionProtocol.SelectNodeRequest | ai-agent-builder/src/app/components/canvas/canvas.component.ts:70-77 | A node click is forwarded as a selection exactly when no node is being dragged. |
| ConnectionProtocol.CanvasDropForwarded | ai-agent-builder/src/app/components/canvas/canvas.component.ts:130-139 | A drop is forwarded to the shell exactly when it does not end a canvas-node drag. |
| GraphStore.OnCanvasDrop | ai-agent-builder/src/app/app.component.ts:232-294 | A drop during a node drag or without a canvas element changes nothing; otherwise exactly one node is appended with the template's label and icon, empty data and an alias no node carries. |
| GraphStore.DropPreservesUniqueness | ai-agent-builder/src/app/app.component.ts:232-294 | Dropping a node keeps aliases unique, and keeps ids unique when the id is fresh. |
| GraphStore.FindNode | ai-agent-builder/src/app/app.component.ts:297-302 | A node is found exactly when some node has the id, and the first such node is returned. |
| GraphStore.SelectedNode | ai-agent-builder/src/app/app.component.ts:888-891 | A node is returned exactly when a non-empty id is selected and a node has it; that node carries the id and is on the canvas. |
| GraphStore.ReplaceNode | ai-agent-builder/src/app/app.component.ts:297-302 | An update for an unknown id changes nothing; otherwise exactly the first node with that id is replaced. |
| GraphStore.ReplaceNodeFound | ai-agent-builder/src/app/app.component.ts:297-302 | With unique ids the replacement keeps ids unique, keeps the updated node's position in the list, and leaves every other node untouched. |
| GraphStore.SelectNode | ai-agent-builder/src/app/app.component.ts:641-663 | A click while dragging changes nothing. Otherwise the node becomes selected and the connection selection is cleared. The first node with that id is replaced by its MCP-initialised self if it is an mcp node; every other node, the connections and the drag flags are unchanged. |
| GraphStore.SelectMcpNodeHasConfig | ai-agent-builder/src/app/app.component.ts:641-663 | A selected mcp node always has an MCP configuration afterwards. |
| GraphStore.SelectConnection | ai-agent-builder/src/app/app.component.ts:666-673 | The connection becomes selected, the node selection is cleared, and nothing else changes. |
| GraphStore.DeselectAll | ai-agent-builder/src/app/app.component.ts:676-708 | Afterwards nothing is selected, and nothing else changes. |
| GraphStore.NodeDragStart | ai-agent-builder/src/app/app.component.ts:498-542 | Both drag flags are raised and nothing else changes. |
| GraphStore.NodeDragEnd | ai-agent-builder/src/app/app.component.ts:544-550 | Both drag flags are lowered and nothing else changes. |
| GraphStore.DragSuppressesClicksAndDrops | ai-agent-builder/src/app/app.component.ts:232-294 | While a node is dragged, node clicks and palette drops change nothing, and the canvas forwards no selection. |
| GraphStore.Detach | ai-agent-builder/src/app/app.component.ts:762-791 | A connection is kept exactly when neither end is the node. |
| GraphStore.DetachAppend | ai-agent-builder/src/app/app.component.ts:762-791 | Removing a node's connections keeps the survivors in their original order. |
| GraphStore.WithoutNode | ai-agent-builder/src/app/app.component.ts:762-791 | A node is kept exactly when its id differs from the one deleted. |
| GraphStore.DeleteSelectedNode | ai-agent-builder/src/app/app.component.ts:762-791 | Without a selected node nothing changes; otherwise the node with that id and exactly the connections touching it are removed, and the node selection is cleared. |
| GraphStore.DeleteNodeLeavesNoDanglingConnection | ai-agent-builder/src/app/app.component.ts:762-791 | After a deletion no node has the deleted id, no connection refers to it, and the connections stay well formed. |
| GraphStore.WithoutConnection | ai-agent-builder/src/app/app.component.ts:794-809 | A connection is kept exactly when its id differs from the selected one. |
| GraphStore.DeleteSelectedConnection | ai-agent-builder/src/app/app.component.ts:794-809 | Without a selected connection nothing changes; otherwise exactly the connections with that id are removed and the selection is cleared. |
| GraphStore.EndConnection | ai-agent-builder/src/app/app.component.ts:360-383 | The shell's release appends exactly the connection the protocol produces, if any, returns the state to idle, and changes nothing else. |
| GraphStore.OnConnectionCreated | ai-agent-builder/src/app/app.component.ts:418-422 | The canvas's connection is appended and the connection state is reset. |
| GraphStore.OnConnectionStateChange | ai-agent-builder/src/app/app.component.ts:425-435 | The shell takes over the canvas's connection state and changes nothing else. |
| GraphStore.StepPreservesInvariant | ai-agent-builder/src/app/app.component.ts:232-809 | Every shell event, given fresh ids, keeps the store invariant: at most one thing is selected, connections are well formed, and aliases and node ids are unique. |
| GraphStore.RunPreservesInvariant | ai-agent-builder/src/app/app.component.ts:232-809 | The invariant holds after any sequence of events with fresh ids. |
| AppEditor.EditSelected | ai-agent-builder/src/app/app.component.ts:888-891 | Writing back the edited node changes only the selected node, and that node is then selected. |
| AppEditor.RemoveAgentStateVariable | ai-agent-builder/src/app/app.component.ts:1023-1036 | Without a variable list nothing changes; otherwise only the variable list changes, by the guarded removal. |
| AppEditor.ShellRemoveKeepsUserRequest | ai-agent-builder/src/app/app.component.ts:1023-1036 | With a non-negative index the shell's handler keeps `user_request`. |
| AppEditor.OutputFormatChange | ai-agent-builder/src/app/app.component.ts:1039-1051 | Other node types are untouched. An agent node without a configuration raises a `TypeError`. Otherwise the schema survives only under the `json` format and nothing outside the agent configuration changes. |
| AppEditor.AgentNameChange | ai-agent-builder/src/app/app.component.ts:1225-1236 | Other node types are untouched. An agent node without a configuration raises a `TypeError`. Otherwise the configuration gets the new name and the label becomes the trimmed name (or `Agent`); nothing else changes. |
| AppEditor.FreshAgentNeedsPanelInitialisation | ai-agent-builder/src/app/app.component.ts:1225-1236 | An agent node just dropped on the canvas makes the shell's name and output-format handlers throw; after the panel's initialiser both succeed. |
| AppEditor.MCPNameChange | ai-agent-builder/src/app/app.component.ts:1239-1252 | An mcp node is MCP-initialised. Its configuration then differs only in the new name, the label becomes the trimmed name (or `MCP`), and nothing else changes; other nodes are untouched. |
| AppEditor.ServerTypeChange | ai-agent-builder/src/app/app.component.ts:1206-1222 | An mcp node is MCP-initialised. Its server then drops the other transport's settings, and nothing else changes; other nodes are untouched. |
| AppEditor.ServerTypeChangeClearsOtherTransport | ai-agent-builder/src/app/app.component.ts:1206-1222 | An http server has no command or args afterwards, and a stdio server has no URL. |
| AppEditor.AddMCPToolArgument | ai-agent-builder/src/app/app.component.ts:1413-1427 | An mcp node is MCP-initialised and ends up with exactly one more argument, under a previously unbound key, bound to the empty string. Nothing but the argument map changes. |
| AppEditor.AddMCPToolArgumentAsWritten | ai-agent-builder/src/app/app.component.ts:1413-1427 | The handler as written MCP-initialises the node, then writes the source's computed key into the argument map; nothing else changes. |
| AppEditor.AddMCPToolArgumentAgrees | ai-agent-builder/src/app/app.component.ts:1413-1427 | The corrected and the as-written handlers agree whenever the computed key is free. |
| AppEditor.RemoveMCPToolArgument | ai-agent-builder/src/app/app.component.ts:1430-1436 | Without an argument map nothing changes. Otherwise exactly that key is deleted, and nothing outside the argument map changes. |
| AppEditor.UpdateMCPToolArgumentKey | ai-agent-builder/src/app/app.component.ts:1450-1460 | A missing map, or a blank or unchanged key, changes nothing. Otherwise the value moves from the old key to the new one, every other binding is kept, and nothing outside the argument map changes. |
| AppEditor.UpdateMCPToolArgumentValue | ai-agent-builder/src/app/app.component.ts:1463-1469 | Without an argument map nothing changes. Otherwise the key is bound to the value, and nothing outside the argument map changes. |
| AppEditor.AliasChange | ai-agent-builder/src/app/app.component.ts:1255-1267 | Without a selected node, or if the shell's validator rejects the cleaned alias, nothing changes; otherwise the selected node gets the cleaned alias and nothing else changes. |
| AppEditor.AcceptedAliasIsFree | ai-agent-builder/src/app/app.component.ts:1255-1267 | An accepted alias is well formed, 2 to 20 characters long and carried by no other node. |
| AppEditor.AliasChangePreservesUniqueness | ai-agent-builder/src/app/app.component.ts:1255-1267 | An alias change keeps aliases and node ids unique. |
| AppEditor.AliasChangeWellFormed | ai-agent-builder/src/app/app.component.ts:1255-1267 | After an accepted change the selected node's alias is well formed and 2 to 20 characters long. |
| AppEditor.GetNodeOutputs | ai-agent-builder/src/app/app.component.ts:1342-1373 | A node without an alias lists nothing; otherwise it lists output and status, plus success and tool_name for an mcp node, each with a description. |
| AppEditor.GetJsonSchemaProperties | ai-agent-builder/src/app/app.component.ts:1376-1387 | An aliased agent with a schema lists one path per property, in order, with its type and description; any other node lists nothing. |
| AppEditor.OutputPathsUnderAlias | ai-agent-builder/src/app/app.component.ts:1342-1387 | Every variable path listed for a node starts with `workflow.<alias>.`. |
| PropertiesPanel.AgentNameChange | ai-agent-builder/src/app/components/properties-panel/properties-panel.component.ts:142-158 | A non-agent node is untouched and not emitted. An agent node is initialised; its configuration then differs only in the new name and its label becomes the trimmed name. It keeps `user_request` and is emitted. |
| PropertiesPanel.OutputFormatChange | ai-agent-builder/src/app/components/properties-panel/properties-panel.component.ts:161-176 | Any node gets an initialised agent configuration whose schema survives only under `json`; nothing outside the agent configuration changes, and the node is emitted. |
| PropertiesPanel.AddAgentStateVariable | ai-agent-builder/src/app/components/properties-panel/properties-panel.component.ts:179-194 | An agent node is initialised, then gets one blank string variable appended. Nothing else in its configuration or outside it changes, and the node is emitted. Other nodes are untouched. |
| PropertiesPanel.RemoveAgentStateVariable | ai-agent-builder/src/app/components/properties-panel/properties-panel.component.ts:197-218 | For an agent node, a refused removal of `user_request` is not emitted, but the initialisation persists. Any other index splices the list, and the node is emitted. Only the variable list of the initialised configuration changes. |
| PropertiesPanel.PanelRemoveKeepsUserRequest | ai-agent-builder/src/app/components/properties-panel/properties-panel.component.ts:197-218 | With a non-negative index an agent node keeps `user_request`. |
| PropertiesPanel.MCPNameChange | ai-agent-builder/src/app/components/properties-panel/properties-panel.component.ts:225-241 | An mcp node is initialised. Its configuration then differs only in the new name, and the label becomes the trimmed name. Nothing else changes, and the node is emitted. |
| PropertiesPanel.MCPServerTypeChange | ai-agent-builder/src/app/components/properties-panel/properties-panel.component.ts:244-252 | The panel clears no field; it re-emits exactly mcp nodes. |
| PropertiesPanel.ArgumentKeyChange | ai-agent-builder/src/app/components/properties-panel/properties-panel.component.ts:269-288 | An unchanged key or a non-mcp node is ignored. Otherwise the node is initialised, the value moves to the new key, nothing outside the argument map changes, and the node is emitted. |
| PropertiesPanel.ArgumentValueChange | ai-agent-builder/src/app/components/properties-panel/properties-panel.component.ts:291-304 | On an mcp node the key is bound to the new string, nothing outside the argument map changes, and the node is emitted. |
| PropertiesPanel.AddMCPToolArgument | ai-agent-builder/src/app/components/properties-panel/properties-panel.component.ts:307-328 | An mcp node gains exactly one argument: the first free of `arg`, `arg1`, … bound to the empty string. Nothing outside the argument map changes, and the node is emitted. |
| PropertiesPanel.RemoveMCPToolArgument | ai-agent-builder/src/app/components/properties-panel/properties-panel.component.ts:331-342 | On an mcp node exactly that key is deleted, nothing outside the argument map changes, and the node is emitted. |
| PropertiesPanel.AddThenRemoveMCPToolArgument | ai-agent-builder/src/app/components/properties-panel/properties-panel.component.ts:307-342 | Adding an argument and deleting it again restores the initialised map. |
| PropertiesPanel.AliasChange | ai-agent-builder/src/app/components/properties-panel/properties-panel.component.ts:359-375 | An absent value is ignored; the cleaned alias is assigned and emitted exactly when the panel's validator accepts it. |
| PropertiesPanel.PanelAliasChangeKeepsUniqueness | ai-agent-builder/src/app/components/properties-panel/properties-panel.component.ts:359-416 | When the shell applies the emitted node, aliases and node ids stay unique. |
| Instructions.WordRun | ai-agent-builder/src/app/components/preview-workflow/preview-workflow.component.ts:358-379 | The run is the longest prefix of `\w` characters. |
| Instructions.RefAt | ai-agent-builder/src/app/components/preview-workflow/preview-workflow.component.ts:358-379 | A match at the head is `${`, one or more `\w` characters, then `}`. |
| Instructions.Replacement | ai-agent-builder/src/app/components/preview-workflow/preview-workflow.component.ts:358-379 | A replacement is a `${workflow.…}` reference, longer than the match it replaces, and holds no further `$`. |
| Instructions.ReplacementIsWorkflowReference | ai-agent-builder/src/app/components/preview-workflow/preview-workflow.component.ts:358-379 | Every replacement starts with `${workflow.`. |
| Instructions.Rewrite | ai-agent-builder/src/app/components/preview-workflow/preview-workflow.component.ts:358-379 | The global replace never shortens the text and keeps its first character. |
| Instructions.RewriteFixed | ai-agent-builder/src/app/components/preview-workflow/preview-workflow.component.ts:358-379 | After the global replace no `${name}` is left to match. |
| Instructions.FixedUnchanged | ai-agent-builder/src/app/components/preview-workflow/preview-workflow.component.ts:358-379 | Text without a reference is left unchanged. |
| Instructions.RewriteGrows | ai-agent-builder/src/app/components/preview-workflow/preview-workflow.component.ts:358-379 | Text with a reference becomes strictly longer. |
| Instructions.RewriteIdentityIffFixed | ai-agent-builder/src/app/components/preview-workflow/preview-workflow.component.ts:358-379 | The replace changes a text exactly when the text contains a reference. |
| Instructions.RewriteIdempotent | ai-agent-builder/src/app/components/preview-workflow/preview-workflow.component.ts:358-379 | A second pass changes nothing. |
| Instructions.RewriteReference | ai-agent-builder/src/app/components/preview-workflow/preview-workflow.component.ts:358-379 | A `${name}` at the head is replaced and scanning resumes after its `}`. |
| Instructions.RewriteUserRequest | ai-agent-builder/src/app/components/preview-workflow/preview-workflow.component.ts:358-379 | `${user_request}` becomes `${workflow.input.user_request}`. |
| Instructions.RewriteStateName | ai-agent-builder/src/app/components/preview-workflow/preview-workflow.component.ts:358-379 | Any other `${name}` becomes `${workflow.state.name}`. |
| Instructions.RewritePlain | ai-agent-builder/src/app/components/preview-workflow/preview-workflow.component.ts:358-379 | Text before the first `$` is copied unchanged. |
| Instructions.DottedReferenceUntouched | ai-agent-builder/src/app/components/preview-workflow/preview-workflow.component.ts:358-379 | A dotted reference such as `${agent.output}` is not matched. |
| Instructions.ProcessAgentInstructions | ai-agent-builder/src/app/services/workflow-execution.service.ts:279-298 | Empty instructions stay empty; otherwise the output begins with the rewrite, and the JSON directive follows exactly when JSON output with a schema is requested. |
| Instructions.ProcessedHasNoReferences | ai-agent-builder/src/app/services/workflow-execution.service.ts:279-298 | The rewritten part of the processed instructions holds no reference. |
| CompilerCommon.NextOf | ai-agent-builder/src/app/components/preview-workflow/preview-workflow.component.ts:258-264 | The `next` list holds exactly the targets of the node's outgoing connections. |
| CompilerCommon.DependenciesOf | ai-agent-builder/src/app/components/preview-workflow/preview-workflow.component.ts:258-264 | The `dependencies` list holds exactly the sources of the node's incoming connections. |
| CompilerCommon.NextOfAppend | ai-agent-builder/src/app/services/workflow-execution.service.ts:115-121 | A later connection extends `next` at the end, so `next` follows connection order. |
| CompilerCommon.DependenciesOfAppend | ai-agent-builder/src/app/services/workflow-execution.service.ts:115-121 | A later connection extends `dependencies` at the end. |
| CompilerCommon.ConnectionListedBothWays | ai-agent-builder/src/app/services/workflow-execution.service.ts:115-121 | Each connection A→B puts B in A's `next` and A in B's `dependencies`, dangling ids included. |
| CompilerCommon.NextOfCountsOutgoing | ai-agent-builder/src/app/services/workflow-execution.service.ts:115-121 | `next` has one entry per outgoing connection, duplicates included. |
| CompilerCommon.LastWins | ai-agent-builder/src/app/services/workflow-execution.service.ts:180-190 | Filling an object in a loop keeps the kept keys, each mapped to the value of the last element carrying it. |
| CompilerCommon.CreateAliasMapping | ai-agent-builder/src/app/services/workflow-execution.service.ts:180-190 | The mapping's keys are exactly the non-empty aliases, each mapped to the id of the last node carrying it. |
| CompilerCommon.AliasMappingInvertsAliases | ai-agent-builder/src/app/components/preview-workflow/preview-workflow.component.ts:154-164 | With unique aliases, each node's alias maps to that node's id. |
| CompilerCommon.ResolveInObjectIdentity | ai-agent-builder/src/app/services/workflow-execution.service.ts:261-274 | Resolving aliases inside a value returns it unchanged, however deeply nested. |
| CompilerCommon.ResolveArguments | ai-agent-builder/src/app/components/preview-workflow/preview-workflow.component.ts:174-187 | Missing tool arguments compile to `{}`; present ones keep their keys. |
| CompilerCommon.ResolveArgumentsIdentity | ai-agent-builder/src/app/components/preview-workflow/preview-workflow.component.ts:174-187 | Compiled tool arguments equal the node's arguments. |
| CompilerCommon.McpToolConfigOf | ai-agent-builder/src/app/services/workflow-execution.service.ts:226-240 | Each falsy MCP field takes its default: URL localhost:8080, server timeout 30, tool `get_oauth_token`, timeout 60, 3 retries. |
| CompilerCommon.McpToolArgumentsPreserved | ai-agent-builder/src/app/components/preview-workflow/preview-workflow.component.ts:235-249 | The tool arguments survive compilation unchanged; an absent map becomes `{}`. |
| CompilerCommon.ZeroTimeoutBecomesDefault | ai-agent-builder/src/app/services/workflow-execution.service.ts:226-240 | A configured timeout of 0 becomes 60 and an empty URL becomes the default, because `\|\|` treats both as missing. |
| CompilerCommon.CompiledType | ai-agent-builder/src/app/components/preview-workflow/preview-workflow.component.ts:235-249 | A node is emitted as `mcp_tool` exactly when it is an mcp node with a configuration. |
| PreviewWorkflow.GenerateOutputMapping | ai-agent-builder/src/app/components/preview-workflow/preview-workflow.component.ts:338-355 | One output variable per schema property name, under `nodes.<id>.output.<name>`, with its type and its description (or `Output property: <name>` when the description is falsy). When names repeat, the last property with the name wins. |
| PreviewWorkflow.AgentConfigPreview | ai-agent-builder/src/app/components/preview-workflow/preview-workflow.component.ts:213-233 | Prompt and system prompt both come from the processed instructions, each with its own default; the model defaults; `response_format` is present exactly when JSON with a schema is requested. |
| PreviewWorkflow.PreviewConfig | ai-agent-builder/src/app/components/preview-workflow/preview-workflow.component.ts:226-233 | An output mapping is emitted exactly for an agent that requests JSON with a schema. |
| PreviewWorkflow.ExportNode | ai-agent-builder/src/app/components/preview-workflow/preview-workflow.component.ts:190-283 | A compiled node keeps the canvas node's id, label and alias, and its `next` and `dependencies` come from the connections. |
| PreviewWorkflow.ExportWorkflowDefinition | ai-agent-builder/src/app/components/preview-workflow/preview-workflow.component.ts:190-283 | One compiled node per canvas node, in canvas order, each compiled against the alias map of the whole canvas. The request has the fixed preview id and the user's message as `user_request`. |
| PreviewWorkflow.ExportConfigByType | ai-agent-builder/src/app/components/preview-workflow/preview-workflow.component.ts:207-256 | Each node type's configuration: start and end are fixed shapes, an agent has a system prompt, a configured mcp node compiles to `mcp_tool`, and anything else has no configuration. |
| PreviewWorkflow.ExportOutputMappingCoversSchema | ai-agent-builder/src/app/components/preview-workflow/preview-workflow.component.ts:226-233 | A JSON agent's output mapping is keyed by its id and lists exactly its schema's property names. |
| PreviewWorkflow.HasNodeOfType | ai-agent-builder/src/app/components/preview-workflow/preview-workflow.component.ts:80-91 | True exactly when some node has the type. |
| PreviewWorkflow.ValidateWorkflowForPreview | ai-agent-builder/src/app/components/preview-workflow/preview-workflow.component.ts:80-91 | The preview runs exactly when there is a start, an agent and an end node. |
| PreviewWorkflow.FirstTruthy | ai-agent-builder/src/app/components/preview-workflow/preview-workflow.component.ts:301-330 | The result is the first truthy candidate, or the fallback when none is truthy. |
| PreviewWorkflow.FormatWorkflowResponse | ai-agent-builder/src/app/components/preview-workflow/preview-workflow.component.ts:301-330 | The reply is the first truthy value along the four response paths, tried in order, or the fixed apology. |
| PreviewWorkflow.BareResponseShown | ai-agent-builder/src/app/components/preview-workflow/preview-workflow.component.ts:301-330 | A bare `{response: text}` reply shows the text. |
| PreviewWorkflow.InitializePreview | ai-agent-builder/src/app/components/preview-workflow/preview-workflow.component.ts:49-71 | An invalid workflow leaves the chat alone; a valid one restarts it with only the welcome message. |
| PreviewWorkflow.BeginSend | ai-agent-builder/src/app/components/preview-workflow/preview-workflow.component.ts:94-143 | A blank message, or one sent while another is in flight, changes nothing; otherwise the trimmed message is posted, the input cleared and the flag raised. |
| PreviewWorkflow.SendChatMessage | ai-agent-builder/src/app/components/preview-workflow/preview-workflow.component.ts:94-143 | A request goes out exactly when the message is posted. It is the compiled canvas with the trimmed message as input. |
| PreviewWorkflow.PostReply | ai-agent-builder/src/app/components/preview-workflow/preview-workflow.component.ts:94-143 | The reply is appended as the assistant's message and the flag is lowered. |
| PreviewWorkflow.CompleteSend | ai-agent-builder/src/app/components/preview-workflow/preview-workflow.component.ts:94-143 | The formatted reply is posted, or the apology when the call failed. |
| PreviewWorkflow.SendChatMessageExchange | ai-agent-builder/src/app/components/preview-workflow/preview-workflow.component.ts:94-143 | A whole exchange adds exactly the user's message and one reply, and ends with the flag lowered. |
| PreviewWorkflow.AtMostOneRequestInFlight | ai-agent-builder/src/app/components/preview-workflow/preview-workflow.component.ts:94-143 | While a request is in flight a second send does nothing. |
| ExecutionService.AgentConfigService | ai-agent-builder/src/app/services/workflow-execution.service.ts:202-225 | The service's agent configuration has a prompt but no system prompt, and `response_format` exactly when JSON with a schema is requested. |
| ExecutionService.ConfigureNodeByType | ai-agent-builder/src/app/services/workflow-execution.service.ts:195-248 | The service never emits a system prompt. |
| ExecutionService.ConvertNode | ai-agent-builder/src/app/services/workflow-execution.service.ts:90-137 | A node keeps its id, label, alias and compiled type, takes `next` and `dependencies` from the connections, and has no output mapping. |
| ExecutionService.ConvertCanvasToExecutionRequest | ai-agent-builder/src/app/services/workflow-execution.service.ts:90-137 | One compiled node per canvas node, in order, each compiled against the alias map of the whole canvas. The id is the given workflow id or `canvas_workflow`, and the input is the user's message. |
| ExecutionService.CompilersAgree | ai-agent-builder/src/app/services/workflow-execution.service.ts:90-248 | The preview's and the service's compilers agree on every node, up to the system prompt and the output mapping that only the preview emits. |
| ExecutionService.FirstWhere | ai-agent-builder/src/app/services/workflow-execution.service.ts:142-171 | The index returned is the first one whose element satisfies the test; none is returned exactly when no element does. |
| ExecutionService.ExtractAIResponse | ai-agent-builder/src/app/services/workflow-execution.service.ts:142-171 | A missing node list gives the error text. Otherwise the first agent's truthy response wins. Failing that, the first truthy response of any node answers, else the fallback. |
| ExecutionService.SilentAgentFallsThrough | ai-agent-builder/src/app/services/workflow-execution.service.ts:142-171 | When no agent has a response, the first node with one answers, even if it is not an agent. |
| ActivityTimeline.Priority | ai-agent-builder/src/app/components/activity-timeline/activity-timeline.component.ts:171-183 | Start results rank first, end results last, and every other type in between. |
| ActivityTimeline.SortNodesByExecutionOrder | ai-agent-builder/src/app/components/activity-timeline/activity-timeline.component.ts:171-183 | The sort is a permutation of the results. |
| ActivityTimeline.SortIsBuckets | ai-agent-builder/src/app/components/activity-timeline/activity-timeline.component.ts:171-183 | The sorted list is the start results, then the others, then the end results, each group in input order. |
| ActivityTimeline.BucketsPartition | ai-agent-builder/src/app/components/activity-timeline/activity-timeline.component.ts:171-183 | Each result belongs to exactly one priority group. |
| ActivityTimeline.SortIsSorted | ai-agent-builder/src/app/components/activity-timeline/activity-timeline.component.ts:171-183 | The sorted list is ordered by priority. |
| ActivityTimeline.SortIsStable | ai-agent-builder/src/app/components/activity-timeline/activity-timeline.component.ts:171-183 | Results of equal priority keep their input order. |
| ActivityTimeline.StatusOf | ai-agent-builder/src/app/components/activity-timeline/activity-timeline.component.ts:187-196 | Any error text, or the status `failed`, shows as an error; otherwise `running` shows as in progress; everything else shows as completed. |
| ActivityTimeline.FallbackPhrase | ai-agent-builder/src/app/components/activity-timeline/activity-timeline.component.ts:231-272 | A type without its own phrase is described as `<type> node execution`. |
| ActivityTimeline.FormatStructuredOutput | ai-agent-builder/src/app/components/activity-timeline/activity-timeline.component.ts:274-291 | No entries give the empty text; otherwise the text opens with the first entry's line. |
| ActivityTimeline.FormatStructuredOutputAppend | ai-agent-builder/src/app/components/activity-timeline/activity-timeline.component.ts:274-291 | Each further entry adds a newline and its own `• key: value` line at the end. |
| ActivityTimeline.BuildNodeDescription | ai-agent-builder/src/app/components/activity-timeline/activity-timeline.component.ts:231-272 | The description opens with the response or the type's phrase; when there is structured output, a space, the header and the formatted entries follow, and otherwise nothing follows. |
| ActivityTimeline.DescriptionOpensWithResponse | ai-agent-builder/src/app/components/activity-timeline/activity-timeline.component.ts:231-272 | A truthy response opens the description; otherwise the type's phrase does. |
| ActivityTimeline.CreateTimelineItem | ai-agent-builder/src/app/components/activity-timeline/activity-timeline.component.ts:185-229 | An item carries the result's id and type, the name (or the id) as title, its status and description, and one entry per structured-output entry, in order; it starts collapsed. |
| ActivityTimeline.SliceEnd | ai-agent-builder/src/app/components/activity-timeline/activity-timeline.component.ts:151-169 | `slice(0, end)` keeps `end` items, counting from the back when `end` is negative, clamped to the list. |
| ActivityTimeline.BuildTimelineItems | ai-agent-builder/src/app/components/activity-timeline/activity-timeline.component.ts:151-169 | No node list gives no items; otherwise the items are the sorted results, projected and cut by `slice(0, maxItems)`. |
| ActivityTimeline.TimelineOrderAndLength | ai-agent-builder/src/app/components/activity-timeline/activity-timeline.component.ts:151-169 | With a non-negative limit the timeline holds min(n, limit) items and no start item follows a non-start one. |
| ActivityTimeline.Toggle | ai-agent-builder/src/app/components/activity-timeline/activity-timeline.component.ts:364-370 | The id's membership flips and no other id changes. |
| ActivityTimeline.ToggleOutputVisibility | ai-agent-builder/src/app/components/activity-timeline/activity-timeline.component.ts:364-370 | Flips only that item's response panel; every other id keeps its state, and the structured panels are untouched. |
| ActivityTimeline.ToggleStructuredOutputVisibility | ai-agent-builder/src/app/components/activity-timeline/activity-timeline.component.ts:376-382 | Flips only that item's structured-output panel; every other id keeps its state, and the response panels are untouched. |
| ActivityTimeline.ToggleTwiceRestores | ai-agent-builder/src/app/components/activity-timeline/activity-timeline.component.ts:364-382 | Toggling twice restores the panel state. |

## Left out

- **Rendering and geometry.** The canvas's DOM work and geometry are not modelled: bezier paths, handle positions, the clamping of the drop position, cursor hit-testing. Their results enter the model as parameters (the preview path, the position, `HandleHit`).
- **Environment values.** Ids from `Date.now()`/`Math.random()` and the clock are parameters. So is whether `querySelector` found the canvas element. Freshness of ids is an assumption stated in `GraphStore.FreshFor`.
- **Asynchronous machinery.** HTTP calls, RxJS subjects and subscriptions, the execution-state stream, timers (the welcome delay), event listeners, `alert`, `console` logging and clipboard access are not modelled. A failed call is the `None` outcome of `PreviewWorkflow.CompleteSend`.
- **The split of `sendChatMessage`.** `sendChatMessage` is split into its synchronous part (`PreviewWorkflow.SendChatMessage`) and its completion (`PreviewWorkflow.CompleteSend`), because the `await` in between is not modelled.
- **JSON rendering.** `JSON.stringify` renderings of structured-output values are opaque strings carried in `OutputValue.Composite`. No JSON printer is modelled.
- **Text handling.** `toLowerCase` is ASCII only. `\s` covers the ASCII white space and the common Unicode spaces listed in `Text.IsSpace`. `\w` is ASCII.
- **Object keys.** Object-key lookups such as `typePriority[type]` treat every string as an own key. Names of `Object.prototype` members (`constructor`, `toString`) are not special-cased.
- **Not modelled at all.** Duration and timestamp formatting, icons and CSS classes, the JSON-schema modal's open/close flags, and the UI shell components (toolbar, palette, header) are not modelled.
- **Duplicated shell code.** The shell's own copies of `canConnectNodes`, `createConnection` and `resetConnectionState` (`ai-agent-builder/src/app/app.component.ts:385-435`) are identical to the canvas's and use the same members.
- **Alias resolution.** In both components `resolveAliasVariables` returns the text unchanged, so resolving aliases is the identity, and `CompilerCommon.ResolveInObjectIdentity` proves the recursive version is too.
- ActivityTimeline.SortNodesByExecutionOrder: `Array.prototype.sort` is modelled as a stable insertion sort. Its output is characterised completely by `ActivityTimeline.SortIsBuckets`.
- Chat message ids and timestamps are not modelled.
- **Numbers.** JavaScript numbers (timeouts, retry counts, argument values, durations) are IEEE doubles. The model uses unbounded `int`, so fractions, `NaN`, infinities and the loss of precision above 2^53 are not represented. The core only stores, compares and increments these values.
- **Document listeners.** `startConnection` adds `mousemove` and `mouseup` listeners made with `bind`, and `endConnection` removes freshly bound copies (`ai-agent-builder/src/app/components/canvas/canvas.component.ts:158-159`, `194-195`). The removal therefore removes nothing, and every later `mouseup` runs `endConnection` again. Listener registration is not modelled. Outside a connection gesture the extra call only resets the connection state, which `ConnectionProtocol` already models.

## Findings

| source | as written | input that shows it | evidently intended | confidence | as-written member | corrected member |
|---|---|---|---|---|---|---|
| ai-agent-builder/src/app/app.component.ts:1413-1427 | `addMCPToolArgument` names the new key `arg_${count + 1}` and assigns it without checking whether it is bound | arguments `{arg_2: "x"}` (after adding arg_1, arg_2 and deleting arg_1): the handler writes `arg_2 = ''`, adds nothing and loses `"x"` | add one new, unbound key, as the panel's handler does | not executed | NodeConfig.AddArgumentAsWritten (exhibited by NodeConfig.AddArgumentOverwrites) | NodeConfig.AddArgumentCorrected (used by AppEditor.AddMCPToolArgument) |
