/**
 * The data model of the workflow builder: canvas nodes and connections, the
 * per-node configuration bags, the execution request the compilers produce and
 * the execution response the timeline projects.
 *
 * JavaScript `undefined`/`null` fields are `Option`s; the open index signature
 * of `NodeData` and the free-form `icon`/`position` attributes are kept only
 * as far as the modelled operations copy them.
 */
module Models {
  import opened Wrappers

  /** The closed enumeration of node kinds a canvas node can have. */
  datatype NodeType = Start | Agent | End | Mcp | IfElse | Sequential | Parallel

  /** The string a node type has in the source and in the compiled workflow. */
  function NodeTypeName(t: NodeType): string {
    match t
    case Start => "start"
    case Agent => "agent"
    case End => "end"
    case Mcp => "mcp"
    case IfElse => "if-else"
    case Sequential => "sequential"
    case Parallel => "parallel"
  }

  datatype Position = Position(x: real, y: real)

  /** A connection attachment point; every legal connection runs output to input. */
  datatype HandleType = Input | Output

  /** A JSON value as the source stores it in tool arguments (`{ [key: string]: any }`). */
  datatype Value =
    | Str(s: string)
    | Num(n: int)
    | Bool(b: bool)
    | Null
    | Undefined
    | Arr(items: seq<Value>)
    | Obj(fields: seq<Field>)

  datatype Field = Field(key: string, value: Value)

  datatype Variable = Variable(name: string, varType: string, description: Option<string>)

  datatype Tool = Tool(id: string, name: string, description: Option<string>, enabled: bool)

  datatype SchemaType = SString | SNumber | SBoolean | SArray | SObject | SEnum

  function SchemaTypeName(t: SchemaType): string {
    match t
    case SString => "string"
    case SNumber => "number"
    case SBoolean => "boolean"
    case SArray => "array"
    case SObject => "object"
    case SEnum => "enum"
  }

  datatype SchemaProperty = SchemaProperty(
    name: string,
    propType: SchemaType,
    description: Option<string>,
    required: bool,
    enumValues: Option<seq<string>>)

  datatype JsonSchema = JsonSchema(name: string, properties: seq<SchemaProperty>)

  datatype ContextMode = NoContext | RecentMessages

  datatype OutputFormat = Text | Json | Widget | Chatkit

  datatype AgentConfig = AgentConfig(
    name: Option<string>,
    instructions: Option<string>,
    context: Option<ContextMode>,
    model: Option<string>,
    stateVariables: Option<seq<Variable>>,
    tools: Option<seq<Tool>>,
    outputFormat: Option<OutputFormat>,
    jsonSchema: Option<JsonSchema>)

  datatype ServerType = Http | Stdio

  function ServerTypeName(t: ServerType): string {
    match t
    case Http => "http"
    case Stdio => "stdio"
  }

  /** Server settings; `url`/`timeout` belong to http, `command`/`args` to stdio. */
  datatype MCPServerConfig = MCPServerConfig(
    serverType: ServerType,
    url: Option<string>,
    timeout: Option<int>,
    command: Option<string>,
    args: Option<seq<string>>)

  datatype MCPTool = MCPTool(name: string, description: Option<string>, arguments: map<string, Value>, enabled: bool)

  datatype MCPConfig = MCPConfig(
    name: Option<string>,
    description: Option<string>,
    server: MCPServerConfig,
    toolName: Option<string>,
    toolArguments: Option<map<string, Value>>,
    timeout: Option<int>,
    retryAttempts: Option<int>,
    availableTools: Option<seq<MCPTool>>)

  datatype NodeData = NodeData(
    inputVariables: Option<seq<Variable>>,
    stateVariables: Option<seq<Variable>>,
    agentConfig: Option<AgentConfig>,
    mcpConfig: Option<MCPConfig>)

  /** The `{}` a freshly dropped node carries. */
  const EmptyData := NodeData(None, None, None, None)

  datatype WorkflowNode = WorkflowNode(
    id: string,
    nodeType: NodeType,
    labelText: string,
    alias: string,
    icon: string,
    position: Position,
    data: Option<NodeData>)

  datatype WorkflowConnection = WorkflowConnection(
    id: string,
    sourceNodeId: string,
    targetNodeId: string,
    sourceHandle: Option<HandleType>,
    targetHandle: Option<HandleType>)

  // ---------------------------------------------------------------------------
  // Execution request (compiler output)
  // ---------------------------------------------------------------------------

  datatype ServerOut = ServerOut(serverType: string, url: string, timeout: int)

  /** The `config` object of a compiled node, one variant per shape the compilers emit. */
  datatype NodeConfigOut =
    | NoConfig
    | StartConfig(name: string, description: string)
    | EndConfig(name: string, description: string, collectOutputs: bool)
    | AgentConfigOut(
        provider: string,
        model: string,
        prompt: string,
        systemPrompt: Option<string>,
        temperature: real,
        maxTokens: int,
        timeout: int,
        responseFormat: Option<string>)
    | McpToolConfig(
        server: ServerOut,
        toolName: string,
        toolArguments: map<string, Value>,
        timeout: int,
        retryAttempts: int)

  datatype OutputVariable = OutputVariable(path: string, varType: string, description: string)

  datatype OutputMapping = OutputMapping(nodeId: string, outputVariables: map<string, OutputVariable>)

  datatype CompiledNode = CompiledNode(
    id: string,
    nodeType: string,
    name: string,
    alias: string,
    config: NodeConfigOut,
    next: seq<string>,
    dependencies: seq<string>,
    outputMapping: Option<OutputMapping>)

  datatype Definition = Definition(id: string, name: string, description: Option<string>, nodes: seq<CompiledNode>)

  datatype WorkflowExecutionRequest = WorkflowExecutionRequest(
    definition: Definition,
    inputData: map<string, string>,
    runId: Option<string>)

  // ---------------------------------------------------------------------------
  // Execution response (timeline input)
  // ---------------------------------------------------------------------------

  /**
   * One value of a node's structured output. Objects (including `null`) are
   * rendered by `JSON.stringify`, which is not modelled: its compact and
   * indented renderings are carried as opaque strings.
   */
  datatype OutputValue = Scalar(text: string) | Composite(compact: string, pretty: string)

  datatype OutputEntry = OutputEntry(key: string, value: OutputValue)

  datatype NodeResult = NodeResult(
    nodeId: string,
    nodeName: string,
    nodeType: string,
    status: string,
    response: Option<string>,
    structuredOutput: seq<OutputEntry>,
    error: Option<string>)

  datatype WorkflowExecutionResponse = WorkflowExecutionResponse(
    runId: string,
    workflowId: string,
    status: string,
    success: bool,
    startedAt: string,
    finishedAt: Option<string>,
    nodes: Option<seq<NodeResult>>)

  /** JavaScript truthiness of an optional string: present and non-empty. */
  predicate Truthy(s: Option<string>) {
    s.Some? && s.value != ""
  }

  /** JavaScript truthiness of an optional number: present and non-zero. */
  predicate TruthyNum(n: Option<int>) {
    n.Some? && n.value != 0
  }

  /** `s || fallback` on an optional string. */
  function OrElse(s: Option<string>, fallback: string): (r: string)
    ensures Truthy(s) ==> r == s.value
    ensures !Truthy(s) ==> r == fallback
  {
    if Truthy(s) then s.value else fallback
  }

  /** `n || fallback` on an optional number. */
  function OrElseNum(n: Option<int>, fallback: int): (r: int)
    ensures TruthyNum(n) ==> r == n.value
    ensures !TruthyNum(n) ==> r == fallback
  {
    if TruthyNum(n) then n.value else fallback
  }
}
