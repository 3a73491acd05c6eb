/**
 * The application shell's graph store: the canvas nodes, the connections,
 * the node/connection selection, the drag flags and the connection state
 * mirrored from the canvas, with the shell's transitions as pure functions
 * from state to state.
 */
module GraphStore {
  import opened Wrappers
  import opened Models
  import opened Aliases
  import opened NodeConfig
  import opened ConnectionProtocol
  import Text

  datatype AppState = AppState(
    nodes: seq<WorkflowNode>,
    connections: seq<WorkflowConnection>,
    selectedNodeId: Option<string>,
    selectedConnectionId: Option<string>,
    isDragging: bool,
    isCanvasNodeDragging: bool,
    conn: ConnState)

  const InitialState := AppState([], [], None, None, false, false, Idle)

  /** At most one of a node and a connection is selected (`null` and `''` count as unselected). */
  predicate AtMostOneSelected(st: AppState) {
    !(Truthy(st.selectedNodeId) && Truthy(st.selectedConnectionId))
  }

  predicate NodeIdsUnique(nodes: seq<WorkflowNode>) {
    forall i, j :: 0 <= i < j < |nodes| ==> nodes[i].id != nodes[j].id
  }

  predicate NodeIdInUse(nodes: seq<WorkflowNode>, id: string) {
    exists i :: 0 <= i < |nodes| && nodes[i].id == id
  }

  // ---------------------------------------------------------------------------
  // Node templates and creation
  // ---------------------------------------------------------------------------

  /** The palette entry's label for each node type. */
  function TemplateLabel(t: NodeType): string {
    match t
    case Start => "Start"
    case Agent => "Agent"
    case End => "End"
    case Mcp => "MCP"
    case IfElse => "If / else"
    case Sequential => "Sequential"
    case Parallel => "Parallel"
  }

  /** The palette entry's icon name for each node type. */
  function TemplateIcon(t: NodeType): string {
    match t
    case Start => "play-circle"
    case Agent => "robot"
    case End => "stop-circle"
    case Mcp => "lightning"
    case IfElse => "flow-arrow"
    case Sequential => "minus"
    case Parallel => "list"
  }

  /**
   * `onCanvasDrop`: ignored while a canvas node is being dragged or when the
   * canvas element is missing; otherwise appends a node of the dropped type
   * with the template's label and icon, a fresh alias and empty data.
   * The id and the (already clamped) position are supplied by the caller.
   */
  function OnCanvasDrop(st: AppState, t: NodeType, canvasFound: bool, freshId: string, pos: Position): (r: AppState)
    ensures st.isCanvasNodeDragging || !canvasFound ==> r == st
    ensures !st.isCanvasNodeDragging && canvasFound ==>
              && r == st.(nodes := r.nodes)
              && |r.nodes| == |st.nodes| + 1
              && r.nodes[..|st.nodes|] == st.nodes
              && var n := r.nodes[|st.nodes|];
                 && n.id == freshId && n.nodeType == t && n.position == pos
                 && n.labelText == TemplateLabel(t) && n.icon == TemplateIcon(t)
                 && n.data == Some(EmptyData)
                 && !IsAliasInUse(st.nodes, n.alias)
  {
    if st.isCanvasNodeDragging || !canvasFound then st
    else
      var n := WorkflowNode(freshId, t, TemplateLabel(t), GenerateUniqueAlias(t, st.nodes), TemplateIcon(t), pos, Some(EmptyData));
      st.(nodes := st.nodes + [n])
  }

  /** Dropping nodes keeps aliases unique, and ids unique when the id is fresh. */
  lemma DropPreservesUniqueness(st: AppState, t: NodeType, canvasFound: bool, freshId: string, pos: Position)
    requires AliasesUnique(st.nodes) && NodeIdsUnique(st.nodes)
    requires !NodeIdInUse(st.nodes, freshId)
    ensures AliasesUnique(OnCanvasDrop(st, t, canvasFound, freshId, pos).nodes)
    ensures NodeIdsUnique(OnCanvasDrop(st, t, canvasFound, freshId, pos).nodes)
  {
    var r := OnCanvasDrop(st, t, canvasFound, freshId, pos);
    if r != st {
      forall i, j | 0 <= i < j < |r.nodes|
        ensures r.nodes[i].alias != r.nodes[j].alias && r.nodes[i].id != r.nodes[j].id
      {
        if j == |st.nodes| {
          assert r.nodes[i] == st.nodes[i];
        } else {
          assert r.nodes[i] == st.nodes[i] && r.nodes[j] == st.nodes[j];
        }
      }
    }
  }

  // ---------------------------------------------------------------------------
  // Node lookup and update
  // ---------------------------------------------------------------------------

  /** `nodes.findIndex(n => n.id === id)`. */
  function FindNode(nodes: seq<WorkflowNode>, id: string): (r: Option<nat>)
    ensures r.None? <==> !NodeIdInUse(nodes, id)
    ensures r.Some? ==> r.value < |nodes| && nodes[r.value].id == id
                        && forall j :: 0 <= j < r.value ==> nodes[j].id != id
  {
    if |nodes| == 0 then None
    else if nodes[0].id == id then Some(0)
    else match FindNode(nodes[1..], id)
      case None =>
        assert forall i :: 1 <= i < |nodes| ==> nodes[i] == nodes[1..][i - 1];
        None
      case Some(k) => Some(k + 1)
  }

  /** `getSelectedNode`: the first node carrying the selected id, if a node is selected. */
  function SelectedNode(st: AppState): (r: Option<WorkflowNode>)
    ensures r.Some? <==> Truthy(st.selectedNodeId) && NodeIdInUse(st.nodes, st.selectedNodeId.value)
    ensures r.Some? ==> r.value.id == st.selectedNodeId.value && r.value in st.nodes
  {
    if !Truthy(st.selectedNodeId) then None
    else match FindNode(st.nodes, st.selectedNodeId.value)
      case None => None
      case Some(i) => Some(st.nodes[i])
  }

  /** `onNodeUpdated`: replace the first node with the updated node's id; unknown ids change nothing. */
  function ReplaceNode(nodes: seq<WorkflowNode>, updated: WorkflowNode): (r: seq<WorkflowNode>)
    ensures |r| == |nodes|
    ensures !NodeIdInUse(nodes, updated.id) ==> r == nodes
    ensures NodeIdInUse(nodes, updated.id) ==>
              var i := FindNode(nodes, updated.id).value;
              r == nodes[i := updated]
  {
    match FindNode(nodes, updated.id)
    case None => nodes
    case Some(i) => nodes[i := updated]
  }

  /** With unique ids, the updated node is the one found under its id and all other nodes are untouched. */
  lemma ReplaceNodeFound(nodes: seq<WorkflowNode>, updated: WorkflowNode)
    requires NodeIdsUnique(nodes) && NodeIdInUse(nodes, updated.id)
    ensures NodeIdsUnique(ReplaceNode(nodes, updated))
    ensures FindNode(ReplaceNode(nodes, updated), updated.id) == FindNode(nodes, updated.id)
    ensures forall i :: 0 <= i < |nodes| && nodes[i].id != updated.id ==> ReplaceNode(nodes, updated)[i] == nodes[i]
  {
    var k := FindNode(nodes, updated.id).value;
    var r := ReplaceNode(nodes, updated);
    assert forall i :: 0 <= i < |nodes| && i != k ==> nodes[i].id != updated.id;
    assert forall i :: 0 <= i < |r| ==> r[i].id == nodes[i].id;
    var f := FindNode(r, updated.id);
    assert f.Some?;
    assert f.value == k;
  }

  function OnNodeUpdated(st: AppState, updated: WorkflowNode): (r: AppState)
    ensures r == st.(nodes := ReplaceNode(st.nodes, updated))
  {
    st.(nodes := ReplaceNode(st.nodes, updated))
  }

  // ---------------------------------------------------------------------------
  // Selection
  // ---------------------------------------------------------------------------

  /**
   * `selectNode`: ignored while dragging; otherwise selects the node, clears
   * the connection selection and initialises the MCP data of an mcp node.
   */
  function SelectNode(st: AppState, nodeId: string): (r: AppState)
    ensures st.isDragging ==> r == st
    ensures !st.isDragging ==>
              && r.selectedNodeId == Some(nodeId) && r.selectedConnectionId.None?
              && r.connections == st.connections && |r.nodes| == |st.nodes|
              && r.isDragging == st.isDragging && r.conn == st.conn
              && r.isCanvasNodeDragging == st.isCanvasNodeDragging
              && (forall i :: 0 <= i < |st.nodes| ==>
                   r.nodes[i].id == st.nodes[i].id && r.nodes[i].alias == st.nodes[i].alias)
              && forall i :: 0 <= i < |st.nodes| ==>
                   r.nodes[i] == (if nodeId != "" && FindNode(st.nodes, nodeId) == Some(i) && st.nodes[i].nodeType == Mcp
                                  then EnsureMCPData(st.nodes[i], Shell) else st.nodes[i])
  {
    if st.isDragging then st
    else
      var sel := st.(selectedNodeId := Some(nodeId), selectedConnectionId := None);
      match SelectedNode(sel)
      case Some(n) =>
        if n.nodeType == Mcp then
          var i := FindNode(sel.nodes, nodeId).value;
          sel.(nodes := sel.nodes[i := EnsureMCPData(n, Shell)])
        else sel
      case None => sel
  }

  /** Selecting an mcp node leaves it with an MCP configuration. */
  lemma SelectMcpNodeHasConfig(st: AppState, nodeId: string)
    requires !st.isDragging && nodeId != ""
    requires NodeIdInUse(st.nodes, nodeId)
    requires st.nodes[FindNode(st.nodes, nodeId).value].nodeType == Mcp
    ensures var r := SelectNode(st, nodeId);
            var n := SelectedNode(r);
            n.Some? && n.value.data.Some? && n.value.data.value.mcpConfig.Some?
  {
    var r := SelectNode(st, nodeId);
    var i := FindNode(st.nodes, nodeId).value;
    assert FindNode(r.nodes, nodeId) == Some(i) by {
      assert forall j :: 0 <= j < |r.nodes| ==> r.nodes[j].id == st.nodes[j].id;
      assert r.nodes[i].id == nodeId;
      var f := FindNode(r.nodes, nodeId);
      assert f.Some?;
      assert f.value == i;
    }
  }

  /** `selectConnection`: selects the connection and clears the node selection. */
  function SelectConnection(st: AppState, connectionId: string): (r: AppState)
    ensures r.selectedConnectionId == Some(connectionId) && r.selectedNodeId.None?
    ensures r.(selectedNodeId := st.selectedNodeId, selectedConnectionId := st.selectedConnectionId) == st
  {
    st.(selectedConnectionId := Some(connectionId), selectedNodeId := None)
  }

  /** `deselectAll` and `closePropertiesPanel`: nothing selected afterwards. */
  function DeselectAll(st: AppState): (r: AppState)
    ensures r.selectedNodeId.None? && r.selectedConnectionId.None?
    ensures r.(selectedNodeId := st.selectedNodeId, selectedConnectionId := st.selectedConnectionId) == st
  {
    st.(selectedNodeId := None, selectedConnectionId := None)
  }

  /** `onNodeDragStart` / `onNodeDragEnd`: both drag flags follow the gesture. */
  function NodeDragStart(st: AppState): (r: AppState)
    ensures r.isDragging && r.isCanvasNodeDragging
    ensures r.(isDragging := st.isDragging, isCanvasNodeDragging := st.isCanvasNodeDragging) == st
  {
    st.(isDragging := true, isCanvasNodeDragging := true)
  }

  function NodeDragEnd(st: AppState): (r: AppState)
    ensures !r.isDragging && !r.isCanvasNodeDragging
    ensures r.(isDragging := st.isDragging, isCanvasNodeDragging := st.isCanvasNodeDragging) == st
  {
    st.(isDragging := false, isCanvasNodeDragging := false)
  }

  /** While a node is being dragged, neither clicks nor drops change the graph or the selection. */
  lemma DragSuppressesClicksAndDrops(st: AppState, nodeId: string, t: NodeType, canvasFound: bool, freshId: string, pos: Position)
    ensures var d := NodeDragStart(st);
            && SelectNode(d, nodeId) == d
            && OnCanvasDrop(d, t, canvasFound, freshId, pos) == d
            && SelectNodeRequest(d.isDragging, nodeId).None?
  {
  }

  // ---------------------------------------------------------------------------
  // Deletion
  // ---------------------------------------------------------------------------

  predicate Touches(c: WorkflowConnection, nodeId: string) {
    c.sourceNodeId == nodeId || c.targetNodeId == nodeId
  }

  /** The connections that neither start nor end at `nodeId`, in their order. */
  function Detach(conns: seq<WorkflowConnection>, nodeId: string): (r: seq<WorkflowConnection>)
    ensures |r| <= |conns|
    ensures forall c :: c in r <==> c in conns && !Touches(c, nodeId)
  {
    if |conns| == 0 then []
    else if Touches(conns[0], nodeId) then Detach(conns[1..], nodeId)
    else [conns[0]] + Detach(conns[1..], nodeId)
  }

  /** Detaching distributes over concatenation: surviving connections keep their relative order. */
  lemma {:induction false} DetachAppend(a: seq<WorkflowConnection>, b: seq<WorkflowConnection>, nodeId: string)
    ensures Detach(a + b, nodeId) == Detach(a, nodeId) + Detach(b, nodeId)
  {
    if |a| > 0 {
      var t := a[1..];
      assert (a + b)[0] == a[0] && (a + b)[1..] == t + b;
      DetachAppend(t, b, nodeId);
      if !(Touches(a[0], nodeId)) {
        Text.Associate([a[0]], Detach(t, nodeId), Detach(b, nodeId));
      }
    } else {
      assert a + b == b;
    }
  }

  /** The nodes whose id differs from `nodeId`, in their order. */
  function WithoutNode(nodes: seq<WorkflowNode>, nodeId: string): (r: seq<WorkflowNode>)
    ensures |r| <= |nodes|
    ensures forall n :: n in r <==> n in nodes && n.id != nodeId
  {
    if |nodes| == 0 then []
    else if nodes[0].id == nodeId then WithoutNode(nodes[1..], nodeId)
    else [nodes[0]] + WithoutNode(nodes[1..], nodeId)
  }

  lemma {:induction false} WithoutNodeAppend(a: seq<WorkflowNode>, b: seq<WorkflowNode>, nodeId: string)
    ensures WithoutNode(a + b, nodeId) == WithoutNode(a, nodeId) + WithoutNode(b, nodeId)
  {
    if |a| > 0 {
      var t := a[1..];
      assert (a + b)[0] == a[0] && (a + b)[1..] == t + b;
      WithoutNodeAppend(t, b, nodeId);
      if !(a[0].id == nodeId) {
        Text.Associate([a[0]], WithoutNode(t, nodeId), WithoutNode(b, nodeId));
      }
    } else {
      assert a + b == b;
    }
  }

  /**
   * `deleteSelectedNode`: with a node selected, removes it and exactly the
   * connections attached to it and clears the node selection; otherwise a no-op.
   */
  function DeleteSelectedNode(st: AppState): (r: AppState)
    ensures !Truthy(st.selectedNodeId) ==> r == st
    ensures Truthy(st.selectedNodeId) ==>
              var id := st.selectedNodeId.value;
              && r.selectedNodeId.None?
              && (forall n :: n in r.nodes <==> n in st.nodes && n.id != id)
              && (forall c :: c in r.connections <==> c in st.connections && !Touches(c, id))
              && r.(nodes := st.nodes, connections := st.connections, selectedNodeId := st.selectedNodeId) == st
  {
    if !Truthy(st.selectedNodeId) then st
    else
      var id := st.selectedNodeId.value;
      st.(connections := Detach(st.connections, id), nodes := WithoutNode(st.nodes, id), selectedNodeId := None)
  }

  /** Subsequences of a well-formed connection list are well formed. */
  lemma {:induction false} DetachPreservesWellFormed(conns: seq<WorkflowConnection>, nodeId: string)
    requires ConnectionsWellFormed(conns)
    ensures ConnectionsWellFormed(Detach(conns, nodeId))
  {
    if |conns| > 0 {
      TailWellFormed(conns);
      DetachPreservesWellFormed(conns[1..], nodeId);
      if !Touches(conns[0], nodeId) {
        ConsWellFormed(conns, Detach(conns[1..], nodeId));
      }
    }
  }

  lemma TailWellFormed(conns: seq<WorkflowConnection>)
    requires |conns| > 0 && ConnectionsWellFormed(conns)
    ensures ConnectionsWellFormed(conns[1..])
  {
    assert forall i :: 0 <= i < |conns| - 1 ==> conns[1..][i] == conns[i + 1];
  }

  /** Keeping the head of a well-formed list in front of a well-formed selection of its tail stays well formed. */
  lemma ConsWellFormed(conns: seq<WorkflowConnection>, rest: seq<WorkflowConnection>)
    requires |conns| > 0 && ConnectionsWellFormed(conns)
    requires ConnectionsWellFormed(rest)
    requires forall c :: c in rest ==> c in conns[1..]
    ensures ConnectionsWellFormed([conns[0]] + rest)
  {
    var r := [conns[0]] + rest;
    forall i, j | 0 <= i < j < |r|
      ensures !(r[i].sourceNodeId == r[j].sourceNodeId && r[i].targetNodeId == r[j].targetNodeId)
      ensures r[i].id != r[j].id
    {
      if i == 0 {
        assert r[j] in conns[1..];
        var k :| 0 <= k < |conns[1..]| && conns[1..][k] == r[j];
        assert conns[k + 1] == r[j];
      } else {
        assert r[i] == rest[i - 1] && r[j] == rest[j - 1];
      }
    }
  }

  /** After deleting a node no connection refers to it and the connection invariant still holds. */
  lemma DeleteNodeLeavesNoDanglingConnection(st: AppState)
    requires Truthy(st.selectedNodeId)
    requires ConnectionsWellFormed(st.connections)
    ensures var r := DeleteSelectedNode(st);
            && ConnectionsWellFormed(r.connections)
            && !NodeIdInUse(r.nodes, st.selectedNodeId.value)
            && forall i :: 0 <= i < |r.connections| ==> !Touches(r.connections[i], st.selectedNodeId.value)
  {
    DetachPreservesWellFormed(st.connections, st.selectedNodeId.value);
    var r := DeleteSelectedNode(st);
    forall i | 0 <= i < |r.nodes| ensures r.nodes[i].id != st.selectedNodeId.value {
      assert r.nodes[i] in r.nodes;
    }
    forall i | 0 <= i < |r.connections| ensures !Touches(r.connections[i], st.selectedNodeId.value) {
      assert r.connections[i] in r.connections;
    }
  }

  /** The connections whose id differs from `connectionId`, in their order. */
  function WithoutConnection(conns: seq<WorkflowConnection>, connectionId: string): (r: seq<WorkflowConnection>)
    ensures |r| <= |conns|
    ensures forall c :: c in r <==> c in conns && c.id != connectionId
  {
    if |conns| == 0 then []
    else if conns[0].id == connectionId then WithoutConnection(conns[1..], connectionId)
    else [conns[0]] + WithoutConnection(conns[1..], connectionId)
  }

  /** `deleteSelectedConnection`: removes the connections with the selected id and clears the selection. */
  function DeleteSelectedConnection(st: AppState): (r: AppState)
    ensures !Truthy(st.selectedConnectionId) ==> r == st
    ensures Truthy(st.selectedConnectionId) ==>
              && r.selectedConnectionId.None?
              && (forall c :: c in r.connections <==> c in st.connections && c.id != st.selectedConnectionId.value)
              && r.(connections := st.connections, selectedConnectionId := st.selectedConnectionId) == st
  {
    if !Truthy(st.selectedConnectionId) then st
    else st.(connections := WithoutConnection(st.connections, st.selectedConnectionId.value), selectedConnectionId := None)
  }

  // ---------------------------------------------------------------------------
  // Connections
  // ---------------------------------------------------------------------------

  /** The shell's `endConnection`: the protocol's release step, committing into the store's list. */
  function EndConnection(st: AppState, hit: Option<HandleHit>, freshId: string): (r: AppState)
    ensures r.conn == Idle
    ensures var (c, _) := ConnectionProtocol.EndConnection(st.conn, st.connections, hit, freshId);
            r.connections == st.connections + (if c.Some? then [c.value] else [])
    ensures r.(conn := st.conn, connections := st.connections) == st
  {
    var (c, s) := ConnectionProtocol.EndConnection(st.conn, st.connections, hit, freshId);
    st.(conn := s, connections := st.connections + (if c.Some? then [c.value] else []))
  }

  /** `onConnectionCreated`: the canvas's connection is appended and the connection state reset. */
  function OnConnectionCreated(st: AppState, c: WorkflowConnection): (r: AppState)
    ensures r.connections == st.connections + [c] && r.conn == Idle
    ensures r.(conn := st.conn, connections := st.connections) == st
  {
    st.(connections := st.connections + [c], conn := Idle)
  }

  /** `onConnectionStateChange`: the shell mirrors the canvas's state. */
  function OnConnectionStateChange(st: AppState, s: ConnState): (r: AppState)
    ensures r.conn == s && r.(conn := st.conn) == st
  {
    st.(conn := s)
  }

  // ---------------------------------------------------------------------------
  // The store invariant
  // ---------------------------------------------------------------------------

  predicate Invariant(st: AppState) {
    && AtMostOneSelected(st)
    && ConnectionsWellFormed(st.connections)
    && AliasesUnique(st.nodes)
    && NodeIdsUnique(st.nodes)
  }

  /** An event the shell reacts to, with the values the environment supplies (fresh ids, positions). */
  datatype Event =
    | Drop(t: NodeType, canvasFound: bool, freshId: string, pos: Position)
    | ClickNode(nodeId: string)
    | ClickConnection(connectionId: string)
    | Deselect
    | DragStart
    | DragEnd
    | DeleteNode
    | DeleteConnection
    | Release(hit: Option<HandleHit>, freshId: string)
    | ConnStateChanged(s: ConnState)

  /** Whether the environment's fresh values really are fresh for this state. */
  predicate FreshFor(st: AppState, e: Event) {
    match e
    case Drop(_, _, id, _) => !NodeIdInUse(st.nodes, id)
    case Release(_, id) => !IdInUse(st.connections, id)
    case _ => true
  }

  function Step(st: AppState, e: Event): AppState {
    match e
    case Drop(t, found, id, pos) => OnCanvasDrop(st, t, found, id, pos)
    case ClickNode(id) => SelectNode(st, id)
    case ClickConnection(id) => SelectConnection(st, id)
    case Deselect => DeselectAll(st)
    case DragStart => NodeDragStart(st)
    case DragEnd => NodeDragEnd(st)
    case DeleteNode => DeleteSelectedNode(st)
    case DeleteConnection => DeleteSelectedConnection(st)
    case Release(hit, id) => EndConnection(st, hit, id)
    case ConnStateChanged(s) => OnConnectionStateChange(st, s)
  }

  lemma SelectNodeKeepsUniqueness(st: AppState, nodeId: string)
    requires AliasesUnique(st.nodes) && NodeIdsUnique(st.nodes)
    ensures AliasesUnique(SelectNode(st, nodeId).nodes) && NodeIdsUnique(SelectNode(st, nodeId).nodes)
  {
    var r := SelectNode(st, nodeId);
    if !st.isDragging {
      assert forall i, j :: 0 <= i < j < |r.nodes| ==> r.nodes[i].alias == st.nodes[i].alias && r.nodes[j].alias == st.nodes[j].alias;
      assert forall i, j :: 0 <= i < j < |r.nodes| ==> r.nodes[i].id == st.nodes[i].id && r.nodes[j].id == st.nodes[j].id;
    }
  }

  lemma {:induction false} WithoutNodeKeepsUniqueness(nodes: seq<WorkflowNode>, nodeId: string)
    requires AliasesUnique(nodes) && NodeIdsUnique(nodes)
    ensures AliasesUnique(WithoutNode(nodes, nodeId)) && NodeIdsUnique(WithoutNode(nodes, nodeId))
  {
    if |nodes| > 0 {
      var tail := nodes[1..];
      assert forall i :: 0 <= i < |tail| ==> tail[i] == nodes[i + 1];
      WithoutNodeKeepsUniqueness(tail, nodeId);
      var rest := WithoutNode(tail, nodeId);
      if nodes[0].id != nodeId {
        var r := [nodes[0]] + rest;
        forall i, j | 0 <= i < j < |r|
          ensures r[i].alias != r[j].alias && r[i].id != r[j].id
        {
          if i == 0 {
            assert r[j] in tail;
            var k :| 0 <= k < |tail| && tail[k] == r[j];
            assert nodes[k + 1] == r[j];
          } else {
            assert r[i] == rest[i - 1] && r[j] == rest[j - 1];
          }
        }
      }
    }
  }

  /** Every shell transition keeps the store invariant, given genuinely fresh ids. */
  lemma StepPreservesInvariant(st: AppState, e: Event)
    requires Invariant(st) && FreshFor(st, e)
    ensures Invariant(Step(st, e))
  {
    match e
    case Drop(t, found, id, pos) => DropPreservesUniqueness(st, t, found, id, pos);
    case ClickNode(id) => SelectNodeKeepsUniqueness(st, id);
    case DeleteNode =>
      if Truthy(st.selectedNodeId) {
        DetachPreservesWellFormed(st.connections, st.selectedNodeId.value);
        WithoutNodeKeepsUniqueness(st.nodes, st.selectedNodeId.value);
      }
    case DeleteConnection =>
      if Truthy(st.selectedConnectionId) {
        WithoutConnectionPreservesWellFormed(st.connections, st.selectedConnectionId.value);
      }
    case Release(hit, id) => EndConnectionPreservesWellFormed(st.conn, st.connections, hit, id);
    case _ =>
  }

  lemma {:induction false} WithoutConnectionPreservesWellFormed(conns: seq<WorkflowConnection>, connectionId: string)
    requires ConnectionsWellFormed(conns)
    ensures ConnectionsWellFormed(WithoutConnection(conns, connectionId))
  {
    if |conns| > 0 {
      TailWellFormed(conns);
      WithoutConnectionPreservesWellFormed(conns[1..], connectionId);
      if conns[0].id != connectionId {
        ConsWellFormed(conns, WithoutConnection(conns[1..], connectionId));
      }
    }
  }

  /** The invariant holds after any sequence of events with fresh ids, starting from the empty canvas. */
  function Run(st: AppState, events: seq<Event>): AppState
    decreases |events|
  {
    if |events| == 0 then st else Run(Step(st, events[0]), events[1..])
  }

  predicate FreshThroughout(st: AppState, events: seq<Event>)
    decreases |events|
  {
    |events| == 0 || (FreshFor(st, events[0]) && FreshThroughout(Step(st, events[0]), events[1..]))
  }

  lemma {:induction false} RunPreservesInvariant(st: AppState, events: seq<Event>)
    requires Invariant(st) && FreshThroughout(st, events)
    ensures Invariant(Run(st, events))
    decreases |events|
  {
    if |events| > 0 {
      StepPreservesInvariant(st, events[0]);
      RunPreservesInvariant(Step(st, events[0]), events[1..]);
    }
  }
}
