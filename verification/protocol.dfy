/**
 * The canvas's connection-drawing protocol: a three-field state
 * (`isConnecting`, `connectingFrom`, `tempConnection`) driven by
 * mouse-down on a handle, mouse-move and mouse-up, and the legality test a
 * new connection must pass. Mouse geometry is abstracted: the drag supplies
 * the already-computed preview path, the release supplies the handle (if
 * any) under the cursor.
 */
module ConnectionProtocol {
  import opened Wrappers
  import opened Models

  /** One end of a connection being drawn: `{ nodeId, handleType }`. */
  datatype Endpoint = Endpoint(nodeId: string, handle: HandleType)

  datatype ConnState = ConnState(isConnecting: bool, connectingFrom: Option<Endpoint>, tempConnection: Option<string>)

  /** The state `resetConnectionState` emits: `{ false, null, null }`. */
  const Idle := ConnState(false, None, None)

  // ---------------------------------------------------------------------------
  // Legality
  // ---------------------------------------------------------------------------

  /** Some connection already runs from `source` to `target`. */
  predicate HasPair(conns: seq<WorkflowConnection>, source: string, target: string) {
    exists i :: 0 <= i < |conns| && conns[i].sourceNodeId == source && conns[i].targetNodeId == target
  }

  /** `connections.find(c => c.sourceNodeId === source && c.targetNodeId === target)`, as an index. */
  function FindPair(conns: seq<WorkflowConnection>, source: string, target: string): (r: Option<nat>)
    ensures r.None? <==> !HasPair(conns, source, target)
    ensures r.Some? ==> r.value < |conns| && conns[r.value].sourceNodeId == source && conns[r.value].targetNodeId == target
  {
    if |conns| == 0 then None
    else if conns[0].sourceNodeId == source && conns[0].targetNodeId == target then Some(0)
    else match FindPair(conns[1..], source, target)
      case None =>
        assert forall i :: 1 <= i < |conns| ==> conns[i] == conns[1..][i - 1];
        None
      case Some(k) => Some(k + 1)
  }

  /**
   * `canConnectNodes` (identical in the canvas and the application shell):
   * not the same node, output to input, and no connection between the same
   * source and target yet.
   */
  function CanConnectNodes(conns: seq<WorkflowConnection>, from: Endpoint, to: Endpoint): (r: bool)
    ensures r <==> && from.nodeId != to.nodeId
                   && from.handle == Output && to.handle == Input
                   && !HasPair(conns, from.nodeId, to.nodeId)
  {
    if from.nodeId == to.nodeId then false
    else if !(from.handle == Output && to.handle == Input) then false
    else FindPair(conns, from.nodeId, to.nodeId).None?
  }

  /** `createConnection`: always output to input, with the caller's fresh id. */
  function CreateConnection(id: string, from: Endpoint, to: Endpoint): (c: WorkflowConnection)
    ensures c.id == id && c.sourceNodeId == from.nodeId && c.targetNodeId == to.nodeId
    ensures c.sourceHandle == Some(Output) && c.targetHandle == Some(Input)
  {
    WorkflowConnection(id, from.nodeId, to.nodeId, Some(Output), Some(Input))
  }

  /** The invariant the protocol maintains on the connection list. */
  predicate ConnectionsWellFormed(conns: seq<WorkflowConnection>) {
    && (forall i :: 0 <= i < |conns| ==>
          && conns[i].sourceNodeId != conns[i].targetNodeId
          && conns[i].sourceHandle == Some(Output)
          && conns[i].targetHandle == Some(Input))
    && (forall i, j :: 0 <= i < j < |conns| ==>
          !(conns[i].sourceNodeId == conns[j].sourceNodeId && conns[i].targetNodeId == conns[j].targetNodeId))
    && (forall i, j :: 0 <= i < j < |conns| ==> conns[i].id != conns[j].id)
  }

  predicate IdInUse(conns: seq<WorkflowConnection>, id: string) {
    exists i :: 0 <= i < |conns| && conns[i].id == id
  }

  /** Appending a connection that passed `canConnectNodes` under a fresh id keeps the list well formed. */
  lemma AddLegalConnection(conns: seq<WorkflowConnection>, id: string, from: Endpoint, to: Endpoint)
    requires ConnectionsWellFormed(conns)
    requires CanConnectNodes(conns, from, to)
    requires !IdInUse(conns, id)
    ensures ConnectionsWellFormed(conns + [CreateConnection(id, from, to)])
  {
    var c := CreateConnection(id, from, to);
    var r := conns + [c];
    forall i, j | 0 <= i < j < |r|
      ensures !(r[i].sourceNodeId == r[j].sourceNodeId && r[i].targetNodeId == r[j].targetNodeId)
      ensures r[i].id != r[j].id
    {
      if j == |conns| {
        assert r[i] == conns[i];
      }
    }
  }

  // ---------------------------------------------------------------------------
  // The state machine
  // ---------------------------------------------------------------------------

  /** Mouse-down on a handle: `startConnection` emits a connecting state with no preview yet. */
  function StartConnection(nodeId: string, handle: HandleType): (s: ConnState)
    ensures s.isConnecting && s.connectingFrom == Some(Endpoint(nodeId, handle)) && s.tempConnection.None?
  {
    ConnState(true, Some(Endpoint(nodeId, handle)), None)
  }

  /**
   * Mouse-move: while a connection is being drawn from a node that exists
   * and the canvas element is found, the preview path is replaced; every
   * other case leaves the state alone (nothing is emitted).
   */
  function OnConnectionDrag(s: ConnState, canvasFound: bool, fromNodeFound: bool, path: string): (r: ConnState)
    ensures r.isConnecting == s.isConnecting && r.connectingFrom == s.connectingFrom
    ensures r != s ==> r.tempConnection == Some(path) && s.isConnecting && s.connectingFrom.Some?
    ensures s.isConnecting && s.connectingFrom.Some? && canvasFound && fromNodeFound ==> r.tempConnection == Some(path)
  {
    if !s.isConnecting || s.connectingFrom.None? then s
    else if !canvasFound || !fromNodeFound then s
    else s.(tempConnection := Some(path))
  }

  /**
   * What lies under the cursor at mouse-up: the closest `.connection-handle`
   * element, with its `data-node-id` (`null` and `''` both falsy, so both
   * are `None`/empty) and its `data-handle-type`.
   */
  datatype HandleHit = HandleHit(nodeId: Option<string>, handle: Option<HandleType>)

  /** The endpoint a release over `hit` would connect to, if the release qualifies at all. */
  function Target(hit: Option<HandleHit>): (r: Option<Endpoint>)
    ensures r.Some? <==> hit.Some? && Truthy(hit.value.nodeId) && hit.value.handle.Some?
    ensures r.Some? ==> r.value == Endpoint(hit.value.nodeId.value, hit.value.handle.value)
  {
    match hit
    case None => None
    case Some(h) =>
      if Truthy(h.nodeId) && h.handle.Some? then Some(Endpoint(h.nodeId.value, h.handle.value)) else None
  }

  /**
   * Mouse-up: `endConnection`. A connection is produced only while
   * connecting, over a handle with a node id, when `canConnectNodes` holds;
   * the state always returns to idle. A missing handle type can never be the
   * required `input`, so it is rejected like any other wrong handle.
   */
  function EndConnection(s: ConnState, conns: seq<WorkflowConnection>, hit: Option<HandleHit>, freshId: string)
    : (r: (Option<WorkflowConnection>, ConnState))
    ensures r.1 == Idle
    ensures r.0.Some? <==>
              && s.isConnecting && s.connectingFrom.Some?
              && Target(hit).Some?
              && CanConnectNodes(conns, s.connectingFrom.value, Target(hit).value)
    ensures r.0.Some? ==> r.0.value == CreateConnection(freshId, s.connectingFrom.value, Target(hit).value)
  {
    if !s.isConnecting || s.connectingFrom.None? then (None, Idle)
    else
      match Target(hit)
      case None => (None, Idle)
      case Some(to) =>
        if CanConnectNodes(conns, s.connectingFrom.value, to) then
          (Some(CreateConnection(freshId, s.connectingFrom.value, to)), Idle)
        else (None, Idle)
  }

  /** Whatever a release commits keeps the connection list well formed. */
  lemma EndConnectionPreservesWellFormed(s: ConnState, conns: seq<WorkflowConnection>, hit: Option<HandleHit>, freshId: string)
    requires ConnectionsWellFormed(conns)
    requires !IdInUse(conns, freshId)
    ensures var (c, _) := EndConnection(s, conns, hit, freshId);
            c.Some? ==> ConnectionsWellFormed(conns + [c.value])
  {
    var (c, _) := EndConnection(s, conns, hit, freshId);
    if c.Some? {
      AddLegalConnection(conns, freshId, s.connectingFrom.value, Target(hit).value);
    }
  }

  /** A gesture started on an input handle never yields a connection. */
  lemma NoConnectionFromInput(nodeId: string, conns: seq<WorkflowConnection>, hit: Option<HandleHit>, freshId: string)
    ensures EndConnection(StartConnection(nodeId, Input), conns, hit, freshId).0.None?
  {
  }

  /** A gesture released over its own node never yields a connection, however long the drag. */
  lemma NoSelfConnection(nodeId: string, handle: HandleType, drags: seq<(bool, bool, string)>,
                         conns: seq<WorkflowConnection>, handle': Option<HandleType>, freshId: string)
    ensures EndConnection(Dragged(StartConnection(nodeId, handle), drags), conns,
                          Some(HandleHit(Some(nodeId), handle')), freshId).0.None?
  {
    DraggedKeepsOrigin(StartConnection(nodeId, handle), drags);
  }

  /** The state after a sequence of mouse-moves. */
  function Dragged(s: ConnState, drags: seq<(bool, bool, string)>): ConnState
    decreases |drags|
  {
    if |drags| == 0 then s
    else Dragged(OnConnectionDrag(s, drags[0].0, drags[0].1, drags[0].2), drags[1..])
  }

  lemma {:induction false} DraggedKeepsOrigin(s: ConnState, drags: seq<(bool, bool, string)>)
    ensures Dragged(s, drags).isConnecting == s.isConnecting
    ensures Dragged(s, drags).connectingFrom == s.connectingFrom
    decreases |drags|
  {
    if |drags| > 0 {
      DraggedKeepsOrigin(OnConnectionDrag(s, drags[0].0, drags[0].1, drags[0].2), drags[1..]);
    }
  }

  // ---------------------------------------------------------------------------
  // Drag guards of the canvas
  // ---------------------------------------------------------------------------

  /** The canvas forwards a node click as a selection request only when no node is being dragged. */
  function SelectNodeRequest(isDragging: bool, nodeId: string): (r: Option<string>)
    ensures r.Some? <==> !isDragging
    ensures r.Some? ==> r.value == nodeId
  {
    if isDragging then None else Some(nodeId)
  }

  /** The canvas forwards a drop to the shell only when it is not the end of a canvas-node drag. */
  function CanvasDropForwarded<E>(isCanvasNodeDragging: bool, event: E): (r: Option<E>)
    ensures r.Some? <==> !isCanvasNodeDragging
    ensures r.Some? ==> r.value == event
  {
    if isCanvasNodeDragging then None else Some(event)
  }
}
