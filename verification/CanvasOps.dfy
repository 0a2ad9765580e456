/** The canvas operation validator (canvas-agent/src/canvas-context.ts): one pass over the operations with an
    incrementally kept index of live nodes, live connections and connection keys. */
module CanvasOps {
  import opened Digits
  import opened Wrappers

  datatype NodeType = Image | Text | Script | Config | Video | Audio | Frame | Other(name: string)

  datatype Node = Node(id: string, nodeType: NodeType, x: real, y: real, width: real, height: real)
  datatype Connection = Connection(id: string, fromNodeId: string, toNodeId: string, fromHandleId: Option<string>,
      toHandleId: Option<string>)
  datatype Snapshot = Snapshot(nodes: seq<Node>, connections: seq<Connection>)

  /** A field that should hold a number: absent, something else (or not finite), or a number. */
  datatype Coordinate = Absent | NotFinite | Finite(value: real)
  datatype Position = NoPosition | NotAPosition | At(x: Coordinate, y: Coordinate)
  datatype Patch = Patch(namesIdentity: bool, setsStatus: bool, x: Coordinate, y: Coordinate, position: Position,
      width: Coordinate, height: Coordinate)
  datatype Viewport = Viewport(x: Coordinate, y: Coordinate, k: Coordinate)

  /** An operation with the fields its type is read for; an id that is absent or no string is None. */
  datatype Op =
    | Malformed
    | Unsupported
    | AddNode(id: Option<string>, nodeType: Option<NodeType>, x: Coordinate, y: Coordinate, position: Position,
      width: Coordinate, height: Coordinate)
    | UpdateNode(id: Option<string>, patch: Option<Patch>, metadataSetsStatus: bool)
    | RunGeneration(nodeId: Option<string>, mode: Option<NodeType>)
    | DeleteNode(id: Option<string>, ids: Option<seq<string>>, nodeType: Option<NodeType>)
    | ConnectNodes(id: Option<string>, fromNodeId: Option<string>, toNodeId: Option<string>,
      fromHandleId: Option<string>, toHandleId: Option<string>)
    | SelectNodes(ids: Option<seq<string>>)
    | DeleteConnections(id: Option<string>, ids: Option<seq<string>>, all: bool)
    | SetViewport(viewport: Option<Viewport>)

  datatype Problem =
    | NotAnObject | UnsupportedType | NodeTypeUnsupported | NumberNotFinite | NumberNotPositive | PositionInvalid
    | NodeIdTaken | NodeIdMissing | NodeUnknown | IdentityPatched | StatusPatched | ModeMismatch
    | NothingToDelete | TargetRepeated | SelfConnection | ConnectionIdTaken | ConnectionExists
    | SelectionAmbiguous | ConnectionUnknown | ViewportInvalid | ZoomOutOfRange
  datatype Issue = Issue(index: nat, problem: Problem)

  /** A live connection as the validator remembers it. */
  datatype Link = Link(key: string, fromNodeId: string, toNodeId: string)
  datatype View = View(liveNodes: set<string>, added: set<string>, keys: set<string>, live: map<string, Link>)

  const NUL: string := "\U{0000}"

  function ConnectionKey(fromNodeId: string, toNodeId: string, fromHandleId: Option<string>,
      toHandleId: Option<string>): string {
    fromNodeId + NUL + toNodeId + NUL + fromHandleId.GetOr("") + NUL + toHandleId.GetOr("")
  }

  function KeyOf(connection: Connection): string {
    ConnectionKey(connection.fromNodeId, connection.toNodeId, connection.fromHandleId, connection.toHandleId)
  }

  function NodeIds(nodes: seq<Node>): set<string> {
    set node | node in nodes :: node.id
  }

  /** Map.set in order: a repeated id keeps the last connection. */
  function LiveConnections(connections: seq<Connection>): map<string, Link> {
    if connections == [] then map[]
    else
      var last := connections[|connections| - 1];
      LiveConnections(connections[..|connections| - 1])[last.id := Link(KeyOf(last), last.fromNodeId, last.toNodeId)]
  }

  function InitialView(snapshot: Snapshot): View {
    View(NodeIds(snapshot.nodes), {}, set c | c in snapshot.connections :: KeyOf(c),
      LiveConnections(snapshot.connections))
  }

  function KeysOf(live: map<string, Link>): set<string> {
    set id | id in live :: live[id].key
  }

  function AnonymousId(index: nat): string {
    "__anonymous_" + Decimal(index)
  }

  /** removeConnection for each of `gone`: a key goes with the last live connection that has it. */
  function WithoutConnections(view: View, gone: set<string>): View {
    var live := view.live - gone;
    var dropped := set id | id in view.live && id in gone :: view.live[id].key;
    view.(live := live, keys := set k | k in view.keys && (k in KeysOf(live) || k !in dropped))
  }

  // ---------------------------------------------------------------- the checks on one operation

  function FiniteProblems(value: Coordinate): seq<Problem> {
    if value.NotFinite? then [NumberNotFinite] else []
  }

  function PositiveProblems(value: Coordinate): seq<Problem> {
    if value.NotFinite? || (value.Finite? && value.value <= 0.0) then [NumberNotPositive] else []
  }

  function PositionProblems(position: Position): seq<Problem> {
    match position
    case NoPosition => []
    case NotAPosition => [PositionInvalid]
    case At(x, y) => FiniteProblems(x) + FiniteProblems(y)
  }

  /** requireNode. */
  function NodeProblems(liveNodes: set<string>, id: Option<string>): seq<Problem> {
    if !Truthy(id) then [NodeIdMissing] else if id.value !in liveNodes then [NodeUnknown] else []
  }

  function NodesProblems(liveNodes: set<string>, ids: seq<string>): seq<Problem> {
    if ids == [] then [] else NodesProblems(liveNodes, ids[..|ids| - 1]) + NodeProblems(liveNodes, Some(ids[|ids| - 1]))
  }

  predicate Repeats(ids: seq<string>) {
    exists i, j :: 0 <= i < j < |ids| && ids[i] == ids[j]
  }

  function FindNode(nodes: seq<Node>, id: Option<string>): Option<Node> {
    if nodes == [] then None
    else if Some(nodes[0].id) == id then Some(nodes[0])
    else FindNode(nodes[1..], id)
  }

  function IdsOfType(nodes: seq<Node>, nodeType: NodeType): seq<string> {
    if nodes == [] then []
    else
      var front := IdsOfType(nodes[..|nodes| - 1], nodeType);
      if nodes[|nodes| - 1].nodeType == nodeType then front + [nodes[|nodes| - 1].id] else front
  }

  function DeleteTargets(nodes: seq<Node>, op: Op): seq<string>
    requires op.DeleteNode?
  {
    if op.ids.Some? then op.ids.value
    else if op.id.Some? then [op.id.value]
    else if op.nodeType.Some? then IdsOfType(nodes, op.nodeType.value)
    else []
  }

  function ConnectionTargets(op: Op): seq<string>
    requires op.DeleteConnections?
  {
    if op.ids.Some? then op.ids.value else if op.id.Some? then [op.id.value] else []
  }

  function UnknownConnections(live: map<string, Link>, ids: seq<string>): seq<Problem> {
    if ids == [] then []
    else UnknownConnections(live, ids[..|ids| - 1]) + (if ids[|ids| - 1] in live then [] else [ConnectionUnknown])
  }

  predicate IsMedia(node: Option<Node>) {
    node.Some? && node.value.nodeType in {Image, Video, Audio}
  }

  function If(condition: bool, problem: Problem): seq<Problem> {
    if condition then [problem] else []
  }

  function PatchProblems(patch: Option<Patch>): seq<Problem> {
    if patch.None? then []
    else
      var p := patch.value;
      If(p.namesIdentity, IdentityPatched) + FiniteProblems(p.x) + FiniteProblems(p.y) + PositionProblems(p.position)
      + PositiveProblems(p.width) + PositiveProblems(p.height)
  }

  function ViewportProblems(viewport: Option<Viewport>): seq<Problem> {
    if viewport.None? then [ViewportInvalid]
    else
      var v := viewport.value;
      FiniteProblems(v.x) + FiniteProblems(v.y) + FiniteProblems(v.k)
      + If(v.k.Finite? && (v.k.value < 0.05 || v.k.value > 8.0), ZoomOutOfRange)
  }

  function Problems(snapshot: Snapshot, view: View, op: Op): seq<Problem> {
    match op
    case Malformed => [NotAnObject]
    case Unsupported => [UnsupportedType]
    case AddNode(id, nodeType, x, y, position, width, height) =>
      If(nodeType.Some? && nodeType.value.Other?, NodeTypeUnsupported)
      + FiniteProblems(x) + FiniteProblems(y) + PositionProblems(position) + PositiveProblems(width)
        + PositiveProblems(height)
      + If(id.Some? && (id.value in NodeIds(snapshot.nodes) || id.value in view.added), NodeIdTaken)
    case UpdateNode(id, patch, metadataSetsStatus) =>
      NodeProblems(view.liveNodes, id) + PatchProblems(patch)
      + If(IsMedia(FindNode(snapshot.nodes, id))
        && (metadataSetsStatus || (patch.Some? && patch.value.setsStatus)), StatusPatched)
    case RunGeneration(nodeId, mode) =>
      var node := FindNode(snapshot.nodes, nodeId);
      NodeProblems(view.liveNodes, nodeId)
      + If(mode.Some? && node.Some? && mode.value != node.value.nodeType
        && !(mode.value == Text && node.value.nodeType == Script), ModeMismatch)
    case DeleteNode(_, _, _) =>
      var ids := DeleteTargets(snapshot.nodes, op);
      If(ids == [], NothingToDelete) + If(Repeats(ids), TargetRepeated) + NodesProblems(view.liveNodes, ids)
    case ConnectNodes(id, fromNodeId, toNodeId, fromHandleId, toHandleId) =>
      NodeProblems(view.liveNodes, fromNodeId) + NodeProblems(view.liveNodes, toNodeId)
      + If(fromNodeId == toNodeId, SelfConnection)
      + If(id.Some? && id.value in view.live, ConnectionIdTaken)
      + If(ConnectionKey(fromNodeId.GetOr(""), toNodeId.GetOr(""), fromHandleId, toHandleId) in view.keys,
        ConnectionExists)
    case SelectNodes(ids) => NodesProblems(view.liveNodes, ids.GetOr([]))
    case DeleteConnections(id, ids, all) =>
      var targets := ConnectionTargets(op);
      var listed := ids.Some? && ids.value != [];
      If(all && (Truthy(id) || listed), SelectionAmbiguous) + If(!all && !Truthy(id) && !listed, NothingToDelete)
      + If(Repeats(targets), TargetRepeated) + UnknownConnections(view.live, targets)
    case SetViewport(viewport) => ViewportProblems(viewport)
  }

  /** Connections with an end among the deleted nodes. */
  function Incident(live: map<string, Link>, ids: seq<string>): set<string> {
    set id | id in live && (live[id].fromNodeId in ids || live[id].toNodeId in ids)
  }

  function Advance(snapshot: Snapshot, view: View, op: Op, index: nat): View {
    match op
    case AddNode(id, _, _, _, _, _, _) =>
      if id.None? then view else view.(added := view.added + {id.value}, liveNodes := view.liveNodes + {id.value})
    case DeleteNode(_, _, _) =>
      var ids := DeleteTargets(snapshot.nodes, op);
      WithoutConnections(view.(liveNodes := view.liveNodes - (set id | id in ids)), Incident(view.live, ids))
    case ConnectNodes(id, fromNodeId, toNodeId, fromHandleId, toHandleId) =>
      var key := ConnectionKey(fromNodeId.GetOr(""), toNodeId.GetOr(""), fromHandleId, toHandleId);
      view.(keys := view.keys + {key},
            live := view.live[(if id.Some? then id.value else AnonymousId(index)) :=
              Link(key, fromNodeId.GetOr(""), toNodeId.GetOr(""))])
    case DeleteConnections(_, _, all) =>
      WithoutConnections(view, if all then view.live.Keys else set id | id in ConnectionTargets(op))
    case _ => view
  }

  function At0(problems: seq<Problem>, index: nat): seq<Issue> {
    if problems == [] then [] else At0(problems[..|problems| - 1], index) + [Issue(index, problems[|problems| - 1])]
  }

  function ViewAfter(snapshot: Snapshot, ops: seq<Op>): View {
    if ops == [] then InitialView(snapshot)
    else Advance(snapshot, ViewAfter(snapshot, ops[..|ops| - 1]), ops[|ops| - 1], |ops| - 1)
  }

  function IssuesOf(snapshot: Snapshot, ops: seq<Op>): seq<Issue> {
    if ops == [] then []
    else
      var last := |ops| - 1;
      IssuesOf(snapshot, ops[..last]) + At0(Problems(snapshot, ViewAfter(snapshot, ops[..last]), ops[last]), last)
  }

  predicate Accepted(snapshot: Snapshot, ops: seq<Op>) {
    IssuesOf(snapshot, ops) == []
  }

  /** One more operation: accepted exactly when the list was and the operation has no problem. */
  lemma {:induction false} OneMore(snapshot: Snapshot, ops: seq<Op>, op: Op)
    ensures ViewAfter(snapshot, ops + [op]) == Advance(snapshot, ViewAfter(snapshot, ops), op, |ops|)
    ensures Accepted(snapshot, ops + [op])
        <==> Accepted(snapshot, ops) && Problems(snapshot, ViewAfter(snapshot, ops), op) == []
  {
    hide Advance, Problems;
    assert (ops + [op])[..|ops|] == ops;
  }

  // ---------------------------------------------------------------- the validator's loops

  lemma {:induction false} KeysWithout(live: map<string, Link>, id: string)
    requires id in live
    ensures forall k :: k != live[id].key ==> (k in KeysOf(live - {id}) <==> k in KeysOf(live))
    ensures live[id].key in KeysOf(live)
  {
    var rest := live - {id};
    forall k | k != live[id].key && k in KeysOf(live) ensures k in KeysOf(rest) {
      var other :| other in live && live[other].key == k;
      assert other in rest && rest[other].key == k;
    }
    forall k | k in KeysOf(rest) ensures k in KeysOf(live) {
      var other :| other in rest && rest[other].key == k;
      assert live[other].key == k;
    }
  }

  /** removeConnection for every id of a list, one at a time. */
  method RemoveConnections(live: map<string, Link>, keys: set<string>, gone: set<string>)
    returns (live': map<string, Link>, keys': set<string>)
    ensures forall nodes, added ::
      WithoutConnections(View(nodes, added, keys, live), gone) == View(nodes, added, keys', live')
  {
    live', keys' := live, keys;
    var pending := gone;
    ghost var removed: set<string> := {};
    while pending != {}
      invariant removed + pending == gone && removed !! pending
      invariant live' == live - removed
      invariant forall k :: k in keys' <==>
        k in keys && (k in KeysOf(live') || forall id :: id in live && id in removed ==> live[id].key != k)
      decreases pending
    {
      var id :| id in pending;
      pending := pending - {id};
      removed := removed + {id};
      if id in live' {
        var link := live'[id];
        ghost var before := live';
        live' := live' - {id};
        KeysWithout(before, id);
        if link.key !in KeysOf(live') {
          keys' := keys' - {link.key};
        }
      }
    }
    assert removed == gone;
  }

  /** requireNode for each id of a list. */
  method RequireNodes(liveNodes: set<string>, ids: seq<string>) returns (problems: seq<Problem>)
    ensures problems == NodesProblems(liveNodes, ids)
  {
    problems := [];
    var i := 0;
    while i < |ids|
      invariant i <= |ids| && problems == NodesProblems(liveNodes, ids[..i])
    {
      assert ids[..i + 1][..i] == ids[..i];
      if ids[i] == "" {
        problems := problems + [NodeIdMissing];
      } else if ids[i] !in liveNodes {
        problems := problems + [NodeUnknown];
      }
      i := i + 1;
    }
    assert ids[..|ids|] == ids;
  }

  method RequireConnections(live: map<string, Link>, ids: seq<string>) returns (problems: seq<Problem>)
    ensures problems == UnknownConnections(live, ids)
  {
    problems := [];
    var i := 0;
    while i < |ids|
      invariant i <= |ids| && problems == UnknownConnections(live, ids[..i])
    {
      assert ids[..i + 1][..i] == ids[..i];
      if ids[i] !in live {
        problems := problems + [ConnectionUnknown];
      }
      i := i + 1;
    }
    assert ids[..|ids|] == ids;
  }

  /** The first loop over the snapshot's connections. */
  method IndexConnections(connections: seq<Connection>) returns (live: map<string, Link>)
    ensures live == LiveConnections(connections)
  {
    live := map[];
    var i := 0;
    while i < |connections|
      invariant i <= |connections| && live == LiveConnections(connections[..i])
    {
      var c := connections[i];
      assert connections[..i + 1][..i] == connections[..i];
      live := live[c.id := Link(KeyOf(c), c.fromNodeId, c.toNodeId)];
      i := i + 1;
    }
    assert connections[..|connections|] == connections;
  }

  /** The two kinds of operation that remove connections, and the lists they check. */
  method CheckDeletion(snapshot: Snapshot, view: View, op: Op) returns (problems: seq<Problem>, view': View)
    requires op.DeleteNode? || op.DeleteConnections?
    ensures problems == Problems(snapshot, view, op)
    ensures forall index :: view' == Advance(snapshot, view, op, index)
  {
    if op.DeleteNode? {
      var ids := DeleteTargets(snapshot.nodes, op);
      problems := If(ids == [], NothingToDelete) + If(Repeats(ids), TargetRepeated);
      var missing := RequireNodes(view.liveNodes, ids);
      problems := problems + missing;
      var live, keys := RemoveConnections(view.live, view.keys, Incident(view.live, ids));
      view' := View(view.liveNodes - (set id | id in ids), view.added, keys, live);
    } else {
      var targets := ConnectionTargets(op);
      var listed := op.ids.Some? && op.ids.value != [];
      problems := If(op.all && (Truthy(op.id) || listed), SelectionAmbiguous)
                + If(!op.all && !Truthy(op.id) && !listed, NothingToDelete) + If(Repeats(targets), TargetRepeated);
      var unknown := RequireConnections(view.live, targets);
      problems := problems + unknown;
      var gone := if op.all then view.live.Keys else set id | id in targets;
      var live, keys := RemoveConnections(view.live, view.keys, gone);
      view' := View(view.liveNodes, view.added, keys, live);
    }
  }

  /** The remaining kinds: add, connect, and the ones that only look. */
  method CheckOther(snapshot: Snapshot, view: View, op: Op, index: nat) returns (problems: seq<Problem>, view': View)
    requires !op.DeleteNode? && !op.DeleteConnections?
    ensures problems == Problems(snapshot, view, op) && view' == Advance(snapshot, view, op, index)
  {
    view' := view;
    if op.SelectNodes? {
      problems := RequireNodes(view.liveNodes, op.ids.GetOr([]));
    } else {
      problems := Problems(snapshot, view, op);
    }
    if op.AddNode? && op.id.Some? {
      view' := view'.(added := view.added + {op.id.value});
      view' := view'.(liveNodes := view.liveNodes + {op.id.value});
    } else if op.ConnectNodes? {
      var key := ConnectionKey(op.fromNodeId.GetOr(""), op.toNodeId.GetOr(""), op.fromHandleId, op.toHandleId);
      var id := if op.id.Some? then op.id.value else AnonymousId(index);
      view' := view'.(keys := view.keys + {key});
      view' := view'.(live := view.live[id := Link(key, op.fromNodeId.GetOr(""), op.toNodeId.GetOr(""))]);
    }
  }

  /** validateCanvasOps. */
  method ValidateCanvasOps(snapshot: Snapshot, ops: seq<Op>) returns (ok: bool, issues: seq<Issue>)
    ensures issues == IssuesOf(snapshot, ops) && ok == Accepted(snapshot, ops)
  {
    var live := IndexConnections(snapshot.connections);
    var view := View(NodeIds(snapshot.nodes), {}, set c | c in snapshot.connections :: KeyOf(c), live);
    assert view == InitialView(snapshot);
    hide Problems, Advance, InitialView;
    issues := [];
    var index := 0;
    while index < |ops|
      invariant index <= |ops|
      invariant view == ViewAfter(snapshot, ops[..index]) && issues == IssuesOf(snapshot, ops[..index])
    {
      var op := ops[index];
      assert ops[..index + 1][..index] == ops[..index];
      var problems;
      if op.DeleteNode? || op.DeleteConnections? {
        problems, view := CheckDeletion(snapshot, view, op);
      } else {
        problems, view := CheckOther(snapshot, view, op, index);
      }
      issues := issues + At0(problems, index);
      index := index + 1;
    }
    assert ops[..|ops|] == ops;
    ok := issues == [];
  }
}
