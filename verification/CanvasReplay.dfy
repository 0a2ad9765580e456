/** What an accepted list of canvas operations does to a plain canvas that keeps only nodes and connections. */
module CanvasReplay {
  import opened Digits
  import opened Wrappers
  import opened CanvasOps

  datatype ConnectionId = Named(id: string) | Anonymous(index: nat)
  datatype Ends = Ends(fromNodeId: string, toNodeId: string, fromHandleId: string, toHandleId: string)

  /** The id the validator files a connection under. */
  function Ident(c: ConnectionId): string {
    match c case Named(id) => id case Anonymous(index) => AnonymousId(index)
  }

  /** The reference canvas: no index, no keys. A connection made without an id is known by its operation. */
  datatype Canvas = Canvas(nodes: map<string, NodeType>, connections: map<ConnectionId, Ends>)

  function NodesOf(nodes: seq<Node>): map<string, NodeType> {
    if nodes == [] then map[]
    else
      var last := nodes[|nodes| - 1];
      NodesOf(nodes[..|nodes| - 1])[last.id := last.nodeType]
  }

  function EndsOf(c: Connection): Ends {
    Ends(c.fromNodeId, c.toNodeId, c.fromHandleId.GetOr(""), c.toHandleId.GetOr(""))
  }

  function ConnectionsOf(connections: seq<Connection>): map<ConnectionId, Ends> {
    if connections == [] then map[]
    else
      var last := connections[|connections| - 1];
      ConnectionsOf(connections[..|connections| - 1])[Named(last.id) := EndsOf(last)]
  }

  function CanvasOf(snapshot: Snapshot): Canvas {
    Canvas(NodesOf(snapshot.nodes), ConnectionsOf(snapshot.connections))
  }

  predicate ByType(op: Op) {
    op.DeleteNode? && op.ids.None? && op.id.None? && op.nodeType.Some?
  }

  /** The nodes a deletion names; by type, all nodes of that type then on the canvas. */
  function DeletedNodes(canvas: Canvas, op: Op): set<string>
    requires op.DeleteNode?
  {
    if op.ids.Some? then set id | id in op.ids.value
    else if op.id.Some? then {op.id.value}
    else if op.nodeType.Some? then set id | id in canvas.nodes && canvas.nodes[id] == op.nodeType.value
    else {}
  }

  function NewEnds(op: Op): Ends
    requires op.ConnectNodes?
  {
    Ends(op.fromNodeId.GetOr(""), op.toNodeId.GetOr(""), op.fromHandleId.GetOr(""), op.toHandleId.GetOr(""))
  }

  predicate OnCanvas(canvas: Canvas, id: Option<string>) {
    id.Some? && id.value in canvas.nodes
  }

  /** The operation touches only what is there, and connects two different nodes that are not yet so connected. */
  predicate Safe(canvas: Canvas, op: Op) {
    match op
    case AddNode(id, _, _, _, _, _, _) => id.Some? ==> id.value !in canvas.nodes
    case UpdateNode(id, _, _) => OnCanvas(canvas, id)
    case RunGeneration(id, _) => OnCanvas(canvas, id)
    case DeleteNode(_, _, _) => DeletedNodes(canvas, op) <= canvas.nodes.Keys && DeletedNodes(canvas, op) != {}
    case ConnectNodes(id, fromNodeId, toNodeId, _, _) =>
      && OnCanvas(canvas, fromNodeId) && OnCanvas(canvas, toNodeId) && fromNodeId != toNodeId
      && (id.Some? ==> Named(id.value) !in canvas.connections)
      && NewEnds(op) !in canvas.connections.Values
    case SelectNodes(ids) => forall id :: id in ids.GetOr([]) ==> id in canvas.nodes
    case DeleteConnections(_, _, _) => forall id :: id in ConnectionTargets(op) ==> Named(id) in canvas.connections
    case SetViewport(_) => true
    case _ => false
  }

  function Applied(canvas: Canvas, op: Op, index: nat): Canvas {
    match op
    case AddNode(id, nodeType, _, _, _, _, _) =>
      if id.None? then canvas else canvas.(nodes := canvas.nodes[id.value := nodeType.GetOr(Text)])
    case DeleteNode(_, _, _) =>
      var ids := DeletedNodes(canvas, op);
      Canvas(canvas.nodes - ids,
             map c | c in canvas.connections && canvas.connections[c].fromNodeId !in ids
               && canvas.connections[c].toNodeId !in ids
               :: canvas.connections[c])
    case ConnectNodes(id, _, _, _, _) =>
      canvas.(connections :=
        canvas.connections[(if id.Some? then Named(id.value) else Anonymous(index)) := NewEnds(op)])
    case DeleteConnections(_, _, all) =>
      if all then canvas.(connections := map[])
      else canvas.(connections := canvas.connections - (set id | id in ConnectionTargets(op) :: Named(id)))
    case _ => canvas
  }

  function CanvasAfter(snapshot: Snapshot, ops: seq<Op>): Canvas {
    if ops == [] then CanvasOf(snapshot)
    else Applied(CanvasAfter(snapshot, ops[..|ops| - 1]), ops[|ops| - 1], |ops| - 1)
  }

  /** Every connection joins two different nodes on the canvas, and no two join the same ends. */
  predicate Proper(canvas: Canvas) {
    && (forall c :: c in canvas.connections ==>
          var ends := canvas.connections[c];
          ends.fromNodeId in canvas.nodes && ends.toNodeId in canvas.nodes && ends.fromNodeId != ends.toNodeId)
    && (forall c, d ::
      c in canvas.connections && d in canvas.connections && canvas.connections[c] == canvas.connections[d] ==> c == d)
  }

  // ---------------------------------------------------------------- where the index can part from the canvas

  predicate DistinctNodes(nodes: seq<Node>) {
    forall i, j :: 0 <= i < j < |nodes| ==> nodes[i].id != nodes[j].id
  }

  predicate DistinctConnections(connections: seq<Connection>) {
    forall i, j :: 0 <= i < j < |connections| ==> connections[i].id != connections[j].id
  }

  /** Connections have ids of their own; node ids matter only to a deletion by type. */
  predicate Distinct(snapshot: Snapshot, ops: seq<Op>) {
    && DistinctConnections(snapshot.connections)
    && ((exists op :: op in ops && ByType(op)) ==> DistinctNodes(snapshot.nodes))
  }

  /** The deletion names the private id of a live connection that was made without an id. */
  predicate HitsPrivate(canvas: Canvas, op: Op)
    requires op.DeleteConnections?
  {
    exists c :: c in canvas.connections && c.Anonymous? && Ident(c) in ConnectionTargets(op)
  }

  /** The three operations after which the index no longer describes the canvas: a deletion by type while a node
      of the type added in this list is there, a deletion by private id, and a connection without an id where
      some connection already bears the private id it gets. */
  predicate Diverges(canvas: Canvas, added: set<string>, op: Op, index: nat) {
    || (ByType(op) && exists id :: id in canvas.nodes && id in added && canvas.nodes[id] == op.nodeType.value)
    || (op.DeleteConnections? && !op.all && HitsPrivate(canvas, op))
    || (op.ConnectNodes? && op.id.None? && Named(AnonymousId(index)) in canvas.connections)
  }

  predicate DivergesAt(snapshot: Snapshot, ops: seq<Op>, i: nat)
    requires i < |ops|
  {
    Diverges(CanvasAfter(snapshot, ops[..i]), ViewAfter(snapshot, ops[..i]).added, ops[i], i)
  }

  predicate NeverDiverges(snapshot: Snapshot, ops: seq<Op>) {
    forall i :: 0 <= i < |ops| ==> !DivergesAt(snapshot, ops, i)
  }

  predicate AddsType(op: Op, nodeType: NodeType) {
    op.AddNode? && op.id.Some? && op.nodeType.GetOr(Text) == nodeType
  }

  predicate Unnamed(op: Op) {
    op.ConnectNodes? && op.id.None?
  }

  /** The same, read off the list: no deletion by type after an addition of that type, no deletion by the private
      id of an earlier connection, no earlier use of the private id of a connection made without one. */
  predicate Settled(snapshot: Snapshot, ops: seq<Op>) {
    && (forall i, j :: 0 <= i < j < |ops| && ByType(ops[j]) ==> !AddsType(ops[i], ops[j].nodeType.value))
    && (forall i, j :: 0 <= i < j < |ops| && ops[j].DeleteConnections? && Unnamed(ops[i]) ==>
          AnonymousId(i) !in ConnectionTargets(ops[j]))
    && (forall i, j :: 0 <= i < j < |ops| && Unnamed(ops[j]) && ops[i].ConnectNodes? ==>
          ops[i].id != Some(AnonymousId(j)))
    && (forall j, c :: 0 <= j < |ops| && Unnamed(ops[j]) && c in snapshot.connections ==> c.id != AnonymousId(j))
  }

  // ---------------------------------------------------------------- the index mirrors the canvas

  function LinkOf(ends: Ends): Link {
    Link(ConnectionKey(ends.fromNodeId, ends.toNodeId, Some(ends.fromHandleId), Some(ends.toHandleId)), ends.fromNodeId,
      ends.toNodeId)
  }

  /** The validator's ids tell the live connections apart, and none is from an operation still to come. */
  predicate IdsDistinguish(canvas: Canvas, index: nat) {
    && (forall c, d :: c in canvas.connections && d in canvas.connections && Ident(c) == Ident(d) ==> c == d)
    && (forall c :: c in canvas.connections && c.Anonymous? ==> c.index < index)
  }

  predicate LinksMirror(live: map<string, Link>, canvas: Canvas) {
    && live.Keys == (set c | c in canvas.connections :: Ident(c))
    && forall c :: c in canvas.connections ==> live[Ident(c)] == LinkOf(canvas.connections[c])
  }

  /** The validator's sets describe exactly the nodes, connections and keys that are live. */
  predicate Mirrors(view: View, canvas: Canvas, index: nat) {
    && view.liveNodes == canvas.nodes.Keys
    && LinksMirror(view.live, canvas)
    && view.keys == KeysOf(view.live)
    && IdsDistinguish(canvas, index)
  }

  /** Where node types come from: the snapshot, or an addition in this list. */
  predicate TypesKnown(snapshot: Snapshot, ops: seq<Op>, view: View, canvas: Canvas) {
    && canvas.nodes.Keys <= NodeIds(snapshot.nodes) + view.added
    && view.added !! NodeIds(snapshot.nodes)
    && (DistinctNodes(snapshot.nodes) ==>
          forall node :: node in snapshot.nodes && node.id in canvas.nodes ==> canvas.nodes[node.id] == node.nodeType)
    && (forall id :: id in canvas.nodes && id in view.added ==> exists op ::
      op in ops && AddsType(op, canvas.nodes[id]))
  }

  lemma {:induction false} AnonymousIdInjective(m: nat, n: nat)
    requires AnonymousId(m) == AnonymousId(n)
    ensures m == n
  {
    assert Decimal(m) == AnonymousId(m)[|"__anonymous_"|..] == AnonymousId(n)[|"__anonymous_"|..] == Decimal(n);
    DecimalInjective(m, n);
  }

  lemma {:induction false} NodesOfKeys(nodes: seq<Node>)
    ensures NodesOf(nodes).Keys == NodeIds(nodes)
    decreases |nodes|
  {
    if nodes != [] {
      var n := |nodes| - 1;
      NodesOfKeys(nodes[..n]);
      assert forall node :: node in nodes <==> node in nodes[..n] || node == nodes[n];
    }
  }

  lemma {:induction false} NodesOfExact(nodes: seq<Node>)
    requires DistinctNodes(nodes)
    ensures forall node :: node in nodes ==> node.id in NodesOf(nodes) && NodesOf(nodes)[node.id] == node.nodeType
    decreases |nodes|
  {
    if nodes != [] {
      var n := |nodes| - 1;
      NodesOfExact(nodes[..n]);
      assert forall node :: node in nodes <==> node in nodes[..n] || node == nodes[n];
      forall node | node in nodes[..n] ensures node.id != nodes[n].id {
        var i :| 0 <= i < n && nodes[..n][i] == node;
        assert nodes[i].id != nodes[n].id;
      }
    }
  }

  lemma {:induction false} LastConnection(connections: seq<Connection>)
    requires DistinctConnections(connections) && connections != []
    ensures var n := |connections| - 1;
      && DistinctConnections(connections[..n])
      && (forall c :: c in connections <==> c in connections[..n] || c == connections[n])
      && (forall c :: c in connections[..n] ==> c.id != connections[n].id)
  {
    var n := |connections| - 1;
    forall c | c in connections[..n] ensures c.id != connections[n].id {
      var i :| 0 <= i < n && connections[..n][i] == c;
      assert connections[i].id != connections[n].id;
    }
  }

  /** Both views of the snapshot's connections hold each of them under its id, and nothing else. */
  lemma {:induction false} ConnectionsMirror(connections: seq<Connection>)
    requires DistinctConnections(connections)
    ensures LiveConnections(connections).Keys == (set c | c in connections :: c.id)
    ensures ConnectionsOf(connections).Keys == (set c | c in connections :: Named(c.id))
    ensures forall c :: c in connections ==>
      && LiveConnections(connections)[c.id] == Link(KeyOf(c), c.fromNodeId, c.toNodeId)
      && ConnectionsOf(connections)[Named(c.id)] == EndsOf(c)
    decreases |connections|
  {
    hide KeyOf, EndsOf, DistinctConnections;
    if connections != [] {
      LastConnection(connections);
      ConnectionsMirror(connections[..|connections| - 1]);
    }
  }

  lemma {:induction false} SnapshotLinks(connections: seq<Connection>, canvas: Canvas)
    requires DistinctConnections(connections) && canvas.connections == ConnectionsOf(connections)
    ensures LinksMirror(LiveConnections(connections), canvas)
    ensures KeysOf(LiveConnections(connections)) == (set c | c in connections :: KeyOf(c))
  {
    var live := LiveConnections(connections);
    ConnectionsMirror(connections);
    hide KeyOf;
    forall c | c in connections ensures live[Ident(Named(c.id))] == LinkOf(canvas.connections[Named(c.id)]) {
      HandlesDefault(c.fromNodeId, c.toNodeId, c.fromHandleId, c.toHandleId);
      KeyOfEnds(c);
    }
    forall id ensures id in live <==> id in (set c | c in canvas.connections :: Ident(c)) {
      if id in live {
        var c :| c in connections && c.id == id;
        assert Ident(Named(id)) == id && Named(id) in canvas.connections;
      }
    }
    forall k ensures k in KeysOf(live) <==> k in (set c | c in connections :: KeyOf(c)) {
      if k in (set c | c in connections :: KeyOf(c)) {
        var c :| c in connections && KeyOf(c) == k;
        assert live[c.id].key == k;
      }
    }
  }

  lemma {:induction false} KeyOfEnds(c: Connection)
    ensures LinkOf(EndsOf(c)) == Link(KeyOf(c), c.fromNodeId, c.toNodeId)
  {
    HandlesDefault(c.fromNodeId, c.toNodeId, c.fromHandleId, c.toHandleId);
  }

  lemma {:induction false} InitialMirrors(snapshot: Snapshot)
    requires DistinctConnections(snapshot.connections)
    ensures Mirrors(InitialView(snapshot), CanvasOf(snapshot), 0)
    ensures TypesKnown(snapshot, [], InitialView(snapshot), CanvasOf(snapshot))
  {
    hide KeyOf, LinksMirror, KeysOf;
    NodesOfKeys(snapshot.nodes);
    if DistinctNodes(snapshot.nodes) {
      NodesOfExact(snapshot.nodes);
    }
    SnapshotLinks(snapshot.connections, CanvasOf(snapshot));
    ConnectionsMirror(snapshot.connections);
  }

  // ---------------------------------------------------------------- what the checks establish

  lemma {:induction false} NodeChecked(view: View, id: Option<string>)
    requires NodeProblems(view.liveNodes, id) == []
    ensures id.Some? && id.value in view.liveNodes
  {
  }

  lemma {:induction false} NodesChecked(liveNodes: set<string>, ids: seq<string>)
    ensures NodesProblems(liveNodes, ids) == [] ==> forall id :: id in ids ==> id in liveNodes
    decreases |ids|
  {
    if ids != [] {
      NodesChecked(liveNodes, ids[..|ids| - 1]);
      assert forall id :: id in ids <==> id in ids[..|ids| - 1] || id == ids[|ids| - 1];
    }
  }

  lemma {:induction false} ConnectionsChecked(live: map<string, Link>, ids: seq<string>)
    ensures UnknownConnections(live, ids) == [] ==> forall id :: id in ids ==> id in live
    decreases |ids|
  {
    if ids != [] {
      ConnectionsChecked(live, ids[..|ids| - 1]);
      assert forall id :: id in ids <==> id in ids[..|ids| - 1] || id == ids[|ids| - 1];
    }
  }

  lemma {:induction false} IdsOfTypeExact(nodes: seq<Node>, nodeType: NodeType)
    ensures forall id :: id in IdsOfType(nodes, nodeType) <==> exists node ::
        node in nodes && node.id == id && node.nodeType == nodeType
    decreases |nodes|
  {
    if nodes != [] {
      var n := |nodes| - 1;
      IdsOfTypeExact(nodes[..n], nodeType);
      assert forall node :: node in nodes <==> node in nodes[..n] || node == nodes[n];
    }
  }

  /** The validator and the canvas delete the same nodes, unless by type a node added here is of that type. */
  lemma {:induction false} TargetsAgreeExactly(snapshot: Snapshot, ops: seq<Op>, view: View, canvas: Canvas, op: Op)
    requires view.liveNodes == canvas.nodes.Keys && TypesKnown(snapshot, ops, view, canvas)
    requires op.DeleteNode? && Problems(snapshot, view, op) == []
    requires ByType(op) ==> DistinctNodes(snapshot.nodes)
    ensures (set id | id in DeleteTargets(snapshot.nodes, op)) == DeletedNodes(canvas, op)
       <==> !(ByType(op) && exists id ::
            id in canvas.nodes && id in view.added && canvas.nodes[id] == op.nodeType.value)
    ensures forall id :: id in DeleteTargets(snapshot.nodes, op) ==> id in canvas.nodes
    ensures DeleteTargets(snapshot.nodes, op) != []
  {
    var ids := DeleteTargets(snapshot.nodes, op);
    NodesChecked(view.liveNodes, ids);
    if op.ids.None? && op.id.Some? {
      assert ids == [op.id.value];
      assert (set id | id in ids) == {op.id.value};
    }
    if ByType(op) {
      var nodeType := op.nodeType.value;
      IdsOfTypeExact(snapshot.nodes, nodeType);
      forall id | id in canvas.nodes && id !in view.added && canvas.nodes[id] == nodeType ensures id in ids {
        var node :| node in snapshot.nodes && node.id == id;
      }
      forall id | id in ids ensures id in DeletedNodes(canvas, op) && id !in view.added {
        var node :| node in snapshot.nodes && node.id == id && node.nodeType == nodeType;
      }
      var targets := set id | id in ids;
      if targets == DeletedNodes(canvas, op) {
        forall id | id in canvas.nodes && canvas.nodes[id] == nodeType ensures id !in view.added {
          assert id in targets;
        }
      }
    }
  }

  // ---------------------------------------------------------------- one accepted operation

  /** An accepted deletion of connections is safe exactly when it names no private id of a live connection. */
  lemma {:induction false} DeletionSafeExactly(snapshot: Snapshot, view: View, canvas: Canvas, index: nat, op: Op)
    requires Mirrors(view, canvas, index) && op.DeleteConnections? && Problems(snapshot, view, op) == []
    ensures Safe(canvas, op) <==> !HitsPrivate(canvas, op)
  {
    ConnectionsChecked(view.live, ConnectionTargets(op));
    hide AnonymousId, UnknownConnections;
    if HitsPrivate(canvas, op) {
      var c :| c in canvas.connections && c.Anonymous? && Ident(c) in ConnectionTargets(op);
      assert Ident(Named(Ident(c))) == Ident(c);
      assert Named(Ident(c)) !in canvas.connections;
    } else {
      forall id | id in ConnectionTargets(op) ensures Named(id) in canvas.connections {
        var c :| c in canvas.connections && Ident(c) == id;
      }
    }
  }

  /** An accepted operation is safe. */
  lemma {:induction false} CheckedIsSafe(snapshot: Snapshot, ops: seq<Op>, view: View, canvas: Canvas, index: nat,
      op: Op)
    requires Mirrors(view, canvas, index) && TypesKnown(snapshot, ops, view, canvas)
    requires Problems(snapshot, view, op) == []
    requires ByType(op) ==> DistinctNodes(snapshot.nodes)
    requires op.DeleteNode? ==> (set id | id in DeleteTargets(snapshot.nodes, op)) == DeletedNodes(canvas, op)
    requires op.DeleteConnections? ==> !HitsPrivate(canvas, op)
    ensures Safe(canvas, op)
  {
    hide ConnectionKey, FindNode, PatchProblems, ViewportProblems, HitsPrivate, LinksMirror, IdsDistinguish;
    match op {
      case AddNode(_, _, _, _, _, _, _) =>
      case UpdateNode(id, _, _) => NodeChecked(view, id);
      case RunGeneration(id, _) => NodeChecked(view, id);
      case DeleteNode(_, _, _) => TargetsAgreeExactly(snapshot, ops, view, canvas, op);
        assert DeleteTargets(snapshot.nodes, op)[0] in DeletedNodes(canvas, op);
      case ConnectNodes(id, fromNodeId, toNodeId, _, _) =>
        NodeChecked(view, fromNodeId);
        NodeChecked(view, toNodeId);
        ConnectionIsNew(view, canvas, index, op);
      case SelectNodes(ids) => NodesChecked(view.liveNodes, ids.GetOr([]));
      case DeleteConnections(_, _, _) => DeletionSafeExactly(snapshot, view, canvas, index, op);
      case _ =>
    }
  }

  lemma {:induction false} ConnectionIsNew(view: View, canvas: Canvas, index: nat, op: Op)
    requires Mirrors(view, canvas, index) && op.ConnectNodes?
    requires op.id.Some? ==> op.id.value !in view.live
    requires ConnectionKey(op.fromNodeId.GetOr(""), op.toNodeId.GetOr(""), op.fromHandleId, op.toHandleId) !in view.keys
    ensures op.id.Some? ==> Named(op.id.value) !in canvas.connections
    ensures NewEnds(op) !in canvas.connections.Values
  {
    hide AnonymousId;
    assert forall c :: c in canvas.connections ==> Ident(c) in view.live;
    assert op.id.Some? ==> Ident(Named(op.id.value)) == op.id.value;
    forall c | c in canvas.connections ensures canvas.connections[c] != NewEnds(op) {
      assert view.live[Ident(c)].key in view.keys;
      assert LinkOf(canvas.connections[c]).key in view.keys;
      HandlesDefault(op.fromNodeId.GetOr(""), op.toNodeId.GetOr(""), op.fromHandleId, op.toHandleId);
    }
  }

  lemma {:induction false} HandlesDefault(a: string, b: string, h: Option<string>, i: Option<string>)
    ensures ConnectionKey(a, b, h, i) == ConnectionKey(a, b, Some(h.GetOr("")), Some(i.GetOr("")))
  {
  }

  lemma {:induction false} KeysFollow(view: View, gone: set<string>)
    requires view.keys == KeysOf(view.live)
    ensures WithoutConnections(view, gone).keys == KeysOf(view.live - gone)
  {
    var live := view.live - gone;
    forall id | id in live ensures view.live[id].key in KeysOf(live) && view.live[id].key in view.keys {
      assert live[id].key == view.live[id].key;
    }
    forall k | k in KeysOf(live) ensures k in view.keys {
      var id :| id in live && live[id].key == k;
    }
    forall k | k in view.keys && k !in KeysOf(live) ensures k !in WithoutConnections(view, gone).keys {
      var id :| id in view.live && view.live[id].key == k;
      assert id in view.live && id in gone;
    }
  }

  /** Removing connections on both sides keeps the mirror. */
  lemma {:induction false} RemovalMirrors(view: View, canvas: Canvas, index: nat, gone: set<string>,
      kept: map<ConnectionId, Ends>)
    requires Mirrors(view, canvas, index)
    requires forall c :: c in kept <==> c in canvas.connections && Ident(c) !in gone
    requires forall c :: c in kept ==> kept[c] == canvas.connections[c]
    ensures Mirrors(WithoutConnections(view, gone), canvas.(connections := kept), index)
  {
    hide AnonymousId;
    KeysFollow(view, gone);
    var live := view.live - gone;
    var after := canvas.(connections := kept);
    forall id ensures id in live <==> id in (set c | c in kept :: Ident(c)) {
      if id in live {
        var c :| c in canvas.connections && Ident(c) == id;
        assert c in kept;
      }
    }
  }

  lemma {:induction false} IdentIsNew(view: View, canvas: Canvas, index: nat, op: Op)
    requires Mirrors(view, canvas, index) && op.ConnectNodes? && (op.id.Some? ==> op.id.value !in view.live)
    requires Unnamed(op) ==> Named(AnonymousId(index)) !in canvas.connections
    ensures (if op.id.Some? then op.id.value else AnonymousId(index)) !in view.live
  {
    hide AnonymousId;
    if Unnamed(op) && AnonymousId(index) in view.live {
      var d :| d in canvas.connections && Ident(d) == AnonymousId(index);
      assert d != Named(AnonymousId(index));
      AnonymousIdInjective(d.index, index);
      assert false;
    }
  }

  /** Adding one connection under a new name, on both sides. */
  lemma {:induction false} AdditionMirrors(view: View, canvas: Canvas, index: nat, c: ConnectionId, ends: Ends)
    requires Mirrors(view, canvas, index) && Ident(c) !in view.live
    requires c.Anonymous? ==> c.index == index
    ensures var link := LinkOf(ends);
      Mirrors(view.(keys := view.keys + {link.key}, live := view.live[Ident(c) := link]),
              canvas.(connections := canvas.connections[c := ends]), index + 1)
  {
    hide ConnectionKey, AnonymousId;
    var link := LinkOf(ends);
    var live := view.live[Ident(c) := link];
    var connections := canvas.connections[c := ends];
    assert live.Keys == (set d | d in connections :: Ident(d)) by {
      assert live.Keys == view.live.Keys + {Ident(c)};
      assert forall d :: d in connections <==> d in canvas.connections || d == c;
    }
    KeysWithAdded(view.live, Ident(c), link);
  }

  lemma {:induction false} KeysWithAdded(live: map<string, Link>, id: string, link: Link)
    requires id !in live
    ensures KeysOf(live[id := link]) == KeysOf(live) + {link.key}
  {
    var next := live[id := link];
    assert next[id].key == link.key;
    forall k | k in KeysOf(live) ensures k in KeysOf(next) {
      var other :| other in live && live[other].key == k;
      assert next[other].key == k;
    }
  }

  lemma {:induction false} ConnectMirrors(snapshot: Snapshot, view: View, canvas: Canvas, index: nat, op: Op)
    requires Mirrors(view, canvas, index) && op.ConnectNodes? && Problems(snapshot, view, op) == []
    requires Unnamed(op) ==> Named(AnonymousId(index)) !in canvas.connections
    ensures Mirrors(Advance(snapshot, view, op, index), Applied(canvas, op, index), index + 1)
  {
    hide ConnectionKey, Mirrors;
    HandlesDefault(op.fromNodeId.GetOr(""), op.toNodeId.GetOr(""), op.fromHandleId, op.toHandleId);
    IdentIsNew(view, canvas, index, op);
    AdditionMirrors(view, canvas, index, if op.id.Some? then Named(op.id.value) else Anonymous(index), NewEnds(op));
  }

  lemma {:induction false} DeleteMirrors(snapshot: Snapshot, view: View, canvas: Canvas, index: nat, op: Op)
    requires Mirrors(view, canvas, index) && op.DeleteNode?
    requires (set id | id in DeleteTargets(snapshot.nodes, op)) == DeletedNodes(canvas, op)
    ensures Mirrors(Advance(snapshot, view, op, index), Applied(canvas, op, index), index)
  {
    hide ConnectionKey, AnonymousId;
    var ids := DeleteTargets(snapshot.nodes, op);
    var gone := Incident(view.live, ids);
    var after := Applied(canvas, op, index);
    forall c | c in canvas.connections ensures c in after.connections <==> Ident(c) !in gone {
      assert view.live[Ident(c)] == LinkOf(canvas.connections[c]);
      assert forall id :: id in ids <==> id in DeletedNodes(canvas, op);
    }
    RemovalMirrors(view, canvas, index, gone, after.connections);
  }

  lemma {:induction false} DeleteConnectionsMirrors(snapshot: Snapshot, view: View, canvas: Canvas, index: nat, op: Op)
    requires Mirrors(view, canvas, index) && op.DeleteConnections? && (op.all || !HitsPrivate(canvas, op))
    ensures Mirrors(Advance(snapshot, view, op, index), Applied(canvas, op, index), index)
  {
    hide AnonymousId;
    var after := Applied(canvas, op, index);
    if op.all {
      RemovalMirrors(view, canvas, index, view.live.Keys, after.connections);
    } else {
      var gone := set id | id in ConnectionTargets(op);
      forall c | c in canvas.connections ensures c in after.connections <==> Ident(c) !in gone {
        assert c.Named? ==> c == Named(Ident(c));
      }
      RemovalMirrors(view, canvas, index, gone, after.connections);
    }
  }

  lemma {:induction false} OtherMirrors(snapshot: Snapshot, view: View, canvas: Canvas, index: nat, op: Op)
    requires Mirrors(view, canvas, index) && !op.ConnectNodes? && !op.DeleteNode? && !op.DeleteConnections?
    ensures Mirrors(Advance(snapshot, view, op, index), Applied(canvas, op, index), index)
  {
    hide AnonymousId;
  }

  lemma {:induction false} MirrorsLater(view: View, canvas: Canvas, index: nat)
    requires Mirrors(view, canvas, index)
    ensures Mirrors(view, canvas, index + 1)
  {
    hide AnonymousId;
  }

  lemma {:induction false} AdvanceTypes(snapshot: Snapshot, ops: seq<Op>, view: View, canvas: Canvas, op: Op)
    requires TypesKnown(snapshot, ops, view, canvas) && Problems(snapshot, view, op) == []
    ensures TypesKnown(snapshot, ops + [op], Advance(snapshot, view, op, |ops|), Applied(canvas, op, |ops|))
  {
    hide ConnectionKey, FindNode, PatchProblems, ViewportProblems, NodesProblems, UnknownConnections, Repeats;
    var next, after := Advance(snapshot, view, op, |ops|), Applied(canvas, op, |ops|);
    assert forall o :: o in ops ==> o in ops + [op];
    forall id | id in after.nodes && id in next.added
      ensures exists o :: o in ops + [op] && AddsType(o, after.nodes[id])
    {
      if op.AddNode? && op.id == Some(id) {
        assert op in ops + [op] && AddsType(op, after.nodes[id]);
      }
    }
  }

  /** One accepted operation that does not diverge: it is safe and the index still mirrors the canvas. */
  lemma {:induction false} StepMirrors(snapshot: Snapshot, ops: seq<Op>, view: View, canvas: Canvas, op: Op)
    requires Mirrors(view, canvas, |ops|) && TypesKnown(snapshot, ops, view, canvas)
    requires Problems(snapshot, view, op) == []
    requires ByType(op) ==> DistinctNodes(snapshot.nodes)
    requires !Diverges(canvas, view.added, op, |ops|)
    ensures Safe(canvas, op)
    ensures Mirrors(Advance(snapshot, view, op, |ops|), Applied(canvas, op, |ops|), |ops| + 1)
  {
    if op.DeleteNode? {
      TargetsAgreeExactly(snapshot, ops, view, canvas, op);
    }
    hide Mirrors, TypesKnown, Advance, Applied, Safe, HitsPrivate;
    if op.DeleteConnections? && op.all {
      AllNamesNothing(snapshot, view, canvas, op);
    }
    CheckedIsSafe(snapshot, ops, view, canvas, |ops|, op);
    hide Problems;
    if op.ConnectNodes? {
      ConnectMirrors(snapshot, view, canvas, |ops|, op);
    } else {
      if op.DeleteNode? {
        DeleteMirrors(snapshot, view, canvas, |ops|, op);
      } else if op.DeleteConnections? {
        DeleteConnectionsMirrors(snapshot, view, canvas, |ops|, op);
      } else {
        OtherMirrors(snapshot, view, canvas, |ops|, op);
      }
      MirrorsLater(Advance(snapshot, view, op, |ops|), Applied(canvas, op, |ops|), |ops|);
    }
  }

  /** Where all connections go, an accepted operation names at most the empty id, which is nobody's private id. */
  lemma {:induction false} AllNamesNothing(snapshot: Snapshot, view: View, canvas: Canvas, op: Op)
    requires op.DeleteConnections? && op.all && Problems(snapshot, view, op) == []
    ensures !HitsPrivate(canvas, op)
  {
    forall c | c in canvas.connections && c.Anonymous? ensures Ident(c) !in ConnectionTargets(op) {
      assert |Ident(c)| > 0;
    }
  }

  /** One accepted operation that diverges: the index no longer mirrors the canvas. */
  lemma {:induction false} StepParts(snapshot: Snapshot, ops: seq<Op>, view: View, canvas: Canvas, op: Op)
    requires Mirrors(view, canvas, |ops|) && TypesKnown(snapshot, ops, view, canvas)
    requires Problems(snapshot, view, op) == []
    requires ByType(op) ==> DistinctNodes(snapshot.nodes)
    requires Diverges(canvas, view.added, op, |ops|)
    ensures !Mirrors(Advance(snapshot, view, op, |ops|), Applied(canvas, op, |ops|), |ops| + 1)
  {
    hide AnonymousId, ConnectionKey;
    if op.DeleteNode? {
      TargetsPart(snapshot, ops, view, canvas, op);
    } else if op.DeleteConnections? {
      PrivateParts(snapshot, view, canvas, |ops|, op);
    } else {
      UnnamedParts(snapshot, view, canvas, |ops|, op);
    }
  }

  lemma {:induction false} TargetsPart(snapshot: Snapshot, ops: seq<Op>, view: View, canvas: Canvas, op: Op)
    requires view.liveNodes == canvas.nodes.Keys && TypesKnown(snapshot, ops, view, canvas)
    requires op.DeleteNode? && Problems(snapshot, view, op) == [] && DistinctNodes(snapshot.nodes)
    requires Diverges(canvas, view.added, op, |ops|)
    ensures Advance(snapshot, view, op, |ops|).liveNodes != Applied(canvas, op, |ops|).nodes.Keys
  {
    TargetsAgreeExactly(snapshot, ops, view, canvas, op);
    var kept := Advance(snapshot, view, op, |ops|).liveNodes;
    hide KeysOf, TypesKnown, NodesProblems, Incident;
    var targets := set id | id in DeleteTargets(snapshot.nodes, op);
    assert targets <= canvas.nodes.Keys && DeletedNodes(canvas, op) <= canvas.nodes.Keys;
    var id :| id in targets <==> id !in DeletedNodes(canvas, op);
    assert id in kept <==> id !in Applied(canvas, op, |ops|).nodes;
  }

  lemma {:induction false} PrivateParts(snapshot: Snapshot, view: View, canvas: Canvas, index: nat, op: Op)
    requires Mirrors(view, canvas, index) && op.DeleteConnections? && !op.all && HitsPrivate(canvas, op)
    ensures !LinksMirror(Advance(snapshot, view, op, index).live, Applied(canvas, op, index))
  {
    hide AnonymousId;
    var c :| c in canvas.connections && c.Anonymous? && Ident(c) in ConnectionTargets(op);
    assert c in Applied(canvas, op, index).connections;
    assert Ident(c) !in Advance(snapshot, view, op, index).live;
  }

  lemma {:induction false} UnnamedParts(snapshot: Snapshot, view: View, canvas: Canvas, index: nat, op: Op)
    requires Mirrors(view, canvas, index) && Unnamed(op) && Named(AnonymousId(index)) in canvas.connections
    ensures !IdsDistinguish(Applied(canvas, op, index), index + 1)
  {
    hide AnonymousId;
    var after := Applied(canvas, op, index);
    assert Named(AnonymousId(index)) in after.connections && Anonymous(index) in after.connections;
    assert Ident(Named(AnonymousId(index))) == Ident(Anonymous(index));
  }

  /** A safe operation keeps a proper canvas proper. */
  lemma {:induction false} SafeKeepsProper(canvas: Canvas, op: Op, index: nat)
    requires Proper(canvas) && Safe(canvas, op)
    ensures Proper(Applied(canvas, op, index))
  {
    var after := Applied(canvas, op, index);
    if op.ConnectNodes? {
      var c := if op.id.Some? then Named(op.id.value) else Anonymous(index);
      forall d, e | d in after.connections && e in after.connections && after.connections[d] == after.connections[e]
        ensures d == e
      {
        assert d != c ==> canvas.connections[d] in canvas.connections.Values;
        assert e != c ==> canvas.connections[e] in canvas.connections.Values;
      }
    }
  }

  // ---------------------------------------------------------------- whole lists

  lemma {:induction false} AcceptedPrefix(snapshot: Snapshot, ops: seq<Op>)
    requires ops != [] && Accepted(snapshot, ops)
    ensures Accepted(snapshot, ops[..|ops| - 1])
    ensures Problems(snapshot, ViewAfter(snapshot, ops[..|ops| - 1]), ops[|ops| - 1]) == []
  {
    hide Problems, Advance;
  }

  lemma {:induction false} TypesAfter(snapshot: Snapshot, ops: seq<Op>)
    requires Distinct(snapshot, []) && Accepted(snapshot, ops)
    ensures TypesKnown(snapshot, ops, ViewAfter(snapshot, ops), CanvasAfter(snapshot, ops))
    decreases |ops|
  {
    hide Problems, Advance, Applied, TypesKnown, Mirrors;
    if ops == [] {
      InitialMirrors(snapshot);
    } else {
      var n := |ops| - 1;
      AcceptedPrefix(snapshot, ops);
      TypesAfter(snapshot, ops[..n]);
      AdvanceTypes(snapshot, ops[..n], ViewAfter(snapshot, ops[..n]), CanvasAfter(snapshot, ops[..n]), ops[n]);
      assert ops[..n] + [ops[n]] == ops;
    }
  }

  predicate MirrorsAt(snapshot: Snapshot, ops: seq<Op>, i: nat)
    requires i <= |ops|
  {
    Mirrors(ViewAfter(snapshot, ops[..i]), CanvasAfter(snapshot, ops[..i]), i)
  }

  /** After every operation the validator's index equals what is live on the canvas. */
  predicate AlwaysMirrors(snapshot: Snapshot, ops: seq<Op>) {
    forall i :: 0 <= i <= |ops| ==> MirrorsAt(snapshot, ops, i)
  }

  predicate SafeAt(snapshot: Snapshot, ops: seq<Op>, i: nat)
    requires i < |ops|
  {
    Safe(CanvasAfter(snapshot, ops[..i]), ops[i])
  }

  predicate AlwaysSafe(snapshot: Snapshot, ops: seq<Op>) {
    forall i :: 0 <= i < |ops| ==> SafeAt(snapshot, ops, i)
  }

  /** What holds before an operation does not depend on the operations from it on. */
  lemma {:induction false} PrefixAt(snapshot: Snapshot, ops: seq<Op>, n: nat, i: nat)
    requires i <= n <= |ops|
    ensures MirrorsAt(snapshot, ops[..n], i) == MirrorsAt(snapshot, ops, i)
    ensures i < n ==> SafeAt(snapshot, ops[..n], i) == SafeAt(snapshot, ops, i)
    ensures i < n ==> DivergesAt(snapshot, ops[..n], i) == DivergesAt(snapshot, ops, i)
  {
    hide Mirrors, Safe, Diverges, ViewAfter, CanvasAfter;
    assert ops[..n][..i] == ops[..i];
  }

  lemma {:induction false} AlwaysPrefix(snapshot: Snapshot, ops: seq<Op>)
    requires ops != []
    ensures var n := |ops| - 1;
      && (AlwaysMirrors(snapshot, ops) <==> AlwaysMirrors(snapshot, ops[..n]) && MirrorsAt(snapshot, ops, |ops|))
      && (AlwaysSafe(snapshot, ops) <==> AlwaysSafe(snapshot, ops[..n]) && SafeAt(snapshot, ops, n))
      && (NeverDiverges(snapshot, ops) <==> NeverDiverges(snapshot, ops[..n]) && !DivergesAt(snapshot, ops, n))
  {
    hide MirrorsAt, SafeAt, DivergesAt;
    var n := |ops| - 1;
    forall i | 0 <= i <= n
      ensures MirrorsAt(snapshot, ops[..n], i) == MirrorsAt(snapshot, ops, i)
      ensures i < n ==> SafeAt(snapshot, ops[..n], i) == SafeAt(snapshot, ops, i)
      ensures i < n ==> DivergesAt(snapshot, ops[..n], i) == DivergesAt(snapshot, ops, i)
    {
      PrefixAt(snapshot, ops, n, i);
    }
  }

  lemma {:induction false} DistinctPrefix(snapshot: Snapshot, ops: seq<Op>)
    requires ops != [] && Distinct(snapshot, ops)
    ensures var n := |ops| - 1;
      Distinct(snapshot, ops[..n]) && (ByType(ops[n]) ==> DistinctNodes(snapshot.nodes))
  {
    hide ByType, DistinctNodes, DistinctConnections;
    assert ops[|ops| - 1] in ops;
  }

  /** Main result: the validator's index equals what is live on the canvas throughout an accepted list exactly
      when none of the three diverging operations occurs. Then the replay touches only nodes and connections that
      are there, makes no self-connection and no duplicate. */
  lemma {:induction false} MirrorsExactly(snapshot: Snapshot, ops: seq<Op>)
    requires Distinct(snapshot, ops) && Accepted(snapshot, ops)
    ensures AlwaysMirrors(snapshot, ops) <==> NeverDiverges(snapshot, ops)
    ensures NeverDiverges(snapshot, ops) ==> AlwaysSafe(snapshot, ops)
    decreases |ops|
  {
    hide Mirrors, Problems, Advance, Applied, Safe, TypesKnown, Diverges, DistinctNodes, Accepted;
    if ops == [] {
      InitialMirrors(snapshot);
    } else {
      var n := |ops| - 1;
      var front, op := ops[..n], ops[n];
      var view, canvas := ViewAfter(snapshot, front), CanvasAfter(snapshot, front);
      AcceptedPrefix(snapshot, ops);
      AlwaysPrefix(snapshot, ops);
      DistinctPrefix(snapshot, ops);
      MirrorsExactly(snapshot, front);
      TypesAfter(snapshot, front);
      if AlwaysMirrors(snapshot, front) {
        assert MirrorsAt(snapshot, front, n) && front[..n] == front && ops[..n + 1] == ops;
        if Diverges(canvas, view.added, op, n) {
          StepParts(snapshot, front, view, canvas, op);
        } else {
          StepMirrors(snapshot, front, view, canvas, op);
        }
      }
    }
  }

  /** Where the connections of a canvas come from. */
  lemma {:induction false} ConnectionsStem(snapshot: Snapshot, ops: seq<Op>)
    ensures forall c ::
        c in CanvasAfter(snapshot, ops).connections && c.Anonymous? ==> c.index < |ops| && Unnamed(ops[c.index])
    ensures forall c :: c in CanvasAfter(snapshot, ops).connections && c.Named? ==>
      || (exists d :: d in snapshot.connections && d.id == c.id)
      || (exists i :: 0 <= i < |ops| && ops[i].ConnectNodes? && ops[i].id == Some(c.id))
    decreases |ops|
  {
    if ops == [] {
      NamesStem(snapshot.connections);
    } else {
      var n := |ops| - 1;
      ConnectionsStem(snapshot, ops[..n]);
      forall c | c in CanvasAfter(snapshot, ops).connections && c.Named?
        ensures (exists d :: d in snapshot.connections && d.id == c.id)
             || (exists i :: 0 <= i < |ops| && ops[i].ConnectNodes? && ops[i].id == Some(c.id))
      {
        if c in CanvasAfter(snapshot, ops[..n]).connections {
          assert forall i :: 0 <= i < n ==> ops[..n][i] == ops[i];
        } else {
          assert ops[n].ConnectNodes? && ops[n].id == Some(c.id);
        }
      }
    }
  }

  lemma {:induction false} NamesStem(connections: seq<Connection>)
    ensures forall c :: c in ConnectionsOf(connections) ==> c.Named? && exists d :: d in connections && d.id == c.id
    decreases |connections|
  {
    if connections != [] {
      var n := |connections| - 1;
      NamesStem(connections[..n]);
      assert forall d :: d in connections <==> d in connections[..n] || d == connections[n];
    }
  }

  lemma {:induction false} SettledStep(snapshot: Snapshot, ops: seq<Op>, i: nat)
    requires i < |ops| && Distinct(snapshot, []) && Settled(snapshot, ops) && Accepted(snapshot, ops[..i])
    ensures !DivergesAt(snapshot, ops, i)
  {
    hide AnonymousId, Accepted, ViewAfter, CanvasAfter;
    TypesAfter(snapshot, ops[..i]);
    ConnectionsStem(snapshot, ops[..i]);
    assert forall k :: 0 <= k < i ==> ops[..i][k] == ops[k];
    var canvas, added := CanvasAfter(snapshot, ops[..i]), ViewAfter(snapshot, ops[..i]).added;
    if ByType(ops[i]) {
      forall id | id in canvas.nodes && id in added ensures canvas.nodes[id] != ops[i].nodeType.value {
        var o :| o in ops[..i] && AddsType(o, canvas.nodes[id]);
      }
    }
  }

  /** A list that keeps apart what the private ids and the deletions by type could confuse: replaying it touches
      nothing that is missing, and the index equals what is live. */
  lemma {:induction false} AcceptedReplays(snapshot: Snapshot, ops: seq<Op>)
    requires Distinct(snapshot, ops) && Settled(snapshot, ops) && Accepted(snapshot, ops)
    ensures NeverDiverges(snapshot, ops) && AlwaysSafe(snapshot, ops) && AlwaysMirrors(snapshot, ops)
  {
    hide Diverges, Settled, Accepted, AlwaysSafe, AlwaysMirrors, ViewAfter, CanvasAfter;
    forall i | 0 <= i < |ops| ensures !DivergesAt(snapshot, ops, i) {
      AcceptedUpTo(snapshot, ops, i);
      SettledStep(snapshot, ops, i);
    }
    MirrorsExactly(snapshot, ops);
  }

  lemma {:induction false} AcceptedUpTo(snapshot: Snapshot, ops: seq<Op>, i: nat)
    requires Accepted(snapshot, ops) && i <= |ops|
    ensures Accepted(snapshot, ops[..i])
    decreases |ops|
  {
    hide Accepted;
    if i == |ops| {
      assert ops[..i] == ops;
    } else {
      AcceptedPrefix(snapshot, ops);
      AcceptedUpTo(snapshot, ops[..|ops| - 1], i);
      assert ops[..|ops| - 1][..i] == ops[..i];
    }
  }

  /** If the snapshot's connections were proper, so are the canvas's after an accepted list that never diverges. */
  lemma {:induction false} AcceptedStaysProper(snapshot: Snapshot, ops: seq<Op>)
    requires Distinct(snapshot, ops) && NeverDiverges(snapshot, ops) && Accepted(snapshot, ops)
    requires Proper(CanvasOf(snapshot))
    ensures Proper(CanvasAfter(snapshot, ops))
    decreases |ops|
  {
    hide Problems, Advance, Applied, Safe, Proper, Diverges, Accepted, Distinct;
    if ops != [] {
      MirrorsExactly(snapshot, ops);
      AcceptedPrefix(snapshot, ops);
      AlwaysPrefix(snapshot, ops);
      DistinctPrefix(snapshot, ops);
      AcceptedStaysProper(snapshot, ops[..|ops| - 1]);
      SafeKeepsProper(CanvasAfter(snapshot, ops[..|ops| - 1]), ops[|ops| - 1], |ops| - 1);
    }
  }

  // ---------------------------------------------------------------- what else acceptance guarantees

  predicate Number(value: Coordinate) {
    !value.NotFinite?
  }

  predicate Length(value: Coordinate) {
    Number(value) && (value.Finite? ==> value.value > 0.0)
  }

  predicate Place(position: Position) {
    match position
    case NoPosition => true
    case NotAPosition => false
    case At(x, y) => Number(x) && Number(y)
  }

  /** The first node of the snapshot under an id, which is the one the validator looks at. */
  predicate FirstUnder(nodes: seq<Node>, i: nat, id: Option<string>)
    requires i < |nodes|
  {
    Some(nodes[i].id) == id && forall j :: 0 <= j < i ==> nodes[j].id != nodes[i].id
  }

  /** Numbers are numbers, sizes are positive, the zoom is in range, targets are listed once, a node keeps its
      identity, and a media node of the snapshot keeps its status and is generated in its own mode. */
  predicate Sensible(snapshot: Snapshot, op: Op) {
    match op
    case AddNode(_, nodeType, x, y, position, width, height) =>
      Number(x) && Number(y) && Place(position) && Length(width) && Length(height)
        && (nodeType.Some? ==> !nodeType.value.Other?)
    case UpdateNode(id, patch, metadataSetsStatus) =>
      && (patch.Some? ==>
            && Number(patch.value.x) && Number(patch.value.y) && Place(patch.value.position)
            && Length(patch.value.width) && Length(patch.value.height) && !patch.value.namesIdentity)
      && (metadataSetsStatus || (patch.Some? && patch.value.setsStatus) ==>
            forall i :: 0 <= i < |snapshot.nodes| && FirstUnder(snapshot.nodes, i, id) ==>
              snapshot.nodes[i].nodeType !in {Image, Video, Audio})
    case RunGeneration(id, mode) =>
      mode.Some? ==> forall i :: 0 <= i < |snapshot.nodes| && FirstUnder(snapshot.nodes, i, id) ==>
        var own := snapshot.nodes[i].nodeType;
        mode.value == own || (mode.value == Text && own == Script)
    case DeleteNode(_, ids, _) => ids.Some? ==> !Repeats(ids.value)
    case DeleteConnections(id, ids, all) =>
      && !Repeats(ConnectionTargets(op))
      && (all <==> !Truthy(id) && ids.GetOr([]) == [])
    case SetViewport(viewport) =>
      && viewport.Some? && Number(viewport.value.x) && Number(viewport.value.y) && Number(viewport.value.k)
      && (viewport.value.k.Finite? ==> 0.05 <= viewport.value.k.value <= 8.0)
    case Malformed => false
    case Unsupported => false
    case _ => true
  }

  lemma {:induction false} FindsTheFirst(nodes: seq<Node>, i: nat, id: Option<string>)
    requires i < |nodes| && FirstUnder(nodes, i, id)
    ensures FindNode(nodes, id) == Some(nodes[i])
    decreases |nodes|
  {
    if i > 0 {
      assert nodes[0].id != nodes[i].id;
      forall j | 0 <= j < i - 1 ensures nodes[1..][j].id != nodes[1..][i - 1].id {
        assert nodes[1..][j] == nodes[j + 1];
      }
      FindsTheFirst(nodes[1..], i - 1, id);
    }
  }

  lemma {:induction false} CheckedIsSensible(snapshot: Snapshot, view: View, op: Op)
    requires Problems(snapshot, view, op) == []
    ensures Sensible(snapshot, op)
  {
    forall i, id | 0 <= i < |snapshot.nodes| && FirstUnder(snapshot.nodes, i, id)
      ensures FindNode(snapshot.nodes, id) == Some(snapshot.nodes[i])
    {
      FindsTheFirst(snapshot.nodes, i, id);
    }
    hide FirstUnder, FindNode, NodeProblems, NodesProblems, UnknownConnections, ConnectionKey;
  }

  /** Every operation of an accepted list is sensible on its own. */
  lemma {:induction false} AcceptedIsSensible(snapshot: Snapshot, ops: seq<Op>)
    requires Accepted(snapshot, ops)
    ensures forall i :: 0 <= i < |ops| ==> Sensible(snapshot, ops[i])
    decreases |ops|
  {
    hide Problems, Advance, Sensible, Accepted;
    if ops != [] {
      var n := |ops| - 1;
      AcceptedPrefix(snapshot, ops);
      AcceptedIsSensible(snapshot, ops[..n]);
      CheckedIsSensible(snapshot, ViewAfter(snapshot, ops[..n]), ops[n]);
      forall i | 0 <= i < n ensures Sensible(snapshot, ops[i]) {
        assert ops[i] == ops[..n][i];
      }
    }
  }

  // ---------------------------------------------------------------- the conditions are needed

  lemma {:induction false} LastStep(snapshot: Snapshot, ops: seq<Op>, op: Op)
    ensures ViewAfter(snapshot, ops + [op]) == Advance(snapshot, ViewAfter(snapshot, ops), op, |ops|)
    ensures CanvasAfter(snapshot, ops + [op]) == Applied(CanvasAfter(snapshot, ops), op, |ops|)
    ensures Problems(snapshot, ViewAfter(snapshot, ops), op) == [] && Accepted(snapshot, ops) ==>
        Accepted(snapshot, ops + [op])
  {
    hide Advance, Applied, Problems;
    assert (ops + [op])[..|ops|] == ops;
  }

  const NEW_IMAGE: Op := AddNode(Some("new"), Some(Image), Absent, Absent, NoPosition, Absent, Absent)
  const DROP_IMAGES: Op := DeleteNode(None, None, Some(Image))
  const PICK_NEW: Op := SelectNodes(Some(["new"]))
  const ONE_IMAGE: Snapshot := Snapshot([Node("old", Image, 0.0, 0.0, 1.0, 1.0)], [])

  lemma {:induction false} AfterNewImage()
    ensures Accepted(ONE_IMAGE, [NEW_IMAGE]) && ViewAfter(ONE_IMAGE, [NEW_IMAGE]).liveNodes == {"old", "new"}
    ensures CanvasAfter(ONE_IMAGE, [NEW_IMAGE]).nodes == map["old" := Image, "new" := Image]
  {
    var s := ONE_IMAGE;
    assert [NEW_IMAGE] == [] + [NEW_IMAGE];
    assert "new"[0] != "old"[0];
    assert NodeIds(s.nodes) == {"old"};
    assert CanvasOf(s).nodes == map["old" := Image] by {
      assert s.nodes[..0] == [];
      assert NodesOf(s.nodes[..0]) == map[];
    }
    assert Problems(s, InitialView(s), NEW_IMAGE) == [];
    LastStep(s, [], NEW_IMAGE);
  }

  lemma {:induction false} OldImageFound()
    ensures DeleteTargets(ONE_IMAGE.nodes, DROP_IMAGES) == ["old"]
  {
    var nodes := ONE_IMAGE.nodes;
    assert nodes[..0] == [] && IdsOfType(nodes[..0], Image) == [];
  }

  lemma {:induction false} DropImagesChecked(view: View)
    requires view.liveNodes == {"old", "new"}
    ensures Problems(ONE_IMAGE, view, DROP_IMAGES) == []
    ensures Advance(ONE_IMAGE, view, DROP_IMAGES, 1).liveNodes == {"new"}
  {
    OldImageFound();
    hide IdsOfType, KeysOf, NodesProblems;
    assert (set id | id in ["old"]) == {"old"};
    OneNodeChecked(view.liveNodes, "old");
    assert "new"[0] != "old"[0];
  }

  lemma {:induction false} OneNodeChecked(liveNodes: set<string>, id: string)
    requires id in liveNodes && id != ""
    ensures NodesProblems(liveNodes, [id]) == []
  {
    assert [id][..0] == [] && NodesProblems(liveNodes, [id][..0]) == [];
  }

  lemma {:induction false} AfterDropImages()
    ensures Accepted(ONE_IMAGE, [NEW_IMAGE, DROP_IMAGES])
    ensures ViewAfter(ONE_IMAGE, [NEW_IMAGE, DROP_IMAGES]).liveNodes == {"new"}
    ensures CanvasAfter(ONE_IMAGE, [NEW_IMAGE, DROP_IMAGES]).nodes == map[]
  {
    hide ViewAfter, CanvasAfter, Accepted, Advance, Problems;
    AfterNewImage();
    assert [NEW_IMAGE, DROP_IMAGES] == [NEW_IMAGE] + [DROP_IMAGES];
    DropImagesChecked(ViewAfter(ONE_IMAGE, [NEW_IMAGE]));
    LastStep(ONE_IMAGE, [NEW_IMAGE], DROP_IMAGES);
  }

  lemma {:induction false} PickFromNothing(canvas: Canvas)
    requires canvas.nodes == map[]
    ensures !Safe(canvas, PICK_NEW)
  {
    assert "new" in PICK_NEW.ids.GetOr([]);
  }

  /** Deleting by type after adding a node of the type: accepted, though the new node is gone when it is selected. */
  lemma {:induction false} DeletionByTypeMisses()
    ensures Accepted(ONE_IMAGE, [NEW_IMAGE, DROP_IMAGES, PICK_NEW])
    ensures Distinct(ONE_IMAGE, [NEW_IMAGE, DROP_IMAGES, PICK_NEW])
    ensures !Safe(CanvasAfter(ONE_IMAGE, [NEW_IMAGE, DROP_IMAGES]), PICK_NEW)
  {
    hide ViewAfter, CanvasAfter, Accepted, Advance, NodesProblems, Safe;
    AfterDropImages();
    var two := [NEW_IMAGE, DROP_IMAGES];
    assert [NEW_IMAGE, DROP_IMAGES, PICK_NEW] == two + [PICK_NEW];
    OneNodeChecked(ViewAfter(ONE_IMAGE, two).liveNodes, "new");
    LastStep(ONE_IMAGE, two, PICK_NEW);
    PickFromNothing(CanvasAfter(ONE_IMAGE, two));
  }

  const TWO_TEXTS: Snapshot := Snapshot([Node("a", Text, 0.0, 0.0, 1.0, 1.0), Node("b", Text, 2.0, 0.0, 1.0, 1.0)], [])
  const JOIN: Op := ConnectNodes(None, Some("a"), Some("b"), None, None)
  const UNJOIN: Op := DeleteConnections(None, Some([AnonymousId(0)]), false)

  lemma {:induction false} AfterJoin()
    ensures Accepted(TWO_TEXTS, [JOIN]) && AnonymousId(0) in ViewAfter(TWO_TEXTS, [JOIN]).live
    ensures CanvasAfter(TWO_TEXTS, [JOIN]).connections.Keys == {Anonymous(0)}
  {
    var s := TWO_TEXTS;
    assert [JOIN] == [] + [JOIN];
    assert "a"[0] != "b"[0];
    assert s.nodes[0].id in NodeIds(s.nodes) && s.nodes[1].id in NodeIds(s.nodes);
    assert InitialView(s).keys == {};
    hide ConnectionKey, AnonymousId;
    assert Problems(s, InitialView(s), JOIN) == [];
    LastStep(s, [], JOIN);
  }

  lemma {:induction false} UnjoinChecked(view: View)
    requires AnonymousId(0) in view.live
    ensures Problems(TWO_TEXTS, view, UNJOIN) == []
  {
    var id := AnonymousId(0);
    hide AnonymousId, UnknownConnections;
    OneConnectionChecked(view.live, id);
    assert ConnectionTargets(UNJOIN) == [id];
  }

  lemma {:induction false} UnjoinUnsafe(canvas: Canvas)
    requires canvas.connections.Keys == {Anonymous(0)}
    ensures !Safe(canvas, UNJOIN)
  {
    hide AnonymousId;
    assert AnonymousId(0) in ConnectionTargets(UNJOIN);
  }

  /** Naming the validator's private id of a connection: accepted, though no connection has that id. */
  lemma {:induction false} PrivateIdMisses()
    ensures Accepted(TWO_TEXTS, [JOIN, UNJOIN])
    ensures Distinct(TWO_TEXTS, [JOIN, UNJOIN])
    ensures !Safe(CanvasAfter(TWO_TEXTS, [JOIN]), UNJOIN)
  {
    hide Accepted, ViewAfter, CanvasAfter, AnonymousId, Problems, Safe;
    AfterJoin();
    assert [JOIN, UNJOIN] == [JOIN] + [UNJOIN];
    UnjoinChecked(ViewAfter(TWO_TEXTS, [JOIN]));
    LastStep(TWO_TEXTS, [JOIN], UNJOIN);
    UnjoinUnsafe(CanvasAfter(TWO_TEXTS, [JOIN]));
    assert "a"[0] != "b"[0];
  }

  lemma {:induction false} OneConnectionChecked(live: map<string, Link>, id: string)
    requires id in live
    ensures UnknownConnections(live, [id]) == []
  {
    assert [id][..0] == [] && UnknownConnections(live, [id][..0]) == [];
  }

  const TAKEN: Snapshot := Snapshot(TWO_TEXTS.nodes, [Connection(AnonymousId(0), "b", "a", None, None)])

  lemma {:induction false} TakenChecked()
    ensures Problems(TAKEN, InitialView(TAKEN), JOIN) == []
  {
    hide AnonymousId, LiveConnections;
    var s, c := TAKEN, TAKEN.connections[0];
    assert s.nodes[0].id in NodeIds(s.nodes) && s.nodes[1].id in NodeIds(s.nodes);
    OtherWayRound();
    assert InitialView(s).keys == {KeyOf(c)};
    hide ConnectionKey;
  }

  lemma {:induction false} TakenAccepted()
    ensures Distinct(TAKEN, [JOIN]) && Accepted(TAKEN, [JOIN])
  {
    hide Problems, InitialView, AnonymousId;
    TakenChecked();
    assert [JOIN] == [] + [JOIN];
    LastStep(TAKEN, [], JOIN);
  }

  lemma {:induction false} TakenDiverges()
    ensures DivergesAt(TAKEN, [JOIN], 0)
  {
    hide AnonymousId;
    assert [JOIN][..0] == [];
    var connections := TAKEN.connections;
    assert connections[..0] == [] && ConnectionsOf(connections[..0]) == map[];
    assert Named(AnonymousId(0)) in ConnectionsOf(connections);
    assert Diverges(CanvasAfter(TAKEN, []), ViewAfter(TAKEN, []).added, JOIN, 0);
  }

  /** A connection of the snapshot that already bears the private id: accepted, and the index loses it. */
  lemma {:induction false} PrivateIdOverwritten()
    ensures Distinct(TAKEN, [JOIN]) && Accepted(TAKEN, [JOIN]) && !AlwaysMirrors(TAKEN, [JOIN])
  {
    hide DivergesAt, Accepted, Distinct, AlwaysMirrors;
    TakenAccepted();
    TakenDiverges();
    MirrorsExactly(TAKEN, [JOIN]);
  }

  lemma {:induction false} OtherWayRound()
    ensures ConnectionKey("a", "b", None, None) != ConnectionKey("b", "a", None, None) && "a" != "b"
  {
    assert ConnectionKey("a", "b", None, None)[0] == 'a';
    assert ConnectionKey("b", "a", None, None)[0] == 'b';
    assert "a"[0] != "b"[0];
  }
}
