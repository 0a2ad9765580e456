/** The rules of the canvas operation validator in canvas-agent/src/canvas-context.ts: for every problem it can report,
    exactly which operation it is reported of. */
module CanvasRules {
  import opened Wrappers
  import opened CanvasOps

  // ---------------------------------------------------------------- what each problem is about

  /** The coordinates an operation names, and the sizes. */
  function Coordinates(op: Op): seq<Coordinate> {
    match op
    case AddNode(_, _, x, y, position, _, _) => [x, y] + PositionCoordinates(position)
    case UpdateNode(_, patch, _) =>
      if patch.Some? then [patch.value.x, patch.value.y] + PositionCoordinates(patch.value.position) else []
    case SetViewport(viewport) =>
      if viewport.Some? then [viewport.value.x, viewport.value.y, viewport.value.k] else []
    case _ => []
  }

  function PositionCoordinates(position: Position): seq<Coordinate> {
    if position.At? then [position.x, position.y] else []
  }

  function Sizes(op: Op): seq<Coordinate> {
    match op
    case AddNode(_, _, _, _, _, width, height) => [width, height]
    case UpdateNode(_, patch, _) => if patch.Some? then [patch.value.width, patch.value.height] else []
    case _ => []
  }

  function PositionOf(op: Op): Position {
    match op
    case AddNode(_, _, _, _, position, _, _) => position
    case UpdateNode(_, patch, _) => if patch.Some? then patch.value.position else NoPosition
    case _ => NoPosition
  }

  /** The nodes an operation is about; a missing name counts as the empty one. */
  function Named(snapshot: Snapshot, op: Op): seq<string> {
    match op
    case UpdateNode(id, _, _) => [id.GetOr("")]
    case RunGeneration(id, _) => [id.GetOr("")]
    case ConnectNodes(_, fromNodeId, toNodeId, _, _) => [fromNodeId.GetOr(""), toNodeId.GetOr("")]
    case SelectNodes(ids) => ids.GetOr([])
    case DeleteNode(id, ids, nodeType) =>
      if ids.Some? then ids.value
      else if id.Some? then [id.value]
      else if nodeType.Some? then IdsOfType(snapshot.nodes, nodeType.value)
      else []
    case _ => []
  }

  /** The connections a deletion names. */
  function NamedLinks(op: Op): seq<string> {
    if !op.DeleteConnections? then []
    else if op.ids.Some? then op.ids.value
    else if op.id.Some? then [op.id.value]
    else []
  }

  /** The first node of the snapshot under this name. */
  ghost predicate First(nodes: seq<Node>, id: string, node: Node) {
    exists i :: 0 <= i < |nodes| && nodes[i] == node && node.id == id && forall j :: 0 <= j < i ==> nodes[j].id != id
  }

  predicate Media(nodeType: NodeType) {
    nodeType == Image || nodeType == Video || nodeType == Audio
  }

  predicate NotPositive(value: Coordinate) {
    value == NotFinite || (value.Finite? && value.value <= 0.0)
  }

  /** Neither a name nor a list of names with something in it. */
  predicate NothingListed(id: Option<string>, ids: Option<seq<string>>) {
    id.GetOr("") == "" && ids.GetOr([]) == []
  }

  ghost predicate SomeNotPositive(sizes: seq<Coordinate>) {
    exists size :: size in sizes && NotPositive(size)
  }

  ghost predicate SomeUnknown(liveNodes: set<string>, ids: seq<string>) {
    exists id :: id in ids && id != "" && id !in liveNodes
  }

  ghost predicate SomeGone(live: map<string, Link>, ids: seq<string>) {
    exists id :: id in ids && id !in live
  }

  /** Added before, or the name of a node of the snapshot. */
  ghost predicate Taken(snapshot: Snapshot, view: View, id: Option<string>) {
    id.Some? && (id.value in view.added || exists node :: node in snapshot.nodes && node.id == id.value)
  }

  ghost predicate MediaUnder(nodes: seq<Node>, id: Option<string>) {
    id.Some? && exists node :: First(nodes, id.value, node) && Media(node.nodeType)
  }

  /** A node of another type than the mode asks for; a script may be run as a text. */
  ghost predicate OtherUnder(nodes: seq<Node>, id: Option<string>, mode: NodeType) {
    id.Some? && exists node ::
        First(nodes, id.value, node) && mode != node.nodeType && !(mode == Text && node.nodeType == Script)
  }

  /** Whether the operation is to be blamed for the problem, given what is live before it. */
  ghost predicate Blamed(snapshot: Snapshot, view: View, op: Op, problem: Problem) {
    match problem
    case NotAnObject => op.Malformed?
    case UnsupportedType => op.Unsupported?
    case NodeTypeUnsupported => op.AddNode? && op.nodeType.Some? && op.nodeType.value.Other?
    case NumberNotFinite => NotFinite in Coordinates(op)
    case NumberNotPositive => SomeNotPositive(Sizes(op))
    case PositionInvalid => PositionOf(op) == NotAPosition
    case NodeIdTaken => op.AddNode? && Taken(snapshot, view, op.id)
    case NodeIdMissing => "" in Named(snapshot, op)
    case NodeUnknown => SomeUnknown(view.liveNodes, Named(snapshot, op))
    case IdentityPatched => op.UpdateNode? && op.patch.Some? && op.patch.value.namesIdentity
    case StatusPatched =>
      && op.UpdateNode? && (op.metadataSetsStatus || (op.patch.Some? && op.patch.value.setsStatus))
      && MediaUnder(snapshot.nodes, op.id)
    case ModeMismatch => op.RunGeneration? && op.mode.Some? && OtherUnder(snapshot.nodes, op.nodeId, op.mode.value)
    case NothingToDelete =>
      || (op.DeleteNode? && Named(snapshot, op) == [])
      || (op.DeleteConnections? && !op.all && NothingListed(op.id, op.ids))
    case TargetRepeated =>
      || (op.DeleteNode? && Twice(Named(snapshot, op)))
      || (op.DeleteConnections? && Twice(NamedLinks(op)))
    case SelfConnection => op.ConnectNodes? && op.fromNodeId == op.toNodeId
    case ConnectionIdTaken => op.ConnectNodes? && op.id.Some? && op.id.value in view.live
    case ConnectionExists =>
      op.ConnectNodes?
        && ConnectionKey(op.fromNodeId.GetOr(""), op.toNodeId.GetOr(""), op.fromHandleId, op.toHandleId) in view.keys
    case SelectionAmbiguous =>
      op.DeleteConnections? && op.all && !NothingListed(op.id, op.ids)
    case ConnectionUnknown => SomeGone(view.live, NamedLinks(op))
    case ViewportInvalid => op.SetViewport? && op.viewport.None?
    case ZoomOutOfRange =>
      op.SetViewport? && op.viewport.Some? && op.viewport.value.k.Finite?
        && !(0.05 <= op.viewport.value.k.value <= 8.0)
  }

  predicate Twice(ids: seq<string>) {
    !forall i, j :: 0 <= i < |ids| && 0 <= j < |ids| && ids[i] == ids[j] ==> i == j
  }

  // ---------------------------------------------------------------- lists of names

  lemma {:induction false} TwiceExactly(ids: seq<string>)
    ensures Twice(ids) <==> Repeats(ids)
  {
    if Twice(ids) {
      var i, j :| 0 <= i < |ids| && 0 <= j < |ids| && ids[i] == ids[j] && i != j;
      assert ids[if i < j then i else j] == ids[if i < j then j else i];
    }
  }

  lemma {:induction false} NodesBlamed(liveNodes: set<string>, ids: seq<string>, problem: Problem)
    ensures problem in NodesProblems(liveNodes, ids) <==>
      || (problem == NodeIdMissing && "" in ids)
      || (problem == NodeUnknown && SomeUnknown(liveNodes, ids))
    decreases |ids|
  {
    if ids != [] {
      var last := |ids| - 1;
      NodesBlamed(liveNodes, ids[..last], problem);
      assert forall id :: id in ids <==> id in ids[..last] || id == ids[last];
    }
  }

  lemma {:induction false} LinksBlamed(live: map<string, Link>, ids: seq<string>, problem: Problem)
    ensures problem in UnknownConnections(live, ids)
       <==> problem == ConnectionUnknown && SomeGone(live, ids)
    decreases |ids|
  {
    if ids != [] {
      var last := |ids| - 1;
      LinksBlamed(live, ids[..last], problem);
      assert forall id :: id in ids <==> id in ids[..last] || id == ids[last];
    }
  }

  lemma {:induction false} FoundFirst(nodes: seq<Node>, id: string)
    ensures match FindNode(nodes, Some(id))
      case Some(node) => First(nodes, id, node) && forall other :: First(nodes, id, other) ==> other == node
      case None => forall other :: !First(nodes, id, other)
    decreases |nodes|
  {
    if nodes != [] && nodes[0].id != id {
      FoundFirst(nodes[1..], id);
      forall other ensures First(nodes, id, other) <==> First(nodes[1..], id, other) {
        if First(nodes, id, other) {
          var i :| 0 <= i < |nodes| && nodes[i] == other && other.id == id && forall j ::
            0 <= j < i ==> nodes[j].id != id;
          assert nodes[1..][i - 1] == other;
          assert forall j :: 0 <= j < i - 1 ==> nodes[1..][j] == nodes[j + 1];
        }
        if First(nodes[1..], id, other) {
          var i :| 0 <= i < |nodes[1..]| && nodes[1..][i] == other && other.id == id
            && forall j :: 0 <= j < i ==> nodes[1..][j].id != id;
          assert nodes[i + 1] == other;
          assert forall j :: 1 <= j < i + 1 ==> nodes[j] == nodes[1..][j - 1];
        }
      }
    } else if nodes != [] {
      assert First(nodes, id, nodes[0]);
    }
  }

  lemma {:induction false} OfTypeExactly(nodes: seq<Node>, nodeType: NodeType, id: string)
    ensures id in IdsOfType(nodes, nodeType) <==> exists node ::
        node in nodes && node.nodeType == nodeType && node.id == id
    decreases |nodes|
  {
    if nodes != [] {
      var last := |nodes| - 1;
      OfTypeExactly(nodes[..last], nodeType, id);
      assert forall node :: node in nodes <==> node in nodes[..last] || node == nodes[last];
    }
  }

  // ---------------------------------------------------------------- the parts of the answer

  lemma {:induction false} NotFound(nodes: seq<Node>)
    ensures FindNode(nodes, None) == None
    decreases |nodes|
  {
    if nodes != [] {
      NotFound(nodes[1..]);
    }
  }

  lemma {:induction false} FiniteBlamed(value: Coordinate, problem: Problem)
    ensures problem in FiniteProblems(value) <==> problem == NumberNotFinite && value == NotFinite
  {
  }

  lemma {:induction false} PositiveBlamed(value: Coordinate, problem: Problem)
    ensures problem in PositiveProblems(value) <==> problem == NumberNotPositive && NotPositive(value)
  {
  }

  lemma {:induction false} IfBlamed(condition: bool, reported: Problem, problem: Problem)
    ensures problem in If(condition, reported) <==> condition && problem == reported
  {
  }

  lemma {:induction false} PositionBlamed(position: Position, problem: Problem)
    ensures problem in PositionProblems(position) <==>
      || (problem == PositionInvalid && position == NotAPosition)
      || (problem == NumberNotFinite && NotFinite in PositionCoordinates(position))
  {
    if position.At? {
      FiniteBlamed(position.x, problem);
      FiniteBlamed(position.y, problem);
      assert forall c :: c in [position.x, position.y] <==> c == position.x || c == position.y;
    }
  }

  lemma {:induction false} SizesBlamed(width: Coordinate, height: Coordinate)
    ensures SomeNotPositive([width, height]) <==> NotPositive(width) || NotPositive(height)
  {
    assert width in [width, height] && height in [width, height];
  }

  /** The numbers of an operation: coordinates, position and sizes. */
  lemma {:induction false} NumbersBlamed(x: Coordinate, y: Coordinate, position: Position, width: Coordinate,
      height: Coordinate, problem: Problem)
    ensures problem in FiniteProblems(x) + FiniteProblems(y) + PositionProblems(position) + PositiveProblems(width)
                         + PositiveProblems(height)
       <==> || (problem == NumberNotFinite && NotFinite in [x, y] + PositionCoordinates(position))
            || (problem == PositionInvalid && position == NotAPosition)
            || (problem == NumberNotPositive && SomeNotPositive([width, height]))
  {
    FiniteBlamed(x, problem);
    FiniteBlamed(y, problem);
    PositionBlamed(position, problem);
    PositiveBlamed(width, problem);
    PositiveBlamed(height, problem);
    SizesBlamed(width, height);
    assert NotFinite in [x, y] + PositionCoordinates(position)
      <==> x == NotFinite || y == NotFinite || NotFinite in PositionCoordinates(position);
    hide FiniteProblems, PositionProblems, PositiveProblems, SomeNotPositive, NotPositive, PositionCoordinates;
  }

  lemma {:induction false} Fourth(a: seq<Problem>, b: seq<Problem>, c: seq<Problem>, d: seq<Problem>, e: seq<Problem>,
      f: seq<Problem>)
    ensures a + b + c + d + e + f == a + (b + c + d + e + f)
  {
  }

  lemma {:induction false} PatchNumbers(p: Patch)
    ensures PatchProblems(Some(p)) == If(p.namesIdentity, IdentityPatched)
      + (FiniteProblems(p.x) + FiniteProblems(p.y) + PositionProblems(p.position) + PositiveProblems(p.width)
         + PositiveProblems(p.height))
  {
    Fourth(If(p.namesIdentity, IdentityPatched), FiniteProblems(p.x), FiniteProblems(p.y),
           PositionProblems(p.position), PositiveProblems(p.width), PositiveProblems(p.height));
    hide FiniteProblems, PositionProblems, PositiveProblems, If;
  }

  ghost predicate InPatch(p: Patch, problem: Problem) {
    || (problem == IdentityPatched && p.namesIdentity)
    || (problem == NumberNotFinite && NotFinite in [p.x, p.y] + PositionCoordinates(p.position))
    || (problem == PositionInvalid && p.position == NotAPosition)
    || (problem == NumberNotPositive && SomeNotPositive([p.width, p.height]))
  }

  lemma {:induction false} PatchPartBlamed(p: Patch, problem: Problem)
    ensures problem in PatchProblems(Some(p)) <==> InPatch(p, problem)
  {
    assert InPatch(p, problem) <==>
        || (problem == IdentityPatched && p.namesIdentity)
        || (problem == NumberNotFinite && NotFinite in [p.x, p.y] + PositionCoordinates(p.position))
        || (problem == PositionInvalid && p.position == NotAPosition)
        || (problem == NumberNotPositive && SomeNotPositive([p.width, p.height])) by {
      hide SomeNotPositive, PositionCoordinates;
    }
    hide *;
    PatchNumbers(p);
    NumbersBlamed(p.x, p.y, p.position, p.width, p.height, problem);
    IfBlamed(p.namesIdentity, IdentityPatched, problem);
  }

  lemma {:induction false} NoPatch()
    ensures PatchProblems(None) == []
  {
  }

  /** The first node under the patched name is a picture, a video or a sound. */
  lemma {:induction false} MediaExactly(nodes: seq<Node>, id: Option<string>)
    ensures IsMedia(FindNode(nodes, id)) <==> MediaUnder(nodes, id)
  {
    if id.Some? {
      FoundFirst(nodes, id.value);
    } else {
      NotFound(nodes);
    }
    hide FindNode, First;
  }

  lemma {:induction false} ModeExactly(nodes: seq<Node>, id: Option<string>, mode: NodeType)
    ensures OtherUnder(nodes, id, mode) <==>
      var node := FindNode(nodes, id);
      node.Some? && mode != node.value.nodeType && !(mode == Text && node.value.nodeType == Script)
  {
    if id.Some? {
      FoundFirst(nodes, id.value);
    } else {
      NotFound(nodes);
    }
    hide FindNode, First;
  }

  lemma {:induction false} OneNode(liveNodes: set<string>, id: Option<string>, problem: Problem)
    ensures problem in NodeProblems(liveNodes, id) <==>
      || (problem == NodeIdMissing && "" in [id.GetOr("")])
      || (problem == NodeUnknown && SomeUnknown(liveNodes, [id.GetOr("")]))
  {
    assert id.GetOr("") in [id.GetOr("")];
  }

  lemma {:induction false} TwoNodes(liveNodes: set<string>, a: string, b: string)
    ensures "" in [a, b] <==> "" in [a] || "" in [b]
    ensures SomeUnknown(liveNodes, [a, b]) <==> SomeUnknown(liveNodes, [a]) || SomeUnknown(liveNodes, [b])
  {
    assert a in [a, b] && b in [a, b] && a in [a] && b in [b];
  }

  lemma {:induction false} NothingThere(liveNodes: set<string>, live: map<string, Link>)
    ensures NotFinite !in [] && "" !in [] && !SomeNotPositive([]) && !SomeUnknown(liveNodes, []) && !SomeGone(live, [])
    ensures !Twice([])
  {
  }

  // ---------------------------------------------------------------- one operation

  lemma {:induction false} AddBlamed(snapshot: Snapshot, view: View, op: Op, problem: Problem)
    requires op.AddNode?
    ensures problem in Problems(snapshot, view, op) <==> Blamed(snapshot, view, op, problem)
  {
    hide *;
    AddReported(snapshot, view, op, problem);
    AddMeaning(snapshot, view, op, problem);
  }

  lemma {:induction false} AddReported(snapshot: Snapshot, view: View, op: Op, problem: Problem)
    requires op.AddNode?
    ensures problem in Problems(snapshot, view, op) <==>
        || (problem == NodeTypeUnsupported && op.nodeType.Some? && op.nodeType.value.Other?)
        || (problem == NumberNotFinite && NotFinite in [op.x, op.y] + PositionCoordinates(op.position))
        || (problem == PositionInvalid && op.position == NotAPosition)
        || (problem == NumberNotPositive && SomeNotPositive([op.width, op.height]))
        || (problem == NodeIdTaken && Taken(snapshot, view, op.id))
  {
    var unsupported := op.nodeType.Some? && op.nodeType.value.Other?;
    var taken := op.id.Some? && (op.id.value in NodeIds(snapshot.nodes) || op.id.value in view.added);
    AddParts(snapshot, view, op);
    hide *;
    NumbersBlamed(op.x, op.y, op.position, op.width, op.height, problem);
    IfBlamed(unsupported, NodeTypeUnsupported, problem);
    IfBlamed(taken, NodeIdTaken, problem);
    IdTaken(snapshot, view, op.id);
  }

  lemma {:induction false} AddParts(snapshot: Snapshot, view: View, op: Op)
    requires op.AddNode?
    ensures Problems(snapshot, view, op) ==
      If(op.nodeType.Some? && op.nodeType.value.Other?, NodeTypeUnsupported)
      + (FiniteProblems(op.x) + FiniteProblems(op.y) + PositionProblems(op.position) + PositiveProblems(op.width)
         + PositiveProblems(op.height))
      + If(op.id.Some? && (op.id.value in NodeIds(snapshot.nodes) || op.id.value in view.added), NodeIdTaken)
  {
    hide FiniteProblems, PositionProblems, PositiveProblems, If, NodeIds;
    Fourth(If(op.nodeType.Some? && op.nodeType.value.Other?, NodeTypeUnsupported), FiniteProblems(op.x),
      FiniteProblems(op.y), PositionProblems(op.position), PositiveProblems(op.width), PositiveProblems(op.height));
  }

  lemma {:induction false} AddMeaning(snapshot: Snapshot, view: View, op: Op, problem: Problem)
    requires op.AddNode?
    ensures Blamed(snapshot, view, op, problem) <==>
        || (problem == NodeTypeUnsupported && op.nodeType.Some? && op.nodeType.value.Other?)
        || (problem == NumberNotFinite && NotFinite in [op.x, op.y] + PositionCoordinates(op.position))
        || (problem == PositionInvalid && op.position == NotAPosition)
        || (problem == NumberNotPositive && SomeNotPositive([op.width, op.height]))
        || (problem == NodeIdTaken && Taken(snapshot, view, op.id))
  {
    hide SomeNotPositive, PositionCoordinates, SomeUnknown, SomeGone, Twice, Taken;
    NothingThere(view.liveNodes, view.live);
  }

  lemma {:induction false} IdTaken(snapshot: Snapshot, view: View, id: Option<string>)
    ensures Taken(snapshot, view, id)
       <==> id.Some? && (id.value in NodeIds(snapshot.nodes) || id.value in view.added)
  {
  }

  lemma {:induction false} PatchBlamed(snapshot: Snapshot, view: View, op: Op, problem: Problem)
    requires op.UpdateNode?
    ensures problem in Problems(snapshot, view, op) <==> Blamed(snapshot, view, op, problem)
  {
    hide *;
    PatchReported(snapshot, view, op, problem);
    PatchMeaning(snapshot, view, op, problem);
    if op.patch.Some? {
      PatchPartBlamed(op.patch.value, problem);
    } else {
      NoPatch();
    }
  }

  lemma {:induction false} PatchReported(snapshot: Snapshot, view: View, op: Op, problem: Problem)
    requires op.UpdateNode?
    ensures problem in Problems(snapshot, view, op) <==>
        || (problem == NodeIdMissing && "" in [op.id.GetOr("")])
        || (problem == NodeUnknown && SomeUnknown(view.liveNodes, [op.id.GetOr("")]))
        || problem in PatchProblems(op.patch)
        || (problem == StatusPatched && MediaUnder(snapshot.nodes, op.id)
            && (op.metadataSetsStatus || (op.patch.Some? && op.patch.value.setsStatus)))
  {
    var patched :=
      IsMedia(FindNode(snapshot.nodes, op.id))
      && (op.metadataSetsStatus || (op.patch.Some? && op.patch.value.setsStatus));
    assert Problems(snapshot, view, op)
        == NodeProblems(view.liveNodes, op.id) + PatchProblems(op.patch) + If(patched, StatusPatched) by {
      hide FindNode, PatchProblems, NodeProblems, If, IsMedia;
    }
    hide *;
    OneNode(view.liveNodes, op.id, problem);
    MediaExactly(snapshot.nodes, op.id);
    IfBlamed(patched, StatusPatched, problem);
  }

  lemma {:induction false} PatchMeaning(snapshot: Snapshot, view: View, op: Op, problem: Problem)
    requires op.UpdateNode?
    ensures Blamed(snapshot, view, op, problem) <==>
        || (problem == NodeIdMissing && "" in [op.id.GetOr("")])
        || (problem == NodeUnknown && SomeUnknown(view.liveNodes, [op.id.GetOr("")]))
        || (op.patch.Some? && InPatch(op.patch.value, problem))
        || (problem == StatusPatched && MediaUnder(snapshot.nodes, op.id)
            && (op.metadataSetsStatus || (op.patch.Some? && op.patch.value.setsStatus)))
  {
    hide SomeNotPositive, PositionCoordinates, SomeUnknown, SomeGone, Twice, MediaUnder;
    NothingThere(view.liveNodes, view.live);
  }

  lemma {:induction false} RunBlamed(snapshot: Snapshot, view: View, op: Op, problem: Problem)
    requires op.RunGeneration?
    ensures problem in Problems(snapshot, view, op) <==> Blamed(snapshot, view, op, problem)
  {
    hide *;
    RunReported(snapshot, view, op, problem);
    RunMeaning(snapshot, view, op, problem);
  }

  lemma {:induction false} RunReported(snapshot: Snapshot, view: View, op: Op, problem: Problem)
    requires op.RunGeneration?
    ensures problem in Problems(snapshot, view, op) <==>
        || (problem == NodeIdMissing && "" in [op.nodeId.GetOr("")])
        || (problem == NodeUnknown && SomeUnknown(view.liveNodes, [op.nodeId.GetOr("")]))
        || (problem == ModeMismatch && op.mode.Some? && OtherUnder(snapshot.nodes, op.nodeId, op.mode.value))
  {
    var node := FindNode(snapshot.nodes, op.nodeId);
    var mismatch := op.mode.Some? && node.Some? && op.mode.value != node.value.nodeType
      && !(op.mode.value == Text && node.value.nodeType == Script);
    assert Problems(snapshot, view, op) == NodeProblems(view.liveNodes, op.nodeId) + If(mismatch, ModeMismatch) by {
      hide FindNode, NodeProblems, If;
    }
    hide *;
    OneNode(view.liveNodes, op.nodeId, problem);
    IfBlamed(mismatch, ModeMismatch, problem);
    if op.mode.Some? {
      ModeExactly(snapshot.nodes, op.nodeId, op.mode.value);
    }
  }

  lemma {:induction false} RunMeaning(snapshot: Snapshot, view: View, op: Op, problem: Problem)
    requires op.RunGeneration?
    ensures Blamed(snapshot, view, op, problem) <==>
        || (problem == NodeIdMissing && "" in [op.nodeId.GetOr("")])
        || (problem == NodeUnknown && SomeUnknown(view.liveNodes, [op.nodeId.GetOr("")]))
        || (problem == ModeMismatch && op.mode.Some? && OtherUnder(snapshot.nodes, op.nodeId, op.mode.value))
  {
    hide OtherUnder, SomeNotPositive, SomeUnknown, SomeGone, Twice;
    NothingThere(view.liveNodes, view.live);
  }

  lemma {:induction false} ConnectBlamed(snapshot: Snapshot, view: View, op: Op, problem: Problem)
    requires op.ConnectNodes?
    ensures problem in Problems(snapshot, view, op) <==> Blamed(snapshot, view, op, problem)
  {
    hide NodeProblems, ConnectionKey, If, SomeNotPositive, SomeUnknown, SomeGone, Twice, Repeats;
    NothingThere(view.liveNodes, view.live);
    OneNode(view.liveNodes, op.fromNodeId, problem);
    OneNode(view.liveNodes, op.toNodeId, problem);
    TwoNodes(view.liveNodes, op.fromNodeId.GetOr(""), op.toNodeId.GetOr(""));
    IfBlamed(op.fromNodeId == op.toNodeId, SelfConnection, problem);
    IfBlamed(op.id.Some? && op.id.value in view.live, ConnectionIdTaken, problem);
    IfBlamed(ConnectionKey(op.fromNodeId.GetOr(""), op.toNodeId.GetOr(""), op.fromHandleId, op.toHandleId) in view.keys,
      ConnectionExists, problem);
  }

  lemma {:induction false} DeleteNodeBlamed(snapshot: Snapshot, view: View, op: Op, problem: Problem)
    requires op.DeleteNode? || op.SelectNodes?
    ensures problem in Problems(snapshot, view, op) <==> Blamed(snapshot, view, op, problem)
  {
    hide NodesProblems, Repeats, Twice, IdsOfType, If, SomeNotPositive, SomeUnknown, SomeGone;
    var ids := Named(snapshot, op);
    NothingThere(view.liveNodes, view.live);
    NodesBlamed(view.liveNodes, ids, problem);
    TwiceExactly(ids);
    IfBlamed(ids == [], NothingToDelete, problem);
    IfBlamed(Repeats(ids), TargetRepeated, problem);
  }

  lemma {:induction false} DeleteLinksBlamed(snapshot: Snapshot, view: View, op: Op, problem: Problem)
    requires op.DeleteConnections?
    ensures problem in Problems(snapshot, view, op) <==> Blamed(snapshot, view, op, problem)
  {
    hide *;
    DeleteLinksReported(snapshot, view, op, problem);
    DeleteLinksMeaning(snapshot, view, op, problem);
  }

  lemma {:induction false} DeleteLinksReported(snapshot: Snapshot, view: View, op: Op, problem: Problem)
    requires op.DeleteConnections?
    ensures problem in Problems(snapshot, view, op) <==>
        || (problem == SelectionAmbiguous && op.all && !NothingListed(op.id, op.ids))
        || (problem == NothingToDelete && !op.all && NothingListed(op.id, op.ids))
        || (problem == TargetRepeated && Twice(NamedLinks(op)))
        || (problem == ConnectionUnknown && SomeGone(view.live, NamedLinks(op)))
  {
    hide UnknownConnections, Repeats, Twice, If, SomeGone;
    var ids := NamedLinks(op);
    var listed := op.ids.Some? && op.ids.value != [];
    LinksBlamed(view.live, ids, problem);
    TwiceExactly(ids);
    IfBlamed(Repeats(ids), TargetRepeated, problem);
    IfBlamed(op.all && (Truthy(op.id) || listed), SelectionAmbiguous, problem);
    IfBlamed(!op.all && !Truthy(op.id) && !listed, NothingToDelete, problem);
  }

  lemma {:induction false} DeleteLinksMeaning(snapshot: Snapshot, view: View, op: Op, problem: Problem)
    requires op.DeleteConnections?
    ensures Blamed(snapshot, view, op, problem) <==>
        || (problem == SelectionAmbiguous && op.all && !NothingListed(op.id, op.ids))
        || (problem == NothingToDelete && !op.all && NothingListed(op.id, op.ids))
        || (problem == TargetRepeated && Twice(NamedLinks(op)))
        || (problem == ConnectionUnknown && SomeGone(view.live, NamedLinks(op)))
  {
    hide Twice, SomeGone, NothingListed, NamedLinks, SomeNotPositive, SomeUnknown;
    NothingThere(view.liveNodes, view.live);
  }

  lemma {:induction false} ViewportBlamed(snapshot: Snapshot, view: View, op: Op, problem: Problem)
    requires op.SetViewport? || op.Malformed? || op.Unsupported?
    ensures problem in Problems(snapshot, view, op) <==> Blamed(snapshot, view, op, problem)
  {
    hide FiniteProblems, If, SomeNotPositive, SomeUnknown, SomeGone, Twice, Repeats;
    NothingThere(view.liveNodes, view.live);
    if op.SetViewport? && op.viewport.Some? {
      var v := op.viewport.value;
      FiniteBlamed(v.x, problem);
      FiniteBlamed(v.y, problem);
      FiniteBlamed(v.k, problem);
      IfBlamed(v.k.Finite? && (v.k.value < 0.05 || v.k.value > 8.0), ZoomOutOfRange, problem);
      assert NotFinite in [v.x, v.y, v.k] <==> v.x == NotFinite || v.y == NotFinite || v.k == NotFinite;
    }
  }

  /** Main result on one operation: a problem is reported exactly where the operation is to be blamed for it. */
  lemma {:induction false} ReportedExactly(snapshot: Snapshot, view: View, op: Op, problem: Problem)
    ensures problem in Problems(snapshot, view, op) <==> Blamed(snapshot, view, op, problem)
  {
    hide Problems, Blamed;
    match op {
      case UpdateNode(_, _, _) => PatchBlamed(snapshot, view, op, problem);
      case RunGeneration(_, _) => RunBlamed(snapshot, view, op, problem);
      case ConnectNodes(_, _, _, _, _) => ConnectBlamed(snapshot, view, op, problem);
      case DeleteNode(_, _, _) => DeleteNodeBlamed(snapshot, view, op, problem);
      case SelectNodes(_) => DeleteNodeBlamed(snapshot, view, op, problem);
      case DeleteConnections(_, _, _) => DeleteLinksBlamed(snapshot, view, op, problem);
      case AddNode(_, _, _, _, _, _, _) => AddBlamed(snapshot, view, op, problem);
      case _ => ViewportBlamed(snapshot, view, op, problem);
    }
  }

  // ---------------------------------------------------------------- whole lists

  lemma {:induction false} PlacedProblems(problems: seq<Problem>, index: nat, issue: Issue)
    ensures issue in At0(problems, index) <==> issue.index == index && issue.problem in problems
    decreases |problems|
  {
    if problems != [] {
      var last := |problems| - 1;
      PlacedProblems(problems[..last], index, issue);
      assert forall p :: p in problems <==> p in problems[..last] || p == problems[last];
    }
  }

  /** Over a whole list: an issue is reported exactly where its operation is to be blamed, given what the operations
      before it left; and a list passes exactly if none is. */
  lemma {:induction false} IssuesExactly(snapshot: Snapshot, ops: seq<Op>, issue: Issue)
    ensures issue in IssuesOf(snapshot, ops) <==>
      issue.index < |ops| && Blamed(snapshot, ViewAfter(snapshot, ops[..issue.index]), ops[issue.index], issue.problem)
    decreases |ops|
  {
    hide Problems, Blamed, ViewAfter;
    if ops != [] {
      var last := |ops| - 1;
      IssuesExactly(snapshot, ops[..last], issue);
      PlacedProblems(Problems(snapshot, ViewAfter(snapshot, ops[..last]), ops[last]), last, issue);
      ReportedExactly(snapshot, ViewAfter(snapshot, ops[..last]), ops[last], issue.problem);
      if issue.index < last {
        assert ops[..last][..issue.index] == ops[..issue.index];
      }
    }
  }

  lemma {:induction false} AcceptedExactly(snapshot: Snapshot, ops: seq<Op>)
    ensures Accepted(snapshot, ops) <==>
      forall i: nat, problem :: i < |ops| ==> !Blamed(snapshot, ViewAfter(snapshot, ops[..i]), ops[i], problem)
  {
    hide Blamed, ViewAfter, IssuesOf;
    forall i: nat, problem | i < |ops|
      ensures Blamed(snapshot, ViewAfter(snapshot, ops[..i]), ops[i], problem)
          <==> Issue(i, problem) in IssuesOf(snapshot, ops)
    {
      IssuesExactly(snapshot, ops, Issue(i, problem));
    }
    if !Accepted(snapshot, ops) {
      var issue := IssuesOf(snapshot, ops)[0];
      IssuesExactly(snapshot, ops, issue);
      assert Blamed(snapshot, ViewAfter(snapshot, ops[..issue.index]), ops[issue.index], issue.problem);
    }
  }
}
