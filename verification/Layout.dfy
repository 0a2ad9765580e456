/** Where the workflow generator puts its nodes. */
module Layout {
  import opened Wrappers
  import opened CanvasOps
  import opened Workflow

  datatype Rectangle = Rectangle(x: real, y: real, width: real, height: real)

  predicate IsAddAt(op: Op) {
    op.AddNode? && op.position.At? && op.position.x.Finite? && op.position.y.Finite? && op.width.Finite?
      && op.height.Finite?
  }

  function RectangleOf(op: Op): Rectangle
    requires IsAddAt(op)
  {
    Rectangle(op.position.x.value, op.position.y.value, op.width.value, op.height.value)
  }

  function Place(node: Node): Rectangle {
    Rectangle(node.x, node.y, node.width, node.height)
  }

  predicate Overlap(a: Rectangle, b: Rectangle) {
    a.x < b.x + b.width && b.x < a.x + a.width && a.y < b.y + b.height && b.y < a.y + a.height
  }

  /** `b` lies at least `distance` beyond `a` along the layout axis, and both start on the same line across it. */
  predicate Beyond(a: Rectangle, b: Rectangle, vertical: bool, distance: real) {
    if vertical then b.y >= a.y + a.height + distance && b.x == a.x
    else b.x >= a.x + a.width + distance && b.y == a.y
  }

  function DraftPlace(request: Request, existing: seq<Node>, i: nat): Rectangle
    requires i < |request.nodes|
  {
    var at, size := CursorAt(request, existing, i), WorkflowNodeSize(request.nodes[i]);
    Rectangle(at.x, at.y, size.width, size.height)
  }

  lemma {:induction false} CursorMovesOn(request: Request, existing: seq<Node>, i: nat, j: nat)
    requires i < j < |request.nodes|
    ensures Beyond(DraftPlace(request, existing, i), DraftPlace(request, existing, j), request.vertical, GapOf(request))
    decreases j
  {
    CursorAcross(request, existing, i);
    CursorAcross(request, existing, j);
    if i < j - 1 {
      CursorMovesOn(request, existing, i, j - 1);
      assert GapOf(request) >= 48.0;
    }
  }

  /** Across the axis the cursor never leaves the start. */
  lemma {:induction false} CursorAcross(request: Request, existing: seq<Node>, i: nat)
    requires i <= |request.nodes|
    ensures request.vertical ==> CursorAt(request, existing, i).x == StartOf(request, existing).x
    ensures !request.vertical ==> CursorAt(request, existing, i).y == StartOf(request, existing).y
  {
  }

  lemma {:induction false} CursorNotBefore(request: Request, existing: seq<Node>, i: nat)
    requires i <= |request.nodes|
    ensures CursorAt(request, existing, i).x >= StartOf(request, existing).x
    decreases i
  {
    if i > 0 {
      CursorNotBefore(request, existing, i - 1);
      assert GapOf(request) >= 48.0;
    }
  }

  lemma {:induction false} AddOpsAt(request: Request, existing: seq<Node>, ids: seq<string>, n: nat, i: nat)
    requires i < n <= |request.nodes| == |ids|
    ensures |AddOps(request, existing, ids, n)| == n
    ensures AddOps(request, existing, ids, n)[i] == AddOp(request, existing, ids, i)
    decreases n
  {
    hide AddOp;
    if n > 1 {
      AddOpsAt(request, existing, ids, n - 1, if i < n - 1 then i else 0);
    }
  }

  lemma {:induction false} GeneratedAt(request: Request, existing: seq<Node>, ids: seq<string>, i: nat)
    requires i < |request.nodes| == |ids| && Generated(request, existing, ids).Ok?
    ensures var ops := Generated(request, existing, ids).value;
      i < |ops| && IsAddAt(ops[i]) && RectangleOf(ops[i]) == DraftPlace(request, existing, i)
        && ops[i].id == Some(ids[i])
  {
    hide CursorAt, WorkflowNodeType, AllLinks, RunOps;
    AddOpsAt(request, existing, ids, |ids|, i);
  }

  /** Main result: one node per draft, in order, each at least 48 beyond the one before along the layout axis. */
  lemma {:induction false} GeneratedSeparated(request: Request, existing: seq<Node>, ids: seq<string>, i: nat, j: nat)
    requires i < j < |request.nodes| == |ids| && Generated(request, existing, ids).Ok?
    ensures var ops := Generated(request, existing, ids).value;
      && j < |ops| && IsAddAt(ops[i]) && IsAddAt(ops[j])
      && Beyond(RectangleOf(ops[i]), RectangleOf(ops[j]), request.vertical, 48.0)
      && !Overlap(RectangleOf(ops[i]), RectangleOf(ops[j]))
  {
    hide Generated, CursorAt;
    GeneratedAt(request, existing, ids, i);
    GeneratedAt(request, existing, ids, j);
    CursorMovesOn(request, existing, i, j);
    assert GapOf(request) >= 48.0;
  }

  lemma {:induction false} RightEdgeBounds(nodes: seq<Node>, node: Node)
    requires node in nodes
    ensures node.x + node.width <= RightEdge(nodes)
    decreases |nodes|
  {
    if node != nodes[|nodes| - 1] {
      assert node in nodes[..|nodes| - 1];
      RightEdgeBounds(nodes[..|nodes| - 1], node);
    }
  }

  /** With no start of its own the workflow lies to the right of every node that is already there. */
  lemma {:induction false} GeneratedClearsExisting(request: Request, existing: seq<Node>, ids: seq<string>, i: nat,
      node: Node)
    requires i < |request.nodes| == |ids| && Generated(request, existing, ids).Ok?
    requires request.start.None? && node in existing
    ensures var ops := Generated(request, existing, ids).value;
      && i < |ops| && IsAddAt(ops[i])
      && RectangleOf(ops[i]).x >= node.x + node.width + 160.0
      && !Overlap(RectangleOf(ops[i]), Place(node))
  {
    hide Generated, CursorAt;
    GeneratedAt(request, existing, ids, i);
    CursorNotBefore(request, existing, i);
    RightEdgeBounds(existing, node);
  }
}
