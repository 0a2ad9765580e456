/** What is in a list that the workflow generator of canvas-agent/src/canvas-session.ts puts out: the nodes and their
    places, the connections, what is selected, and what is run. */
module WorkflowContents {
  import opened Wrappers
  import opened CanvasOps
  import opened Workflow
  import opened WorkflowProofs
  import opened WorkflowShape
  import opened Layout

  // ---------------------------------------------------------------- the order of the list

  /** Nodes first, then connections, then the selection, then the runs. */
  function Rank(op: Op): nat {
    match op
    case AddNode(_, _, _, _, _, _, _) => 0
    case ConnectNodes(_, _, _, _, _) => 1
    case SelectNodes(_) => 2
    case RunGeneration(_, _) => 3
    case _ => 4
  }

  ghost predicate AllRank(ops: seq<Op>, rank: nat) {
    forall op :: op in ops ==> Rank(op) == rank
  }

  lemma {:induction false} AddsRank(request: Request, existing: seq<Node>, ids: seq<string>, n: nat)
    requires n <= |request.nodes| == |ids|
    ensures AllRank(AddOps(request, existing, ids, n), 0) && |AddOps(request, existing, ids, n)| == n
    decreases n
  {
    if n > 0 {
      AddsRank(request, existing, ids, n - 1);
    }
  }

  lemma {:induction false} RunsRank(request: Request, ids: seq<string>, n: nat)
    requires n <= |request.nodes| == |ids|
    ensures AllRank(RunOps(request, ids, n), 3)
    decreases n
  {
    if n > 0 {
      RunsRank(request, ids, n - 1);
    }
  }

  lemma {:induction false} InternalRank(request: Request, ids: seq<string>, edges: seq<Edge>, links: Links)
    requires |request.nodes| == |ids| && AllKnown(request, edges) && AllRank(links.ops, 1)
    ensures AllRank(LinkInternal(request, ids, edges, links).ops, 1)
    decreases |edges|
  {
    hide PairKey, IdFor;
    if edges != [] {
      assert EndsKnown(request, edges[|edges| - 1]);
      InternalRank(request, ids, edges[..|edges| - 1], links);
    }
  }

  lemma {:induction false} ExternalRank(request: Request, ids: seq<string>, edges: seq<Edge>, links: Links)
    requires |request.nodes| == |ids| && TargetsKnown(request, edges) && AllRank(links.ops, 1)
    ensures AllRank(LinkExternal(request, ids, edges, links).ops, 1)
    decreases |edges|
  {
    hide PairKey, IdFor;
    if edges != [] {
      assert Known(request, edges[|edges| - 1].to);
      ExternalRank(request, ids, edges[..|edges| - 1], links);
    }
  }

  lemma {:induction false} LinksRank(request: Request, ids: seq<string>)
    requires |request.nodes| == |ids|
    requires AllKnown(request, EdgesOf(request)) && AllKnown(request, ReferenceEdges(request.nodes))
    ensures AllRank(AllLinks(request, ids).ops, 1)
  {
    hide LinkInternal, LinkExternal, EdgesOf, ReferenceEdges, ExternalEdges, AllKnown, AllRank;
    assert request.nodes[..|request.nodes|] == request.nodes;
    ExternalTargetsKnown(request, |request.nodes|);
    assert AllRank(NO_LINKS.ops, 1) by {
      Nothing(1);
    }
    InternalRank(request, ids, EdgesOf(request), NO_LINKS);
    var edgeLinks := LinkInternal(request, ids, EdgesOf(request), NO_LINKS);
    InternalRank(request, ids, ReferenceEdges(request.nodes), edgeLinks);
    ExternalRank(request, ids, ExternalEdges(request.nodes),
      LinkInternal(request, ids, ReferenceEdges(request.nodes), edgeLinks));
  }

  lemma {:induction false} Nothing(rank: nat)
    ensures AllRank([], rank)
  {
  }

  /** The list has these four stretches. */
  lemma {:induction false} Stretches(request: Request, existing: seq<Node>, ids: seq<string>)
    requires |request.nodes| == |ids| && Generated(request, existing, ids).Ok?
    ensures AllKnown(request, EdgesOf(request)) && AllKnown(request, ReferenceEdges(request.nodes))
    ensures
      var adds, links, runs :=
        AddOps(request, existing, ids, |ids|), AllLinks(request, ids).ops, RunOps(request, ids, |ids|);
      && Generated(request, existing, ids).value == adds + links + [SelectNodes(Some(ids))] + runs
      && AllRank(adds, 0) && |adds| == |ids| && AllRank(links, 1) && AllRank(runs, 3)
  {
    hide AddOps, AllLinks, RunOps, AllRank, AllKnown, DraftErrors;
    AddsRank(request, existing, ids, |ids|);
    LinksRank(request, ids);
    RunsRank(request, ids, |ids|);
  }

  /** As many nodes as drafts come first; nothing but these four kinds of operation, in this order; and one selection,
      of all the new nodes in order. */
  lemma {:induction false} InOrder(request: Request, existing: seq<Node>, ids: seq<string>)
    requires |request.nodes| == |ids| && Generated(request, existing, ids).Ok?
    ensures
      var ops := Generated(request, existing, ids).value;
      && (forall p, q :: 0 <= p < q < |ops| ==> Rank(ops[p]) <= Rank(ops[q]) <= 3)
      && (forall p :: 0 <= p < |ops| ==> (ops[p].AddNode? <==> p < |ids|))
      && (forall p, q :: 0 <= p < q < |ops| ==> !(ops[p].SelectNodes? && ops[q].SelectNodes?))
      && (exists p :: 0 <= p < |ops| && ops[p] == SelectNodes(Some(ids)))
  {
    hide Generated, AddOps, AllLinks, RunOps, AllKnown;
    Stretches(request, existing, ids);
    var ops := Generated(request, existing, ids).value;
    var adds, links, runs :=
      AddOps(request, existing, ids, |ids|), AllLinks(request, ids).ops, RunOps(request, ids, |ids|);
    var at := |adds| + |links|;
    forall p | 0 <= p < |ops|
      ensures Rank(ops[p]) == if p < |adds| then 0 else if p < at then 1 else if p == at then 2 else 3
    {
      if p < |adds| {
        assert ops[p] == adds[p] && adds[p] in adds;
      } else if p < at {
        assert ops[p] == links[p - |adds|] && links[p - |adds|] in links;
      } else if p == at {
        assert ops[p] == SelectNodes(Some(ids));
      } else {
        assert ops[p] == runs[p - at - 1] && runs[p - at - 1] in runs;
      }
    }
    assert ops[at] == SelectNodes(Some(ids));
    hide AllRank;
  }

  /** An operation of a kind is in the list exactly if it is in the stretch of that kind. */
  lemma {:induction false} InStretch(request: Request, existing: seq<Node>, ids: seq<string>, op: Op)
    requires |request.nodes| == |ids| && Generated(request, existing, ids).Ok?
    ensures AllKnown(request, EdgesOf(request)) && AllKnown(request, ReferenceEdges(request.nodes))
    ensures op.ConnectNodes? ==>
      (op in Generated(request, existing, ids).value <==> op in AllLinks(request, ids).ops)
    ensures op.RunGeneration? ==>
      (op in Generated(request, existing, ids).value <==> op in RunOps(request, ids, |ids|))
  {
    hide Generated, AddOps, AllLinks, RunOps, AllKnown;
    Stretches(request, existing, ids);
    assert op in [SelectNodes(Some(ids))] <==> op == SelectNodes(Some(ids));
    var adds, links, runs :=
      AddOps(request, existing, ids, |ids|), AllLinks(request, ids).ops, RunOps(request, ids, |ids|);
    assert op in adds + links + [SelectNodes(Some(ids))] + runs
      <==> op in adds || op in links || op in [SelectNodes(Some(ids))] || op in runs;
  }

  // ---------------------------------------------------------------- the nodes

  /** The size a node gets on its own. */
  function DefaultSize(nodeType: NodeType): Size {
    match nodeType
    case Image => Size(560.0, 380.0)
    case Video => Size(640.0, 360.0)
    case Script => Size(920.0, 360.0)
    case Audio => Size(340.0, 160.0)
    case _ => Size(420.0, 240.0)
  }

  predicate Sized(asked: Option<real>, default: real, actual: real) {
    if asked.Some? && asked.value > 0.0 then actual == asked.value else actual == default
  }

  /** The greatest of these values, or zero. */
  ghost predicate Furthest(nodes: seq<Node>, edge: Node -> real, furthest: real) {
    && furthest >= 0.0 && (forall node :: node in nodes ==> edge(node) <= furthest)
    && (furthest == 0.0 || exists node :: node in nodes && edge(node) == furthest)
  }

  function Right(node: Node): real {
    node.x + node.width
  }

  function Bottom(node: Node): real {
    node.y + node.height
  }

  lemma {:induction false} RightExactly(nodes: seq<Node>)
    ensures Furthest(nodes, Right, RightEdge(nodes))
    decreases |nodes|
  {
    if nodes != [] {
      var last := |nodes| - 1;
      RightExactly(nodes[..last]);
      assert forall node :: node in nodes <==> node in nodes[..last] || node == nodes[last];
      if RightEdge(nodes) == RightEdge(nodes[..last]) {
      } else {
        assert Right(nodes[last]) == RightEdge(nodes);
      }
    }
  }

  lemma {:induction false} BottomExactly(nodes: seq<Node>)
    ensures Furthest(nodes, Bottom, BottomEdge(nodes))
    decreases |nodes|
  {
    if nodes != [] {
      var last := |nodes| - 1;
      BottomExactly(nodes[..last]);
      assert forall node :: node in nodes <==> node in nodes[..last] || node == nodes[last];
      if BottomEdge(nodes) == BottomEdge(nodes[..last]) {
      } else {
        assert Bottom(nodes[last]) == BottomEdge(nodes);
      }
    }
  }

  /** Where the first node goes: where it was asked for; else 80 into an empty canvas; else 160 to the right of
      everything, and 520 above the lowest bottom, but not above 80. */
  ghost predicate StartsAt(request: Request, existing: seq<Node>, x: real, y: real) {
    match request.start
    case Some(point) => x == point.x && y == point.y
    case None =>
      if existing == [] then x == 80.0 && y == 80.0
      else Furthest(existing, Right, x - 160.0) && exists lowest ::
          Furthest(existing, Bottom, lowest) && y == (if lowest > 600.0 then lowest - 520.0 else 80.0)
  }

  lemma {:induction false} StartExactly(request: Request, existing: seq<Node>)
    ensures StartsAt(request, existing, StartOf(request, existing).x, StartOf(request, existing).y)
  {
    RightExactly(existing);
    BottomExactly(existing);
  }

  /** The distance between neighbours: as asked, at least 48; 120 when none was asked. */
  predicate GapIs(request: Request, gap: real) {
    if request.gap.None? || request.gap.value == 0.0 then gap == 120.0
    else if request.gap.value < 48.0 then gap == 48.0
    else gap == request.gap.value
  }

  /** Main result on nodes: the i-th node bears the i-th identifier, has the type its kind stands for and the size asked
      for; the first starts as above, and each later one a gap beyond the one before, level with it. */
  lemma {:induction false} NodeExactly(request: Request, existing: seq<Node>, ids: seq<string>, i: nat)
    requires i < |request.nodes| == |ids| && Generated(request, existing, ids).Ok?
    ensures
      var ops := Generated(request, existing, ids).value;
      var draft := request.nodes[i];
      && i < |ops| && IsAddAt(ops[i]) && ops[i].id == Some(ids[i]) && ops[i].nodeType.Some?
      && ops[i].x == ops[i].y == Absent
      && (ops[i].nodeType == Some(Script) <==> draft.kind == "script")
      && (ops[i].nodeType == Some(Image) <==> draft.kind in ["image", "character_cards", "character_three_view"])
      && (ops[i].nodeType == Some(Video) <==> draft.kind in ["video", "storyboard_video"])
      && (ops[i].nodeType == Some(Audio) <==> draft.kind == "audio")
      && ops[i].nodeType.value in {Text, Script, Image, Video, Audio}
      && Sized(draft.width, DefaultSize(ops[i].nodeType.value).width, RectangleOf(ops[i]).width)
      && Sized(draft.height, DefaultSize(ops[i].nodeType.value).height, RectangleOf(ops[i]).height)
      && (i == 0 ==> StartsAt(request, existing, RectangleOf(ops[i]).x, RectangleOf(ops[i]).y))
      && (i > 0 ==> IsAddAt(ops[i - 1]) && exists gap ::
            GapIs(request, gap) && NextTo(RectangleOf(ops[i - 1]), RectangleOf(ops[i]), request.vertical, gap))
  {
    hide CursorAt, StartsAt, DraftErrors, AllKnown, AllLinks, RunOps, AddOps;
    AddOpsAt(request, existing, ids, |ids|, i);
    StartExactly(request, existing);
    if i > 0 {
      AddOpsAt(request, existing, ids, |ids|, i - 1);
      CursorAcross(request, existing, i - 1);
      CursorNext(request, existing, i);
      assert GapIs(request, GapOf(request));
    } else {
      CursorFirst(request, existing);
    }
    hide StartOf, GapOf;
  }

  predicate NextTo(a: Rectangle, b: Rectangle, vertical: bool, gap: real) {
    if vertical then b.x == a.x && b.y == a.y + a.height + gap else b.y == a.y && b.x == a.x + a.width + gap
  }

  lemma {:induction false} CursorFirst(request: Request, existing: seq<Node>)
    ensures CursorAt(request, existing, 0) == StartOf(request, existing)
  {
  }

  lemma {:induction false} CursorNext(request: Request, existing: seq<Node>, i: nat)
    requires 0 < i <= |request.nodes|
    ensures
      var size := WorkflowNodeSize(request.nodes[i - 1]);
      var a, b := CursorAt(request, existing, i - 1), CursorAt(request, existing, i);
      if request.vertical then b == Point(StartOf(request, existing).x, a.y + size.height + GapOf(request))
      else b == Point(a.x + size.width + GapOf(request), StartOf(request, existing).y)
  {
    hide StartOf, GapOf, WorkflowNodeSize;
  }

  // ---------------------------------------------------------------- the runs

  /** Main result on runs: exactly the pictures, videos and sounds are run that ask for it, or all of them when the
      request does, each in the mode of its type. */
  lemma {:induction false} RunExactly(request: Request, existing: seq<Node>, ids: seq<string>, id: string,
      mode: NodeType)
    requires |request.nodes| == |ids| && Generated(request, existing, ids).Ok?
    ensures RunGeneration(Some(id), Some(mode)) in Generated(request, existing, ids).value <==>
      exists i :: 0 <= i < |ids| && ids[i] == id && RunIs(request, request.nodes[i], mode)
  {
    hide Generated, RunOps;
    InStretch(request, existing, ids, RunGeneration(Some(id), Some(mode)));
    RunListed(request, ids, |ids|, id, mode);
  }

  predicate RunIs(request: Request, draft: Draft, mode: NodeType) {
    && (request.autoRun || draft.runGeneration)
    && ((mode == Image && draft.kind in ["image", "character_cards", "character_three_view"])
        || (mode == Video && draft.kind in ["video", "storyboard_video"])
        || (mode == Audio && draft.kind == "audio"))
  }

  lemma {:induction false} RunListed(request: Request, ids: seq<string>, n: nat, id: string, mode: NodeType)
    requires n <= |request.nodes| == |ids|
    ensures RunGeneration(Some(id), Some(mode)) in RunOps(request, ids, n) <==>
      exists i :: 0 <= i < n && ids[i] == id && RunIs(request, request.nodes[i], mode)
    decreases n
  {
    if n > 0 {
      RunListed(request, ids, n - 1, id, mode);
      var draft := request.nodes[n - 1];
      KindExactly(draft.kind);
      assert RunIs(request, draft, mode) <==> Runs(request, draft) && mode == WorkflowNodeType(draft.kind);
      var here :=
        if Runs(request, draft) then [RunGeneration(Some(ids[n - 1]), Some(WorkflowNodeType(draft.kind)))] else [];
      assert RunGeneration(Some(id), Some(mode)) in here <==> ids[n - 1] == id && RunIs(request, draft, mode);
      assert RunOps(request, ids, n) == RunOps(request, ids, n - 1) + here;
      hide RunIs, Runs, WorkflowNodeType;
    }
  }

  /** No node is run twice. */
  lemma {:induction false} RunsOnce(request: Request, existing: seq<Node>, ids: seq<string>, p: nat, q: nat)
    requires |request.nodes| == |ids| && Generated(request, existing, ids).Ok?
    requires forall i, j :: 0 <= i < j < |ids| ==> ids[i] != ids[j]
    requires p < q < |Generated(request, existing, ids).value|
    ensures
      var ops := Generated(request, existing, ids).value;
      ops[p].RunGeneration? && ops[q].RunGeneration? ==> ops[p].nodeId != ops[q].nodeId
  {
    hide Generated, AddOps, AllLinks, RunOps, AllKnown;
    Stretches(request, existing, ids);
    var ops := Generated(request, existing, ids).value;
    var adds, links, runs :=
      AddOps(request, existing, ids, |ids|), AllLinks(request, ids).ops, RunOps(request, ids, |ids|);
    var at := |adds| + |links| + 1;
    forall k | 0 <= k < at ensures !ops[k].RunGeneration? {
      if k < |adds| {
        assert ops[k] == adds[k] && adds[k] in adds;
      } else if k < |adds| + |links| {
        assert ops[k] == links[k - |adds|] && links[k - |adds|] in links;
      }
    }
    if ops[p].RunGeneration? && ops[q].RunGeneration? {
      assert ops[p] == runs[p - at] && ops[q] == runs[q - at];
      RunsDiffer(request, ids, |ids|, p - at, q - at);
    }
  }

  lemma {:induction false} RunsDiffer(request: Request, ids: seq<string>, n: nat, p: nat, q: nat)
    requires n <= |request.nodes| == |ids|
    requires forall i, j :: 0 <= i < j < |ids| ==> ids[i] != ids[j]
    requires p < q < |RunOps(request, ids, n)|
    ensures
      var runs := RunOps(request, ids, n);
      runs[p].RunGeneration? && runs[q].RunGeneration? && runs[p].nodeId != runs[q].nodeId
    decreases n
  {
    hide Runs, WorkflowNodeType;
    if n > 0 {
      var front := RunOps(request, ids, n - 1);
      if q < |front| {
        RunsDiffer(request, ids, n - 1, p, q);
      } else {
        assert RunOps(request, ids, n)[q].nodeId == Some(ids[n - 1]);
        assert front[p] in front;
        RunIds(request, ids, n - 1, front[p]);
      }
    }
  }

  lemma {:induction false} RunIds(request: Request, ids: seq<string>, n: nat, op: Op)
    requires n <= |request.nodes| == |ids| && op in RunOps(request, ids, n)
    ensures op.RunGeneration? && exists i :: 0 <= i < n && op.nodeId == Some(ids[i])
    decreases n
  {
    hide Runs, WorkflowNodeType;
    if n > 0 && op in RunOps(request, ids, n - 1) {
      RunIds(request, ids, n - 1, op);
    }
  }

  // ---------------------------------------------------------------- the connections

  /** Every edge asked for, in the order in which it is looked at: those between new nodes, then those from nodes that
      were there before. */
  function Wanted(request: Request): seq<Edge> {
    InternalEdges(request) + ExternalEdges(request.nodes)
  }

  /** The identifier drawn for the draft of this name. */
  predicate IdOf(request: Request, ids: seq<string>, ref: string, id: string)
    requires |request.nodes| == |ids|
  {
    exists i :: 0 <= i < |ids| && request.nodes[i].ref == ref && ids[i] == id
  }

  lemma {:induction false} IdExactly(request: Request, ids: seq<string>, ref: string, id: string)
    requires |request.nodes| == |ids| && DistinctRefs(request.nodes) && Known(request, ref)
    ensures IdOf(request, ids, ref, id) <==> id == IdFor(request, ids, ref)
  {
    var i := RefIndex(request.nodes, ref);
    assert request.nodes[i].ref == ref && ids[i] == IdFor(request, ids, ref);
    if IdOf(request, ids, ref, id) {
      var j :| 0 <= j < |ids| && request.nodes[j].ref == ref && ids[j] == id;
      assert i == j;
    }
  }

  /** The connection made for the edge at `i`, if it is the first under its key. */
  predicate Makes(request: Request, ids: seq<string>, edges: seq<Edge>, split: nat, i: nat, from: string, to: string)
    requires |request.nodes| == |ids|
  {
    && i < |edges| && FirstOfKey(edges, i) && IdOf(request, ids, edges[i].to, to)
    && (if i < split then IdOf(request, ids, edges[i].from, from) else from == edges[i].from)
  }

  ghost predicate Made(request: Request, ids: seq<string>, edges: seq<Edge>, split: nat, from: string, to: string)
    requires |request.nodes| == |ids|
  {
    exists i: nat :: Makes(request, ids, edges, split, i, from, to)
  }

  lemma {:induction false} OneMoreEdge(request: Request, ids: seq<string>, edges: seq<Edge>, split: nat, from: string,
      to: string)
    requires |request.nodes| == |ids| && edges != []
    ensures Made(request, ids, edges, split, from, to) <==>
      Made(request, ids, edges[..|edges| - 1], split, from, to)
        || Makes(request, ids, edges, split, |edges| - 1, from, to)
  {
    hide IdOf, PairKey;
    var front := edges[..|edges| - 1];
    forall i: nat | i < |front|
      ensures Makes(request, ids, front, split, i, from, to) <==> Makes(request, ids, edges, split, i, from, to)
    {
      assert forall j :: 0 <= j <= i ==> front[j] == edges[j];
    }
    if Made(request, ids, edges, split, from, to) {
      var i: nat :| Makes(request, ids, edges, split, i, from, to);
    }
    if Made(request, ids, front, split, from, to) {
      var i: nat :| Makes(request, ids, front, split, i, from, to);
      assert Makes(request, ids, edges, split, i, from, to);
    }
  }

  lemma {:induction false} LastIsFirst(edges: seq<Edge>)
    requires edges != []
    ensures FirstOfKey(edges, |edges| - 1) <==> PairKey(edges[|edges| - 1]) !in KeysFrom(edges[..|edges| - 1])
  {
    hide PairKey;
    var last := |edges| - 1;
    if !FirstOfKey(edges, last) {
      var j :| 0 <= j < last && PairKey(edges[j]) == PairKey(edges[last]);
      assert edges[..last][j] == edges[j];
    }
    if PairKey(edges[last]) in KeysFrom(edges[..last]) {
      var edge :| edge in edges[..last] && PairKey(edge) == PairKey(edges[last]);
      var j :| 0 <= j < last && edges[..last][j] == edge;
      assert edges[j] == edge;
    }
  }

  lemma {:induction false} InternalMade(request: Request, ids: seq<string>, edges: seq<Edge>, split: nat, from: string,
      to: string)
    requires |request.nodes| == |ids| && DistinctRefs(request.nodes) && AllKnown(request, edges) && |edges| <= split
    ensures
      var links := LinkInternal(request, ids, edges, NO_LINKS);
      && links.keys == KeysFrom(edges)
      && (ConnectOp(from, to) in links.ops <==> Made(request, ids, edges, split, from, to))
    decreases |edges|
  {
    hide IdOf, IdFor, PairKey, FirstOfKey, DistinctRefs, Made;
    KeysRecorded(request, ids, edges, NO_LINKS);
    if edges == [] {
      NothingMade(request, ids, split, from, to);
    } else {
      var last := |edges| - 1;
      assert EndsKnown(request, edges[last]);
      InternalMade(request, ids, edges[..last], split, from, to);
      OneMoreEdge(request, ids, edges, split, from, to);
      LastIsFirst(edges);
      IdExactly(request, ids, edges[last].from, from);
      IdExactly(request, ids, edges[last].to, to);
    }
  }

  lemma {:induction false} NothingMade(request: Request, ids: seq<string>, split: nat, from: string, to: string)
    requires |request.nodes| == |ids|
    ensures !Made(request, ids, [], split, from, to)
  {
  }

  lemma {:induction false} ExternalMade(request: Request, ids: seq<string>, a: seq<Edge>, b: seq<Edge>, links: Links,
      from: string, to: string)
    requires |request.nodes| == |ids| && DistinctRefs(request.nodes) && TargetsKnown(request, b)
    requires links.keys == KeysFrom(a)
    requires ConnectOp(from, to) in links.ops <==> Made(request, ids, a, |a|, from, to)
    ensures
      var more := LinkExternal(request, ids, b, links);
      && more.keys == KeysFrom(a + b)
      && (ConnectOp(from, to) in more.ops <==> Made(request, ids, a + b, |a|, from, to))
    decreases |b|
  {
    hide IdOf, IdFor, PairKey, FirstOfKey, DistinctRefs, Made;
    if b == [] {
      assert a + b == a;
    } else {
      var last := |b| - 1;
      assert Known(request, b[last].to);
      ExternalMade(request, ids, a, b[..last], links, from, to);
      assert (a + b)[..|a + b| - 1] == a + b[..last] && (a + b)[|a + b| - 1] == b[last];
      OneMoreEdge(request, ids, a + b, |a|, from, to);
      LastIsFirst(a + b);
      OneMoreKey(a + b);
      IdExactly(request, ids, b[last].to, to);
    }
  }

  lemma {:induction false} OneMoreKey(edges: seq<Edge>)
    requires edges != []
    ensures KeysFrom(edges) == KeysFrom(edges[..|edges| - 1]) + {PairKey(edges[|edges| - 1])}
  {
    hide PairKey;
    var last := |edges| - 1;
    assert forall edge :: edge in edges <==> edge in edges[..last] || edge == edges[last];
  }

  lemma {:induction false} AllMade(request: Request, ids: seq<string>, from: string, to: string)
    requires |request.nodes| == |ids| && DistinctRefs(request.nodes)
    requires AllKnown(request, EdgesOf(request)) && AllKnown(request, ReferenceEdges(request.nodes))
    ensures ConnectOp(from, to) in AllLinks(request, ids).ops
       <==> Made(request, ids, Wanted(request), |InternalEdges(request)|, from, to)
  {
    hide LinkInternal, LinkExternal, EdgesOf, ReferenceEdges, ExternalEdges, AllKnown, Made, ConnectOp;
    BothKnown(request, EdgesOf(request), ReferenceEdges(request.nodes));
    InternalJoins(request, ids, EdgesOf(request), ReferenceEdges(request.nodes), NO_LINKS);
    assert request.nodes[..|request.nodes|] == request.nodes;
    ExternalTargetsKnown(request, |request.nodes|);
    var inner := InternalEdges(request);
    InternalMade(request, ids, inner, |inner|, from, to);
    ExternalMade(request, ids, inner, ExternalEdges(request.nodes), LinkInternal(request, ids, inner, NO_LINKS), from,
      to);
  }

  /** A request asks for a connection between two new nodes: by an edge, as neighbours when it lists no edges, or
      because the one refers to the other. */
  predicate Asked(request: Request, from: string, to: string) {
    || Edge(from, to) in request.edges
    || (request.edges == [] && exists i ::
          0 < i < |request.nodes| && request.nodes[i - 1].ref == from && request.nodes[i].ref == to)
    || exists draft :: draft in request.nodes && draft.ref == to && from in draft.referenceRefs
  }

  /** It asks for a connection from a node that is there already. */
  predicate AskedOfOld(request: Request, from: string, to: string) {
    exists draft :: draft in request.nodes && draft.ref == to && from in draft.referenceNodeIds
  }

  lemma {:induction false} ChainExactly(nodes: seq<Draft>, edge: Edge)
    ensures edge in Chain(nodes) <==>
      exists i :: 0 < i < |nodes| && nodes[i - 1].ref == edge.from && nodes[i].ref == edge.to
    decreases |nodes|
  {
    if |nodes| >= 2 {
      var last := |nodes| - 1;
      ChainExactly(nodes[..last], edge);
      if edge == Edge(nodes[last - 1].ref, nodes[last].ref) {
        assert 0 < last < |nodes|;
      }
    }
  }

  lemma {:induction false} EdgesToExactly(from: seq<string>, to: string, edge: Edge)
    ensures edge in EdgesTo(from, to) <==> edge.to == to && edge.from in from
  {
    if edge.to == to && edge.from in from {
      var i :| 0 <= i < |from| && from[i] == edge.from;
      assert EdgesTo(from, to)[i] == edge;
    }
  }

  lemma {:induction false} ReferencesExactly(nodes: seq<Draft>, edge: Edge)
    ensures edge in ReferenceEdges(nodes) <==>
      exists draft :: draft in nodes && draft.ref == edge.to && edge.from in draft.referenceRefs
    decreases |nodes|
  {
    if nodes != [] {
      var last := |nodes| - 1;
      ReferencesExactly(nodes[..last], edge);
      EdgesToExactly(nodes[last].referenceRefs, nodes[last].ref, edge);
      assert forall draft :: draft in nodes <==> draft in nodes[..last] || draft == nodes[last];
      hide EdgesTo;
    }
  }

  lemma {:induction false} ExternalsExactly(nodes: seq<Draft>, edge: Edge)
    ensures edge in ExternalEdges(nodes) <==>
      exists draft :: draft in nodes && draft.ref == edge.to && edge.from in draft.referenceNodeIds
    decreases |nodes|
  {
    if nodes != [] {
      var last := |nodes| - 1;
      ExternalsExactly(nodes[..last], edge);
      EdgesToExactly(nodes[last].referenceNodeIds, nodes[last].ref, edge);
      assert forall draft :: draft in nodes <==> draft in nodes[..last] || draft == nodes[last];
      hide EdgesTo;
    }
  }

  lemma {:induction false} AskedExactly(request: Request, edge: Edge)
    ensures edge in InternalEdges(request) <==> Asked(request, edge.from, edge.to)
    ensures edge in ExternalEdges(request.nodes) <==> AskedOfOld(request, edge.from, edge.to)
  {
    ChainExactly(request.nodes, edge);
    ReferencesExactly(request.nodes, edge);
    ExternalsExactly(request.nodes, edge);
    assert Edge(edge.from, edge.to) == edge;
    hide Chain, ReferenceEdges, ExternalEdges;
  }

  /** No name of a node, new or old, contains the character that keys are joined with. */
  predicate NamesNulFree(request: Request) {
    forall draft :: draft in request.nodes ==>
      && NulFree(draft.ref)
      && (forall id :: id in draft.referenceNodeIds ==> NulFree(id))
  }

  lemma {:induction false} KeyIsPair(a: Edge, b: Edge)
    requires NulFree(a.from) && NulFree(b.from) && PairKey(a) == PairKey(b)
    ensures a == b
  {
    JoinInjective(a.from, a.to, b.from, b.to);
  }

  lemma {:induction false} WantedNulFree(request: Request, edge: Edge)
    requires NamesNulFree(request) && AllKnown(request, InternalEdges(request)) && edge in Wanted(request)
    ensures NulFree(edge.from)
  {
    if edge in InternalEdges(request) {
      var i :| 0 <= i < |InternalEdges(request)| && InternalEdges(request)[i] == edge;
      assert EndsKnown(request, InternalEdges(request)[i]);
      var j :| 0 <= j < |request.nodes| && request.nodes[j].ref == edge.from;
      assert request.nodes[j] in request.nodes;
    } else {
      ExternalsExactly(request.nodes, edge);
    }
  }

  /** Every edge has a first one under its key, and among plain names that is an edge with the same ends. */
  lemma {:induction false} FirstWanted(request: Request, edge: Edge) returns (i: nat)
    requires NamesNulFree(request) && AllKnown(request, InternalEdges(request)) && edge in Wanted(request)
    ensures i < |Wanted(request)| && Wanted(request)[i] == edge && FirstOfKey(Wanted(request), i)
    ensures i < |InternalEdges(request)| <==> edge in InternalEdges(request)
  {
    hide PairKey, InternalEdges, ExternalEdges, NamesNulFree, NulFree, AllKnown;
    var edges := Wanted(request);
    var k :| 0 <= k < |edges| && edges[k] == edge;
    if edge in InternalEdges(request) {
      k :| 0 <= k < |InternalEdges(request)| && InternalEdges(request)[k] == edge;
      assert edges[k] == edge;
    }
    i := First(edges, k);
    WantedNulFree(request, edge);
    assert edges[i] in edges;
    WantedNulFree(request, edges[i]);
    KeyIsPair(edges[i], edge);
    assert i < |InternalEdges(request)| ==> InternalEdges(request)[i] == edges[i];
  }

  lemma {:induction false} First(edges: seq<Edge>, k: nat) returns (i: nat)
    requires k < |edges|
    ensures i <= k && FirstOfKey(edges, i) && PairKey(edges[i]) == PairKey(edges[k])
    decreases k
  {
    hide PairKey;
    if FirstOfKey(edges, k) {
      i := k;
    } else {
      var j :| 0 <= j < k && PairKey(edges[j]) == PairKey(edges[k]);
      i := First(edges, j);
    }
  }

  /** One draft's connection to or from another. */
  ghost predicate Joined(request: Request, ids: seq<string>, from: string, to: string, fromId: string, toId: string)
    requires |request.nodes| == |ids|
  {
    && IdOf(request, ids, to, toId)
    && ((Asked(request, from, to) && IdOf(request, ids, from, fromId))
        || (AskedOfOld(request, from, to) && !Asked(request, from, to) && fromId == from))
  }

  /** Main result on connections: two nodes are joined exactly if that is asked for, in the direction asked for. A
      connection from a node that is there already is left out exactly if the new node of the same name as that node's
      identifier is to be joined to the same end. */
  lemma {:induction false} JoinedExactly(request: Request, existing: seq<Node>, ids: seq<string>, fromId: string,
      toId: string)
    requires |request.nodes| == |ids| && Generated(request, existing, ids).Ok? && NamesNulFree(request)
    ensures ConnectOp(fromId, toId) in Generated(request, existing, ids).value <==>
      exists from, to :: Joined(request, ids, from, to, fromId, toId)
  {
    hide Generated, AllLinks, AllKnown, InternalEdges, ExternalEdges, Made, Asked, AskedOfOld, IdOf, DistinctRefs;
    InStretch(request, existing, ids, ConnectOp(fromId, toId));
    Checked(request, existing, ids);
    AllMade(request, ids, fromId, toId);
    InnerKnown(request);
    if Made(request, ids, Wanted(request), |InternalEdges(request)|, fromId, toId) {
      MadeIsJoined(request, ids, fromId, toId);
    }
    if exists from, to :: Joined(request, ids, from, to, fromId, toId) {
      var from, to :| Joined(request, ids, from, to, fromId, toId);
      JoinedIsMade(request, ids, from, to, fromId, toId);
    }
  }

  lemma {:induction false} InnerKnown(request: Request)
    requires AllKnown(request, EdgesOf(request)) && AllKnown(request, ReferenceEdges(request.nodes))
    ensures AllKnown(request, InternalEdges(request))
  {
    hide EdgesOf, ReferenceEdges, AllKnown;
    BothKnown(request, EdgesOf(request), ReferenceEdges(request.nodes));
  }

  lemma {:induction false} Checked(request: Request, existing: seq<Node>, ids: seq<string>)
    requires |request.nodes| == |ids| && Generated(request, existing, ids).Ok?
    ensures DistinctRefs(request.nodes)
  {
    hide AllKnown, AllLinks, AddOps, RunOps;
    ChecksMean(request, existing);
  }

  lemma {:induction false} MadeIsJoined(request: Request, ids: seq<string>, fromId: string, toId: string)
    requires |request.nodes| == |ids| && NamesNulFree(request) && AllKnown(request, InternalEdges(request))
    requires Made(request, ids, Wanted(request), |InternalEdges(request)|, fromId, toId)
    ensures exists from, to :: Joined(request, ids, from, to, fromId, toId)
  {
    hide InternalEdges, ExternalEdges, Asked, AskedOfOld, IdOf, PairKey, NamesNulFree, AllKnown;
    var edges, split := Wanted(request), |InternalEdges(request)|;
    var i: nat :| Makes(request, ids, edges, split, i, fromId, toId);
    var edge := edges[i];
    AskedExactly(request, edge);
    if i < split {
      assert edge == InternalEdges(request)[i];
    } else {
      assert edge == ExternalEdges(request.nodes)[i - split];
      forall k | 0 <= k < split ensures InternalEdges(request)[k] != edge {
        assert edges[k] == InternalEdges(request)[k];
      }
    }
    assert Joined(request, ids, edge.from, edge.to, fromId, toId);
  }

  lemma {:induction false} JoinedIsMade(request: Request, ids: seq<string>, from: string, to: string, fromId: string,
      toId: string)
    requires |request.nodes| == |ids| && NamesNulFree(request) && AllKnown(request, InternalEdges(request))
    requires Joined(request, ids, from, to, fromId, toId)
    ensures Made(request, ids, Wanted(request), |InternalEdges(request)|, fromId, toId)
  {
    hide InternalEdges, ExternalEdges, Asked, AskedOfOld, IdOf, PairKey, NamesNulFree, AllKnown, FirstOfKey;
    var edge := Edge(from, to);
    AskedExactly(request, edge);
    var i := FirstWanted(request, edge);
    assert Makes(request, ids, Wanted(request), |InternalEdges(request)|, i, fromId, toId);
  }

  /** The same for any names: the connections are those of the edges that are the first under their key. */
  lemma {:induction false} MadeExactly(request: Request, existing: seq<Node>, ids: seq<string>, fromId: string,
      toId: string)
    requires |request.nodes| == |ids| && Generated(request, existing, ids).Ok?
    ensures ConnectOp(fromId, toId) in Generated(request, existing, ids).value <==>
      Made(request, ids, Wanted(request), |InternalEdges(request)|, fromId, toId)
  {
    hide Generated, AllLinks, AllKnown, InternalEdges, ExternalEdges, Made, DistinctRefs;
    InStretch(request, existing, ids, ConnectOp(fromId, toId));
    Checked(request, existing, ids);
    AllMade(request, ids, fromId, toId);
  }

  // ---------------------------------------------------------------- a reference that is left out

  function Plain(ref: string, referenceNodeIds: seq<string>): Draft {
    Draft(ref, ref, "text", "", None, None, [], referenceNodeIds, false)
  }

  /** Two new nodes "a" and "b" in a row, the second of which refers to a node "a" that is there already. */
  function Shadowing(): Request {
    Request([Plain("a", []), Plain("b", ["a"])], [], false, None, None, false)
  }

  /** The request is granted, and the connection it asks for from the node that is there is not made. */
  lemma {:induction false} ShadowedReference(existing: seq<Node>, ids: seq<string>, node: Node)
    requires node in existing && node.id == "a"
    requires |ids| == 2 && ids[0] != "a"
    ensures AskedOfOld(Shadowing(), "a", "b")
    ensures Generated(Shadowing(), existing, ids).Ok?
    ensures ConnectOp(ids[0], ids[1]) in Generated(Shadowing(), existing, ids).value
    ensures ConnectOp("a", ids[1]) !in Generated(Shadowing(), existing, ids).value
  {
    hide Generated, Asked, AskedOfOld, IdOf, Shadowing, NamesNulFree, ConnectOp;
    var request := Shadowing();
    ShadowingGranted(existing, ids, node);
    ShadowingNames(ids);
    forall from, to ensures Asked(request, from, to) <==> from == "a" && to == "b" {
      ShadowingAsks(from, to);
    }
    ShadowingAsks("a", "b");
    JoinedExactly(request, existing, ids, ids[0], ids[1]);
    assert Joined(request, ids, "a", "b", ids[0], ids[1]);
    JoinedExactly(request, existing, ids, "a", ids[1]);
    forall from, to ensures !Joined(request, ids, from, to, "a", ids[1]) {
      ShadowingAsks(from, to);
    }
  }

  lemma {:induction false} ShadowingNames(ids: seq<string>)
    requires |ids| == 2
    ensures |Shadowing().nodes| == 2 && NamesNulFree(Shadowing())
    ensures forall id :: IdOf(Shadowing(), ids, "a", id) <==> id == ids[0]
    ensures forall id :: IdOf(Shadowing(), ids, "b", id) <==> id == ids[1]
  {
    assert Shadowing().nodes[0].ref == "a" && Shadowing().nodes[1].ref == "b";
  }

  lemma {:induction false} ShadowingAsks(from: string, to: string)
    ensures Asked(Shadowing(), from, to) <==> from == "a" && to == "b"
    ensures AskedOfOld(Shadowing(), from, to) <==> from == "a" && to == "b"
  {
    var request := Shadowing();
    assert request.nodes[0].ref == "a" && request.nodes[1].ref == "b" && request.nodes[1] in request.nodes;
    assert request.nodes[1].referenceNodeIds == ["a"];
  }

  lemma {:induction false} ShadowingGranted(existing: seq<Node>, ids: seq<string>, node: Node)
    requires node in existing && node.id == "a" && |ids| == 2
    ensures |Shadowing().nodes| == 2 && Generated(Shadowing(), existing, ids).Ok?
  {
    var request := Shadowing();
    assert |request.nodes| == 2 && EdgesJoinRefs(request) && ReferencesAreRefs(request);
    ShadowingFaultless(existing, node);
    hide Generated, NoFault, FaultIs, Shadowing, EdgesJoinRefs, ReferencesAreRefs;
    if Generated(request, existing, ids).Err? {
      RefusedExactly(request, existing, ids, Generated(request, existing, ids).error);
    }
  }

  lemma {:induction false} ShadowingFaultless(existing: seq<Node>, node: Node)
    requires node in existing && node.id == "a"
    ensures NoFault(Shadowing(), existing)
  {
    var request := Shadowing();
    TrimExactly("a", "b");
    assert !SameName(request.nodes[0].ref, request.nodes[1].ref);
    assert !Blank("a") && !Blank("b");
    assert !OldIsMissing(existing, request.nodes[0]) && !OldIsMissing(existing, request.nodes[1]);
    hide SameName, OldIsMissing, Blank;
  }
}
