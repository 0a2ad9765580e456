/** The operation lists the canvas session generates (canvas-agent/src/canvas-session.ts): a workflow laid out along
    one axis, and the prompt-to-result flow. */
module Workflow {
  import opened Wrappers
  import opened CanvasOps
  import opened Trimming

  // ---------------------------------------------------------------- requests

  datatype Point = Point(x: real, y: real)
  datatype Size = Size(width: real, height: real)

  /** One requested node; `prompt` is the prompt, content or default text the source falls back through. */
  datatype Draft = Draft(
    ref: string, title: string, kind: string, prompt: string, width: Option<real>, height: Option<real>,
    referenceRefs: seq<string>, referenceNodeIds: seq<string>, runGeneration: bool)

  datatype Edge = Edge(from: string, to: string)

  /** No edges means the chain of the nodes in order. */
  datatype Request = Request(nodes: seq<Draft>, edges: seq<Edge>, vertical: bool, gap: Option<real>,
      start: Option<Point>, autoRun: bool)

  datatype WorkflowError =
    | NoNodes | RefOrTitleMissing | RefRepeated | PromptMissing | ReferenceUnknown | EdgeUnknown | RefUnknown

  predicate IsBlank(c: char) {
    '\t' <= c <= '\r' || c == ' ' || c == '\U{00A0}' || c == '\U{FEFF}' || c == '\U{1680}'
      || '\U{2000}' <= c <= '\U{200a}' ||
    c == '\U{2028}' || c == '\U{2029}' || c == '\U{202f}' || c == '\U{205f}' || c == '\U{3000}'
  }

  function Trim(text: string): string {
    Strip(text, IsBlank)
  }

  function WorkflowNodeType(kind: string): NodeType {
    if kind == "script" then Script
    else if kind in ["image", "character_cards", "character_three_view"] then Image
    else if kind in ["video", "storyboard_video"] then Video
    else if kind == "audio" then Audio
    else Text
  }

  function WorkflowNodeSize(draft: Draft): (size: Size)
    ensures size.width > 0.0 && size.height > 0.0
  {
    var defaults := match WorkflowNodeType(draft.kind)
      case Image => Size(560.0, 380.0)
      case Video => Size(640.0, 360.0)
      case Script => Size(920.0, 360.0)
      case Audio => Size(340.0, 160.0)
      case _ => Size(420.0, 240.0);
    Size(if draft.width.Some? && draft.width.value > 0.0 then draft.width.value else defaults.width,
         if draft.height.Some? && draft.height.value > 0.0 then draft.height.value else defaults.height)
  }

  function Max(a: real, b: real): real {
    if a < b then b else a
  }

  function GapOf(request: Request): real {
    Max(48.0, if request.gap.None? || request.gap.value == 0.0 then 120.0 else request.gap.value)
  }

  function RightEdge(nodes: seq<Node>): real {
    if nodes == [] then 0.0
    else Max(RightEdge(nodes[..|nodes| - 1]), nodes[|nodes| - 1].x + nodes[|nodes| - 1].width)
  }

  function BottomEdge(nodes: seq<Node>): real {
    if nodes == [] then 0.0
    else Max(BottomEdge(nodes[..|nodes| - 1]), nodes[|nodes| - 1].y + nodes[|nodes| - 1].height)
  }

  function StartOf(request: Request, existing: seq<Node>): Point {
    if request.start.Some? then request.start.value
    else if existing == [] then Point(80.0, 80.0)
    else Point(RightEdge(existing) + 160.0, Max(80.0, BottomEdge(existing) - 520.0))
  }

  // ---------------------------------------------------------------- the checks before anything is generated

  predicate Known(request: Request, ref: string) {
    exists i :: 0 <= i < |request.nodes| && request.nodes[i].ref == ref
  }

  function DraftError(request: Request, existing: seq<Node>, i: nat): Option<WorkflowError>
    requires i < |request.nodes|
  {
    var draft := request.nodes[i];
    if Trim(draft.ref) == "" || Trim(draft.title) == "" then Some(RefOrTitleMissing)
    else if exists j :: 0 <= j < i && Trim(request.nodes[j].ref) == Trim(draft.ref) then Some(RefRepeated)
    else if WorkflowNodeType(draft.kind) !in {Text, Script} && Trim(draft.prompt) == "" then Some(PromptMissing)
    else if exists id :: id in draft.referenceNodeIds && id !in NodeIds(existing) then Some(ReferenceUnknown)
    else None
  }

  function DraftErrors(request: Request, existing: seq<Node>, i: nat): Option<WorkflowError>
    requires i <= |request.nodes|
    decreases |request.nodes| - i
  {
    if i == |request.nodes| then None
    else if DraftError(request, existing, i).Some? then DraftError(request, existing, i)
    else DraftErrors(request, existing, i + 1)
  }

  // ---------------------------------------------------------------- the generated list

  /** The cursor before node `i`. */
  function CursorAt(request: Request, existing: seq<Node>, i: nat): Point
    requires i <= |request.nodes|
  {
    var start := StartOf(request, existing);
    if i == 0 then start
    else
      var previous := CursorAt(request, existing, i - 1);
      var size := WorkflowNodeSize(request.nodes[i - 1]);
      if request.vertical then Point(start.x, previous.y + size.height + GapOf(request))
      else Point(previous.x + size.width + GapOf(request), start.y)
  }

  function AddOp(request: Request, existing: seq<Node>, ids: seq<string>, i: nat): Op
    requires i < |request.nodes| == |ids|
  {
    var size := WorkflowNodeSize(request.nodes[i]);
    var at := CursorAt(request, existing, i);
    AddNode(Some(ids[i]), Some(WorkflowNodeType(request.nodes[i].kind)), Absent, Absent, At(Finite(at.x), Finite(at.y)),
            Finite(size.width), Finite(size.height))
  }

  function AddOps(request: Request, existing: seq<Node>, ids: seq<string>, n: nat): seq<Op>
    requires n <= |request.nodes| == |ids|
  {
    if n == 0 then [] else AddOps(request, existing, ids, n - 1) + [AddOp(request, existing, ids, n - 1)]
  }

  function RefIndex(nodes: seq<Draft>, ref: string): (i: nat)
    ensures i <= |nodes| && (i < |nodes| ==> nodes[i].ref == ref)
    ensures forall j :: 0 <= j < i ==> nodes[j].ref != ref
  {
    if nodes == [] || nodes[0].ref == ref then 0
    else
      var later := RefIndex(nodes[1..], ref);
      assert forall j :: 1 <= j < later + 1 ==> nodes[j] == nodes[1..][j - 1];
      later + 1
  }

  /** ids.get: the id generated for a reference name. */
  function IdFor(request: Request, ids: seq<string>, ref: string): (id: string)
    requires |request.nodes| == |ids| && Known(request, ref)
    ensures id in ids
  {
    ids[RefIndex(request.nodes, ref)]
  }

  function Chain(nodes: seq<Draft>): seq<Edge> {
    if |nodes| < 2 then [] else Chain(nodes[..|nodes| - 1]) + [Edge(nodes[|nodes| - 2].ref, nodes[|nodes| - 1].ref)]
  }

  function EdgesOf(request: Request): seq<Edge> {
    if request.edges != [] then request.edges else Chain(request.nodes)
  }

  function EdgesTo(from: seq<string>, to: string): seq<Edge> {
    seq(|from|, i requires 0 <= i < |from| => Edge(from[i], to))
  }

  function ReferenceEdges(nodes: seq<Draft>): seq<Edge> {
    if nodes == [] then []
    else
      var last := nodes[|nodes| - 1];
      ReferenceEdges(nodes[..|nodes| - 1]) + EdgesTo(last.referenceRefs, last.ref)
  }

  function ExternalEdges(nodes: seq<Draft>): seq<Edge> {
    if nodes == [] then []
    else
      var last := nodes[|nodes| - 1];
      ExternalEdges(nodes[..|nodes| - 1]) + EdgesTo(last.referenceNodeIds, last.ref)
  }

  /** The connections pushed so far and the keys they were recorded under. */
  datatype Links = Links(ops: seq<Op>, keys: set<string>)

  function PairKey(edge: Edge): string {
    edge.from + NUL + edge.to
  }

  function ConnectOp(fromId: string, toId: string): Op {
    ConnectNodes(None, Some(fromId), Some(toId), None, None)
  }

  function Linked(links: Links, edge: Edge, fromId: string, toId: string): Links {
    if PairKey(edge) in links.keys then links
    else Links(links.ops + [ConnectOp(fromId, toId)], links.keys + {PairKey(edge)})
  }

  predicate EndsKnown(request: Request, edge: Edge) {
    Known(request, edge.from) && Known(request, edge.to)
  }

  predicate AllKnown(request: Request, edges: seq<Edge>) {
    forall i :: 0 <= i < |edges| ==> EndsKnown(request, edges[i])
  }

  /** Connections between the new nodes. */
  function LinkInternal(request: Request, ids: seq<string>, edges: seq<Edge>, links: Links): Links
    requires |request.nodes| == |ids| && AllKnown(request, edges)
    decreases |edges|
  {
    if edges == [] then links
    else
      var edge := edges[|edges| - 1];
      assert EndsKnown(request, edge);
      Linked(LinkInternal(request, ids, edges[..|edges| - 1], links), edge, IdFor(request, ids, edge.from),
        IdFor(request, ids, edge.to))
  }

  predicate TargetsKnown(request: Request, edges: seq<Edge>) {
    forall i :: 0 <= i < |edges| ==> Known(request, edges[i].to)
  }

  /** Connections from nodes that were there before. */
  function LinkExternal(request: Request, ids: seq<string>, edges: seq<Edge>, links: Links): Links
    requires |request.nodes| == |ids| && TargetsKnown(request, edges)
    decreases |edges|
  {
    if edges == [] then links
    else
      var edge := edges[|edges| - 1];
      assert Known(request, edge.to);
      Linked(LinkExternal(request, ids, edges[..|edges| - 1], links), edge, edge.from, IdFor(request, ids, edge.to))
  }

  lemma {:induction false} ExternalTargetsKnown(request: Request, n: nat)
    requires n <= |request.nodes|
    ensures TargetsKnown(request, ExternalEdges(request.nodes[..n]))
    decreases n
  {
    if n > 0 {
      ExternalTargetsKnown(request, n - 1);
      assert request.nodes[..n][..n - 1] == request.nodes[..n - 1];
      assert Known(request, request.nodes[n - 1].ref);
    }
  }

  function Runs(request: Request, draft: Draft): bool {
    WorkflowNodeType(draft.kind) in {Image, Video, Audio} && (request.autoRun || draft.runGeneration)
  }

  function RunOps(request: Request, ids: seq<string>, n: nat): seq<Op>
    requires n <= |request.nodes| == |ids|
  {
    if n == 0 then []
    else
      var draft := request.nodes[n - 1];
      RunOps(request, ids, n - 1)
      + (if Runs(request, draft) then [RunGeneration(Some(ids[n - 1]), Some(WorkflowNodeType(draft.kind)))] else [])
  }

  const NO_LINKS: Links := Links([], {})

  /** All connections, once every internal edge is known to join new nodes. */
  function AllLinks(request: Request, ids: seq<string>): Links
    requires |request.nodes| == |ids|
    requires AllKnown(request, EdgesOf(request)) && AllKnown(request, ReferenceEdges(request.nodes))
  {
    assert request.nodes[..|request.nodes|] == request.nodes;
    ExternalTargetsKnown(request, |request.nodes|);
    LinkExternal(request, ids, ExternalEdges(request.nodes),
      LinkInternal(request, ids, ReferenceEdges(request.nodes),
        LinkInternal(request, ids, EdgesOf(request), NO_LINKS)))
  }

  /** `ids` are the identifiers drawn for the nodes. */
  function Generated(request: Request, existing: seq<Node>, ids: seq<string>): Result<seq<Op>, WorkflowError>
    requires |request.nodes| == |ids|
  {
    if request.nodes == [] then Err(NoNodes)
    else if DraftErrors(request, existing, 0).Some? then Err(DraftErrors(request, existing, 0).value)
    else if !AllKnown(request, EdgesOf(request)) then Err(EdgeUnknown)
    else if !AllKnown(request, ReferenceEdges(request.nodes)) then Err(RefUnknown)
    else Ok(AddOps(request, existing, ids, |ids|) + AllLinks(request, ids).ops + [SelectNodes(Some(ids))]
      + RunOps(request, ids, |ids|))
  }

  // ---------------------------------------------------------------- the generator's loops

  /** Pushes a connection for each pair not seen yet; stops at the first pair naming an unknown node. */
  method PushInternal(request: Request, ids: seq<string>, edges: seq<Edge>, ops: seq<Op>, keys: set<string>)
    returns (known: bool, ops': seq<Op>, keys': set<string>)
    requires |request.nodes| == |ids|
    ensures known == AllKnown(request, edges)
    ensures known ==> forall before: Links :: ops == before.ops && keys == before.keys ==>
                        Links(ops', keys') == LinkInternal(request, ids, edges, before)
  {
    hide PairKey, ConnectOp, IdFor;
    ops', keys' := ops, keys;
    var i := 0;
    while i < |edges|
      invariant i <= |edges| && AllKnown(request, edges[..i])
      invariant Links(ops', keys') == LinkInternal(request, ids, edges[..i], Links(ops, keys))
    {
      var edge := edges[i];
      if RefIndex(request.nodes, edge.from) == |request.nodes| || RefIndex(request.nodes, edge.to) == |request.nodes| {
        assert !EndsKnown(request, edges[i]);
        return false, ops', keys';
      }
      assert Known(request, edge.from) && Known(request, edge.to);
      assert edges[..i + 1][..i] == edges[..i];
      var key := PairKey(edge);
      if key !in keys' {
        keys' := keys' + {key};
        ops' := ops' + [ConnectOp(IdFor(request, ids, edge.from), IdFor(request, ids, edge.to))];
      }
      i := i + 1;
    }
    assert edges[..|edges|] == edges;
    known := true;
  }

  method PushExternal(request: Request, ids: seq<string>, edges: seq<Edge>, ops: seq<Op>, keys: set<string>)
    returns (ops': seq<Op>)
    requires |request.nodes| == |ids| && TargetsKnown(request, edges)
    ensures ops' == LinkExternal(request, ids, edges, Links(ops, keys)).ops
  {
    ops' := ops;
    var seen := keys;
    var i := 0;
    while i < |edges|
      invariant i <= |edges|
      invariant Links(ops', seen) == LinkExternal(request, ids, edges[..i], Links(ops, keys))
    {
      var edge := edges[i];
      assert Known(request, edge.to);
      assert edges[..i + 1][..i] == edges[..i];
      var key := PairKey(edge);
      if key !in seen {
        seen := seen + {key};
        ops' := ops' + [ConnectOp(edge.from, IdFor(request, ids, edge.to))];
      }
      i := i + 1;
    }
    assert edges[..|edges|] == edges;
  }

  method PushNodes(request: Request, existing: seq<Node>, ids: seq<string>) returns (ops: seq<Op>)
    requires |request.nodes| == |ids|
    ensures ops == AddOps(request, existing, ids, |ids|)
  {
    ops := [];
    var start, gap := StartOf(request, existing), GapOf(request);
    var cursor := start;
    var i := 0;
    while i < |ids|
      invariant i <= |ids| && ops == AddOps(request, existing, ids, i) && cursor == CursorAt(request, existing, i)
    {
      var draft := request.nodes[i];
      var size := WorkflowNodeSize(draft);
      ops := ops + [AddNode(Some(ids[i]), Some(WorkflowNodeType(draft.kind)), Absent, Absent,
                            At(Finite(cursor.x), Finite(cursor.y)), Finite(size.width), Finite(size.height))];
      cursor := if request.vertical then Point(start.x, cursor.y + size.height + gap)
                else Point(cursor.x + size.width + gap, start.y);
      i := i + 1;
    }
  }

  method PushRuns(request: Request, ids: seq<string>) returns (ops: seq<Op>)
    requires |request.nodes| == |ids|
    ensures ops == RunOps(request, ids, |ids|)
  {
    ops := [];
    var i := 0;
    while i < |ids|
      invariant i <= |ids| && ops == RunOps(request, ids, i)
    {
      if Runs(request, request.nodes[i]) {
        ops := ops + [RunGeneration(Some(ids[i]), Some(WorkflowNodeType(request.nodes[i].kind)))];
      }
      i := i + 1;
    }
  }

  /** workflowOps. */
  method WorkflowOps(request: Request, existing: seq<Node>, ids: seq<string>) returns (r: Result<seq<Op>,
      WorkflowError>)
    requires |request.nodes| == |ids|
    ensures r == Generated(request, existing, ids)
  {
    if request.nodes == [] {
      return Err(NoNodes);
    }
    var i := 0;
    while i < |request.nodes|
      invariant i <= |request.nodes| && DraftErrors(request, existing, i) == DraftErrors(request, existing, 0)
    {
      var error := DraftError(request, existing, i);
      if error.Some? {
        return Err(error.value);
      }
      i := i + 1;
    }
    var ops := PushNodes(request, existing, ids);
    var known, links, keys := PushInternal(request, ids, EdgesOf(request), [], {});
    if !known {
      return Err(EdgeUnknown);
    }
    assert Links(links, keys) == LinkInternal(request, ids, EdgesOf(request), NO_LINKS);
    ghost var edgeLinks := Links(links, keys);
    known, links, keys := PushInternal(request, ids, ReferenceEdges(request.nodes), links, keys);
    if !known {
      return Err(RefUnknown);
    }
    assert Links(links, keys) == LinkInternal(request, ids, ReferenceEdges(request.nodes), edgeLinks);
    assert request.nodes[..|request.nodes|] == request.nodes;
    ExternalTargetsKnown(request, |request.nodes|);
    links := PushExternal(request, ids, ExternalEdges(request.nodes), links, keys);
    var runs := PushRuns(request, ids);
    return Ok(ops + links + [SelectNodes(Some(ids))] + runs);
  }
}
