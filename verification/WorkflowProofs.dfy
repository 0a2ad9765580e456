/** Generated operation lists pass the validator, and generated nodes keep their distance. */
module WorkflowProofs {
  import opened Wrappers
  import opened CanvasOps
  import opened Workflow
  import CanvasReplay

  // ---------------------------------------------------------------- what is assumed of names

  predicate NulFree(text: string) {
    forall i :: 0 <= i < |text| ==> text[i] != NUL[0]
  }

  predicate PlainNames(snapshot: Snapshot) {
    && (forall node :: node in snapshot.nodes ==> node.id != "" && NulFree(node.id))
    && (forall c :: c in snapshot.connections ==> NulFree(c.fromNodeId) && NulFree(c.toNodeId))
  }

  /** Newly drawn identifiers: distinct, usable, and used nowhere on the canvas. */
  predicate FreshIds(snapshot: Snapshot, ids: seq<string>) {
    && (forall i, j :: 0 <= i < j < |ids| ==> ids[i] != ids[j])
    && (forall i :: 0 <= i < |ids| ==>
          && ids[i] != "" && NulFree(ids[i]) && ids[i] !in NodeIds(snapshot.nodes)
          && forall c :: c in snapshot.connections ==> c.toNodeId != ids[i])
  }

  /** The edges between new nodes, in the order in which they are connected. */
  function InternalEdges(request: Request): seq<Edge> {
    EdgesOf(request) + ReferenceEdges(request.nodes)
  }

  /** An edge from a node to itself is the first under its key, so it is connected and not skipped. */
  predicate Loops(edges: seq<Edge>) {
    exists i :: 0 <= i < |edges| && edges[i].from == edges[i].to && FirstOfKey(edges, i)
  }

  predicate FirstOfKey(edges: seq<Edge>, i: nat)
    requires i < |edges|
  {
    forall j :: 0 <= j < i ==> PairKey(edges[j]) != PairKey(edges[i])
  }

  /** No edge and no reference leads from a node to itself. */
  predicate NoSelfReference(request: Request) {
    && (forall i :: 0 <= i < |request.edges| ==> request.edges[i].from != request.edges[i].to)
    && (forall i :: 0 <= i < |request.nodes| ==> request.nodes[i].ref !in request.nodes[i].referenceRefs)
  }

  // ---------------------------------------------------------------- keys of plain names

  lemma {:induction false} JoinInjective(a: string, x: string, b: string, y: string)
    requires NulFree(a) && NulFree(b) && a + NUL + x == b + NUL + y
    ensures a == b && x == y
    decreases |a|
  {
    assert (a + NUL + x)[0] == if a == "" then NUL[0] else a[0];
    assert (b + NUL + y)[0] == if b == "" then NUL[0] else b[0];
    if a == "" || b == "" {
      assert a == "" && b == "";
      assert x == (a + NUL + x)[1..] == (b + NUL + y)[1..] == y;
    } else {
      assert (a + NUL + x)[0] == a[0] && (b + NUL + y)[0] == b[0];
      assert (a + NUL + x)[1..] == a[1..] + NUL + x && (b + NUL + y)[1..] == b[1..] + NUL + y;
      JoinInjective(a[1..], x, b[1..], y);
      assert a == [a[0]] + a[1..] && b == [b[0]] + b[1..];
    }
  }

  lemma {:induction false} KeyInjective(a: string, b: string, h: Option<string>, i: Option<string>, c: string,
      d: string,
      j: Option<string>, k: Option<string>)
    requires NulFree(a) && NulFree(b) && NulFree(c) && NulFree(d)
    requires ConnectionKey(a, b, h, i) == ConnectionKey(c, d, j, k)
    ensures a == c && b == d
  {
    var restA := h.GetOr("") + NUL + i.GetOr("");
    var restC := j.GetOr("") + NUL + k.GetOr("");
    assert ConnectionKey(a, b, h, i) == a + NUL + (b + NUL + restA);
    assert ConnectionKey(c, d, j, k) == c + NUL + (d + NUL + restC);
    JoinInjective(a, b + NUL + restA, c, d + NUL + restC);
    JoinInjective(b, restA, d, restC);
  }

  // ---------------------------------------------------------------- the added nodes

  predicate AddsView(snapshot: Snapshot, ids: seq<string>, n: nat, view: View)
    requires n <= |ids|
  {
    && view.liveNodes == NodeIds(snapshot.nodes) + (set id | id in ids[..n])
    && view.added == (set id | id in ids[..n])
    && view.keys == InitialView(snapshot).keys && view.live == InitialView(snapshot).live
  }

  lemma {:induction false} AddStep(request: Request, snapshot: Snapshot, ids: seq<string>, n: nat, view: View)
    requires n < |request.nodes| == |ids| && FreshIds(snapshot, ids) && AddsView(snapshot, ids, n, view)
    ensures var op := AddOp(request, snapshot.nodes, ids, n);
      Problems(snapshot, view, op) == [] && AddsView(snapshot, ids, n + 1, Advance(snapshot, view, op, n))
  {
    hide CursorAt, WorkflowNodeType, LiveConnections, InitialView, NodeIds;
    TypeSupported(request.nodes[n].kind);
    assert ids[n] !in ids[..n];
    assert ids[..n + 1] == ids[..n] + [ids[n]];
  }

  lemma {:induction false} AddsAccepted(request: Request, snapshot: Snapshot, ids: seq<string>, n: nat)
    requires n <= |request.nodes| == |ids| && FreshIds(snapshot, ids)
    ensures |AddOps(request, snapshot.nodes, ids, n)| == n
    ensures Accepted(snapshot, AddOps(request, snapshot.nodes, ids, n))
    ensures AddsView(snapshot, ids, n, ViewAfter(snapshot, AddOps(request, snapshot.nodes, ids, n)))
    decreases n
  {
    hide AddOp, Accepted, ViewAfter, AddsView, Problems, Advance, FreshIds;
    if n == 0 {
      EmptyAccepted(snapshot, ids);
    } else {
      AddsAccepted(request, snapshot, ids, n - 1);
      var front := AddOps(request, snapshot.nodes, ids, n - 1);
      AddStep(request, snapshot, ids, n - 1, ViewAfter(snapshot, front));
      OneMore(snapshot, front, AddOp(request, snapshot.nodes, ids, n - 1));
    }
  }

  lemma {:induction false} EmptyAccepted(snapshot: Snapshot, ids: seq<string>)
    ensures Accepted(snapshot, []) && AddsView(snapshot, ids, 0, ViewAfter(snapshot, []))
  {
    assert ids[..0] == [];
  }

  lemma {:induction false} TypeSupported(kind: string)
    ensures !WorkflowNodeType(kind).Other?
  {
  }

  // ---------------------------------------------------------------- the connections

  /** A connection to a new node from another node, new or old. */
  predicate GoodLink(snapshot: Snapshot, ids: seq<string>, op: Op) {
    && op.ConnectNodes? && op == ConnectOp(op.fromNodeId.GetOr(""), op.toNodeId.GetOr(""))
    && op.fromNodeId != op.toNodeId
    && (op.fromNodeId.value in NodeIds(snapshot.nodes) || op.fromNodeId.value in ids) && op.toNodeId.value in ids
  }

  predicate GoodLinks(snapshot: Snapshot, ids: seq<string>, ops: seq<Op>) {
    && (forall i :: 0 <= i < |ops| ==> GoodLink(snapshot, ids, ops[i]))
    && (forall i, j :: 0 <= i < j < |ops| ==> ops[i] != ops[j])
  }

  function LinkKey(op: Op): string {
    if op.ConnectNodes? then ConnectionKey(op.fromNodeId.GetOr(""), op.toNodeId.GetOr(""), None, None) else ""
  }

  lemma {:induction false} NamesPlain(snapshot: Snapshot, ids: seq<string>, id: string)
    requires PlainNames(snapshot) && FreshIds(snapshot, ids) && (id in NodeIds(snapshot.nodes) || id in ids)
    ensures id != "" && NulFree(id)
  {
    if id in ids {
      var i :| 0 <= i < |ids| && ids[i] == id;
    }
  }

  lemma {:induction false} NewKey(snapshot: Snapshot, ids: seq<string>, op: Op)
    requires PlainNames(snapshot) && FreshIds(snapshot, ids) && GoodLink(snapshot, ids, op)
    ensures LinkKey(op) !in InitialView(snapshot).keys
  {
    NamesPlain(snapshot, ids, op.fromNodeId.value);
    NamesPlain(snapshot, ids, op.toNodeId.value);
    var i :| 0 <= i < |ids| && ids[i] == op.toNodeId.value;
    forall c | c in snapshot.connections ensures KeyOf(c) != LinkKey(op) {
      if KeyOf(c) == LinkKey(op) {
        KeyInjective(c.fromNodeId, c.toNodeId, c.fromHandleId, c.toHandleId, op.fromNodeId.value, op.toNodeId.value,
          None, None);
      }
    }
  }

  lemma {:induction false} DistinctKeys(snapshot: Snapshot, ids: seq<string>, a: Op, b: Op)
    requires PlainNames(snapshot) && FreshIds(snapshot, ids)
    requires GoodLink(snapshot, ids, a) && GoodLink(snapshot, ids, b) && LinkKey(a) == LinkKey(b)
    ensures a == b
  {
    NamesPlain(snapshot, ids, a.fromNodeId.value);
    NamesPlain(snapshot, ids, a.toNodeId.value);
    NamesPlain(snapshot, ids, b.fromNodeId.value);
    NamesPlain(snapshot, ids, b.toNodeId.value);
    KeyInjective(a.fromNodeId.value, a.toNodeId.value, None, None, b.fromNodeId.value, b.toNodeId.value, None, None);
  }

  predicate LinksView(snapshot: Snapshot, ids: seq<string>, links: seq<Op>, view: View) {
    && view.liveNodes == NodeIds(snapshot.nodes) + (set id | id in ids)
    && view.keys == InitialView(snapshot).keys + (set op | op in links :: LinkKey(op))
  }

  lemma {:induction false} LinksAccepted(snapshot: Snapshot, ids: seq<string>, base: seq<Op>, links: seq<Op>)
    requires PlainNames(snapshot) && FreshIds(snapshot, ids) && GoodLinks(snapshot, ids, links)
    requires Accepted(snapshot, base) && LinksView(snapshot, ids, [], ViewAfter(snapshot, base))
    ensures Accepted(snapshot, base + links) && LinksView(snapshot, ids, links, ViewAfter(snapshot, base + links))
    decreases |links|
  {
    hide Accepted, InitialView, ViewAfter, FreshIds, PlainNames;
    if links == [] {
      assert base + [] == base;
    } else {
      var n := |links| - 1;
      var front, op := links[..n], links[n];
      assert GoodLinks(snapshot, ids, front);
      LinksAccepted(snapshot, ids, base, front);
      assert base + links == (base + front) + [op];
      assert links == front + [op];
      LinkHasNoProblem(snapshot, ids, ViewAfter(snapshot, base + front), front, op);
      OneMore(snapshot, base + front, op);
    }
  }

  lemma {:induction false} LinkHasNoProblem(snapshot: Snapshot, ids: seq<string>, view: View, front: seq<Op>, op: Op)
    requires PlainNames(snapshot) && FreshIds(snapshot, ids) && GoodLink(snapshot, ids, op)
    requires forall i :: 0 <= i < |front| ==> GoodLink(snapshot, ids, front[i]) && front[i] != op
    requires LinksView(snapshot, ids, front, view)
    ensures Problems(snapshot, view, op) == []
    ensures Advance(snapshot, view, op, 0).keys == view.keys + {LinkKey(op)}
  {
    NamesPlain(snapshot, ids, op.fromNodeId.value);
    NamesPlain(snapshot, ids, op.toNodeId.value);
    NewKey(snapshot, ids, op);
    forall other | other in front ensures LinkKey(other) != LinkKey(op) {
      var i :| 0 <= i < |front| && front[i] == other;
      if LinkKey(other) == LinkKey(op) {
        DistinctKeys(snapshot, ids, other, op);
      }
    }
    hide ConnectionKey;
    assert op.fromNodeId.value in view.liveNodes && op.toNodeId.value in view.liveNodes;
  }

  // ---------------------------------------------------------------- the generator's connections are good ones

  predicate DistinctRefs(nodes: seq<Draft>) {
    forall i, j :: 0 <= i < j < |nodes| ==> nodes[i].ref != nodes[j].ref
  }

  lemma {:induction false} DraftsChecked(request: Request, existing: seq<Node>, i: nat)
    requires i <= |request.nodes| && DraftErrors(request, existing, i).None?
    ensures forall k :: i <= k < |request.nodes| ==> DraftError(request, existing, k).None?
    decreases |request.nodes| - i
  {
    if i < |request.nodes| {
      DraftsChecked(request, existing, i + 1);
    }
  }

  lemma {:induction false} ChecksMean(request: Request, existing: seq<Node>)
    requires DraftErrors(request, existing, 0).None?
    ensures DistinctRefs(request.nodes)
    ensures forall i, id :: 0 <= i < |request.nodes| && id in request.nodes[i].referenceNodeIds ==>
        id in NodeIds(existing)
  {
    DraftsChecked(request, existing, 0);
    forall i, j | 0 <= i < j < |request.nodes| ensures request.nodes[i].ref != request.nodes[j].ref {
      assert DraftError(request, existing, j).None?;
      assert Trim(request.nodes[i].ref) != Trim(request.nodes[j].ref);
    }
    forall i, id | 0 <= i < |request.nodes| && id in request.nodes[i].referenceNodeIds ensures id in NodeIds(existing) {
      assert DraftError(request, existing, i).None?;
    }
  }

  lemma {:induction false} IdForInjective(request: Request, snapshot: Snapshot, ids: seq<string>, a: string, b: string)
    requires |request.nodes| == |ids| && FreshIds(snapshot, ids) && Known(request, a) && Known(request, b)
    requires IdFor(request, ids, a) == IdFor(request, ids, b)
    ensures a == b
  {
    var i, j := RefIndex(request.nodes, a), RefIndex(request.nodes, b);
    assert ids[i] == ids[j];
  }

  /** Where a pushed connection comes from: an edge between new nodes, or from an old one. */
  predicate Witnessed(request: Request, existing: seq<Node>, ids: seq<string>, keys: set<string>, op: Op, edge: Edge)
    requires |request.nodes| == |ids|
  {
    && PairKey(edge) in keys && op.ConnectNodes? && Known(request, edge.to)
    && op.toNodeId == Some(IdFor(request, ids, edge.to))
    && ((Known(request, edge.from) && op.fromNodeId == Some(IdFor(request, ids, edge.from)))
        || (edge.from in NodeIds(existing) && op.fromNodeId == Some(edge.from)))
  }

  ghost predicate HasWitness(request: Request, existing: seq<Node>, ids: seq<string>, keys: set<string>, op: Op)
    requires |request.nodes| == |ids|
  {
    exists edge :: Witnessed(request, existing, ids, keys, op, edge)
  }

  lemma {:induction false} WitnessStays(request: Request, existing: seq<Node>, ids: seq<string>, keys: set<string>,
      more: set<string>,
      op: Op)
    requires |request.nodes| == |ids| && HasWitness(request, existing, ids, keys, op) && keys <= more
    ensures HasWitness(request, existing, ids, more, op)
  {
    var edge :| Witnessed(request, existing, ids, keys, op, edge);
    assert Witnessed(request, existing, ids, more, op, edge);
  }

  ghost predicate LinksGood(request: Request, snapshot: Snapshot, ids: seq<string>, links: Links)
    requires |request.nodes| == |ids|
  {
    && GoodLinks(snapshot, ids, links.ops)
    && forall i :: 0 <= i < |links.ops| ==> HasWitness(request, snapshot.nodes, ids, links.keys, links.ops[i])
  }

  lemma {:induction false} LinkedGood(request: Request, snapshot: Snapshot, ids: seq<string>, links: Links, edge: Edge,
      fromId: string)
    requires |request.nodes| == |ids| && FreshIds(snapshot, ids) && LinksGood(request, snapshot, ids, links)
    requires Known(request, edge.to)
    requires (Known(request, edge.from) && fromId == IdFor(request, ids, edge.from) && edge.from != edge.to)
          || (edge.from in NodeIds(snapshot.nodes) && fromId == edge.from)
    ensures LinksGood(request, snapshot, ids, Linked(links, edge, fromId, IdFor(request, ids, edge.to)))
  {
    var toId := IdFor(request, ids, edge.to);
    var next := Linked(links, edge, fromId, toId);
    if PairKey(edge) !in links.keys {
      var op := ConnectOp(fromId, toId);
      FreshIsNew(snapshot, ids, toId);
      if Known(request, edge.from) && fromId == IdFor(request, ids, edge.from) {
        FreshIsNew(snapshot, ids, fromId);
        if fromId == toId { IdForInjective(request, snapshot, ids, edge.from, edge.to); }
      }
      assert GoodLink(snapshot, ids, op);
      forall i | 0 <= i < |links.ops| ensures links.ops[i] != op {
        if links.ops[i] == op {
          SamePair(request, snapshot, ids, links.keys, op, edge, fromId);
        }
      }
      assert Witnessed(request, snapshot.nodes, ids, next.keys, op, edge);
      forall i | 0 <= i < |next.ops| ensures HasWitness(request, snapshot.nodes, ids, next.keys, next.ops[i]) {
        if i < |links.ops| {
          WitnessStays(request, snapshot.nodes, ids, links.keys, next.keys, links.ops[i]);
        } else {
          assert next.ops[i] == op;
        }
      }
    }
  }

  lemma {:induction false} FreshIsNew(snapshot: Snapshot, ids: seq<string>, id: string)
    requires FreshIds(snapshot, ids) && id in ids
    ensures id !in NodeIds(snapshot.nodes)
  {
    var i :| 0 <= i < |ids| && ids[i] == id;
  }

  /** The same connection was recorded under the same pair. */
  lemma {:induction false} SamePair(request: Request, snapshot: Snapshot, ids: seq<string>, keys: set<string>, op: Op,
      edge: Edge,
      fromId: string)
    requires |request.nodes| == |ids| && FreshIds(snapshot, ids) && Known(request, edge.to)
    requires op == ConnectOp(fromId, IdFor(request, ids, edge.to))
    requires (Known(request, edge.from) && fromId == IdFor(request, ids, edge.from))
          || (edge.from in NodeIds(snapshot.nodes) && fromId == edge.from)
    requires HasWitness(request, snapshot.nodes, ids, keys, op)
    ensures PairKey(edge) in keys
  {
    var e :| Witnessed(request, snapshot.nodes, ids, keys, op, e);
    IdForInjective(request, snapshot, ids, e.to, edge.to);
    if fromId in NodeIds(snapshot.nodes) {
      if Known(request, e.from) && fromId == IdFor(request, ids, e.from) { FreshIsNew(snapshot, ids, fromId); }
      if Known(request, edge.from) && fromId == IdFor(request, ids, edge.from) { FreshIsNew(snapshot, ids, fromId); }
      assert e.from == edge.from;
    } else {
      IdForInjective(request, snapshot, ids, e.from, edge.from);
    }
  }

  function KeysFrom(edges: seq<Edge>): set<string> {
    set edge | edge in edges :: PairKey(edge)
  }

  lemma {:induction false} KeysRecorded(request: Request, ids: seq<string>, edges: seq<Edge>, links: Links)
    requires |request.nodes| == |ids| && AllKnown(request, edges)
    ensures LinkInternal(request, ids, edges, links).keys == links.keys + KeysFrom(edges)
    ensures links.ops <= LinkInternal(request, ids, edges, links).ops
    decreases |edges|
  {
    hide PairKey, IdFor, ConnectOp;
    if edges != [] {
      var n := |edges| - 1;
      assert EndsKnown(request, edges[n]);
      KeysRecorded(request, ids, edges[..n], links);
      assert forall edge :: edge in edges <==> edge in edges[..n] || edge == edges[n];
    }
  }

  /** A self-edge that is not the first under its key is skipped. */
  lemma {:induction false} SkippedLoop(request: Request, ids: seq<string>, edges: seq<Edge>)
    requires |request.nodes| == |ids| && AllKnown(request, edges) && edges != [] && !Loops(edges)
    requires edges[|edges| - 1].from == edges[|edges| - 1].to
    ensures PairKey(edges[|edges| - 1]) in LinkInternal(request, ids, edges[..|edges| - 1], NO_LINKS).keys
  {
    var n := |edges| - 1;
    KeysRecorded(request, ids, edges[..n], NO_LINKS);
    hide PairKey;
    assert !FirstOfKey(edges, n);
    var j :| 0 <= j < n && PairKey(edges[j]) == PairKey(edges[n]);
    assert edges[..n][j] == edges[j];
  }

  lemma {:induction false} LoopsLater(edges: seq<Edge>, n: nat)
    requires n <= |edges| && Loops(edges[..n])
    ensures Loops(edges)
  {
    hide PairKey;
    var i :| 0 <= i < n && edges[..n][i].from == edges[..n][i].to && FirstOfKey(edges[..n], i);
    assert FirstOfKey(edges, i) by {
      assert forall j :: 0 <= j <= i ==> edges[..n][j] == edges[j];
    }
  }

  lemma {:induction false} InternalGood(request: Request, snapshot: Snapshot, ids: seq<string>, edges: seq<Edge>)
    requires |request.nodes| == |ids| && FreshIds(snapshot, ids) && AllKnown(request, edges) && !Loops(edges)
    ensures LinksGood(request, snapshot, ids, LinkInternal(request, ids, edges, NO_LINKS))
    decreases |edges|
  {
    hide LinksGood, FreshIds, Loops;
    if edges == [] {
      NothingGood(request, snapshot, ids);
    } else {
      var n := |edges| - 1;
      assert EndsKnown(request, edges[n]);
      if Loops(edges[..n]) {
        LoopsLater(edges, n);
      }
      InternalGood(request, snapshot, ids, edges[..n]);
      if edges[n].from == edges[n].to {
        SkippedLoop(request, ids, edges);
      } else {
        LinkedGood(request, snapshot, ids, LinkInternal(request, ids, edges[..n], NO_LINKS), edges[n],
          IdFor(request, ids, edges[n].from));
      }
    }
  }

  lemma {:induction false} NothingGood(request: Request, snapshot: Snapshot, ids: seq<string>)
    requires |request.nodes| == |ids|
    ensures LinksGood(request, snapshot, ids, NO_LINKS)
  {
  }

  lemma {:induction false} InternalJoins(request: Request, ids: seq<string>, a: seq<Edge>, b: seq<Edge>, links: Links)
    requires |request.nodes| == |ids| && AllKnown(request, a) && AllKnown(request, b) && AllKnown(request, a + b)
    ensures LinkInternal(request, ids, a + b, links)
        == LinkInternal(request, ids, b, LinkInternal(request, ids, a, links))
    decreases |b|
  {
    hide Linked, IdFor;
    if b == [] {
      assert a + b == a;
    } else {
      var n := |b| - 1;
      assert (a + b)[..|a + b| - 1] == a + b[..n] && (a + b)[|a + b| - 1] == b[n];
      assert EndsKnown(request, b[n]);
      InternalJoins(request, ids, a, b[..n], links);
    }
  }

  lemma {:induction false} BothKnown(request: Request, a: seq<Edge>, b: seq<Edge>)
    requires AllKnown(request, a) && AllKnown(request, b)
    ensures AllKnown(request, a + b)
  {
    hide EndsKnown;
    forall i | 0 <= i < |a + b| ensures EndsKnown(request, (a + b)[i]) {
      assert i < |a| ==> (a + b)[i] == a[i];
      assert i >= |a| ==> (a + b)[i] == b[i - |a|];
    }
  }

  // ---------------------------------------------------------------- a self-edge is refused

  lemma {:induction false} LoopIsLinked(request: Request, ids: seq<string>, edges: seq<Edge>) returns (p: nat)
    requires |request.nodes| == |ids| && AllKnown(request, edges) && Loops(edges)
    ensures var ops := LinkInternal(request, ids, edges, NO_LINKS).ops;
      p < |ops| && ops[p].ConnectNodes? && ops[p].fromNodeId == ops[p].toNodeId
    decreases |edges|
  {
    hide PairKey, IdFor;
    var i :| 0 <= i < |edges| && edges[i].from == edges[i].to && FirstOfKey(edges, i);
    var n := |edges| - 1;
    var front := edges[..n];
    assert EndsKnown(request, edges[n]);
    if i < n {
      assert FirstOfKey(front, i) by {
        assert forall j :: 0 <= j <= i ==> front[j] == edges[j];
      }
      p := LoopIsLinked(request, ids, front);
    } else {
      KeysRecorded(request, ids, front, NO_LINKS);
      assert PairKey(edges[n]) !in KeysFrom(front);
      p := |LinkInternal(request, ids, front, NO_LINKS).ops|;
    }
  }

  lemma {:induction false} ExternalExtends(request: Request, ids: seq<string>, edges: seq<Edge>, links: Links)
    requires |request.nodes| == |ids| && TargetsKnown(request, edges)
    ensures links.ops <= LinkExternal(request, ids, edges, links).ops
    decreases |edges|
  {
    hide PairKey, IdFor;
    if edges != [] {
      assert Known(request, edges[|edges| - 1].to);
      ExternalExtends(request, ids, edges[..|edges| - 1], links);
    }
  }

  lemma {:induction false} AllLinksExtend(request: Request, ids: seq<string>)
    requires |request.nodes| == |ids|
    requires AllKnown(request, EdgesOf(request)) && AllKnown(request, ReferenceEdges(request.nodes))
    ensures AllKnown(request, InternalEdges(request))
    ensures LinkInternal(request, ids, InternalEdges(request), NO_LINKS).ops <= AllLinks(request, ids).ops
  {
    hide LinkInternal, LinkExternal, EdgesOf, ReferenceEdges, ExternalEdges, AllKnown;
    BothKnown(request, EdgesOf(request), ReferenceEdges(request.nodes));
    InternalJoins(request, ids, EdgesOf(request), ReferenceEdges(request.nodes), NO_LINKS);
    assert request.nodes[..|request.nodes|] == request.nodes;
    ExternalTargetsKnown(request, |request.nodes|);
    ExternalExtends(request, ids, ExternalEdges(request.nodes),
      LinkInternal(request, ids, InternalEdges(request), NO_LINKS));
  }

  /** A list with a connection from a node to itself anywhere in it is refused. */
  lemma {:induction false} SelfConnectionRefused(snapshot: Snapshot, ops: seq<Op>, p: nat)
    requires p < |ops| && ops[p].ConnectNodes? && ops[p].fromNodeId == ops[p].toNodeId
    ensures !Accepted(snapshot, ops)
  {
    hide Accepted, ViewAfter, NodeProblems, ConnectionKey;
    if Accepted(snapshot, ops) {
      CanvasReplay.AcceptedUpTo(snapshot, ops, p + 1);
      CanvasReplay.AcceptedPrefix(snapshot, ops[..p + 1]);
      SelfConnectionFound(snapshot, ViewAfter(snapshot, ops[..p + 1][..p]), ops[p]);
      assert false;
    }
  }

  lemma {:induction false} SelfConnectionFound(snapshot: Snapshot, view: View, op: Op)
    requires op.ConnectNodes? && op.fromNodeId == op.toNodeId
    ensures Problems(snapshot, view, op) != []
  {
    hide NodeProblems, ConnectionKey;
    assert SelfConnection in Problems(snapshot, view, op);
  }

  lemma {:induction false} LoopRefused(request: Request, snapshot: Snapshot, ids: seq<string>)
    requires |request.nodes| == |ids| && Generated(request, snapshot.nodes, ids).Ok? && Loops(InternalEdges(request))
    ensures !Accepted(snapshot, Generated(request, snapshot.nodes, ids).value)
  {
    hide Accepted, LinkInternal, AddOps, RunOps, Loops, DraftErrors, AllKnown;
    AllLinksExtend(request, ids);
    var p := LoopIsLinked(request, ids, InternalEdges(request));
    hide AllLinks, InternalEdges;
    var ops := Generated(request, snapshot.nodes, ids).value;
    var adds, links := AddOps(request, snapshot.nodes, ids, |ids|), AllLinks(request, ids).ops;
    assert ops[|adds| + p] == links[p];
    SelfConnectionRefused(snapshot, ops, |adds| + p);
  }

  lemma {:induction false} ExternalGood(request: Request, snapshot: Snapshot, ids: seq<string>, edges: seq<Edge>,
      links: Links)
    requires |request.nodes| == |ids| && FreshIds(snapshot, ids) && TargetsKnown(request, edges)
    requires forall i :: 0 <= i < |edges| ==> edges[i].from in NodeIds(snapshot.nodes)
    requires LinksGood(request, snapshot, ids, links)
    ensures LinksGood(request, snapshot, ids, LinkExternal(request, ids, edges, links))
    decreases |edges|
  {
    hide LinksGood, FreshIds;
    if edges != [] {
      var n := |edges| - 1;
      assert Known(request, edges[n].to);
      ExternalGood(request, snapshot, ids, edges[..n], links);
      LinkedGood(request, snapshot, ids, LinkExternal(request, ids, edges[..n], links), edges[n], edges[n].from);
    }
  }

  lemma {:induction false} ChainHasNoLoop(nodes: seq<Draft>)
    requires DistinctRefs(nodes)
    ensures forall i :: 0 <= i < |Chain(nodes)| ==> Chain(nodes)[i].from != Chain(nodes)[i].to
    decreases |nodes|
  {
    if |nodes| >= 2 {
      ChainHasNoLoop(nodes[..|nodes| - 1]);
    }
  }

  lemma {:induction false} ReferencesLoopExactly(nodes: seq<Draft>)
    ensures (forall edge :: edge in ReferenceEdges(nodes) ==> edge.from != edge.to)
       <==> (forall i :: 0 <= i < |nodes| ==> nodes[i].ref !in nodes[i].referenceRefs)
    decreases |nodes|
  {
    if nodes != [] {
      var n := |nodes| - 1;
      var last := nodes[n];
      ReferencesLoopExactly(nodes[..n]);
      var front, own := ReferenceEdges(nodes[..n]), EdgesTo(last.referenceRefs, last.ref);
      assert forall edge :: edge in ReferenceEdges(nodes) <==> edge in front || edge in own;
      OwnLoops(last.referenceRefs, last.ref);
      assert forall i :: 0 <= i < n ==> nodes[..n][i] == nodes[i];
    }
  }

  lemma {:induction false} OwnLoops(from: seq<string>, to: string)
    ensures (forall edge :: edge in EdgesTo(from, to) ==> edge.from != edge.to) <==> to !in from
  {
    if to in from {
      var i :| 0 <= i < |from| && from[i] == to;
      assert EdgesTo(from, to)[i] in EdgesTo(from, to);
    }
  }

  lemma {:induction false} ExternalsExist(nodes: seq<Draft>, existing: seq<Node>)
    requires forall i, id :: 0 <= i < |nodes| && id in nodes[i].referenceNodeIds ==> id in NodeIds(existing)
    ensures forall i :: 0 <= i < |ExternalEdges(nodes)| ==> ExternalEdges(nodes)[i].from in NodeIds(existing)
    decreases |nodes|
  {
    hide NodeIds;
    if nodes != [] {
      ExternalsExist(nodes[..|nodes| - 1], existing);
    }
  }

  lemma {:induction false} AllLinksGood(request: Request, snapshot: Snapshot, ids: seq<string>)
    requires |request.nodes| == |ids| && FreshIds(snapshot, ids) && !Loops(InternalEdges(request))
    requires DraftErrors(request, snapshot.nodes, 0).None?
    requires AllKnown(request, EdgesOf(request)) && AllKnown(request, ReferenceEdges(request.nodes))
    ensures GoodLinks(snapshot, ids, AllLinks(request, ids).ops)
  {
    hide FreshIds, NodeIds, HasWitness, LinkInternal, LinkExternal, Loops, AllKnown, GoodLinks, EdgesOf, ReferenceEdges;
    ChecksMean(request, snapshot.nodes);
    ExternalsExist(request.nodes, snapshot.nodes);
    assert request.nodes[..|request.nodes|] == request.nodes;
    ExternalTargetsKnown(request, |request.nodes|);
    BothKnown(request, EdgesOf(request), ReferenceEdges(request.nodes));
    InternalGood(request, snapshot, ids, InternalEdges(request));
    InternalJoins(request, ids, EdgesOf(request), ReferenceEdges(request.nodes), NO_LINKS);
    ExternalGood(request, snapshot, ids, ExternalEdges(request.nodes),
      LinkInternal(request, ids, InternalEdges(request), NO_LINKS));
  }

  // ---------------------------------------------------------------- selecting and running

  lemma {:induction false} IdsSelectable(liveNodes: set<string>, ids: seq<string>)
    requires forall id :: id in ids ==> Selectable(liveNodes, id)
    ensures NodesProblems(liveNodes, ids) == []
    decreases |ids|
  {
    if ids != [] {
      var front := ids[..|ids| - 1];
      forall id | id in front ensures Selectable(liveNodes, id) {
        assert id in ids;
      }
      IdsSelectable(liveNodes, front);
      assert Selectable(liveNodes, ids[|ids| - 1]);
    }
  }

  predicate Selectable(liveNodes: set<string>, id: string) {
    id != "" && id in liveNodes
  }

  lemma {:induction false} NotFound(nodes: seq<Node>, id: string)
    requires id !in NodeIds(nodes)
    ensures FindNode(nodes, Some(id)).None?
    decreases |nodes|
  {
    if nodes != [] {
      assert nodes[0].id in NodeIds(nodes);
      forall other | other in NodeIds(nodes[1..]) ensures other in NodeIds(nodes) {
        var node :| node in nodes[1..] && node.id == other;
        assert node in nodes;
      }
      NotFound(nodes[1..], id);
    }
  }

  lemma {:induction false} RunsAccepted(request: Request, snapshot: Snapshot, ids: seq<string>, base: seq<Op>, n: nat)
    requires n <= |request.nodes| == |ids| && FreshIds(snapshot, ids) && Accepted(snapshot, base)
    requires forall id :: id in ids ==> id in ViewAfter(snapshot, base).liveNodes
    ensures Accepted(snapshot, base + RunOps(request, ids, n))
    ensures ViewAfter(snapshot, base + RunOps(request, ids, n)) == ViewAfter(snapshot, base)
    decreases n
  {
    hide Accepted, ViewAfter;
    if n == 0 {
      assert base + [] == base;
    } else {
      RunsAccepted(request, snapshot, ids, base, n - 1);
      var front := base + RunOps(request, ids, n - 1);
      if Runs(request, request.nodes[n - 1]) {
        var op := RunGeneration(Some(ids[n - 1]), Some(WorkflowNodeType(request.nodes[n - 1].kind)));
        NotFound(snapshot.nodes, ids[n - 1]);
        assert ids[n - 1] in ids;
        OneMore(snapshot, front, op);
        assert base + RunOps(request, ids, n) == front + [op];
      } else {
        assert base + RunOps(request, ids, n) == front;
      }
    }
  }

  lemma {:induction false} LoopFreeAccepted(request: Request, snapshot: Snapshot, ids: seq<string>)
    requires |request.nodes| == |ids| && PlainNames(snapshot) && FreshIds(snapshot, ids)
    requires Generated(request, snapshot.nodes, ids).Ok? && !Loops(InternalEdges(request))
    ensures Accepted(snapshot, Generated(request, snapshot.nodes, ids).value)
  {
    hide Accepted, ViewAfter, Advance, InitialView, LinkKey, Loops, NodesProblems, GoodLinks;
    var adds := AddOps(request, snapshot.nodes, ids, |ids|);
    AddsAccepted(request, snapshot, ids, |ids|);
    assert ids[..|ids|] == ids;
    var links := AllLinks(request, ids).ops;
    AllLinksGood(request, snapshot, ids);
    assert LinksView(snapshot, ids, [], ViewAfter(snapshot, adds));
    LinksAccepted(snapshot, ids, adds, links);
    var base := adds + links;
    IdsUsable(snapshot, ids);
    IdsSelectable(ViewAfter(snapshot, base).liveNodes, ids);
    SelectAccepted(snapshot, base, ids);
    RunsAccepted(request, snapshot, ids, base + [SelectNodes(Some(ids))], |ids|);
  }

  /** Main result: a list the workflow generator returns passes the validator exactly when no edge or reference that
      is connected leads from a node to itself. */
  lemma {:induction false} WorkflowAcceptedExactly(request: Request, snapshot: Snapshot, ids: seq<string>)
    requires |request.nodes| == |ids| && PlainNames(snapshot) && FreshIds(snapshot, ids)
    requires Generated(request, snapshot.nodes, ids).Ok?
    ensures Accepted(snapshot, Generated(request, snapshot.nodes, ids).value) <==> !Loops(InternalEdges(request))
  {
    hide Generated, Accepted, Loops, InternalEdges, PlainNames, FreshIds;
    if Loops(InternalEdges(request)) {
      LoopRefused(request, snapshot, ids);
    } else {
      LoopFreeAccepted(request, snapshot, ids);
    }
  }

  lemma {:induction false} LoopsExactly(edges: seq<Edge>)
    requires forall i :: 0 <= i < |edges| ==> NulFree(edges[i].from)
    ensures Loops(edges) <==> exists edge :: edge in edges && edge.from == edge.to
  {
    if edge :| edge in edges && edge.from == edge.to {
      var i :| 0 <= i < |edges| && edges[i] == edge;
      FirstSuch(edges, i);
    }
  }

  /** The first edge under the key of a self-edge is that same self-edge. */
  lemma {:induction false} FirstSuch(edges: seq<Edge>, i: nat)
    requires i < |edges| && edges[i].from == edges[i].to
    requires forall k :: 0 <= k < |edges| ==> NulFree(edges[k].from)
    ensures Loops(edges)
    decreases i
  {
    hide NulFree;
    if !FirstOfKey(edges, i) {
      var j :| 0 <= j < i && PairKey(edges[j]) == PairKey(edges[i]);
      JoinInjective(edges[j].from, edges[j].to, edges[i].from, edges[i].to);
      FirstSuch(edges, j);
    }
  }

  /** For reference names without NUL: exactly when no edge and no reference leads from a node to itself. */
  lemma {:induction false} PlainWorkflowAcceptedExactly(request: Request, snapshot: Snapshot, ids: seq<string>)
    requires |request.nodes| == |ids| && PlainNames(snapshot) && FreshIds(snapshot, ids)
    requires Generated(request, snapshot.nodes, ids).Ok?
    requires forall i :: 0 <= i < |request.nodes| ==> NulFree(request.nodes[i].ref)
    ensures Accepted(snapshot, Generated(request, snapshot.nodes, ids).value) <==> NoSelfReference(request)
  {
    WorkflowAcceptedExactly(request, snapshot, ids);
    ChecksMean(request, snapshot.nodes);
    EndsPlain(request);
    LoopsExactly(InternalEdges(request));
    SelfReferenceExactly(request);
  }

  lemma {:induction false} EndsPlain(request: Request)
    requires AllKnown(request, EdgesOf(request)) && AllKnown(request, ReferenceEdges(request.nodes))
    requires forall i :: 0 <= i < |request.nodes| ==> NulFree(request.nodes[i].ref)
    ensures forall i :: 0 <= i < |InternalEdges(request)| ==> NulFree(InternalEdges(request)[i].from)
  {
    hide NulFree, EdgesOf, ReferenceEdges, AllKnown;
    BothKnown(request, EdgesOf(request), ReferenceEdges(request.nodes));
    KnownEndsPlain(request, InternalEdges(request));
  }

  lemma {:induction false} KnownEndsPlain(request: Request, edges: seq<Edge>)
    requires AllKnown(request, edges) && forall i :: 0 <= i < |request.nodes| ==> NulFree(request.nodes[i].ref)
    ensures forall i :: 0 <= i < |edges| ==> NulFree(edges[i].from)
  {
    hide NulFree;
    forall i | 0 <= i < |edges| ensures NulFree(edges[i].from) {
      assert EndsKnown(request, edges[i]);
    }
  }

  lemma {:induction false} SelfReferenceExactly(request: Request)
    requires DistinctRefs(request.nodes)
    ensures NoSelfReference(request) <==> forall edge :: edge in InternalEdges(request) ==> edge.from != edge.to
  {
    ChainHasNoLoop(request.nodes);
    ReferencesLoopExactly(request.nodes);
    var edges, references := EdgesOf(request), ReferenceEdges(request.nodes);
    hide ReferenceEdges, Chain, DistinctRefs;
    assert forall edge :: edge in InternalEdges(request) <==> edge in edges || edge in references;
    assert forall i :: 0 <= i < |request.edges| ==> request.edges[i] in request.edges;
  }

  lemma {:induction false} IdsUsable(snapshot: Snapshot, ids: seq<string>)
    requires FreshIds(snapshot, ids)
    ensures forall id :: id in ids ==> id != ""
  {
  }

  lemma {:induction false} SelectAccepted(snapshot: Snapshot, base: seq<Op>, ids: seq<string>)
    requires Accepted(snapshot, base) && NodesProblems(ViewAfter(snapshot, base).liveNodes, ids) == []
    ensures Accepted(snapshot, base + [SelectNodes(Some(ids))])
    ensures ViewAfter(snapshot, base + [SelectNodes(Some(ids))]) == ViewAfter(snapshot, base)
  {
    hide Accepted, ViewAfter, NodesProblems;
    OneMore(snapshot, base, SelectNodes(Some(ids)));
  }

  const SELF_EDGE: Request :=
    Request([Draft("a", "a", "text", "", None, None, [], [], false)], [Edge("a", "a")], false, None, None, false)

  /** One text node with an edge to itself: generated without complaint, and refused. */
  lemma {:induction false} SelfEdgeRefused(snapshot: Snapshot, id: string)
    ensures Generated(SELF_EDGE, snapshot.nodes, [id]).Ok?
    ensures !Accepted(snapshot, Generated(SELF_EDGE, snapshot.nodes, [id]).value)
  {
    SelfEdgeGenerated(snapshot, id);
    hide Generated, Accepted;
    var edges := InternalEdges(SELF_EDGE);
    assert edges[0] == Edge("a", "a") && FirstOfKey(edges, 0);
    LoopRefused(SELF_EDGE, snapshot, [id]);
  }

  lemma {:induction false} SelfEdgeGenerated(snapshot: Snapshot, id: string)
    ensures Generated(SELF_EDGE, snapshot.nodes, [id]).Ok?
  {
    hide AllLinks, AddOps, RunOps;
    var draft := SELF_EDGE.nodes[0];
    assert Trim("a") == "a";
    assert WorkflowNodeType("text") == Text;
    assert DraftError(SELF_EDGE, snapshot.nodes, 0).None?;
    assert DraftErrors(SELF_EDGE, snapshot.nodes, 1).None?;
    assert Known(SELF_EDGE, "a") by { assert SELF_EDGE.nodes[0].ref == "a"; }
    NoReferences(draft);
  }

  lemma {:induction false} NoReferences(draft: Draft)
    requires draft.referenceRefs == []
    ensures ReferenceEdges([draft]) == []
  {
    assert [draft][..0] == [];
  }
}
