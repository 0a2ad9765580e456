/** The prompt-to-result flow of canvas-agent/src/canvas-session.ts, whose result the validator sees as given. */
module GenerationFlow {
  import opened Wrappers
  import opened CanvasOps
  import opened Workflow
  import opened WorkflowProofs

  /** The numbers are what Number() makes of the input; width and height are absent unless they are numbers. */
  datatype FlowRequest = FlowRequest(
    mode: NodeType, x: Coordinate, y: Coordinate, width: Coordinate, height: Coordinate, referenceNodeIds: seq<string>,
      autoRun: bool)

  function Shifted(value: Coordinate, distance: real): Coordinate {
    if value.Finite? then Finite(value.value + distance) else value
  }

  function TextOp(request: FlowRequest, textId: string): Op {
    AddNode(Some(textId), Some(Text), Absent, Absent, At(request.x, request.y), Absent, Absent)
  }

  function TargetOp(request: FlowRequest, targetId: string): Op {
    AddNode(Some(targetId), Some(request.mode), Absent, Absent, At(Shifted(request.x, 420.0), request.y), request.width,
      request.height)
  }

  function ReferenceOps(references: seq<string>, targetId: string): seq<Op> {
    if references == [] then []
    else ReferenceOps(references[..|references| - 1], targetId) + [ConnectOp(references[|references| - 1], targetId)]
  }

  /** generationFlowOps. */
  function GenerationFlowOps(request: FlowRequest, textId: string, targetId: string): seq<Op> {
    [TextOp(request, textId), TargetOp(request, targetId), ConnectOp(textId, targetId)]
    + ReferenceOps(request.referenceNodeIds, targetId)
    + [SelectNodes(Some([targetId]))]
    + (if request.autoRun then [RunGeneration(Some(targetId), Some(request.mode))] else [])
  }

  predicate Distinct(ids: seq<string>) {
    forall i, j :: 0 <= i < j < |ids| ==> ids[i] != ids[j]
  }

  predicate AllExist(snapshot: Snapshot, ids: seq<string>) {
    forall i :: 0 <= i < |ids| ==> ids[i] in NodeIds(snapshot.nodes)
  }

  predicate Usable(size: Coordinate) {
    size.Absent? || (size.Finite? && size.value > 0.0)
  }

  predicate PlacedFinitely(request: FlowRequest) {
    !request.x.NotFinite? && !request.y.NotFinite? && Usable(request.width) && Usable(request.height)
  }

  /** The canvas as the flow's connections find it: both new nodes live, and these connections made. */
  predicate FlowView(snapshot: Snapshot, ids: seq<string>, references: seq<string>, view: View)
    requires |ids| == 2
  {
    && view.liveNodes == NodeIds(snapshot.nodes) + {ids[0], ids[1]}
    && view.keys == InitialView(snapshot).keys + {LinkKey(ConnectOp(ids[0], ids[1]))}
                    + (set reference | reference in references :: LinkKey(ConnectOp(reference, ids[1])))
  }

  lemma {:induction false} NodesPlaced(request: FlowRequest, snapshot: Snapshot, ids: seq<string>)
    requires |ids| == 2 && FreshIds(snapshot, ids) && !request.mode.Other?
    ensures var ops := [TextOp(request, ids[0]), TargetOp(request, ids[1])];
      && (Accepted(snapshot, ops) <==> PlacedFinitely(request))
      && ViewAfter(snapshot, ops).liveNodes == NodeIds(snapshot.nodes) + {ids[0], ids[1]}
      && ViewAfter(snapshot, ops).keys == InitialView(snapshot).keys
  {
    hide Accepted, ViewAfter, LiveConnections, NodeIds;
    EmptyAccepted(snapshot, []);
    assert ids[0] != ids[1];
    OneMore(snapshot, [], TextOp(request, ids[0]));
    assert [] + [TextOp(request, ids[0])] == [TextOp(request, ids[0])];
    OneMore(snapshot, [TextOp(request, ids[0])], TargetOp(request, ids[1]));
    assert [TextOp(request, ids[0])] + [TargetOp(request, ids[1])]
      == [TextOp(request, ids[0]), TargetOp(request, ids[1])];
  }

  lemma {:induction false} TextLinked(snapshot: Snapshot, ids: seq<string>, base: seq<Op>)
    requires |ids| == 2 && FreshIds(snapshot, ids) && PlainNames(snapshot)
    requires ViewAfter(snapshot, base).liveNodes == NodeIds(snapshot.nodes) + {ids[0], ids[1]}
    requires ViewAfter(snapshot, base).keys == InitialView(snapshot).keys
    ensures Accepted(snapshot, base + [ConnectOp(ids[0], ids[1])]) <==> Accepted(snapshot, base)
    ensures FlowView(snapshot, ids, [], ViewAfter(snapshot, base + [ConnectOp(ids[0], ids[1])]))
  {
    hide Accepted, ViewAfter, InitialView, ConnectionKey;
    var op := ConnectOp(ids[0], ids[1]);
    assert ids[0] in ids && ids[1] in ids && ids[0] != ids[1];
    assert GoodLink(snapshot, ids, op);
    NewKey(snapshot, ids, op);
    NamesPlain(snapshot, ids, ids[0]);
    NamesPlain(snapshot, ids, ids[1]);
    OneMore(snapshot, base, op);
  }

  /** The key of a reference is new exactly when the reference was not made before. */
  lemma {:induction false} ReferenceKeyNew(snapshot: Snapshot, ids: seq<string>, made: seq<string>, reference: string,
      view: View)
    requires |ids| == 2 && FreshIds(snapshot, ids) && PlainNames(snapshot) && FlowView(snapshot, ids, made, view)
    requires AllExist(snapshot, made) && reference in NodeIds(snapshot.nodes)
    ensures LinkKey(ConnectOp(reference, ids[1])) in view.keys <==> reference in made
  {
    hide ConnectionKey, InitialView;
    var op := ConnectOp(reference, ids[1]);
    assert ids[0] in ids && ids[1] in ids;
    FreshIsNew(snapshot, ids, ids[0]);
    FreshIsNew(snapshot, ids, ids[1]);
    assert GoodLink(snapshot, ids, op);
    NewKey(snapshot, ids, op);
    var first := ConnectOp(ids[0], ids[1]);
    assert GoodLink(snapshot, ids, first);
    if LinkKey(op) == LinkKey(first) {
      DistinctKeys(snapshot, ids, op, first);
    }
    forall other | other in made && LinkKey(ConnectOp(other, ids[1])) == LinkKey(op) ensures other == reference {
      assert GoodLink(snapshot, ids, ConnectOp(other, ids[1]));
      DistinctKeys(snapshot, ids, ConnectOp(other, ids[1]), op);
    }
  }

  lemma {:induction false} ReferenceChecked(snapshot: Snapshot, ids: seq<string>, made: seq<string>, reference: string,
      view: View)
    requires |ids| == 2 && FreshIds(snapshot, ids) && PlainNames(snapshot) && FlowView(snapshot, ids, made, view)
    requires AllExist(snapshot, made) && reference !in ids
    ensures Problems(snapshot, view, ConnectOp(reference, ids[1])) == []
        <==> reference in NodeIds(snapshot.nodes) && reference !in made
  {
    assert ids[0] in ids && ids[1] in ids;
    NamesPlain(snapshot, ids, ids[1]);
    if reference in NodeIds(snapshot.nodes) {
      NamesPlain(snapshot, ids, reference);
      ReferenceKeyNew(snapshot, ids, made, reference, view);
    }
    hide ConnectionKey, InitialView, NodeIds, FreshIds, PlainNames;
  }

  lemma {:induction false} ReferenceAdvances(snapshot: Snapshot, ids: seq<string>, made: seq<string>, reference: string,
      view: View,
      index: nat)
    requires |ids| == 2 && FlowView(snapshot, ids, made, view)
    ensures FlowView(snapshot, ids, made + [reference], Advance(snapshot, view, ConnectOp(reference, ids[1]), index))
  {
    hide ConnectionKey, InitialView, NodeIds;
  }

  lemma {:induction false} ReferencesLinked(snapshot: Snapshot, ids: seq<string>, base: seq<Op>,
      references: seq<string>)
    requires |ids| == 2 && FreshIds(snapshot, ids) && PlainNames(snapshot)
    requires FlowView(snapshot, ids, [], ViewAfter(snapshot, base))
    requires forall i :: 0 <= i < |references| ==> references[i] !in ids
    ensures FlowView(snapshot, ids, references, ViewAfter(snapshot, base + ReferenceOps(references, ids[1])))
    ensures Accepted(snapshot, base + ReferenceOps(references, ids[1]))
       <==> Accepted(snapshot, base) && Distinct(references) && AllExist(snapshot, references)
    decreases |references|
  {
    hide Accepted, ViewAfter, FlowView, FreshIds, PlainNames, Problems, Advance, NodeIds;
    if references == [] {
      assert base + [] == base;
    } else {
      var n := |references| - 1;
      var made, reference := references[..n], references[n];
      var front := base + ReferenceOps(made, ids[1]);
      var op := ConnectOp(reference, ids[1]);
      ReferencesLinked(snapshot, ids, base, made);
      assert base + ReferenceOps(references, ids[1]) == front + [op];
      assert made + [reference] == references;
      OneMore(snapshot, front, op);
      ReferenceAdvances(snapshot, ids, made, reference, ViewAfter(snapshot, front), |front|);
      OneMoreReference(snapshot, made, reference);
      if AllExist(snapshot, made) {
        ReferenceChecked(snapshot, ids, made, reference, ViewAfter(snapshot, front));
      }
    }
  }

  lemma {:induction false} OneMoreReference(snapshot: Snapshot, made: seq<string>, reference: string)
    ensures Distinct(made + [reference]) <==> Distinct(made) && reference !in made
    ensures AllExist(snapshot, made + [reference]) <==> AllExist(snapshot, made) && reference in NodeIds(snapshot.nodes)
  {
    hide NodeIds;
    var all := made + [reference];
    if Distinct(all) {
      forall i, j | 0 <= i < j < |made| ensures made[i] != made[j] {
        assert all[i] != all[j];
      }
      forall i | 0 <= i < |made| ensures made[i] != reference {
        assert all[i] != all[|made|];
      }
    }
    if AllExist(snapshot, all) {
      forall i | 0 <= i < |made| ensures made[i] in NodeIds(snapshot.nodes) {
        assert all[i] in NodeIds(snapshot.nodes);
      }
      assert all[|made|] in NodeIds(snapshot.nodes);
    }
  }

  lemma {:induction false} FlowEnds(request: FlowRequest, snapshot: Snapshot, ids: seq<string>, base: seq<Op>,
      references: seq<string>)
    requires |ids| == 2 && FreshIds(snapshot, ids) && FlowView(snapshot, ids, references, ViewAfter(snapshot, base))
    ensures Accepted(snapshot,
        base + [SelectNodes(Some([ids[1]]))]
          + (if request.autoRun then [RunGeneration(Some(ids[1]), Some(request.mode))] else []))
       <==> Accepted(snapshot, base)
  {
    hide Accepted, ViewAfter, InitialView, ConnectionKey;
    var select := SelectNodes(Some([ids[1]]));
    assert Selectable(ViewAfter(snapshot, base).liveNodes, ids[1]);
    IdsSelectable(ViewAfter(snapshot, base).liveNodes, [ids[1]]);
    OneMore(snapshot, base, select);
    NotFound(snapshot.nodes, ids[1]);
    OneMore(snapshot, base + [select], RunGeneration(Some(ids[1]), Some(request.mode)));
    assert base + [select] + [] == base + [select];
  }

  /** The flow passes the validator exactly when its numbers are usable and its references are distinct nodes of
      the canvas. */
  lemma {:induction false} FlowAcceptedExactly(request: FlowRequest, snapshot: Snapshot, ids: seq<string>)
    requires |ids| == 2 && FreshIds(snapshot, ids) && PlainNames(snapshot) && !request.mode.Other?
    requires forall i :: 0 <= i < |request.referenceNodeIds| ==> request.referenceNodeIds[i] !in ids
    ensures Accepted(snapshot, GenerationFlowOps(request, ids[0], ids[1]))
       <==> PlacedFinitely(request) && Distinct(request.referenceNodeIds)
            && AllExist(snapshot, request.referenceNodeIds)
  {
    hide Accepted, ViewAfter, FlowView, FreshIds, PlainNames, InitialView, NodeIds, PlacedFinitely, TextOp, TargetOp;
    var placed := [TextOp(request, ids[0]), TargetOp(request, ids[1])];
    var references := request.referenceNodeIds;
    NodesPlaced(request, snapshot, ids);
    TextLinked(snapshot, ids, placed);
    var joined := placed + [ConnectOp(ids[0], ids[1])];
    ReferencesLinked(snapshot, ids, joined, references);
    var linked := joined + ReferenceOps(references, ids[1]);
    FlowEnds(request, snapshot, ids, linked, references);
    var run := if request.autoRun then [RunGeneration(Some(ids[1]), Some(request.mode))] else [];
    assert GenerationFlowOps(request, ids[0], ids[1]) == linked + [SelectNodes(Some([ids[1]]))] + run;
  }

  lemma {:induction false} ReferencesJoined(references: seq<string>, targetId: string, op: Op)
    ensures op in ReferenceOps(references, targetId) <==>
      exists reference :: reference in references && op == ConnectOp(reference, targetId)
    decreases |references|
  {
    if references != [] {
      var last := |references| - 1;
      ReferencesJoined(references[..last], targetId, op);
      assert forall reference :: reference in references <==>
        reference in references[..last] || reference == references[last];
      hide ConnectOp;
    }
  }

  /** What the flow leaves on the canvas: a text, and 420 to the right of it, level with it, a node of the mode; into
      that node lead the text and the references, and nothing else is joined; that node alone is selected, and run only
      if the request says so. */
  lemma {:induction false} FlowMakes(request: FlowRequest, textId: string, targetId: string, op: Op)
    ensures
      var ops := GenerationFlowOps(request, textId, targetId);
      && |ops| > 2 && ops[0].AddNode? && ops[1].AddNode?
      && ops[0].id == Some(textId) && ops[0].nodeType == Some(Text) && ops[0].position == At(request.x, request.y)
      && ops[1].id == Some(targetId) && ops[1].nodeType == Some(request.mode) && ops[1].position.At?
      && ops[1].position.y == request.y
      && (request.x.Finite? ==> ops[1].position.x.Finite? && ops[1].position.x.value - request.x.value == 420.0)
      && (ops[1].width, ops[1].height) == (request.width, request.height)
      && (op.AddNode? && op in ops ==> op == ops[0] || op == ops[1])
      && (op.ConnectNodes? ==> (op in ops <==>
            && op.id.None? && op.fromHandleId.None? && op.toHandleId.None? && op.toNodeId == Some(targetId)
            && op.fromNodeId.Some? && op.fromNodeId.value in [textId] + request.referenceNodeIds))
      && (op.SelectNodes? ==> (op in ops <==> op.ids == Some([targetId])))
      && (op.RunGeneration? ==>
            (op in ops <==> request.autoRun && op.nodeId == Some(targetId) && op.mode == Some(request.mode)))
      && (op in ops ==> op.AddNode? || op.ConnectNodes? || op.SelectNodes? || op.RunGeneration?)
  {
    hide ReferenceOps;
    ReferencesJoined(request.referenceNodeIds, targetId, op);
    var first := [TextOp(request, textId), TargetOp(request, targetId), ConnectOp(textId, targetId)];
    var select := [SelectNodes(Some([targetId]))];
    var run := if request.autoRun then [RunGeneration(Some(targetId), Some(request.mode))] else [];
    var ops := GenerationFlowOps(request, textId, targetId);
    assert ops == first + ReferenceOps(request.referenceNodeIds, targetId) + select + run;
    assert op in ops <==>
      op in first || op in ReferenceOps(request.referenceNodeIds, targetId) || op in select || op in run;
    assert op in first <==> op == first[0] || op == first[1] || op == first[2];
  }
}
