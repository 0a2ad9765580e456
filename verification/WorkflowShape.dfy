/** What the workflow generator of canvas-agent/src/canvas-session.ts puts into its list, said of the list itself: which
    nodes and where, which connections, what is selected and run, and which requests are refused and why. */
module WorkflowShape {
  import opened Wrappers
  import opened CanvasOps
  import opened Trimming
  import opened Workflow
  import opened WorkflowProofs
  import opened Layout

  // ---------------------------------------------------------------- names without their blanks

  predicate Blank(text: string) {
    Only(text, IsBlank)
  }

  /** White space and line ends as ECMAScript lists them. */
  lemma {:induction false} BlanksExactly(c: char)
    ensures IsBlank(c) <==>
      c in "\U{0009}\U{000A}\U{000B}\U{000C}\U{000D}\U{0020}\U{00A0}\U{1680}"
           + "\U{2000}\U{2001}\U{2002}\U{2003}\U{2004}\U{2005}\U{2006}\U{2007}\U{2008}\U{2009}\U{200A}"
           + "\U{2028}\U{2029}\U{202F}\U{205F}\U{3000}\U{FEFF}"
  {
  }

  /** The same name once the blanks around it are gone. */
  ghost predicate SameName(a: string, b: string) {
    exists core :: Stripped(a, core, IsBlank) && Stripped(b, core, IsBlank)
  }

  lemma {:induction false} TrimExactly(a: string, b: string)
    ensures Trim(a) == "" <==> Blank(a)
    ensures Trim(a) == Trim(b) <==> SameName(a, b)
  {
    hide Strip, Stripped, Only;
    NothingLeft(a, IsBlank);
    forall core
      ensures Stripped(a, core, IsBlank) <==> core == Trim(a)
      ensures Stripped(b, core, IsBlank) <==> core == Trim(b)
    {
      StripExactly(a, core, IsBlank);
      StripExactly(b, core, IsBlank);
    }
    assert Stripped(a, Trim(a), IsBlank) && Stripped(b, Trim(b), IsBlank);
  }

  // ---------------------------------------------------------------- which requests are refused

  predicate IsMediaKind(kind: string) {
    kind in ["image", "character_cards", "character_three_view", "video", "storyboard_video", "audio"]
  }

  ghost predicate NameTaken(request: Request, i: nat)
    requires i < |request.nodes|
  {
    exists j :: 0 <= j < i && SameName(request.nodes[j].ref, request.nodes[i].ref)
  }

  predicate OldIsMissing(existing: seq<Node>, draft: Draft) {
    exists id :: id in draft.referenceNodeIds && forall node :: node in existing ==> node.id != id
  }

  /** The draft alone, or after those before it, is reason to refuse. */
  ghost predicate Faulty(request: Request, existing: seq<Node>, i: nat)
    requires i < |request.nodes|
  {
    var draft := request.nodes[i];
    || Blank(draft.ref) || Blank(draft.title) || NameTaken(request, i)
    || (IsMediaKind(draft.kind) && Blank(draft.prompt)) || OldIsMissing(existing, draft)
  }

  /** The first faulty draft, and of its faults the first in this order. */
  ghost predicate FaultIs(request: Request, existing: seq<Node>, i: nat, error: WorkflowError)
    requires i < |request.nodes|
  {
    var draft := request.nodes[i];
    && Faulty(request, existing, i) && (forall j :: 0 <= j < i ==> !Faulty(request, existing, j))
    && error == (if Blank(draft.ref) || Blank(draft.title) then RefOrTitleMissing
                 else if NameTaken(request, i) then RefRepeated
                 else if IsMediaKind(draft.kind) && Blank(draft.prompt) then PromptMissing
                 else ReferenceUnknown)
  }

  predicate IsRef(request: Request, name: string) {
    exists i :: 0 <= i < |request.nodes| && request.nodes[i].ref == name
  }

  ghost predicate NoFault(request: Request, existing: seq<Node>) {
    forall i :: 0 <= i < |request.nodes| ==> !Faulty(request, existing, i)
  }

  predicate EdgesJoinRefs(request: Request) {
    forall edge :: edge in request.edges ==> IsRef(request, edge.from) && IsRef(request, edge.to)
  }

  predicate ReferencesAreRefs(request: Request) {
    forall draft, ref :: draft in request.nodes && ref in draft.referenceRefs ==> IsRef(request, ref)
  }

  lemma {:induction false} FaultyExactly(request: Request, existing: seq<Node>, i: nat)
    requires i < |request.nodes|
    ensures Faulty(request, existing, i) <==> DraftError(request, existing, i).Some?
    ensures Faulty(request, existing, i) && (forall j :: 0 <= j < i ==> !Faulty(request, existing, j)) ==>
      FaultIs(request, existing, i, DraftError(request, existing, i).value)
  {
    var draft := request.nodes[i];
    TrimExactly(draft.ref, "");
    TrimExactly(draft.title, "");
    TrimExactly(draft.prompt, "");
    assert NameTaken(request, i) <==> exists j :: 0 <= j < i && Trim(request.nodes[j].ref) == Trim(draft.ref) by {
      forall j | 0 <= j < i
        ensures SameName(request.nodes[j].ref, draft.ref) <==> Trim(request.nodes[j].ref) == Trim(draft.ref)
      {
        TrimExactly(request.nodes[j].ref, draft.ref);
      }
      hide Trim, SameName;
    }
    KindExactly(draft.kind);
    OldExactly(existing, draft);
    hide Trim, Blank, WorkflowNodeType, IsMediaKind, NameTaken, OldIsMissing;
  }

  lemma {:induction false} OldExactly(existing: seq<Node>, draft: Draft)
    ensures OldIsMissing(existing, draft) <==> exists id :: id in draft.referenceNodeIds && id !in NodeIds(existing)
  {
    forall id: string ensures id in NodeIds(existing) <==> exists node :: node in existing && node.id == id {
    }
  }

  /** Which type a kind stands for. */
  lemma {:induction false} KindExactly(kind: string)
    ensures WorkflowNodeType(kind) == Script <==> kind == "script"
    ensures WorkflowNodeType(kind) == Image <==> kind in ["image", "character_cards", "character_three_view"]
    ensures WorkflowNodeType(kind) == Video <==> kind in ["video", "storyboard_video"]
    ensures WorkflowNodeType(kind) == Audio <==> kind == "audio"
    ensures WorkflowNodeType(kind) in {Text, Script} <==> !IsMediaKind(kind)
    ensures WorkflowNodeType(kind) in {Image, Video, Audio} <==> IsMediaKind(kind)
  {
  }

  lemma {:induction false} FirstFault(request: Request, existing: seq<Node>, i: nat)
    requires i <= |request.nodes|
    requires forall j :: 0 <= j < i ==> !Faulty(request, existing, j)
    ensures match DraftErrors(request, existing, i)
      case None => NoFault(request, existing)
      case Some(error) => exists k :: 0 <= k < |request.nodes| && FaultIs(request, existing, k, error)
    decreases |request.nodes| - i
  {
    hide Faulty, FaultIs, DraftError;
    if i < |request.nodes| {
      FaultyExactly(request, existing, i);
      if DraftError(request, existing, i).Some? {
        assert DraftErrors(request, existing, i) == DraftError(request, existing, i);
        assert FaultIs(request, existing, i, DraftError(request, existing, i).value);
      } else {
        FirstFault(request, existing, i + 1);
        assert DraftErrors(request, existing, i) == DraftErrors(request, existing, i + 1);
      }
    }
  }

  lemma {:induction false} OneFault(request: Request, existing: seq<Node>, i: nat, k: nat, a: WorkflowError,
      b: WorkflowError)
    requires i < |request.nodes| && k < |request.nodes|
    requires FaultIs(request, existing, i, a) && FaultIs(request, existing, k, b)
    ensures i == k && a == b
  {
    hide Faulty, NameTaken, Blank, OldIsMissing, IsMediaKind;
  }

  lemma {:induction false} ChainKnown(request: Request, n: nat)
    requires n <= |request.nodes|
    ensures AllKnown(request, Chain(request.nodes[..n]))
    decreases n
  {
    if n >= 2 {
      ChainKnown(request, n - 1);
      assert request.nodes[..n][..n - 1] == request.nodes[..n - 1];
      assert Known(request, request.nodes[n - 2].ref) && Known(request, request.nodes[n - 1].ref);
    }
  }

  lemma {:induction false} EdgesKnownExactly(request: Request)
    ensures AllKnown(request, EdgesOf(request)) <==> EdgesJoinRefs(request)
  {
    if request.edges == [] {
      ChainKnown(request, |request.nodes|);
      assert request.nodes[..|request.nodes|] == request.nodes;
    } else {
      forall i | 0 <= i < |request.edges|
        ensures EndsKnown(request, request.edges[i])
            <==> IsRef(request, request.edges[i].from) && IsRef(request, request.edges[i].to)
      {
      }
      hide EndsKnown, IsRef;
      if EdgesJoinRefs(request) {
        assert forall i :: 0 <= i < |request.edges| ==> request.edges[i] in request.edges;
      }
    }
  }

  lemma {:induction false} ReferencesKnown(request: Request, n: nat)
    requires n <= |request.nodes|
    ensures AllKnown(request, ReferenceEdges(request.nodes[..n])) <==>
      forall i, ref :: 0 <= i < n && ref in request.nodes[i].referenceRefs ==> IsRef(request, ref)
    decreases n
  {
    if n > 0 {
      ReferencesKnown(request, n - 1);
      var draft := request.nodes[n - 1];
      var front, last := ReferenceEdges(request.nodes[..n - 1]), EdgesTo(draft.referenceRefs, draft.ref);
      assert request.nodes[..n][..n - 1] == request.nodes[..n - 1];
      assert Known(request, draft.ref);
      forall k | 0 <= k < |last| ensures EndsKnown(request, last[k]) <==> IsRef(request, draft.referenceRefs[k]) {
      }
      hide EndsKnown, IsRef;
      KnownSplits(request, front, last);
      assert AllKnown(request, last) <==> forall ref :: ref in draft.referenceRefs ==> IsRef(request, ref);
    }
  }

  lemma {:induction false} KnownSplits(request: Request, a: seq<Edge>, b: seq<Edge>)
    ensures AllKnown(request, a + b) <==> AllKnown(request, a) && AllKnown(request, b)
  {
    hide EndsKnown;
    if AllKnown(request, a) && AllKnown(request, b) {
      BothKnown(request, a, b);
    }
    if AllKnown(request, a + b) {
      assert forall i :: 0 <= i < |a| ==> (a + b)[i] == a[i];
      assert forall i :: 0 <= i < |b| ==> (a + b)[|a| + i] == b[i];
    }
  }

  /** Main result on refusals: which request is refused, and with which error. */
  lemma {:induction false} RefusedExactly(request: Request, existing: seq<Node>, ids: seq<string>, error: WorkflowError)
    requires |request.nodes| == |ids|
    ensures Generated(request, existing, ids) == Err(error) <==>
      if request.nodes == [] then error == NoNodes
      else if !NoFault(request, existing) then
        exists i :: 0 <= i < |request.nodes| && FaultIs(request, existing, i, error)
      else if !EdgesJoinRefs(request) then error == EdgeUnknown
      else !ReferencesAreRefs(request) && error == RefUnknown
  {
    hide Faulty, FaultIs, DraftErrors, AllKnown, AllLinks;
    FirstFault(request, existing, 0);
    EdgesKnownExactly(request);
    ReferencesKnown(request, |request.nodes|);
    assert request.nodes[..|request.nodes|] == request.nodes;
    assert ReferencesAreRefs(request) <==> AllKnown(request, ReferenceEdges(request.nodes)) by {
      assert forall i :: 0 <= i < |request.nodes| ==> request.nodes[i] in request.nodes;
      hide IsRef;
    }
    if request.nodes != [] && DraftErrors(request, existing, 0).Some? {
      var found := DraftErrors(request, existing, 0).value;
      var k :| 0 <= k < |request.nodes| && FaultIs(request, existing, k, found);
      assert Faulty(request, existing, k) by {
        FaultFaulty(request, existing, k, found);
      }
      forall i | 0 <= i < |request.nodes| && FaultIs(request, existing, i, error) ensures error == found {
        OneFault(request, existing, i, k, error, found);
      }
    }
    hide EdgesJoinRefs, ReferencesAreRefs;
  }

  lemma {:induction false} FaultFaulty(request: Request, existing: seq<Node>, i: nat, error: WorkflowError)
    requires i < |request.nodes| && FaultIs(request, existing, i, error)
    ensures Faulty(request, existing, i)
  {
  }
}
