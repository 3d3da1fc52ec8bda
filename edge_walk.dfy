/**
 * The value-level meaning of `changeEdges` (src/edit_xml.py:11-50): rewire the
 * first edge leaving the cut layer to the Result, drop every later edge, and
 * walk the earlier edges backwards keeping only those that feed a layer
 * already known to be on the cut layer's ancestor path.
 */
module EdgeWalk {
  import opened Wrappers
  import opened IrModel
  import opened Seqs

  /** What the backward walk has produced: the kept edges in document order and the legitimate ids. */
  datatype WalkState = WalkState(kept: seq<Edge>, legit: set<string>)

  /**
   * The backward walk over `pre`, the edges preceding the rewired one: the
   * last edge is visited first; it is kept, and its `from-layer` becomes
   * legitimate, exactly when its `to-layer` is already legitimate.
   */
  function Walk(pre: seq<Edge>, legit: set<string>): WalkState
    decreases |pre|
  {
    if |pre| == 0 then WalkState([], legit)
    else
      var e := pre[|pre| - 1];
      if e.toLayer in legit then
        var w := Walk(pre[..|pre| - 1], legit + {e.fromLayer});
        WalkState(w.kept + [e], w.legit)
      else
        Walk(pre[..|pre| - 1], legit)
  }

  /** The legitimate set at the moment the walk visits `pre[j]`: the edges after it have been visited. */
  function VisitSet(pre: seq<Edge>, legit: set<string>, j: nat): set<string>
    requires j < |pre|
  {
    Walk(pre[j + 1..], legit).legit
  }

  /**
   * The front-to-back form of the kept edges: `pre[j]` is kept exactly when
   * its `to-layer` is in the set the walk holds at its visit.
   */
  function Selected(pre: seq<Edge>, legit: set<string>, n: nat): seq<Edge>
    requires n <= |pre|
  {
    if n == 0 then []
    else Selected(pre, legit, n - 1)
         + (if pre[n - 1].toLayer in VisitSet(pre, legit, n - 1) then [pre[n - 1]] else [])
  }

  /** The `from-layer` ids of a sequence of edges. */
  function FromIds(es: seq<Edge>): set<string>
  {
    set e | e in es :: e.fromLayer
  }

  /** The rewired edge: same source, now feeding port 0 of the Result. */
  function Rewire(e: Edge, resultId: string): (r: Edge)
    ensures r.fromLayer == e.fromLayer && r.fromPort == e.fromPort
    ensures r.toLayer == resultId && r.toPort == "0"
  {
    e.(toLayer := resultId, toPort := "0")
  }

  /** The outcome of `changeEdges`: the new children of `<edges>` and the grown legitimate set. */
  datatype Rewiring = Rewiring(edges: seq<Edge>, legit: set<string>)

  predicate LeavesLayer(layerId: string, e: Edge) { e.fromLayer == layerId }

  /** The index of the first edge whose `from-layer` is `layerId`. */
  function FirstFrom(edges: seq<Edge>, layerId: string): Option<nat>
  {
    FirstIndex(edges, e => LeavesLayer(layerId, e))
  }

  /**
   * `changeEdges(edges, legit, layerId, resultId)` as a value: the caller's set
   * `legit` is grown with the cut id (lines 29-30 add the cut id and the
   * rewired edge's `from-layer`, which is the same id) and then by the walk.
   */
  function ChangedEdges(edges: seq<Edge>, legit: set<string>, layerId: string, resultId: string)
    : Result<Rewiring, CutError>
  {
    match FirstFrom(edges, layerId)
    case None => Failure(NoEdgeForLayer)
    case Some(k) =>
      var w := Walk(edges[..k], legit + {layerId, edges[k].fromLayer});
      Success(Rewiring(w.kept + [Rewire(edges[k], resultId)], w.legit))
  }

  // ---------------------------------------------------------------------------
  // Properties of the walk

  /** The walk only adds ids, and only `from-layer` ids of the edges it visits. */
  lemma {:induction false} WalkGrows(pre: seq<Edge>, legit: set<string>)
    ensures legit <= Walk(pre, legit).legit
    ensures Walk(pre, legit).legit <= legit + FromIds(pre)
    decreases |pre|
  {
    if |pre| > 0 {
      var e := pre[|pre| - 1];
      var front := pre[..|pre| - 1];
      assert pre == front + [e];
      assert FromIds(pre) == FromIds(front) + {e.fromLayer};
      if e.toLayer in legit {
        WalkGrows(front, legit + {e.fromLayer});
      } else {
        WalkGrows(front, legit);
      }
    }
  }

  /** Kept edges keep their relative order: they form a subsequence of the visited edges. */
  lemma {:induction false} WalkKeepsOrder(pre: seq<Edge>, legit: set<string>)
    ensures IsSubseq(Walk(pre, legit).kept, pre)
    decreases |pre|
  {
    if |pre| > 0 {
      var e := pre[|pre| - 1];
      var front := pre[..|pre| - 1];
      assert pre == front + [e];
      if e.toLayer in legit {
        WalkKeepsOrder(front, legit + {e.fromLayer});
        SubseqSnoc(Walk(front, legit + {e.fromLayer}).kept, front, e);
      } else {
        WalkKeepsOrder(front, legit);
        SubseqExtend(Walk(front, legit).kept, front, e);
      }
    }
  }

  /** Walking `a + b` is walking `b` first and then `a` from the set `b` left behind. */
  lemma {:induction false} WalkCompose(a: seq<Edge>, b: seq<Edge>, legit: set<string>)
    ensures Walk(a + b, legit)
         == WalkState(Walk(a, Walk(b, legit).legit).kept + Walk(b, legit).kept,
                      Walk(a, Walk(b, legit).legit).legit)
    decreases |b|
  {
    if |b| == 0 {
      assert a + b == a;
    } else {
      var x := b[|b| - 1];
      var front := b[..|b| - 1];
      assert (a + b)[..|a + b| - 1] == a + front;
      assert (a + b)[|a + b| - 1] == x;
      if x.toLayer in legit {
        WalkCompose(a, front, legit + {x.fromLayer});
      } else {
        WalkCompose(a, front, legit);
      }
    }
  }

  /** One visit: `pre[j]` is kept, and its `from-layer` added, exactly when its `to-layer` is legitimate. */
  lemma VisitStep(pre: seq<Edge>, legit: set<string>, j: nat)
    requires j < |pre|
    ensures Walk(pre[j..], legit).legit
         == if pre[j].toLayer in VisitSet(pre, legit, j)
            then VisitSet(pre, legit, j) + {pre[j].fromLayer}
            else VisitSet(pre, legit, j)
    ensures Walk(pre[j..], legit).kept
         == (if pre[j].toLayer in VisitSet(pre, legit, j) then [pre[j]] else [])
            + Walk(pre[j + 1..], legit).kept
  {
    assert pre[j..] == [pre[j]] + pre[j + 1..];
    WalkCompose([pre[j]], pre[j + 1..], legit);
    var s := VisitSet(pre, legit, j);
    assert [pre[j]][..0] == [];
  }

  lemma {:induction false} WalkSelectedFrom(pre: seq<Edge>, legit: set<string>, n: nat)
    requires n <= |pre|
    ensures Walk(pre[..n], Walk(pre[n..], legit).legit).kept == Selected(pre, legit, n)
    decreases n
  {
    if n > 0 {
      var s := Walk(pre[n..], legit).legit;
      assert s == VisitSet(pre, legit, n - 1);
      assert pre[..n][..n - 1] == pre[..n - 1];
      assert pre[..n][n - 1] == pre[n - 1];
      VisitStep(pre, legit, n - 1);
      WalkSelectedFrom(pre, legit, n - 1);
    }
  }

  /** The walk keeps exactly the edges of its front-to-back form, in order. */
  lemma WalkKeepsExactlySelected(pre: seq<Edge>, legit: set<string>)
    ensures Walk(pre, legit).kept == Selected(pre, legit, |pre|)
  {
    WalkSelectedFrom(pre, legit, |pre|);
    assert pre[..|pre|] == pre;
    assert pre[|pre|..] == [];
  }

  /** Every kept edge has both endpoints in the final legitimate set. */
  lemma {:induction false} WalkEndpointsLegit(pre: seq<Edge>, legit: set<string>)
    ensures forall e :: e in Walk(pre, legit).kept ==>
              e.fromLayer in Walk(pre, legit).legit && e.toLayer in Walk(pre, legit).legit
    decreases |pre|
  {
    if |pre| > 0 {
      var e := pre[|pre| - 1];
      var front := pre[..|pre| - 1];
      if e.toLayer in legit {
        WalkEndpointsLegit(front, legit + {e.fromLayer});
        WalkGrows(front, legit + {e.fromLayer});
      } else {
        WalkEndpointsLegit(front, legit);
      }
    }
  }

  /**
   * An id that is not legitimate at the start and is the `from-layer` of no
   * visited edge never becomes legitimate, so no kept edge points at it.
   */
  lemma {:induction false} WalkAvoids(pre: seq<Edge>, legit: set<string>, x: string)
    requires x !in legit
    requires forall e :: e in pre ==> e.fromLayer != x
    ensures x !in Walk(pre, legit).legit
    ensures forall e :: e in Walk(pre, legit).kept ==> e.toLayer != x
    decreases |pre|
  {
    if |pre| > 0 {
      var e := pre[|pre| - 1];
      var front := pre[..|pre| - 1];
      assert e in pre;
      assert forall f :: f in front ==> f in pre;
      if e.toLayer in legit {
        WalkAvoids(front, legit + {e.fromLayer}, x);
      } else {
        WalkAvoids(front, legit, x);
      }
    }
  }

  // ---------------------------------------------------------------------------
  // Properties of changeEdges

  /** It fails exactly when no edge leaves the cut layer. */
  lemma ChangedEdgesFailsIff(edges: seq<Edge>, legit: set<string>, layerId: string, resultId: string)
    ensures ChangedEdges(edges, legit, layerId, resultId).Failure?
        <==> forall j :: 0 <= j < |edges| ==> edges[j].fromLayer != layerId
    ensures ChangedEdges(edges, legit, layerId, resultId).Failure?
        ==> ChangedEdges(edges, legit, layerId, resultId).error == NoEdgeForLayer
  {
    var f := FirstFrom(edges, layerId);
    if f.None? {
      assert forall j :: 0 <= j < |edges| ==> !LeavesLayer(layerId, edges[j]);
    } else {
      assert LeavesLayer(layerId, edges[f.value]);
    }
  }

  /**
   * On success, the first edge leaving the cut layer is rewired to port 0 of
   * the Result and becomes the last edge; before it stand the edges the walk
   * kept, a subsequence of the edges that preceded it, so no later edge
   * survives.
   */
  lemma ChangedEdgesShape(edges: seq<Edge>, legit: set<string>, layerId: string, resultId: string, k: nat)
    requires k < |edges| && edges[k].fromLayer == layerId
    requires forall j :: 0 <= j < k ==> edges[j].fromLayer != layerId
    ensures ChangedEdges(edges, legit, layerId, resultId).Success?
    ensures var r := ChangedEdges(edges, legit, layerId, resultId).value;
      && |r.edges| > 0
      && r.edges[|r.edges| - 1] == Rewire(edges[k], resultId)
      && r.edges[..|r.edges| - 1] == Walk(edges[..k], legit + {layerId}).kept
      && IsSubseq(r.edges[..|r.edges| - 1], edges[..k])
      && r.legit == Walk(edges[..k], legit + {layerId}).legit
  {
    var f := FirstFrom(edges, layerId);
    assert LeavesLayer(layerId, edges[k]);
    assert forall j :: 0 <= j < k ==> !LeavesLayer(layerId, edges[j]);
    assert f == Some(k);
    assert legit + {layerId, edges[k].fromLayer} == legit + {layerId};
    var r := ChangedEdges(edges, legit, layerId, resultId).value;
    var w := Walk(edges[..k], legit + {layerId});
    assert r.edges[..|r.edges| - 1] == w.kept;
    WalkKeepsOrder(edges[..k], legit + {layerId});
  }

  /**
   * The legitimate set after `changeEdges` holds the caller's ids and the cut
   * id, and every surviving edge other than the rewired one has both ends in it.
   */
  lemma ChangedEdgesLegit(edges: seq<Edge>, legit: set<string>, layerId: string, resultId: string)
    requires ChangedEdges(edges, legit, layerId, resultId).Success?
    ensures var r := ChangedEdges(edges, legit, layerId, resultId).value;
      && legit + {layerId} <= r.legit
      && |r.edges| > 0
      && r.edges[|r.edges| - 1].fromLayer == layerId
      && r.edges[|r.edges| - 1].toLayer == resultId
      && r.edges[|r.edges| - 1].toPort == "0"
      && forall i :: 0 <= i < |r.edges| - 1 ==>
           r.edges[i].fromLayer in r.legit && r.edges[i].toLayer in r.legit
  {
    var k := FirstFrom(edges, layerId).value;
    assert LeavesLayer(layerId, edges[k]);
    ChangedEdgesShape(edges, legit, layerId, resultId, k);
    WalkGrows(edges[..k], legit + {layerId});
    WalkEndpointsLegit(edges[..k], legit + {layerId});
    var r := ChangedEdges(edges, legit, layerId, resultId).value;
    forall i | 0 <= i < |r.edges| - 1
      ensures r.edges[i].fromLayer in r.legit && r.edges[i].toLayer in r.legit
    {
      assert r.edges[i] in r.edges[..|r.edges| - 1];
    }
  }

  /**
   * When the Result has no outgoing edge and is neither the cut layer nor in
   * the caller's set, the rewired edge is the only surviving edge into it.
   */
  lemma ChangedEdgesSoleResultInput(edges: seq<Edge>, legit: set<string>, layerId: string, resultId: string)
    requires ChangedEdges(edges, legit, layerId, resultId).Success?
    requires resultId != layerId && resultId !in legit
    requires forall e :: e in edges ==> e.fromLayer != resultId
    ensures var r := ChangedEdges(edges, legit, layerId, resultId).value;
      forall i :: 0 <= i < |r.edges| ==> (r.edges[i].toLayer == resultId <==> i == |r.edges| - 1)
  {
    var k := FirstFrom(edges, layerId).value;
    assert LeavesLayer(layerId, edges[k]);
    ChangedEdgesShape(edges, legit, layerId, resultId, k);
    assert forall e :: e in edges[..k] ==> e in edges;
    WalkAvoids(edges[..k], legit + {layerId}, resultId);
    var r := ChangedEdges(edges, legit, layerId, resultId).value;
    forall i | 0 <= i < |r.edges| - 1 ensures r.edges[i].toLayer != resultId {
      assert r.edges[i] in r.edges[..|r.edges| - 1];
    }
  }
}
