/** What `delLayers` (src/edit_xml.py:53-126) guarantees, stated on its value-level meaning `Cut`. */
module CutProperties {
  import opened Wrappers
  import opened IrModel
  import opened Seqs
  import opened EdgeWalk
  import opened EditXml

  /** The first layer named `name` is the one at `li`. */
  predicate NamedAt(layers: seq<Layer>, name: string, li: nat) {
    li < |layers| && layers[li].name == name
    && forall j :: 0 <= j < li ==> layers[j].name != name
  }

  /** The first layer of type Result is the one at `ri`. */
  predicate FirstResultAt(layers: seq<Layer>, ri: nat) {
    ri < |layers| && layers[ri].kind == ResultType
    && forall j :: 0 <= j < ri ==> layers[j].kind != ResultType
  }

  lemma FindByNameIs(layers: seq<Layer>, name: string, li: nat)
    requires NamedAt(layers, name, li)
    ensures FindByName(layers, name) == Some(li)
  {
    var f := FindByName(layers, name);
    assert Named(name, layers[li]);
    assert forall j :: 0 <= j < li ==> !Named(name, layers[j]);
  }

  lemma FindResultIs(layers: seq<Layer>, ri: nat)
    requires FirstResultAt(layers, ri)
    ensures FindResult(layers) == Some(ri)
  {
    assert IsResult(layers[ri]);
    assert forall j :: 0 <= j < ri ==> !IsResult(layers[j]);
  }

  /** It raises "cannot find layer" exactly when no layer has the name, and then changes nothing. */
  lemma CutNotFound(net: Net, name: string)
    ensures Cut(net, name).0 == Fail(LayerNotFound)
        <==> forall i :: 0 <= i < |net.layers| ==> net.layers[i].name != name
    ensures Cut(net, name).0 == Fail(LayerNotFound) ==> Cut(net, name).1 == net
  {
    var f := FindByName(net.layers, name);
    if f.Some? {
      var layer := net.layers[f.value];
      assert layer.name == name;
      var fr := FindResult(net.layers);
      if layer.kind != ResultType && FirstPortPresent(layer.output)
         && fr.Some? && net.edges.Some? {
        ChangedEdgesFailsIff(net.edges.value, {}, layer.id, net.layers[fr.value].id);
      }
    } else {
      assert forall i :: 0 <= i < |net.layers| ==> !Named(name, net.layers[i]);
    }
  }

  /** Cutting at a layer of type Result is the identity. */
  lemma CutAtResult(net: Net, name: string, li: nat)
    requires NamedAt(net.layers, name, li) && net.layers[li].kind == ResultType
    ensures Cut(net, name) == (Pass, net)
  {
    FindByNameIs(net.layers, name, li);
  }

  /** The cut layer has a non-empty `<output>` whose first port has children. */
  predicate OutputUsable(cut: Layer) {
    GroupPresent(cut.output) && FirstPortPresent(cut.output)
  }

  predicate HasResult(layers: seq<Layer>) {
    exists j :: 0 <= j < |layers| && layers[j].kind == ResultType
  }

  /**
   * The checks on the cut layer's output, on the Result layer, on `<edges>`
   * and on the edge leaving the cut layer raise before anything changes, in
   * this order.
   */
  lemma CutChecksBeforeChange(net: Net, name: string, li: nat)
    requires NamedAt(net.layers, name, li) && net.layers[li].kind != ResultType
    ensures !GroupPresent(net.layers[li].output) ==> Cut(net, name) == (Fail(NoOutput), net)
    ensures GroupPresent(net.layers[li].output) && !FirstPortPresent(net.layers[li].output)
        ==> Cut(net, name) == (Fail(NoOutputPort), net)
    ensures OutputUsable(net.layers[li]) && !HasResult(net.layers)
        ==> Cut(net, name) == (Fail(NoResultLayer), net)
    ensures OutputUsable(net.layers[li]) && HasResult(net.layers) && net.edges.None?
        ==> Cut(net, name) == (Fail(NoEdges), net)
    ensures OutputUsable(net.layers[li]) && HasResult(net.layers) && net.edges.Some?
            && (forall j :: 0 <= j < |net.edges.value| ==> net.edges.value[j].fromLayer != net.layers[li].id)
        ==> Cut(net, name) == (Fail(NoEdgeForLayer), net)
  {
    FindByNameIs(net.layers, name, li);
    var fr := FindResult(net.layers);
    if fr.Some? {
      assert net.layers[fr.value].kind == ResultType;
      if net.edges.Some? {
        ChangedEdgesFailsIff(net.edges.value, {}, net.layers[li].id, net.layers[fr.value].id);
      }
    } else {
      assert forall j :: 0 <= j < |net.layers| ==> !IsResult(net.layers[j]);
    }
  }

  /**
   * Every error other than the two Result-port errors leaves the document
   * unchanged; those two are raised after `changeEdges` has already rewritten
   * the edges, and nothing is rolled back.
   */
  lemma CutErrorState(net: Net, name: string)
    requires Cut(net, name).0.Fail?
    ensures Cut(net, name).0.error !in {NoResultInput, NoResultInputPort} ==> Cut(net, name).1 == net
    ensures Cut(net, name).0.error in {NoResultInput, NoResultInputPort} ==>
      && Cut(net, name).1.layers == net.layers
      && var li := FindByName(net.layers, name).value;
         var ri := FindResult(net.layers).value;
         && li < |net.layers| && ri < |net.layers| && net.edges.Some?
         && ChangedEdges(net.edges.value, {}, net.layers[li].id, net.layers[ri].id).Success?
         && Cut(net, name).1.edges
            == Some(ChangedEdges(net.edges.value, {}, net.layers[li].id, net.layers[ri].id).value.edges)
  {
    var f := FindByName(net.layers, name);
    if f.Some? {
      var layer := net.layers[f.value];
      var fr := FindResult(net.layers);
      if layer.kind != ResultType && FirstPortPresent(layer.output)
         && fr.Some? && net.edges.Some? {
        ChangedEdgesFailsIff(net.edges.value, {}, layer.id, net.layers[fr.value].id);
      }
    }
  }

  /** The layers after a successful cut, before pruning, are the originals except the two patched ones. */
  lemma PatchedLayers(layers: seq<Layer>, li: nat, ri: nat)
    requires li < |layers| && ri < |layers| && li != ri
    requires HasPort(layers[li].output) && HasPort(layers[ri].input)
    ensures |Patched(layers, li, ri)| == |layers|
    ensures Patched(layers, li, ri)[ri] == WithInputDims(layers[ri], layers[li].output.value.ports[0].dims)
    ensures Patched(layers, li, ri)[li] == WithOutputNames(layers[li], layers[ri].name)
    ensures forall i :: 0 <= i < |layers| && i != li && i != ri ==> Patched(layers, li, ri)[i] == layers[i]
  {
  }

  /** The pieces a successful cut at a layer other than a Result is made of. */
  lemma CutPassUnfold(net: Net, name: string, li: nat, ri: nat)
    requires NamedAt(net.layers, name, li) && net.layers[li].kind != ResultType
    requires FirstResultAt(net.layers, ri)
    requires Cut(net, name).0 == Pass
    ensures li != ri && net.edges.Some?
    ensures HasPort(net.layers[li].output) && HasPort(net.layers[ri].input)
    ensures ChangedEdges(net.edges.value, {}, net.layers[li].id, net.layers[ri].id).Success?
    ensures var rw := ChangedEdges(net.edges.value, {}, net.layers[li].id, net.layers[ri].id).value;
      Cut(net, name).1
      == Net(Pruned(Patched(net.layers, li, ri), rw.legit + {net.layers[ri].id}), Some(rw.edges))
  {
    FindByNameIs(net.layers, name, li);
    FindResultIs(net.layers, ri);
    ChangedEdgesFailsIff(net.edges.value, {}, net.layers[li].id, net.layers[ri].id);
  }

  /** When every check passes, the cut succeeds, and the document is the patched and pruned one. */
  lemma CutPassesWhen(net: Net, name: string, li: nat, ri: nat)
    requires NamedAt(net.layers, name, li) && net.layers[li].kind != ResultType
    requires FirstResultAt(net.layers, ri)
    requires OutputUsable(net.layers[li]) && net.edges.Some?
    requires ChangedEdges(net.edges.value, {}, net.layers[li].id, net.layers[ri].id).Success?
    requires GroupPresent(net.layers[ri].input) && FirstPortPresent(net.layers[ri].input)
    ensures var rw := ChangedEdges(net.edges.value, {}, net.layers[li].id, net.layers[ri].id).value;
      Cut(net, name)
      == (Pass, Net(Pruned(Patched(net.layers, li, ri), rw.legit + {net.layers[ri].id}), Some(rw.edges)))
  {
    FindByNameIs(net.layers, name, li);
    FindResultIs(net.layers, ri);
  }

  /**
   * After a successful cut at a layer that is not a Result, the first edge
   * leaving the cut layer feeds port 0 of the first Result layer and is the
   * last edge; the legitimate set holds the cut id and the Result id, so with
   * distinct ids it has at least two elements and the id-range fallback of
   * line 119 is not taken.
   */
  lemma CutRewiresToResult(net: Net, name: string, li: nat, ri: nat)
    requires NamedAt(net.layers, name, li) && net.layers[li].kind != ResultType
    requires FirstResultAt(net.layers, ri)
    requires Cut(net, name).0 == Pass
    ensures net.edges.Some?
    ensures ChangedEdges(net.edges.value, {}, net.layers[li].id, net.layers[ri].id).Success?
    ensures var rw := ChangedEdges(net.edges.value, {}, net.layers[li].id, net.layers[ri].id).value;
      var legit := rw.legit + {net.layers[ri].id};
      && Cut(net, name).1.edges == Some(rw.edges)
      && |rw.edges| > 0
      && rw.edges[|rw.edges| - 1].fromLayer == net.layers[li].id
      && rw.edges[|rw.edges| - 1].toLayer == net.layers[ri].id
      && rw.edges[|rw.edges| - 1].toPort == "0"
      && net.layers[li].id in legit && net.layers[ri].id in legit
      && (net.layers[li].id != net.layers[ri].id ==> |legit| >= 2)
  {
    CutPassUnfold(net, name, li, ri);
    var cut := net.layers[li];
    var result := net.layers[ri];
    ChangedEdgesLegit(net.edges.value, {}, cut.id, result.id);
    var rw := ChangedEdges(net.edges.value, {}, cut.id, result.id).value;
    var legit := rw.legit + {result.id};
    if cut.id != result.id {
      assert {cut.id, result.id} <= legit;
      SetSizeMonotone({cut.id, result.id}, legit);
    }
  }

  /**
   * After a successful cut at a layer that is not a Result, the Result's first
   * input port holds exactly the cut layer's original output dims, in order,
   * the cut layer's first output port has `names` equal to the Result's name,
   * and both layers survive the pruning.
   */
  lemma CutPatchesResult(net: Net, name: string, li: nat, ri: nat)
    requires NamedAt(net.layers, name, li) && net.layers[li].kind != ResultType
    requires FirstResultAt(net.layers, ri)
    requires Cut(net, name).0 == Pass
    ensures HasPort(net.layers[li].output) && HasPort(net.layers[ri].input)
    ensures WithInputDims(net.layers[ri], net.layers[li].output.value.ports[0].dims) in Cut(net, name).1.layers
    ensures WithOutputNames(net.layers[li], net.layers[ri].name) in Cut(net, name).1.layers
  {
    CutPassUnfold(net, name, li, ri);
    CutRewiresToResult(net, name, li, ri);
    PatchedLayers(net.layers, li, ri);
    var patched := Patched(net.layers, li, ri);
    var rw := ChangedEdges(net.edges.value, {}, net.layers[li].id, net.layers[ri].id).value;
    KeepLayersSpec(patched, rw.legit + {net.layers[ri].id});
    assert patched[ri] in patched && patched[li] in patched;
  }

  /**
   * After a successful cut at a layer that is not a Result, the surviving
   * layers are the patched layers whose id is legitimate, in document order,
   * and every surviving edge joins two legitimate ids, so an edge never
   * refers to a removed layer.
   */
  lemma CutPrunes(net: Net, name: string, li: nat, ri: nat)
    requires NamedAt(net.layers, name, li) && net.layers[li].kind != ResultType
    requires FirstResultAt(net.layers, ri)
    requires Cut(net, name).0 == Pass
    ensures net.edges.Some? && HasPort(net.layers[li].output) && HasPort(net.layers[ri].input)
    ensures ChangedEdges(net.edges.value, {}, net.layers[li].id, net.layers[ri].id).Success?
    ensures var rw := ChangedEdges(net.edges.value, {}, net.layers[li].id, net.layers[ri].id).value;
      var legit := rw.legit + {net.layers[ri].id};
      var patched := Patched(net.layers, li, ri);
      var after := Cut(net, name).1;
      && IsSubseq(after.layers, patched)
      && (net.layers[li].id != net.layers[ri].id ==>
            forall l :: l in after.layers <==> l in patched && l.id in legit)
      && (forall e, l :: e in rw.edges && l in patched && (l.id == e.fromLayer || l.id == e.toLayer)
            ==> l in after.layers)
  {
    CutPassUnfold(net, name, li, ri);
    CutRewiresToResult(net, name, li, ri);
    var cut := net.layers[li];
    var result := net.layers[ri];
    ChangedEdgesLegit(net.edges.value, {}, cut.id, result.id);
    var rw := ChangedEdges(net.edges.value, {}, cut.id, result.id).value;
    var legit := rw.legit + {result.id};
    forall e | e in rw.edges ensures e.fromLayer in legit && e.toLayer in legit {
      var i :| 0 <= i < |rw.edges| && rw.edges[i] == e;
    }
    PrunedKeeps(Patched(net.layers, li, ri), legit, rw.edges);
  }

  /**
   * Pruning keeps a subsequence; with more than one legitimate id it keeps
   * exactly the layers whose id is legitimate, and so every layer an edge
   * between legitimate ids refers to.
   */
  lemma PrunedKeeps(layers: seq<Layer>, legit: set<string>, edges: seq<Edge>)
    requires forall e :: e in edges ==> e.fromLayer in legit && e.toLayer in legit
    ensures IsSubseq(Pruned(layers, legit), layers)
    ensures |legit| > 1 ==> forall l :: l in Pruned(layers, legit) <==> l in layers && l.id in legit
    ensures forall e, l ::
              e in edges && l in layers && (l.id == e.fromLayer || l.id == e.toLayer) ==> l in Pruned(layers, legit)
  {
    KeepLayersSpec(layers, legit);
    if |legit| <= 1 {
      SubseqRefl(layers);
    }
  }

  /** Setting `names` again to the same value is a no-op. */
  lemma NamesPatchIdempotent(l: Layer, n: string)
    requires HasPort(l.output)
    ensures WithOutputNames(WithOutputNames(l, n), n) == WithOutputNames(l, n)
  {
    var once := WithOutputNames(l, n);
    var twice := WithOutputNames(once, n);
    assert twice.output.value == once.output.value;
  }
}
