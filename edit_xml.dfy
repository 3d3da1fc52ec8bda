/**
 * The graph surgery of src/edit_xml.py on a mutable document: `changeEdges`
 * rewires and prunes the `<edges>` element in place, `delLayers` checks the
 * document, calls it, transplants the cut layer's output dims onto the
 * Result's input port, sets `names` on the cut layer's output port, and
 * removes every layer off the legitimate path.
 */
module EditXml {
  import opened Wrappers
  import opened IrModel
  import opened Seqs
  import opened EdgeWalk

  // ---------------------------------------------------------------------------
  // Value-level specification of delLayers

  predicate Named(name: string, l: Layer) { l.name == name }

  predicate IsResult(l: Layer) { l.kind == ResultType }

  /** The first layer named `name` (`//layer[@name=...]`). */
  function FindByName(layers: seq<Layer>, name: string): Option<nat>
  {
    FirstIndex(layers, l => Named(name, l))
  }

  /** The first layer of type Result (`//layer[@type='Result']`). */
  function FindResult(layers: seq<Layer>): Option<nat>
  {
    FirstIndex(layers, IsResult)
  }

  /** The layer with the `<dim>` children of its first input port replaced by `dims`. */
  function WithInputDims(l: Layer, dims: seq<Dim>): (r: Layer)
    requires HasPort(l.input)
    ensures HasPort(r.input) && r.input.value.ports[0].dims == dims
    ensures |r.input.value.ports| == |l.input.value.ports|
    ensures forall i :: 0 < i < |l.input.value.ports| ==> r.input.value.ports[i] == l.input.value.ports[i]
    ensures r.input.value.ports[0] == l.input.value.ports[0].(dims := dims)
    ensures r.input.value.otherChildren == l.input.value.otherChildren
    ensures r.(input := l.input) == l
  {
    var ports := l.input.value.ports;
    l.(input := Some(l.input.value.(ports := ports[0 := ports[0].(dims := dims)])))
  }

  /** The layer with the `names` attribute of its first output port set to `n`. */
  function WithOutputNames(l: Layer, n: string): (r: Layer)
    requires HasPort(l.output)
    ensures HasPort(r.output) && r.output.value.ports[0].names == Some(n)
    ensures r.output.value.ports[0] == l.output.value.ports[0].(names := Some(n))
    ensures |r.output.value.ports| == |l.output.value.ports|
    ensures forall i :: 0 < i < |l.output.value.ports| ==> r.output.value.ports[i] == l.output.value.ports[i]
    ensures r.output.value.otherChildren == l.output.value.otherChildren
    ensures r.(output := l.output) == l
  {
    var ports := l.output.value.ports;
    l.(output := Some(l.output.value.(ports := ports[0 := ports[0].(names := Some(n))])))
  }

  /** The layers whose id is legitimate, in document order. */
  function KeepLayers(layers: seq<Layer>, legit: set<string>): seq<Layer>
    decreases |layers|
  {
    if |layers| == 0 then []
    else
      var l := layers[|layers| - 1];
      KeepLayers(layers[..|layers| - 1], legit) + (if l.id in legit then [l] else [])
  }

  /** Pruning removes exactly the layers with an id outside the set, and reorders nothing. */
  lemma {:induction false} KeepLayersSpec(layers: seq<Layer>, legit: set<string>)
    ensures IsSubseq(KeepLayers(layers, legit), layers)
    ensures forall l :: l in KeepLayers(layers, legit) <==> l in layers && l.id in legit
    decreases |layers|
  {
    if |layers| > 0 {
      var front := layers[..|layers| - 1];
      var l := layers[|layers| - 1];
      assert layers == front + [l];
      KeepLayersSpec(front, legit);
      var kept := KeepLayers(front, legit);
      if l.id in legit {
        assert KeepLayers(layers, legit) == kept + [l];
        SubseqSnoc(kept, front, l);
      } else {
        assert KeepLayers(layers, legit) == kept;
        SubseqExtend(kept, front, l);
      }
    }
  }

  /** Pruning keeps every copy of a layer with a legitimate id and no copy of any other. */
  lemma {:induction false} KeepLayersCount(layers: seq<Layer>, legit: set<string>)
    ensures forall l :: multiset(KeepLayers(layers, legit))[l] == if l.id in legit then multiset(layers)[l] else 0
    decreases |layers|
  {
    if |layers| > 0 {
      var front := layers[..|layers| - 1];
      var l := layers[|layers| - 1];
      assert layers == front + [l];
      KeepLayersCount(front, legit);
      assert multiset(layers) == multiset(front) + multiset{l};
    }
  }

  lemma KeepLayersSnoc(layers: seq<Layer>, l: Layer, legit: set<string>)
    ensures KeepLayers(layers + [l], legit)
         == KeepLayers(layers, legit) + (if l.id in legit then [l] else [])
  {
    assert (layers + [l])[..|layers|] == layers;
  }

  /**
   * The layer-removal step (lines 118-126): with more than one legitimate id,
   * every layer whose id is not legitimate goes. With a single legitimate id,
   * the cut id equals the Result id and the fallback range
   * `@id < result and @id > cut` is empty, so nothing goes.
   */
  function Pruned(layers: seq<Layer>, legit: set<string>): seq<Layer>
  {
    if |legit| > 1 then KeepLayers(layers, legit) else layers
  }

  /** The cut layer's output port gets `names`, the Result's input port gets the cut layer's output dims. */
  function Patched(layers: seq<Layer>, li: nat, ri: nat): seq<Layer>
    requires li < |layers| && ri < |layers|
    requires HasPort(layers[li].output) && HasPort(layers[ri].input)
  {
    var withDims := layers[ri := WithInputDims(layers[ri], layers[li].output.value.ports[0].dims)];
    withDims[li := WithOutputNames(withDims[li], layers[ri].name)]
  }

  /** `delLayers(tree, name)` as a value: what it raises or returns, and the document afterwards. */
  function Cut(net: Net, name: string): (Outcome<CutError>, Net)
  {
    match FindByName(net.layers, name)
    case None => (Fail(LayerNotFound), net)
    case Some(li) =>
      var layer := net.layers[li];
      if layer.kind == ResultType then (Pass, net)
      else if !GroupPresent(layer.output) then (Fail(NoOutput), net)
      else if !FirstPortPresent(layer.output) then (Fail(NoOutputPort), net)
      else match FindResult(net.layers)
      case None => (Fail(NoResultLayer), net)
      case Some(ri) =>
        var result := net.layers[ri];
        if net.edges.None? then (Fail(NoEdges), net)
        else match ChangedEdges(net.edges.value, {}, layer.id, result.id)
        case Failure(e) => (Fail(e), net)
        case Success(rw) =>
          // the Result checks run after the edges have been changed
          var rewired := net.(edges := Some(rw.edges));
          if !GroupPresent(result.input) then (Fail(NoResultInput), rewired)
          else if !FirstPortPresent(result.input) then (Fail(NoResultInputPort), rewired)
          else (Pass, Net(Pruned(Patched(net.layers, li, ri), rw.legit + {result.id}), Some(rw.edges)))
  }

  // ---------------------------------------------------------------------------
  // The mutable document

  /** The `<edges>` element; its children are edited in place. */
  class Edges {
    var items: seq<Edge>

    constructor (items: seq<Edge>)
      ensures this.items == items
    {
      this.items := items;
    }
  }

  /** A parsed IR document: its layers and its `<edges>` element (null when absent). */
  class Document {
    var layers: seq<Layer>
    var edges: Edges?

    constructor (net: Net)
      ensures State() == net
      ensures edges != null ==> fresh(edges)
    {
      layers := net.layers;
      if net.edges.Some? {
        edges := new Edges(net.edges.value);
      } else {
        edges := null;
      }
    }

    /** The document as a value. */
    function State(): Net
      reads this, edges
    {
      Net(layers, if edges == null then None else Some(edges.items))
    }

    /** Splits the layers still to visit off their first element. */
    static lemma RemainingSplit(done: seq<Layer>, rest: seq<Layer>, i: nat)
      requires i == |done| && i < |done + rest|
      ensures rest != [] && (done + rest)[i] == rest[0]
      ensures (done + rest)[..i] + (done + rest)[i + 1..] == done + rest[1..]
      ensures done + rest == (done + [rest[0]]) + rest[1..]
    {
    }

    /** Lines 122-126: remove, one by one, the layers whose id is not legitimate. */
    method PruneLayers(legit: set<string>)
      modifies this`layers
      ensures layers == KeepLayers(old(layers), legit)
    {
      ghost var orig := layers;
      ghost var j := 0;
      ghost var done: seq<Layer> := [];
      var i := 0;
      while i < |layers|
        invariant 0 <= j <= |orig|
        invariant done == KeepLayers(orig[..j], legit)
        invariant layers == done + orig[j..]
        invariant i == |done|
        decreases |orig| - j
      {
        RemainingSplit(done, orig[j..], i);
        KeepLayersSnoc(orig[..j], orig[j], legit);
        assert orig[..j + 1] == orig[..j] + [orig[j]];
        if layers[i].id !in legit {
          layers := layers[..i] + layers[i + 1..];
        } else {
          done := done + [orig[j]];
          i := i + 1;
        }
        j := j + 1;
      }
      assert orig[..j] == orig;
    }

    /** `delLayers(tree, layerName)`: the document is changed in place; errors are returned. */
    method DelLayers(layerName: string) returns (r: Outcome<CutError>)
      modifies this`layers, edges
      ensures (r, State()) == Cut(old(State()), layerName)
    {
      var found := FindByName(layers, layerName);
      if found.None? {
        return Fail(LayerNotFound);
      }
      var li := found.value;
      var layer := layers[li];
      if layer.kind == ResultType {
        return Pass;
      }
      if !GroupPresent(layer.output) {
        return Fail(NoOutput);
      }
      if !FirstPortPresent(layer.output) {
        return Fail(NoOutputPort);
      }
      var outputPort := layer.output.value.ports[0];
      // copies of the cut layer's output dims, taken before any change
      var outputPortDims := outputPort.dims;
      var foundResult := FindResult(layers);
      if foundResult.None? {
        return Fail(NoResultLayer);
      }
      var ri := foundResult.value;
      var result := layers[ri];
      if edges == null {
        return Fail(NoEdges);
      }
      var changed := ChangeEdges(edges, {}, layer.id, result.id);
      if changed.Failure? {
        return Fail(changed.error);
      }
      var legit := changed.value + {result.id};
      if !GroupPresent(result.input) {
        return Fail(NoResultInput);
      }
      if !FirstPortPresent(result.input) {
        return Fail(NoResultInputPort);
      }
      var resultInputPort := result.input.value.ports[0];
      // remove the Result's current dims, then append the copies in order
      var dims := resultInputPort.dims;
      while |dims| > 0
        decreases |dims|
      {
        dims := dims[1..];
      }
      var i := 0;
      while i < |outputPortDims|
        invariant 0 <= i <= |outputPortDims|
        invariant dims == outputPortDims[..i]
      {
        dims := dims + [outputPortDims[i]];
        i := i + 1;
      }
      assert outputPortDims[..i] == outputPortDims;
      ghost var before := layers;
      layers := layers[ri := WithInputDims(result, dims)];
      layers := layers[li := WithOutputNames(layers[li], result.name)];
      assert layers == Patched(before, li, ri);
      if |legit| > 1 {
        PruneLayers(legit);
      }
      return Pass;
    }
  }

  /**
   * `changeEdges(edges, legit, layerId, resultId)`: edits the children of
   * `edges` in place and returns the grown legitimate set.
   */
  method ChangeEdges(edges: Edges, legit: set<string>, layerId: string, resultId: string)
    returns (r: Result<set<string>, CutError>)
    modifies edges
    ensures match ChangedEdges(old(edges.items), legit, layerId, resultId)
      case Failure(e) => r == Failure(e) && edges.items == old(edges.items)
      case Success(rw) => r == Success(rw.legit) && edges.items == rw.edges
  {
    ghost var items0 := edges.items;
    var found := FirstFrom(edges.items, layerId);
    if found.None? {
      return Failure(NoEdgeForLayer);
    }
    var k := found.value;
    var rewired := Rewire(edges.items[k], resultId);
    edges.items := edges.items[k := rewired];
    RemoveFollowing(edges, k);
    assert edges.items[..k] == items0[..k] && edges.items[k] == rewired;
    var grown := WalkPreceding(edges, k, legit + {layerId, rewired.fromLayer});
    return Success(grown);
  }

  /** Lines 23-24: remove every sibling that follows the edge at position `k`. */
  method RemoveFollowing(edges: Edges, k: nat)
    requires k < |edges.items|
    modifies edges
    ensures edges.items == old(edges.items[..k + 1])
  {
    ghost var items0 := edges.items;
    var n := |edges.items|;
    var j := k + 1;
    while j < n
      invariant k + 1 <= j <= n
      invariant edges.items == items0[..k + 1] + items0[j..]
    {
      edges.items := edges.items[..k + 1] + edges.items[k + 2..];
      j := j + 1;
    }
  }

  /**
   * Lines 29-50: visit the siblings preceding the last edge, nearest first;
   * keep an edge and make its `from-layer` legitimate when its `to-layer` is
   * legitimate, otherwise remove it.
   */
  method WalkPreceding(edges: Edges, k: nat, legit: set<string>) returns (grown: set<string>)
    requires |edges.items| == k + 1
    modifies edges
    ensures var w := Walk(old(edges.items[..k]), legit);
      grown == w.legit && edges.items == w.kept + [old(edges.items[k])]
  {
    ghost var pre := edges.items[..k];
    ghost var last := edges.items[k];
    ghost var keptSuffix: seq<Edge> := [];
    grown := legit;
    var i := k;
    assert pre[..i] == pre;
    while i > 0
      invariant 0 <= i <= k
      invariant edges.items == pre[..i] + keptSuffix + [last]
      invariant Walk(pre, legit).kept == Walk(pre[..i], grown).kept + keptSuffix
      invariant Walk(pre, legit).legit == Walk(pre[..i], grown).legit
    {
      var sibling := edges.items[i - 1];
      assert sibling == pre[..i][i - 1];
      assert pre[..i][..i - 1] == pre[..i - 1];
      if sibling.toLayer in grown {
        grown := grown + {sibling.fromLayer};
        keptSuffix := [sibling] + keptSuffix;
      } else {
        edges.items := edges.items[..i - 1] + edges.items[i..];
      }
      i := i - 1;
    }
    assert pre[..0] == [];
  }
}
