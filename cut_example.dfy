/**
 * A worked cut. Layers Input(0) -> A(1) -> B(2) -> Result(3), a side branch
 * A -> C(4) -> Result declared after B's outgoing edge, and a dead end
 * Input -> D(5) declared before it. Cutting at B keeps Input, A and B and the
 * Result, drops C and D and their edges, and rewires B's edge to port 0 of
 * the Result.
 */
module CutExample {
  import opened Wrappers
  import opened IrModel
  import opened EdgeWalk
  import opened EditXml
  import opened CutProperties

  /** An `<input>` or `<output>` holding a single port with one dim. */
  function Ports(d: string): Group { Group([Port("0", None, [Dim(d)], 0)], 0) }

  const InputLayer := Layer("0", "Input", "Parameter", None, Some(Ports("8")))
  const LayerA := Layer("1", "A", "Relu", Some(Ports("8")), Some(Ports("8")))
  const LayerD := Layer("5", "D", "Relu", Some(Ports("8")), Some(Ports("8")))
  const LayerB := Layer("2", "B", "Relu", Some(Ports("8")), Some(Ports("4")))
  const Sink := Layer("3", "out", ResultType, Some(Ports("2")), None)
  const LayerC := Layer("4", "C", "Relu", Some(Ports("8")), Some(Ports("2")))

  const InputToA := Edge("0", "0", "1", "0")
  const InputToD := Edge("0", "0", "5", "0")
  const AToB := Edge("1", "0", "2", "0")
  const BToSink := Edge("2", "0", "3", "1")
  const AToC := Edge("1", "0", "4", "0")
  const CToSink := Edge("4", "0", "3", "0")

  /**
   * `changeEdges` at B: the edges after B's are gone, the dead end to D is
   * dropped by the walk, and B's edge now feeds port 0.
   */
  lemma ExampleEdges()
    ensures ChangedEdges([InputToA, InputToD, AToB, BToSink, AToC, CToSink], {}, "2", "3")
         == Success(Rewiring([InputToA, AToB, Edge("2", "0", "3", "0")], {"0", "1", "2"}))
  {
    var edges := [InputToA, InputToD, AToB, BToSink, AToC, CToSink];
    ChangedEdgesShape(edges, {}, "2", "3", 3);
    var none: set<string> := {};
    assert none + {"2"} == {"2"};
    assert edges[..3] == [InputToA, InputToD, AToB];
    assert [InputToA, InputToD, AToB][..2] == [InputToA, InputToD];
    assert [InputToA, InputToD][..1] == [InputToA];
    assert [InputToA][..0] == [];
    assert {"2", "1"} + {"0"} == {"2", "1", "0"};
    assert Walk([InputToA], {"2", "1"}) == WalkState([InputToA], {"2", "1", "0"});
    assert Walk([InputToA, InputToD], {"2", "1"}) == WalkState([InputToA], {"2", "1", "0"});
    assert {"2"} + {"1"} == {"2", "1"};
    assert Walk(edges[..3], {"2"}) == WalkState([InputToA, AToB], {"2", "1", "0"});
    var r := ChangedEdges(edges, {}, "2", "3").value;
    assert r.edges[..2] == [InputToA, AToB];
    assert r.edges == r.edges[..2] + [r.edges[2]];
    assert r.legit == {"0", "1", "2"};
    assert r == Rewiring([InputToA, AToB, Edge("2", "0", "3", "0")], {"0", "1", "2"});
  }

  /** Pruning keeps the four layers with a legitimate id, in order. */
  lemma ExampleLayers(i: Layer, a: Layer, d: Layer, b: Layer, r: Layer, c: Layer, legit: set<string>)
    requires i.id in legit && a.id in legit && b.id in legit && r.id in legit
    requires d.id !in legit && c.id !in legit
    ensures KeepLayers([i, a, d, b, r, c], legit) == [i, a, b, r]
  {
    KeepLayersSnoc([], i, legit);
    assert [] + [i] == [i];
    KeepLayersSnoc([i], a, legit);
    assert [i] + [a] == [i, a];
    KeepLayersSnoc([i, a], d, legit);
    assert [i, a] + [d] == [i, a, d];
    KeepLayersSnoc([i, a, d], b, legit);
    assert [i, a, d] + [b] == [i, a, d, b];
    KeepLayersSnoc([i, a, d, b], r, legit);
    assert [i, a, d, b] + [r] == [i, a, d, b, r];
    KeepLayersSnoc([i, a, d, b, r], c, legit);
    assert [i, a, d, b, r] + [c] == [i, a, d, b, r, c];
  }

  /** The example network's layers, in document order. */
  const Layers := [InputLayer, LayerA, LayerD, LayerB, Sink, LayerC]

  /** B's output names and dims moved onto the Result. */
  lemma ExamplePatched()
    ensures Patched(Layers, 3, 4)
         == [InputLayer, LayerA, LayerD, WithOutputNames(LayerB, "out"), WithInputDims(Sink, [Dim("4")]), LayerC]
  {
    PatchedLayers(Layers, 3, 4);
  }

  /** Pruning the patched layers with the legitimate ids drops C and D. */
  lemma ExamplePruned()
    ensures Pruned(Patched(Layers, 3, 4), {"0", "1", "2", "3"})
         == [InputLayer, LayerA, WithOutputNames(LayerB, "out"), WithInputDims(Sink, [Dim("4")])]
  {
    ExamplePatched();
    var legit: set<string> := {"0", "1", "2", "3"};
    assert "0" in legit && "1" in legit && |legit| > 1;
    assert "5" !in legit && "4" !in legit;
    ExampleLayers(InputLayer, LayerA, LayerD, WithOutputNames(LayerB, "out"), WithInputDims(Sink, [Dim("4")]), LayerC, legit);
  }

  /** The example network's edges, in document order. */
  const EdgeList := [InputToA, InputToD, AToB, BToSink, AToC, CToSink]

  /** The checks of `delLayers` all pass at B. */
  lemma ExampleChecks()
    ensures NamedAt(Layers, "B", 3) && FirstResultAt(Layers, 4)
    ensures OutputUsable(Layers[3]) && GroupPresent(Layers[4].input) && FirstPortPresent(Layers[4].input)
  {
  }

  /**
   * An `<output>` whose only child is an `<rt_info>` is truthy, so the cut
   * gets past the output test and raises the output-port error instead.
   */
  lemma ExampleOutputWithoutPort(net: Net)
    requires net == Net([InputLayer, Layer("1", "A", "Relu", Some(Ports("8")), Some(Group([], 1)))], Some(EdgeList))
    ensures GroupPresent(net.layers[1].output) && !HasPort(net.layers[1].output)
    ensures Cut(net, "A") == (Fail(NoOutputPort), net)
  {
    CutChecksBeforeChange(net, "A", 1);
  }

  /** The whole cut at B. */
  lemma CutDropsSideBranches(net: Net)
    requires net == Net(Layers, Some(EdgeList))
    ensures Cut(net, "B")
         == (Pass, Net([InputLayer, LayerA, WithOutputNames(LayerB, "out"), WithInputDims(Sink, [Dim("4")])],
                       Some([InputToA, AToB, Edge("2", "0", "3", "0")])))
  {
    ExampleChecks();
    ExampleEdges();
    CutPassesWhen(net, "B", 3, 4);
    var rw := Rewiring([InputToA, AToB, Edge("2", "0", "3", "0")], {"0", "1", "2"});
    assert rw.legit + {"3"} == {"0", "1", "2", "3"};
    ExamplePruned();
  }
}
