/**
 * The in-memory shape of an OpenVINO IR document, as far as the graph surgery
 * of src/edit_xml.py looks at it: a flat list of layers and a list of edges.
 */
module IrModel {
  import opened Wrappers

  /** A `<dim>` element: its text, a literal size or a symbolic name. */
  datatype Dim = Dim(text: string)

  /**
   * A `<port>` element. `names` is its optional `names` attribute, `dims` its
   * `<dim>` children in document order, and `otherChildren` the number of its
   * other child elements (such as `<rt_info>`).
   */
  datatype Port = Port(id: string, names: Option<string>, dims: seq<Dim>, otherChildren: nat)

  /**
   * An `<input>` or `<output>` element: its `<port>` children in document
   * order, and the number of its other child elements.
   */
  datatype Group = Group(ports: seq<Port>, otherChildren: nat)

  /**
   * A `<layer>` element. `input` and `output` are its `<input>` and `<output>`
   * elements, or None when the element is absent.
   */
  datatype Layer = Layer(id: string, name: string, kind: string,
                         input: Option<Group>, output: Option<Group>)

  /** An `<edge>` element with its four attributes. */
  datatype Edge = Edge(fromLayer: string, fromPort: string, toLayer: string, toPort: string)

  /** A whole document: the layers in order, and the `<edges>` element's children (None when absent). */
  datatype Net = Net(layers: seq<Layer>, edges: Option<seq<Edge>>)

  /** The exceptions `delLayers` and `changeEdges` raise, one per message. */
  datatype CutError =
    | LayerNotFound      // no layer has the given name
    | NoOutput           // the cut layer has no (or an empty) <output>
    | NoOutputPort       // its first output <port> is absent or childless
    | NoResultLayer      // no layer has type Result
    | NoEdges            // the document has no <edges>
    | NoEdgeForLayer     // no edge leaves the cut layer
    | NoResultInput      // the Result layer has no (or an empty) <input>
    | NoResultInputPort  // its first input <port> is absent or childless

  const ResultType: string := "Result"

  /** An lxml element is truthy when it has at least one child element. */
  predicate PortPresent(p: Port) {
    |p.dims| + p.otherChildren > 0
  }

  /**
   * `find("input")` / `find("output")` followed by a truthiness test: the
   * element exists and has a child element, a `<port>` or another.
   */
  predicate GroupPresent(g: Option<Group>) {
    g.Some? && |g.value.ports| + g.value.otherChildren > 0
  }

  /** The element exists and `find("port")` on it finds a port. */
  predicate HasPort(g: Option<Group>) {
    g.Some? && |g.value.ports| > 0
  }

  /** `find("port")` on the element followed by a truthiness test. */
  predicate FirstPortPresent(g: Option<Group>) {
    HasPort(g) && PortPresent(g.value.ports[0])
  }

  /** The position of the first element satisfying `p`, as `find` returns the first match in document order. */
  function FirstIndex<T>(s: seq<T>, p: T -> bool): (r: Option<nat>)
    ensures r.Some? ==> r.value < |s| && p(s[r.value])
    ensures r.Some? ==> forall j :: 0 <= j < r.value ==> !p(s[j])
    ensures r.None? <==> forall j :: 0 <= j < |s| ==> !p(s[j])
  {
    if |s| == 0 then None
    else if p(s[0]) then Some(0)
    else match FirstIndex(s[1..], p)
      case None => None
      case Some(k) => Some(k + 1)
  }
}
