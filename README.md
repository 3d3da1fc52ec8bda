# Subgraph extraction for the VPU accuracy check, in Dafny

The repository checks a model's accuracy on an NPU one subgraph at a time.
It cuts an OpenVINO IR document (`.xml` with a `.bin` of weights) at a
named layer. Everything downstream of that layer goes. The layer's output
then feeds the model's Result layer directly. The Python code edits the
parsed XML tree in place.

This project models that core and proves what it does:

- `changeEdges` (src/edit_xml.py) is modelled as the mutable `<edges>`
  element (`EditXml.Edges`) and the method `EditXml.ChangeEdges`, with two
  loop methods for its two sibling walks. Each method is proved against the
  value-level specification `EdgeWalk.ChangedEdges`. That specification
  rewires the first edge leaving the cut layer to port 0 of the Result. It
  drops every later edge. It then walks the earlier edges backwards
  (`EdgeWalk.Walk`): an edge stays, and its source becomes legitimate, when
  it feeds a layer that is already legitimate. `EdgeWalk.Selected` is the
  front-to-back form of the edges kept: it takes each edge in document order
  and keeps it when its target is in the set the walk holds at that edge's
  visit. The walk is proved to agree with it.
- `delLayers` is modelled as the method `EditXml.Document.DelLayers` on a
  mutable document (`EditXml.Document`: a sequence of layers and a nullable
  `<edges>` element). It is proved equal to the value-level function
  `EditXml.Cut`. `Cut` returns the outcome (pass, or which exception was
  raised) together with the document afterwards. The guarantees of
  `delLayers` are lemmas about `Cut` (module `CutProperties`):
  - which errors are raised, in which order, and what state each leaves;
  - cutting at a Result changes nothing;
  - the first edge leaving the cut layer becomes the last edge and feeds
    port 0 of the Result;
  - the Result's first input port gets exactly the cut layer's output dims,
    in order;
  - the cut layer's output port gets `names` = the Result's name;
  - the surviving layers are exactly the legitimate ones, in document order,
    and no surviving edge refers to a removed layer.

  `CutExample` works one cut through end to end.
- `get_matched_node_list` and `get_node_list`
  (src/accuracy_check_for_subgraph.py) are filters over the `name`
  attributes of the document's elements, in document order.
- `create_new_subgraph` and `delete_subgraph_files` are modelled for their
  file-name logic (`SubgraphPaths`): pathlib's `stem` and `suffix`, the
  `<stem>-cut-<layer>.xml` name, and the `.bin` beside an `.xml`.
- `extract_number` (src/subgraph_accuracy_check.py) is the key that sorts
  the subgraph results (`SortKey`). It returns the number in a trailing
  `_<digits>.xml`, or infinity.

Modelling choices:

- An IR layer is a `Layer` value: its id, name and type, plus its optional
  `<input>` and `<output>` groups of ports.
- A port keeps its `<dim>` children and a count of its other child
  elements. An `<input>` or `<output>` keeps its `<port>` children and a
  count of its other child elements. An lxml element is truthy when it has
  child elements, so `if not output` and `if not output_port` become
  `GroupPresent` and `FirstPortPresent`. An `<output>` whose only child is
  an `<rt_info>` therefore passes the first test and fails the second
  (`CutExample.ExampleOutputWithoutPort`).
- An edge is its four attributes.
- lxml's `itersiblings` and `iter` fetch the next node before they yield the
  current one. So removing the current node while iterating visits every
  sibling once. The loops are modelled that way.
- The legitimate set always holds the cut layer's id and the Result's id.
  It therefore has a single element only when those two ids are equal. The
  XPath fallback `@id < result and @id > cut` then selects nothing
  (`EditXml.Pruned`).
- The XPath test `contains(concat('|', ids, '|'), concat('|', @id, '|'))` is
  modelled as set membership.

What the code does at three points that are easy to misread:

- The Result's id is added to the legitimate set before the choice between
  set membership and the id range at lines 118-119. The range is therefore
  used only when the cut id equals the Result id, and it then removes
  nothing.
- A missing or empty `<input>` on the Result, or a first input port without
  children, is detected after `changeEdges` has already rewritten `<edges>`.
  The document is left with the new edges and the old layers
  (`CutProperties.CutErrorState`); nothing is rolled back.
- The Result's input dims and the cut layer's `names` are patched before the
  layers are pruned.

## Model

| member | source | states |
|---|---|---|
| IrModel.FirstIndex | src/edit_xml.py:56 | the index of the first element satisfying the test, as `find` returns the first match in document order, and None exactly when nothing matches |
| IrModel.PortPresent | src/edit_xml.py:72 | the truthiness of an lxml port element: it has at least one child element, a `<dim>` or another |
| IrModel.GroupPresent | src/edit_xml.py:65-68 | `find("output")` or `find("input")` followed by a truthiness test: the element exists and has at least one child element, a `<port>` or another |
| IrModel.FirstPortPresent | src/edit_xml.py:71-73 | `find("port")` on the group followed by a truthiness test: the group has a port and its first port has a child element |
| EdgeWalk.Rewire | src/edit_xml.py:19-20 | the rewired edge keeps its source layer and port and now feeds port "0" of the Result |
| EdgeWalk.Walk | src/edit_xml.py:31-50 | the backward walk over the edges before the rewired one, nearest first: an edge whose target is legitimate is kept and its source becomes legitimate; any other edge is removed |
| EdgeWalk.ChangedEdges | src/edit_xml.py:11-50 | `changeEdges` as a value: no edge leaving the cut layer raises; otherwise the walk's kept edges, then the rewired edge, and the grown legitimate set |
| EdgeWalk.WalkGrows | src/edit_xml.py:29-38 | the backward walk only adds ids to the legitimate set, and only source ids of the edges it visits |
| EdgeWalk.WalkKeepsOrder | src/edit_xml.py:31-50 | the kept edges are a subsequence of the preceding edges: the walk removes edges and never reorders them |
| EdgeWalk.WalkCompose | src/edit_xml.py:31-50 | walking `a + b` is walking `b` first and then `a` with the set `b` produced, the kept edges concatenated |
| EdgeWalk.VisitStep | src/edit_xml.py:33-38 | visiting one edge adds its source to the set, and keeps it, exactly when its target is already legitimate |
| EdgeWalk.WalkSelectedFrom | src/edit_xml.py:31-50 | walking a prefix with the set left by the rest keeps exactly the front-to-back form of the kept edges of that prefix |
| EdgeWalk.WalkKeepsExactlySelected | src/edit_xml.py:31-50 | the backward walk keeps exactly the edges whose target is legitimate at the moment they are visited, in document order |
| EdgeWalk.WalkEndpointsLegit | src/edit_xml.py:31-50 | both ends of every kept edge are in the final legitimate set |
| EdgeWalk.WalkAvoids | src/edit_xml.py:31-50 | an id that is not legitimate at the start and is the source of no edge never becomes legitimate, and no kept edge feeds it |
| EdgeWalk.ChangedEdgesFailsIff | src/edit_xml.py:14-17 | `changeEdges` raises "Cannot find edge for layer" exactly when no edge leaves the cut layer |
| EdgeWalk.ChangedEdgesShape | src/edit_xml.py:14-50 | with the first leaving edge at k, the result is the walk of the edges before k followed by the rewired edge, and everything after k is gone |
| EdgeWalk.ChangedEdgesLegit | src/edit_xml.py:19-50 | the set grows by at least the cut id; the last edge goes from the cut layer to port "0" of the Result; every other edge joins two legitimate ids |
| EdgeWalk.ChangedEdgesSoleResultInput | src/edit_xml.py:19-50 | when the Result's id differs from the cut id, is not yet legitimate and is the source of no edge, the rewired edge is the only edge that feeds the Result |
| EditXml.ChangeEdges | src/edit_xml.py:11-50 | the in-place edit of `<edges>` leaves exactly the edges of `ChangedEdges` and returns its legitimate set; on failure nothing changes |
| EditXml.RemoveFollowing | src/edit_xml.py:23-24 | every sibling after the rewired edge is removed and the edges up to it are untouched |
| EditXml.WalkPreceding | src/edit_xml.py:29-50 | the in-place reverse walk leaves the edges `Walk` keeps, then the rewired edge, and returns `Walk`'s set |
| EditXml.FindByName | src/edit_xml.py:56 | `//layer[@name=...]`: the first layer with that name, or none |
| EditXml.FindResult | src/edit_xml.py:80 | `//layer[@type='Result']`: the first layer of type Result, or none |
| EditXml.WithInputDims | src/edit_xml.py:106-112 | only the dims of the first input port change, to exactly the given dims in order; other ports and fields are kept |
| EditXml.WithOutputNames | src/edit_xml.py:116 | only `names` on the first output port changes, to the given value; other ports and fields are kept |
| EditXml.KeepLayers | src/edit_xml.py:118-126 | the layers whose id is in the legitimate set, in document order |
| EditXml.Pruned | src/edit_xml.py:118-126 | with two or more legitimate ids, the layers with a legitimate id; with one, the id range between Result and cut is empty and every layer stays |
| EditXml.Patched | src/edit_xml.py:106-116 | the Result's first input port gets the cut layer's output dims, then the cut layer's first output port gets `names` = the Result's name |
| EditXml.Cut | src/edit_xml.py:53-126 | `delLayers` as a value: the checks in source order, each error with the document it leaves, and on success the patched, pruned layers with the rewired edges |
| EditXml.Edges.constructor | src/edit_xml.py:86 | the `<edges>` element, holding the given edges in document order |
| EditXml.Document.constructor | src/edit_xml.py:53 | a parsed document whose layers and `<edges>` element are those of the given value |
| EditXml.Document.State | src/edit_xml.py:53 | the document as a value: its layers, and its edges or none when `<edges>` is absent |
| EditXml.KeepLayersSpec | src/edit_xml.py:118-126 | pruning keeps a subsequence of the layers, and a layer survives exactly when its id is legitimate |
| EditXml.KeepLayersCount | src/edit_xml.py:118-126 | pruning keeps every copy of a layer with a legitimate id, and no copy of any other layer |
| EditXml.KeepLayersSnoc | src/edit_xml.py:125-126 | pruning one more layer keeps it exactly when its id is legitimate |
| EditXml.Document.PruneLayers | src/edit_xml.py:122-126 | removing non-legitimate layers one by one in place leaves exactly the `KeepLayers` result |
| EditXml.Document.DelLayers | src/edit_xml.py:53-126 | the in-place edit returns the outcome of `Cut` and leaves the document `Cut` describes, including on each error path |
| CutProperties.FindByNameIs | src/edit_xml.py:56 | the layer found by name is the first one with that name |
| CutProperties.FindResultIs | src/edit_xml.py:80 | the Result found is the first layer of type Result |
| CutProperties.CutNotFound | src/edit_xml.py:56-59 | "Cannot find layer by name" is raised exactly when no layer has the name, and the document is unchanged |
| CutProperties.CutAtResult | src/edit_xml.py:61-63 | cutting at a Result layer returns without changing anything |
| CutProperties.CutChecksBeforeChange | src/edit_xml.py:65-94 | no output, no output port, no Result, no `<edges>`, no edge leaving the layer: each raises its own error, in that order, with the document unchanged |
| CutProperties.CutErrorState | src/edit_xml.py:94-104 | every error leaves the document unchanged, except the two Result-input errors, which leave the rewired edges and the original layers |
| CutProperties.PatchedLayers | src/edit_xml.py:106-116 | after patching, the Result has the cut layer's output dims, the cut layer has `names` = the Result's name, and every other layer is as before |
| CutProperties.CutPassUnfold | src/edit_xml.py:53-126 | a successful cut means every check passed, and the document is the patched, pruned layers with the rewired edges |
| CutProperties.CutPassesWhen | src/edit_xml.py:53-126 | when every check passes, the cut succeeds and the document is the patched, pruned layers with the rewired edges |
| CutProperties.CutRewiresToResult | src/edit_xml.py:94-96 | after a successful cut, the last edge goes from the cut layer to port "0" of the Result; both ids are legitimate; with distinct ids the set has two or more elements, so the id-range fallback of lines 118-119 is not used |
| CutProperties.CutPatchesResult | src/edit_xml.py:106-116 | the Result, with its first input port holding the cut layer's original output dims in order, and the cut layer, with `names` set, both survive the cut |
| CutProperties.CutPrunes | src/edit_xml.py:118-126 | the surviving layers are a subsequence of the patched ones, exactly those with a legitimate id, and no surviving edge refers to a removed layer |
| CutProperties.PrunedKeeps | src/edit_xml.py:118-126 | pruning keeps a subsequence; with two or more legitimate ids it keeps exactly the legitimate layers, and so every layer an edge between legitimate ids refers to |
| CutProperties.NamesPatchIdempotent | src/edit_xml.py:116 | setting `names` a second time to the same value changes nothing |
| CutExample.ExampleEdges | src/edit_xml.py:11-50 | on the example graph, `changeEdges` at B keeps Input->A and A->B, rewires B's edge to port 0 of the Result, and makes ids 0, 1 and 2 legitimate |
| CutExample.ExampleLayers | src/edit_xml.py:118-126 | pruning six layers of which the first, second, fourth and fifth have a legitimate id keeps exactly those four, in order |
| CutExample.ExamplePatched | src/edit_xml.py:106-116 | patching the example moves B's output dims onto the Result and sets `names` on B |
| CutExample.ExamplePruned | src/edit_xml.py:118-126 | pruning the patched example drops the side branches C and D |
| CutExample.ExampleOutputWithoutPort | src/edit_xml.py:65-73 | an `<output>` whose only child is not a `<port>` passes the output test and raises the output-port error, leaving the document unchanged |
| CutExample.ExampleChecks | src/edit_xml.py:56-104 | every check of `delLayers` passes on the example when cutting at B |
| CutExample.CutDropsSideBranches | src/edit_xml.py:53-126 | cutting the example at B yields Input, A, B (with `names` set) and the Result (with B's dims), and the edges Input->A, A->B, B->Result port 0 |
| NodeFilters.Names | src/accuracy_check_for_subgraph.py:42-45 | the names listed are the present `name` attributes in document order, each as often as it occurs, and nothing else |
| NodeFilters.Contains | src/accuracy_check_for_subgraph.py:26 | Python's `sub in s` on strings: `sub` occurs at some position of `s` |
| NodeFilters.ContainsAny | src/accuracy_check_for_subgraph.py:26 | `any(x in s for x in subs)`: some string of the set occurs in `s` |
| NodeFilters.MatchedNodeSpelledOut | src/accuracy_check_for_subgraph.py:21-26 | the test of `get_matched_node_list` is: contains "/model/layers." and none of the three excluded substrings |
| NodeFilters.ListedNodeSpelledOut | src/accuracy_check_for_subgraph.py:40-45 | the test of `get_node_list` is: contains none of the six excluded substrings |
| NodeFilters.NamesWhere | src/accuracy_check_for_subgraph.py:23-27 | the comprehension keeps a subsequence of the names, in document order; a name that passes the test is listed as often as it occurs, any other name never |
| NodeFilters.GetMatchedNodeList | src/accuracy_check_for_subgraph.py:21-27 | exactly the names, in document order and each as often as it occurs, that contain "/model/layers." and none of "OpenVINO-EP-subgraph", "sink_port" and "GroupQueryAttention" |
| NodeFilters.GetNodeList | src/accuracy_check_for_subgraph.py:40-46 | exactly the names, in document order and each as often as it occurs, that contain none of the six excluded substrings |
| NodeFilters.ContainsPrefix | src/accuracy_check_for_subgraph.py:45 | a name that contains a string contains each of its prefixes |
| NodeFilters.NamesWhereAgree | src/accuracy_check_for_subgraph.py:42-46 | two tests that agree on every name select the same list |
| NodeFilters.WeightScalesRedundant | src/accuracy_check_for_subgraph.py:40 | dropping "weight_scales" from the exclusions changes no result, because "weight" already excludes it |
| SubgraphPaths.LastIndexOf | src/accuracy_check_for_subgraph.py:54 | the position of the last occurrence of a character, or None exactly when it does not occur |
| SubgraphPaths.Suffix | src/accuracy_check_for_subgraph.py:54 | `PurePath.suffix`: from the last dot on, when that dot is neither the first nor the last character; otherwise empty |
| SubgraphPaths.Stem | src/accuracy_check_for_subgraph.py:67 | `PurePath.stem`: the name without its suffix |
| SubgraphPaths.CutFileName | src/accuracy_check_for_subgraph.py:67 | the model's stem, "-cut-", the layer name with '/' replaced by '-', and the model's suffix |
| SubgraphPaths.BinPath | src/accuracy_check_for_subgraph.py:70-71 | the `.bin` beside a file: same directory, its stem followed by ".bin", as also at line 83 |
| SubgraphPaths.ReplaceSlashes | src/accuracy_check_for_subgraph.py:67 | same length, every '/' becomes '-', every other character is kept, and no '/' is left |
| SubgraphPaths.StemSuffix | src/accuracy_check_for_subgraph.py:67 | a name's stem followed by its suffix gives the name back |
| SubgraphPaths.StemOfXmlName | src/accuracy_check_for_subgraph.py:67 | a non-empty `x` followed by ".xml" has stem `x` and suffix ".xml" |
| SubgraphPaths.CutFileNameShape | src/accuracy_check_for_subgraph.py:67 | the cut file's stem is the model's stem, "-cut-" and the rewritten layer name; its suffix is ".xml"; it holds no '/' when the model name holds none |
| SubgraphPaths.WeightsRoundTrip | src/accuracy_check_for_subgraph.py:70-71 | the `.bin` derived from the returned `.xml`, as at line 83, is the `.bin` the weights were copied to |
| SubgraphPaths.CreateNewSubgraph | src/accuracy_check_for_subgraph.py:51-78 | a non-`.xml` path and an empty layer name are refused, in that order, before the document changes; otherwise the document is cut as `Cut` says, and on success the cut file's path is returned |
| SortKey.TrailingDigits | src/subgraph_accuracy_check.py:83 | the longest run of digits at the end of a string: every character in it is a digit, and the one before it is not |
| SortKey.TrailingRun | src/subgraph_accuracy_check.py:83 | the trailing run is a string of digits |
| SortKey.KeyLess | src/accuracy_check_per_subgraph.py:17 | Python's `<` between the sort keys: numbers by value, every number below infinity, infinity below nothing |
| SortKey.DecimalValue | src/subgraph_accuracy_check.py:84 | `int(s)` for a string of ASCII digits |
| SortKey.XmlTailStart | src/subgraph_accuracy_check.py:83 | where `\.xml$` can match: ".xml" at the very end, or just before a final newline |
| SortKey.ExtractNumber | src/subgraph_accuracy_check.py:82-84 | `extract_number`: the value of the digits between the last `_` and the ".xml" tail when they form a non-empty run, otherwise infinity |
| SortKey.MatchEnd | src/subgraph_accuracy_check.py:83 | a match of `_(\d+)\.xml$` can only end at the one ".xml" at the end of the name, or before a final newline |
| SortKey.MatchIsMaximalRun | src/subgraph_accuracy_check.py:83 | the matched digits are the whole run of digits before ".xml" |
| SortKey.ExtractNumberOfMatch | src/subgraph_accuracy_check.py:82-84 | when the pattern matches, the key is the value of the matched digits |
| SortKey.NumberHasMatch | src/subgraph_accuracy_check.py:82-84 | a numeric key comes only from a match of the pattern |
| SortKey.ExtractNumberSpec | src/subgraph_accuracy_check.py:82-84 | the key is a number exactly when the pattern matches, and then it is the value of the matched digits; otherwise it is infinity |
| SortKey.LeadingZero | src/subgraph_accuracy_check.py:84 | leading zeros do not change the value, as with `int("007")` |
| SortKey.UnnumberedSortsLast | src/accuracy_check_per_subgraph.py:17 | a file name without a match gets key infinity, so it sorts after every numbered name and before none |
| SortKey.ExampleLastRun | src/subgraph_accuracy_check.py:82-84 | "a_1_23.xml" gives 23: the last `_<digits>` counts |
| SortKey.ExampleZeros | src/subgraph_accuracy_check.py:82-84 | "_007.xml" gives 7 |
| SortKey.ExampleNewline | src/subgraph_accuracy_check.py:83 | "a_5.xml" followed by a newline gives 5, because `$` also matches before a final newline |
| SortKey.ExampleNoUnderscore | src/subgraph_accuracy_check.py:83 | "a_x12.xml" gives infinity: the digits must follow the underscore directly |
| SortKey.ExampleUpperCase | src/subgraph_accuracy_check.py:83 | "a_12.XML" gives infinity: the suffix is matched case-sensitively |

## Left out

- Parsing and writing the XML (lxml `objectify.parse`, `tree.write`): the model starts from a parsed document and ends with the edited one.
- Layers nested inside sub-graphs (`//layer` also finds layers in the bodies of TensorIterator or Loop layers): the model has a single flat list of layers.
- Missing `id`, `from-layer` or `to-layer` attributes: every layer and edge carries all of them.
- EditXml.FindByName: a layer name that contains `'` makes the predicate `//layer[@name='...']` of line 56 invalid, and `find` raises a syntax error; the model looks the name up as given and raises `LayerNotFound` or finds the layer.
- IrModel.GroupPresent: the document is parsed with lxml `objectify`, which judges an element without children by its text; the model treats every childless `<input>` or `<output>` as absent, which can differ for one that has text.
- IrModel.PortPresent: likewise, every `<port>` without children is treated as falsy, whatever its text.
- Ids that contain '|': the XPath membership test is modelled as exact set membership, which it is only when no id contains '|'.
- The `paths` set of `changeEdges` (lines 27, 40-49): it is filled and never read, so it changes nothing.
- The order of the Result's new `<dim>` children relative to its other child elements: a port keeps its dims as one sequence and counts its other children.
- The `print` calls, the weights copy and the `is_file` test (lines 72-76), and the file deletions of `delete_subgraph_files` (lines 85-95): these are file-system effects; only the paths they use are modelled.
- SubgraphPaths.FsPath: the parent directory is an opaque string; pathlib's normalisation of the path text is not modelled.
- SortKey.IsDigit: Python's `\d` also matches non-ASCII decimal digits; the model accepts only '0'-'9'.
- Inference with OpenVINO, the numerical comparison, the CSV output and the analysis scripts: they are floating-point and I/O code outside this core.
- overall.py repeats these functions; it is not part of this model.
