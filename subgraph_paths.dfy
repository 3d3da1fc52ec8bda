/**
 * The file names of src/accuracy_check_for_subgraph.py: `create_new_subgraph`
 * writes the cut document next to the model as `<stem>-cut-<layer>.xml` and
 * copies the weights to the matching `.bin`; `delete_subgraph_files` derives
 * the same `.bin` from the `.xml` it is given.
 */
module SubgraphPaths {
  import opened Wrappers
  import opened IrModel
  import opened EditXml

  /**
   * A file-system path split as pathlib sees it: the parent directory, kept
   * opaque, and the final component `name`.
   */
  datatype FsPath = FsPath(dir: string, name: string)

  /** The errors `create_new_subgraph` raises itself, and those of `delLayers` it lets through. */
  datatype SubgraphError = NotIrFile | EmptyLayerName | CutFailed(cause: CutError)

  /** Python's `s.rfind(c)`, None for -1. */
  function LastIndexOf(s: string, c: char): (r: Option<nat>)
    ensures r.Some? ==> r.value < |s| && s[r.value] == c
    ensures r.Some? ==> forall j :: r.value < j < |s| ==> s[j] != c
    ensures r.None? <==> forall j :: 0 <= j < |s| ==> s[j] != c
    decreases |s|
  {
    if |s| == 0 then None
    else if s[|s| - 1] == c then Some(|s| - 1)
    else LastIndexOf(s[..|s| - 1], c)
  }

  /** The position of the dot that starts pathlib's suffix: the last dot, neither first nor last in the name. */
  function SuffixDot(name: string): Option<nat>
  {
    match LastIndexOf(name, '.')
    case Some(i) => if 0 < i < |name| - 1 then Some(i) else None
    case None => None
  }

  /** `PurePath.suffix`. */
  function Suffix(name: string): string
  {
    match SuffixDot(name)
    case Some(i) => name[i..]
    case None => ""
  }

  /** `PurePath.stem`. */
  function Stem(name: string): string
  {
    match SuffixDot(name)
    case Some(i) => name[..i]
    case None => name
  }

  /** `s.replace('/', '-')`. */
  function ReplaceSlashes(s: string): (r: string)
    ensures |r| == |s|
    ensures forall i :: 0 <= i < |s| ==> r[i] == if s[i] == '/' then '-' else s[i]
    ensures '/' !in r
  {
    if |s| == 0 then []
    else [if s[0] == '/' then '-' else s[0]] + ReplaceSlashes(s[1..])
  }

  /** Line 67: the name of the cut document. */
  function CutFileName(model: FsPath, layerName: string): string
  {
    Stem(model.name) + "-cut-" + ReplaceSlashes(layerName) + Suffix(model.name)
  }

  /** Lines 70, 71 and 83: the weights file beside an `.xml`, `parent / (stem + ".bin")`. */
  function BinPath(p: FsPath): FsPath
  {
    FsPath(p.dir, Stem(p.name) + ".bin")
  }

  /** The stem and suffix of a name put back together give the name. */
  lemma StemSuffix(name: string)
    ensures Stem(name) + Suffix(name) == name
  {
    match SuffixDot(name)
    case Some(i) => assert name[..i] + name[i..] == name;
    case None =>
  }

  /** A name `x + ".xml"` with `x` non-empty has stem `x` and suffix ".xml". */
  lemma StemOfXmlName(x: string)
    requires |x| > 0
    ensures Stem(x + ".xml") == x && Suffix(x + ".xml") == ".xml"
  {
    var name := x + ".xml";
    assert name[|x|] == '.';
    assert forall j :: |x| < j < |name| ==> name[j] != '.';
    var li := LastIndexOf(name, '.');
    assert li == Some(|x|);
    assert name[..|x|] == x;
  }

  /**
   * The cut document sits in the model's directory, its stem is the model's
   * stem, "-cut-" and the layer name with every '/' replaced by '-', and its
   * suffix is ".xml" again; no '/' of the layer name reaches the file name.
   */
  lemma CutFileNameShape(model: FsPath, layerName: string)
    requires Suffix(model.name) == ".xml"
    ensures Stem(CutFileName(model, layerName)) == Stem(model.name) + "-cut-" + ReplaceSlashes(layerName)
    ensures Suffix(CutFileName(model, layerName)) == ".xml"
    ensures '/' !in model.name ==> '/' !in CutFileName(model, layerName)
  {
    StemOfXmlName(Stem(model.name) + "-cut-" + ReplaceSlashes(layerName));
    StemSuffix(model.name);
    if '/' !in model.name {
      assert forall c :: c in Stem(model.name) ==> c in model.name;
    }
  }

  /**
   * Round trip: the `.bin` that `delete_subgraph_files` derives from the path
   * `create_new_subgraph` returns is the `.bin` it copied the weights to, the
   * model's stem with "-cut-" and the rewritten layer name.
   */
  lemma WeightsRoundTrip(model: FsPath, layerName: string)
    requires Suffix(model.name) == ".xml"
    ensures BinPath(FsPath(model.dir, CutFileName(model, layerName)))
         == FsPath(model.dir, Stem(model.name) + "-cut-" + ReplaceSlashes(layerName) + ".bin")
  {
    CutFileNameShape(model, layerName);
  }

  /**
   * `create_new_subgraph(modelpath, layername)` on a document already parsed
   * from `model`: both argument checks come first, then `delLayers`; on
   * success the path of the cut document is returned.
   */
  method CreateNewSubgraph(model: FsPath, layerName: string, doc: Document) returns (r: Result<FsPath, SubgraphError>)
    modifies doc`layers, doc.edges
    ensures Suffix(model.name) != ".xml" ==> r == Failure(NotIrFile) && doc.State() == old(doc.State())
    ensures Suffix(model.name) == ".xml" && layerName == [] ==>
      r == Failure(EmptyLayerName) && doc.State() == old(doc.State())
    ensures Suffix(model.name) == ".xml" && layerName != [] ==>
      && doc.State() == Cut(old(doc.State()), layerName).1
      && r == match Cut(old(doc.State()), layerName).0
              case Fail(e) => Failure(CutFailed(e))
              case Pass => Success(FsPath(model.dir, CutFileName(model, layerName)))
  {
    if Suffix(model.name) != ".xml" {
      return Failure(NotIrFile);
    }
    if layerName == [] {
      return Failure(EmptyLayerName);
    }
    var outcome := doc.DelLayers(layerName);
    if outcome.Fail? {
      return Failure(CutFailed(outcome.error));
    }
    var newFileName := FsPath(model.dir, CutFileName(model, layerName));
    return Success(newFileName);
  }
}
