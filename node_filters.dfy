/**
 * The cut-point name filters of src/accuracy_check_for_subgraph.py:
 * `get_matched_node_list` and `get_node_list` go through every element of
 * the parsed IR in document order and keep the `name` attributes that pass
 * a substring test.
 */
module NodeFilters {
  import opened Wrappers
  import opened Seqs

  /** Python's `sub in s` on strings. */
  predicate Contains(s: string, sub: string)
    decreases |s|
  {
    sub <= s || (|s| > 0 && Contains(s[1..], sub))
  }

  /** Python's `any(x in s for x in subs)`. */
  predicate ContainsAny(s: string, subs: set<string>) {
    exists x :: x in subs && Contains(s, x)
  }

  const LayerMarker: string := "/model/layers."

  const MatchedExclusions: set<string> := {"OpenVINO-EP-subgraph", "sink_port", "GroupQueryAttention"}

  const ListExclusions: set<string> :=
    {"OpenVINO-EP-subgraph", "sink_port", "GroupQueryAttention", "Constant", "weight_scales", "weight"}

  predicate IsMatchedNode(n: string) {
    Contains(n, LayerMarker) && !ContainsAny(n, MatchedExclusions)
  }

  predicate IsListedNode(n: string) {
    !ContainsAny(n, ListExclusions)
  }

  /** Names wrapped back as present attribute values. */
  function Wrapped(names: seq<string>): seq<Option<string>>
  {
    if |names| == 0 then [] else Wrapped(names[..|names| - 1]) + [Some(names[|names| - 1])]
  }

  /**
   * The `name` attributes that are present, in document order: every present
   * value appears, as often as it occurs, and nothing else.
   */
  function Names(attrs: seq<Option<string>>): (r: seq<string>)
    ensures IsSubseq(Wrapped(r), attrs)
    ensures forall n :: multiset(r)[n] == multiset(attrs)[Some(n)]
    ensures forall n :: n in r <==> Some(n) in attrs
  {
    if |attrs| == 0 then []
    else
      var front := attrs[..|attrs| - 1];
      var last := attrs[|attrs| - 1];
      assert attrs == front + [last];
      var r0 := Names(front);
      if last.Some? then
        assert (r0 + [last.value])[..|r0|] == r0;
        SubseqSnoc(Wrapped(r0), front, last);
        r0 + [last.value]
      else
        SubseqExtend(Wrapped(r0), front, last);
        r0
  }

  /**
   * The list comprehension `[name for node in tree.iter() if 'name' in node.attrib and keep(name)]`
   * over the `name` attribute of every element (None when the element has none):
   * the names in document order, each passing name as often as it occurs.
   */
  function NamesWhere(attrs: seq<Option<string>>, keep: string -> bool): (r: seq<string>)
    ensures IsSubseq(r, Names(attrs))
    ensures forall n :: multiset(r)[n] == if keep(n) then multiset(attrs)[Some(n)] else 0
    ensures forall n :: n in r <==> Some(n) in attrs && keep(n)
  {
    if |attrs| == 0 then []
    else
      var front := attrs[..|attrs| - 1];
      var last := attrs[|attrs| - 1];
      assert attrs == front + [last];
      var kept := NamesWhere(front, keep);
      CountSnoc(kept, front, last, keep);
      if last.Some? then
        assert Names(attrs) == Names(front) + [last.value];
        if keep(last.value) then
          SubseqSnoc(kept, Names(front), last.value);
          kept + [last.value]
        else
          SubseqExtend(kept, Names(front), last.value);
          kept
      else
        assert Names(attrs) == Names(front);
        kept
  }

  /** One more attribute: a passing name is counted once more, anything else is not. */
  lemma CountSnoc(kept: seq<string>, front: seq<Option<string>>, last: Option<string>, keep: string -> bool)
    requires forall n :: multiset(kept)[n] == if keep(n) then multiset(front)[Some(n)] else 0
    ensures var r := if last.Some? && keep(last.value) then kept + [last.value] else kept;
      forall n :: multiset(r)[n] == if keep(n) then multiset(front + [last])[Some(n)] else 0
  {
    var r := if last.Some? && keep(last.value) then kept + [last.value] else kept;
    assert multiset(front + [last]) == multiset(front) + multiset{last};
    assert multiset(r) == if last.Some? && keep(last.value) then multiset(kept) + multiset{last.value} else multiset(kept);
  }

  /** The matched-node test, spelled out substring by substring. */
  lemma MatchedNodeSpelledOut()
    ensures forall n :: IsMatchedNode(n) <==>
      && Contains(n, "/model/layers.")
      && !Contains(n, "OpenVINO-EP-subgraph")
      && !Contains(n, "sink_port")
      && !Contains(n, "GroupQueryAttention")
  {
    assert "OpenVINO-EP-subgraph" in MatchedExclusions;
    assert "sink_port" in MatchedExclusions;
    assert "GroupQueryAttention" in MatchedExclusions;
  }

  /** The listed-node test, spelled out substring by substring. */
  lemma ListedNodeSpelledOut()
    ensures forall n :: IsListedNode(n) <==>
      && !Contains(n, "OpenVINO-EP-subgraph")
      && !Contains(n, "sink_port")
      && !Contains(n, "GroupQueryAttention")
      && !Contains(n, "Constant")
      && !Contains(n, "weight_scales")
      && !Contains(n, "weight")
  {
    assert "OpenVINO-EP-subgraph" in ListExclusions;
    assert "sink_port" in ListExclusions;
    assert "GroupQueryAttention" in ListExclusions;
    assert "Constant" in ListExclusions;
    assert "weight_scales" in ListExclusions;
    assert "weight" in ListExclusions;
  }

  /**
   * `get_matched_node_list`: the names that contain "/model/layers." and none
   * of the three excluded substrings, in document order, each as often as it occurs.
   */
  function GetMatchedNodeList(attrs: seq<Option<string>>): (r: seq<string>)
    ensures IsSubseq(r, Names(attrs))
    ensures forall n ::
              multiset(r)[n] == (
                if && Contains(n, "/model/layers.")
                   && !Contains(n, "OpenVINO-EP-subgraph")
                   && !Contains(n, "sink_port")
                   && !Contains(n, "GroupQueryAttention")
                then multiset(attrs)[Some(n)] else 0)
    ensures forall n :: n in r <==>
      && Some(n) in attrs
      && Contains(n, "/model/layers.")
      && !Contains(n, "OpenVINO-EP-subgraph")
      && !Contains(n, "sink_port")
      && !Contains(n, "GroupQueryAttention")
  {
    MatchedNodeSpelledOut();
    NamesWhere(attrs, IsMatchedNode)
  }

  /**
   * `get_node_list`: the names that contain none of the six excluded
   * substrings, in document order, each as often as it occurs.
   */
  function GetNodeList(attrs: seq<Option<string>>): (r: seq<string>)
    ensures IsSubseq(r, Names(attrs))
    ensures forall n ::
              multiset(r)[n] == (
                if && !Contains(n, "OpenVINO-EP-subgraph")
                   && !Contains(n, "sink_port")
                   && !Contains(n, "GroupQueryAttention")
                   && !Contains(n, "Constant")
                   && !Contains(n, "weight_scales")
                   && !Contains(n, "weight")
                then multiset(attrs)[Some(n)] else 0)
    ensures forall n :: n in r <==>
      && Some(n) in attrs
      && !Contains(n, "OpenVINO-EP-subgraph")
      && !Contains(n, "sink_port")
      && !Contains(n, "GroupQueryAttention")
      && !Contains(n, "Constant")
      && !Contains(n, "weight_scales")
      && !Contains(n, "weight")
  {
    ListedNodeSpelledOut();
    NamesWhere(attrs, IsListedNode)
  }

  /** A string that contains `t` contains every prefix of `t`. */
  lemma {:induction false} ContainsPrefix(s: string, t: string, u: string)
    requires Contains(s, t) && u <= t
    ensures Contains(s, u)
    decreases |s|
  {
    if !(t <= s) {
      ContainsPrefix(s[1..], t, u);
    }
  }

  /** Two filters that agree on every name select the same names. */
  lemma {:induction false} NamesWhereAgree(attrs: seq<Option<string>>, p: string -> bool, q: string -> bool)
    requires forall n :: p(n) == q(n)
    ensures NamesWhere(attrs, p) == NamesWhere(attrs, q)
    decreases |attrs|
  {
    if |attrs| > 0 {
      NamesWhereAgree(attrs[..|attrs| - 1], p, q);
    }
  }

  /** Without "weight_scales" in the exclusions, which "weight" already covers. */
  predicate IsListedNodeWithoutScales(n: string) {
    !ContainsAny(n, ListExclusions - {"weight_scales"})
  }

  /** "weight" is a substring of "weight_scales", so excluding "weight_scales" as well changes nothing. */
  lemma WeightScalesRedundant(attrs: seq<Option<string>>)
    ensures GetNodeList(attrs) == NamesWhere(attrs, IsListedNodeWithoutScales)
  {
    forall n ensures IsListedNode(n) == IsListedNodeWithoutScales(n) {
      if Contains(n, "weight_scales") {
        ContainsPrefix(n, "weight_scales", "weight");
        assert "weight" in ListExclusions - {"weight_scales"};
      }
    }
    NamesWhereAgree(attrs, IsListedNode, IsListedNodeWithoutScales);
  }
}
