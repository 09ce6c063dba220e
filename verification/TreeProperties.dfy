/** The properties on the nodes of a parameter tree. A plot is drawn with the properties of
    the nodes on its path, later ones winning; restructuring moves them between nodes. */
module TreeProperties {
  import opened Basics
  import opened ParamTree
  import opened TreeSwap
  import opened TreeSquash
  import opened TreeRemove

  /** What the subtrees behind a child inherit from the node and this child. */
  function Inherited(t: Tree, child: Tree): Props {
    t.props + child.props
  }

  lemma {:induction false} GatheredHas(edges: seq<Edge>, k: string)
    ensures k in Gathered(edges) <==> exists i :: 0 <= i < |edges| && k in edges[i].ptr.props
    ensures k in Gathered(edges) ==>
              exists i :: 0 <= i < |edges| && k in edges[i].ptr.props && edges[i].ptr.props[k] == Gathered(edges)[k]
    decreases |edges|
  {
    if edges != [] {
      var front, last := edges[..|edges| - 1], edges[|edges| - 1];
      GatheredHas(front, k);
      if k in last.ptr.props {
        assert edges[|edges| - 1].ptr.props[k] == Gathered(edges)[k];
      } else if k in Gathered(front) {
        var i :| 0 <= i < |front| && k in front[i].ptr.props && front[i].ptr.props[k] == Gathered(front)[k];
        assert edges[i].ptr.props[k] == Gathered(edges)[k];
      }
      forall i | 0 <= i < |edges| && k in edges[i].ptr.props ensures k in Gathered(edges) {
        if i < |front| {
          assert front[i] == edges[i];
        }
      }
    }
  }

  // ---------------------------------------------------------- swap_with_next

  ghost predicate AllCarry(edges: seq<Edge>, p: Props) {
    forall i :: 0 <= i < |edges| ==> edges[i].ptr.props == p
  }

  lemma CarryAfterAdd(acc: seq<Edge>, name: seq<Name>, p: Props, m: seq<Value>, v: seq<Value>, sub: Tree)
    requires AllCarry(acc, p)
    ensures AllCarry(AddPair(acc, name, p, m, v, sub), p)
  {}

  lemma {:induction false} CarryAfterInner(acc: seq<Edge>, name: seq<Name>, p: Props, v: seq<Value>, es: seq<Edge>)
    requires AllCarry(acc, p)
    ensures AllCarry(SwapInner(acc, name, p, v, es), p)
    decreases |es|
  {
    if es != [] {
      var last := es[|es| - 1];
      CarryAfterInner(acc, name, p, v, es[..|es| - 1]);
      CarryAfterAdd(SwapInner(acc, name, p, v, es[..|es| - 1]), name, p, last.vals, v, last.ptr);
    }
  }

  /** The new nodes below all carry the properties of the node above. */
  lemma {:induction false} CarryAfterOuter(name: seq<Name>, p: Props, edges: seq<Edge>)
    ensures AllCarry(SwapOuter(name, p, edges), p)
    decreases |edges|
  {
    if edges != [] {
      var front, last := edges[..|edges| - 1], edges[|edges| - 1];
      CarryAfterOuter(name, p, front);
      CarryAfterInner(SwapOuter(name, p, front), name, p, last.vals, last.ptr.edges);
    }
  }

  /** Behind every pair of tuples the swap leaves the inherited properties as they were. */
  ghost predicate SwapKeepsInherited(t: Tree)
    requires t.edges != []
  {
    forall i, k :: 0 <= i < |t.edges| && 0 <= k < |Swap(t).edges| ==>
      Inherited(Swap(t), Swap(t).edges[k].ptr) == Inherited(t, t.edges[i].ptr)
  }

  /** No child overrides a property of the node, and the children agree on all others. */
  ghost predicate ChildrenAgree(t: Tree) {
    && (forall i, k :: 0 <= i < |t.edges| && k in t.edges[i].ptr.props && k in t.props ==>
          t.edges[i].ptr.props[k] == t.props[k])
    && (forall i, j, k :: 0 <= i < |t.edges| && 0 <= j < |t.edges| && k in t.edges[i].ptr.props && k !in t.props ==>
          k in t.edges[j].ptr.props && t.edges[j].ptr.props[k] == t.edges[i].ptr.props[k])
  }

  lemma AgreeingInherits(t: Tree, i: nat)
    requires ChildrenAgree(t) && i < |t.edges|
    ensures Gathered(t.edges) + t.props == Inherited(t, t.edges[i].ptr)
  {
    var after, before := Gathered(t.edges) + t.props, Inherited(t, t.edges[i].ptr);
    forall k ensures k in after <==> k in before {
      GatheredHas(t.edges, k);
    }
    forall k | k in after ensures after[k] == before[k] {
      GatheredHas(t.edges, k);
    }
  }

  lemma InheritingAgrees(t: Tree)
    requires forall i :: 0 <= i < |t.edges| ==> Gathered(t.edges) + t.props == Inherited(t, t.edges[i].ptr)
    ensures ChildrenAgree(t)
  {
    var all := Gathered(t.edges) + t.props;
    forall i, k | 0 <= i < |t.edges| && k in t.edges[i].ptr.props
      ensures t.edges[i].ptr.props[k] == all[k]
    {
      assert all == Inherited(t, t.edges[i].ptr);
    }
    forall i, j, k | 0 <= i < |t.edges| && 0 <= j < |t.edges| && k in t.edges[i].ptr.props && k !in t.props
      ensures k in t.edges[j].ptr.props
    {
      assert k in Inherited(t, t.edges[i].ptr);
      assert k in Inherited(t, t.edges[j].ptr);
    }
  }

  /** swap_with_next keeps the properties under which plots are drawn exactly when no child
      overrides a property of the node and all children agree on the others. */
  lemma SwapKeepsInheritedExactly(t: Tree)
    requires t.edges != [] && Swap(t).edges != []
    ensures SwapKeepsInherited(t) <==> ChildrenAgree(t)
  {
    CarryAfterOuter(t.name, t.props, t.edges);
    var u := Swap(t);
    assert forall k :: 0 <= k < |u.edges| ==> Inherited(u, u.edges[k].ptr) == Gathered(t.edges) + t.props;
    if ChildrenAgree(t) {
      forall i | 0 <= i < |t.edges| ensures Gathered(t.edges) + t.props == Inherited(t, t.edges[i].ptr) {
        AgreeingInherits(t, i);
      }
    }
    if SwapKeepsInherited(t) {
      forall i | 0 <= i < |t.edges| ensures Gathered(t.edges) + t.props == Inherited(t, t.edges[i].ptr) {
        assert Inherited(u, u.edges[0].ptr) == Inherited(t, t.edges[i].ptr);
      }
      InheritingAgrees(t);
    }
  }

  const TIME: Props := map["ylabel" := "Time"]
  const SIZE: Props := map["ylabel" := "Size"]

  lemma GatheredPair(a: Edge, b: Edge)
    ensures Gathered([a, b]) == a.ptr.props + b.ptr.props
  {
    assert [a, b][..1] == [a] && [a][..0] == [];
    assert Gathered([a]) == a.ptr.props;
  }

  /** Two data columns with different axis labels: after the swap the first is drawn with
      the label of the second. */
  lemma SwapMixesLabels()
    ensures var below := [Edge(["1"], BLANK)];
            var a, b := Tree(["threads"], below, None, TIME), Tree(["threads"], below, None, SIZE);
            var t := Tree(["data"], [Edge(["a"], a), Edge(["b"], b)], None, map[]);
            && Uniform(t, [["data"], ["threads"]]) && Inherited(t, a) == TIME
            && Inherited(Swap(t), Swap(t).edges[0].ptr) == SIZE
  {
    var below := [Edge(["1"], BLANK)];
    var a, b := Tree(["threads"], below, None, TIME), Tree(["threads"], below, None, SIZE);
    var edges := [Edge(["a"], a), Edge(["b"], b)];
    var t := Tree(["data"], edges, None, map[]);
    LabelsUniform(t, a, b, below, edges);
    SwapKeepsMeaning(t, [["data"], ["threads"]]);
    hide Uniform;
    GatheredPair(edges[0], edges[1]);
    CarryAfterOuter(t.name, t.props, t.edges);
  }

  lemma LabelsUniform(t: Tree, a: Tree, b: Tree, below: seq<Edge>, edges: seq<Edge>)
    requires below == [Edge(["1"], BLANK)] && edges == [Edge(["a"], a), Edge(["b"], b)]
    requires a.name == b.name == ["threads"] && a.edges == b.edges == below
    requires t.name == ["data"] && t.edges == edges
    ensures Uniform(t, [["data"], ["threads"]])
    ensures Swap(t).edges != []
  {
    assert Uniform(BLANK, []);
    assert [["data"], ["threads"]][1..] == [["threads"]] && [["threads"]][1..] == [];
    assert Uniform(a, [["threads"]]) && Uniform(b, [["threads"]]);
    SwapKeepsMeaning(t, [["data"], ["threads"]]);
    assert Uniform(Swap(t), SwapLevels([["data"], ["threads"]]));
  }

  // ------------------------------------------------------------ squash_names

  /** Behind every child the merge leaves the inherited properties as they were. */
  ghost predicate MergeKeepsInherited(t: Tree)
    requires t.edges != []
  {
    forall i :: 0 <= i < |t.edges| ==> Merge(t).props == Inherited(t, t.edges[i].ptr)
  }

  ghost predicate ChildrenAlike(t: Tree) {
    forall i, j :: 0 <= i < |t.edges| && 0 <= j < |t.edges| ==>
      Inherited(t, t.edges[i].ptr) == Inherited(t, t.edges[j].ptr)
  }

  lemma SameOnTop(p: Props, g: Props, c: Props, x: Props)
    requires p + g == x && p + c == x
    ensures p + (g + c) == x
  {
    assert p + (g + c) == x + c;
    assert x + c == p + c;
  }

  lemma {:induction false} AlikeGathered(p: Props, edges: seq<Edge>, x: Props)
    requires edges != [] && forall i :: 0 <= i < |edges| ==> p + edges[i].ptr.props == x
    ensures p + Gathered(edges) == x
    decreases |edges|
  {
    var front, last := edges[..|edges| - 1], edges[|edges| - 1];
    assert edges[|edges| - 1] == last;
    if front == [] {
      assert Gathered(edges) == last.ptr.props;
    } else {
      AlikeGathered(p, front, x);
      SameOnTop(p, Gathered(front), last.ptr.props, x);
    }
  }

  /** Joining a level with the one below keeps the inherited properties exactly when the
      children all show the same ones under the node. */
  lemma MergeKeepsInheritedExactly(t: Tree)
    requires t.edges != []
    ensures MergeKeepsInherited(t) <==> ChildrenAlike(t)
  {
    if ChildrenAlike(t) {
      AlikeGathered(t.props, t.edges, Inherited(t, t.edges[0].ptr));
    }
  }

  // ------------------------------------------------------------- remove_name

  /** A node that gives way to its child passes on what both together showed. */
  lemma RemoveKeepsInherited(t: Tree)
    requires |t.edges| == 1
    ensures RemoveName(t, t.name).Some? && RemoveName(t, t.name).value.props == Inherited(t, t.edges[0].ptr)
  {}
}
