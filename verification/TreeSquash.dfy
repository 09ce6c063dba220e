/** pull_name_here and squash_names: moving a level up, and joining levels into one. */
module TreeSquash {
  import opened Basics
  import opened ParamTree
  import opened TreeSwap

  type Levels = seq<seq<Name>>

  // ----------------------------------------------------------------- pulling

  /** The loop over the children: stops at the first one that lacks the name. */
  function PullEdges(edges: seq<Edge>, n: Name): (r: (seq<Edge>, bool))
    ensures |r.0| == |edges|
    decreases edges, 0
  {
    if edges == [] then ([], true)
    else
      var (u, ok) := Pull(edges[0].ptr, n);
      var e := Edge(edges[0].vals, u);
      if !ok then ([e] + edges[1..], false)
      else
        var (rest, all) := PullEdges(edges[1..], n);
        ([e] + rest, all)
  }

  /** pull_name_here: the new tree, and whether the name was found. */
  function Pull(t: Tree, n: Name): (Tree, bool)
    decreases t, 1
  {
    if n in t.name then (t, true)
    else if t.name == [] || t.edges == [] then (t, false)
    else
      var (es, ok) := PullEdges(t.edges, n);
      if !ok then (t.(edges := es), false)
      else (Swap(t.(edges := es)), true)
  }

  predicate Occurs(levels: Levels, n: Name) {
    levels != [] && (n in levels[0] || Occurs(levels[1..], n))
  }

  /** The level order after pulling n to the top. */
  function PullLevels(levels: Levels, n: Name): (r: Levels)
    requires Occurs(levels, n)
    ensures |r| == |levels| && n in r[0]
  {
    if n in levels[0] then levels
    else
      var tail := PullLevels(levels[1..], n);
      [tail[0], levels[0]] + tail[1..]
  }

  /** Changing subtrees into ones with the same meaning keeps the tree's meaning. */
  lemma SameChildren(t: Tree, edges: seq<Edge>)
    requires |edges| == |t.edges| && EdgesDistinct(t.edges)
    requires forall i :: 0 <= i < |edges| ==> edges[i].vals == t.edges[i].vals && Same(t.edges[i].ptr, edges[i].ptr)
    ensures EdgesDistinct(edges) && Same(t, t.(edges := edges))
  {
    forall asg: Assignment ensures Lookup(t, asg) == Lookup(t.(edges := edges), asg) {
      if t.name != [] {
        var v := Values(t.name, asg);
        FindNone(t.edges, v);
        FindNone(edges, v);
        if i :| 0 <= i < |edges| && edges[i].vals == v {
          FindAt(t.edges, i);
          FindAt(edges, i);
        }
      }
    }
  }

  lemma {:induction false} PullEdgesUniform(edges: seq<Edge>, levels: Levels, n: Name)
    requires forall i :: 0 <= i < |edges| ==> Uniform(edges[i].ptr, levels)
    ensures Occurs(levels, n) ==> PullEdges(edges, n).1
    ensures Occurs(levels, n) ==> forall i :: 0 <= i < |edges| ==>
              && PullEdges(edges, n).0[i].vals == edges[i].vals
              && PullEdges(edges, n).0[i].ptr == Pull(edges[i].ptr, n).0
              && Uniform(PullEdges(edges, n).0[i].ptr, PullLevels(levels, n))
              && Same(edges[i].ptr, PullEdges(edges, n).0[i].ptr)
    ensures !Occurs(levels, n) ==> PullEdges(edges, n) == (edges, edges == [])
    decreases |levels|, |edges| + 1
  {
    if edges != [] {
      PullKeepsMeaning(edges[0].ptr, levels, n);
      PullEdgesUniform(edges[1..], levels, n);
      assert [edges[0]] + edges[1..] == edges;
      if Occurs(levels, n) {
        var r := PullEdges(edges, n).0;
        forall i | 0 < i < |edges|
          ensures r[i] == PullEdges(edges[1..], n).0[i - 1] && edges[i] == edges[1..][i - 1]
        {}
      }
    }
  }

  /** On a uniform tree that has the name somewhere, pull_name_here brings its level to
      the top and changes no result; on one that has not, it changes nothing. */
  lemma {:induction false} PullKeepsMeaning(t: Tree, levels: Levels, n: Name)
    requires Uniform(t, levels)
    ensures Pull(t, n).1 == Occurs(levels, n)
    ensures Occurs(levels, n) ==>
              Uniform(Pull(t, n).0, PullLevels(levels, n)) && Same(t, Pull(t, n).0) && Pull(t, n).0.combo == t.combo
    ensures !Occurs(levels, n) ==> Pull(t, n).0 == t
    decreases |levels|, 0
  {
    if levels != [] && n !in t.name {
      PullEdgesUniform(t.edges, levels[1..], n);
      if Occurs(levels[1..], n) {
        var u := t.(edges := PullEdges(t.edges, n).0);
        SameChildren(t, u.edges);
        var order := [levels[0]] + PullLevels(levels[1..], n);
        assert order[1..] == PullLevels(levels[1..], n);
        assert Uniform(u, order);
        SwapKeepsMeaning(u, order);
        assert SwapLevels(order) == PullLevels(levels, n);
      }
    }
  }

  // ----------------------------------------------------------------- merging

  function Prefixed(v: seq<Value>, es: seq<Edge>): (r: seq<Edge>)
    ensures |r| == |es| && forall k :: 0 <= k < |es| ==> r[k] == Edge(v + es[k].vals, es[k].ptr)
  {
    seq(|es|, k requires 0 <= k < |es| => Edge(v + es[k].vals, es[k].ptr))
  }

  function MergeEdges(edges: seq<Edge>): seq<Edge> {
    if edges == [] then []
    else MergeEdges(edges[..|edges| - 1]) + Prefixed(edges[|edges| - 1].vals, edges[|edges| - 1].ptr.edges)
  }

  /** Join a node with the level below it. */
  function Merge(t: Tree): Tree
    requires t.edges != []
  {
    Tree(t.name + t.edges[0].ptr.name, MergeEdges(t.edges), t.combo, t.props + Gathered(t.edges))
  }

  lemma {:induction false} FindPrefixed(v: seq<Value>, es: seq<Edge>, w: seq<Value>, m: seq<Value>)
    requires |w| == |v|
    ensures Find(Prefixed(v, es), w + m) == if w == v then Find(es, m) else None
  {
    if es != [] {
      assert Prefixed(v, es)[1..] == Prefixed(v, es[1..]);
      FindPrefixed(v, es[1..], w, m);
      assert (v + es[0].vals)[..|v|] == v && (w + m)[..|v|] == w;
      assert (v + es[0].vals)[|v|..] == es[0].vals && (w + m)[|v|..] == m;
    }
  }

  /** A joined tuple leads where its two halves lead one after the other. */
  lemma {:induction false} FindMerged(edges: seq<Edge>, w: seq<Value>, m: seq<Value>)
    requires EdgesDistinct(edges) && forall i :: 0 <= i < |edges| ==> |edges[i].vals| == |w|
    ensures Find(MergeEdges(edges), w + m) == Pair(edges, w, m)
    decreases |edges|
  {
    if edges != [] {
      var front, last := edges[..|edges| - 1], edges[|edges| - 1];
      DistinctFront(edges);
      FindLast(edges, w);
      FindMerged(front, w, m);
      FindInJoin(MergeEdges(front), Prefixed(last.vals, last.ptr.edges), w + m);
      FindPrefixed(last.vals, last.ptr.edges, w, m);
    }
  }

  /** Every joined edge comes from an edge and one below it. */
  lemma {:induction false} MergedEdge(edges: seq<Edge>, k: nat)
    requires k < |MergeEdges(edges)|
    ensures exists i, j :: 0 <= i < |edges| && 0 <= j < |edges[i].ptr.edges|
              && MergeEdges(edges)[k] == Edge(edges[i].vals + edges[i].ptr.edges[j].vals, edges[i].ptr.edges[j].ptr)
    decreases |edges|
  {
    var front, last := edges[..|edges| - 1], edges[|edges| - 1];
    if k < |MergeEdges(front)| {
      MergedEdge(front, k);
      var i, j :| 0 <= i < |front| && 0 <= j < |front[i].ptr.edges|
        && MergeEdges(front)[k] == Edge(front[i].vals + front[i].ptr.edges[j].vals, front[i].ptr.edges[j].ptr);
      assert edges[i] == front[i];
    } else {
      var j := k - |MergeEdges(front)|;
      assert MergeEdges(edges)[k] == Prefixed(last.vals, last.ptr.edges)[j];
    }
  }

  lemma {:induction false} MergedDistinct(edges: seq<Edge>, width: nat)
    requires EdgesDistinct(edges)
    requires forall i :: 0 <= i < |edges| ==> |edges[i].vals| == width && EdgesDistinct(edges[i].ptr.edges)
    ensures EdgesDistinct(MergeEdges(edges))
    decreases |edges|
  {
    if edges != [] {
      var front, last := edges[..|edges| - 1], edges[|edges| - 1];
      DistinctFront(edges);
      MergedDistinct(front, width);
      var a, b := MergeEdges(front), Prefixed(last.vals, last.ptr.edges);
      forall i, j | 0 <= i < j < |b| ensures b[i].vals != b[j].vals {
        assert b[i].vals[width..] == last.ptr.edges[i].vals && b[j].vals[width..] == last.ptr.edges[j].vals;
      }
      forall i, j | 0 <= i < |a| && 0 <= j < |b| ensures a[i].vals != b[j].vals {
        MergedEdge(front, i);
        var x, y :| 0 <= x < |front| && 0 <= y < |front[x].ptr.edges|
          && a[i] == Edge(front[x].vals + front[x].ptr.edges[y].vals, front[x].ptr.edges[y].ptr);
        assert a[i].vals[..width] == front[x].vals && b[j].vals[..width] == last.vals;
      }
    }
  }

  lemma MergeNonempty(edges: seq<Edge>)
    requires edges != [] && edges[|edges| - 1].ptr.edges != []
    ensures MergeEdges(edges) != []
  {}

  function MergedLevels(levels: Levels): Levels
    requires |levels| >= 2
  {
    [levels[0] + levels[1]] + levels[2..]
  }

  lemma ValuesJoin(a: seq<Name>, b: seq<Name>, asg: Assignment)
    ensures Values(a + b, asg) == Values(a, asg) + Values(b, asg)
  {}

  /** Joining the first two levels of a uniform tree keeps it uniform and changes no
      result. */
  lemma MergeKeepsMeaning(t: Tree, levels: Levels)
    requires |levels| >= 2 && Uniform(t, levels)
    ensures t.edges != [] && Uniform(Merge(t), MergedLevels(levels)) && Same(t, Merge(t))
  {
    TwoLevels(t, levels);
    var u := Merge(t);
    MergedDistinct(t.edges, |levels[0]|);
    MergeNonempty(t.edges);
    assert MergedLevels(levels)[1..] == levels[2..];
    forall k | 0 <= k < |u.edges| ensures |u.edges[k].vals| == |u.name| && Uniform(u.edges[k].ptr, levels[2..]) {
      MergedEdge(t.edges, k);
    }
    forall asg: Assignment ensures Lookup(t, asg) == Lookup(u, asg) {
      var v, m := Values(levels[0], asg), Values(levels[1], asg);
      ValuesJoin(levels[0], levels[1], asg);
      LookupTwo(t, levels, asg);
      FindMerged(t.edges, v, m);
      FindShrinks(u.edges, v + m);
    }
  }

  // --------------------------------------------------------------- squashing

  /** Pull n up in every child, whatever the calls return. */
  function PullChildren(edges: seq<Edge>, n: Name): (r: seq<Edge>)
    ensures |r| == |edges|
    ensures forall i :: 0 <= i < |edges| ==> r[i] == Edge(edges[i].vals, Pull(edges[i].ptr, n).0)
  {
    seq(|edges|, i requires 0 <= i < |edges| => Edge(edges[i].vals, Pull(edges[i].ptr, n).0))
  }

  /** The loop over the names at a node that carries one of them. None stands for the
      IndexError that indexing the first of no children raises. */
  function SquashNode(t: Tree, names: seq<Name>): Option<Tree>
    decreases |names|
  {
    if names == [] then Some(t)
    else if names[0] in t.name then SquashNode(t, names[1..])
    else if t.edges == [] then None
    else SquashNode(Merge(t.(edges := PullChildren(t.edges, names[0]))), names[1..])
  }

  predicate Meets(name: seq<Name>, names: seq<Name>) {
    exists i :: 0 <= i < |name| && name[i] in names
  }

  function SquashEdges(edges: seq<Edge>, names: seq<Name>): (r: Option<seq<Edge>>)
    ensures r.Some? ==> |r.value| == |edges|
    decreases edges, 0
  {
    if edges == [] then Some([])
    else
      match Squash(edges[0].ptr, names)
      case None => None
      case Some(u) =>
        match SquashEdges(edges[1..], names)
        case None => None
        case Some(rest) => Some([Edge(edges[0].vals, u)] + rest)
  }

  /** squash_names */
  function Squash(t: Tree, names: seq<Name>): Option<Tree>
    decreases t, 1
  {
    if Meets(t.name, names) then SquashNode(t, names)
    else
      match SquashEdges(t.edges, names)
      case None => None
      case Some(es) => Some(t.(edges := es))
  }

  // The same on the level order alone. None: a name is called for that neither stands
  // in the joined level nor has a level below left to join.

  function MergeNameLevels(levels: Levels, n: Name): (r: Option<Levels>)
    requires levels != []
    ensures r.Some? ==> r.value != []
  {
    if n in levels[0] then Some(levels)
    else if |levels| == 1 then None
    else if Occurs(levels[1..], n) then Some(MergedLevels([levels[0]] + PullLevels(levels[1..], n)))
    else Some(MergedLevels(levels))
  }

  function SquashNodeLevels(levels: Levels, names: seq<Name>): Option<Levels>
    requires levels != []
    decreases |names|
  {
    if names == [] then Some(levels)
    else
      match MergeNameLevels(levels, names[0])
      case None => None
      case Some(m) => SquashNodeLevels(m, names[1..])
  }

  /** Whether squashing `names` runs out of levels, and the level order it leaves. */
  function SquashLevels(levels: Levels, names: seq<Name>): Option<Levels> {
    if levels == [] then Some([])
    else if Meets(levels[0], names) then SquashNodeLevels(levels, names)
    else
      match SquashLevels(levels[1..], names)
      case None => None
      case Some(rest) => Some([levels[0]] + rest)
  }

  lemma PulledChildren(t: Tree, levels: Levels, n: Name)
    requires |levels| >= 2 && Uniform(t, levels)
    ensures var u := t.(edges := PullChildren(t.edges, n));
            Same(t, u) && Uniform(u, if Occurs(levels[1..], n) then [levels[0]] + PullLevels(levels[1..], n) else levels)
  {
    var u := t.(edges := PullChildren(t.edges, n));
    forall i | 0 <= i < |t.edges|
      ensures Same(t.edges[i].ptr, u.edges[i].ptr)
      ensures Uniform(u.edges[i].ptr, if Occurs(levels[1..], n) then PullLevels(levels[1..], n) else levels[1..])
    {
      PullKeepsMeaning(t.edges[i].ptr, levels[1..], n);
    }
    SameChildren(t, u.edges);
    if Occurs(levels[1..], n) {
      assert ([levels[0]] + PullLevels(levels[1..], n))[1..] == PullLevels(levels[1..], n);
    }
  }

  lemma SameTwice(t: Tree, u: Tree, v: Tree)
    requires Same(t, u) && Same(u, v)
    ensures Same(t, v)
  {}

  lemma {:induction false} SquashNodeKeepsMeaning(t: Tree, levels: Levels, names: seq<Name>)
    requires levels != [] && Uniform(t, levels) && SquashNodeLevels(levels, names).Some?
    ensures SquashNode(t, names).Some?
    ensures Uniform(SquashNode(t, names).value, SquashNodeLevels(levels, names).value)
    ensures Same(t, SquashNode(t, names).value)
    decreases |names|
  {
    if names != [] {
      var n := names[0];
      var m := MergeNameLevels(levels, n).value;
      if n in t.name {
        SquashNodeKeepsMeaning(t, levels, names[1..]);
      } else {
        var u := t.(edges := PullChildren(t.edges, n));
        PulledChildren(t, levels, n);
        MergeKeepsMeaning(u, if Occurs(levels[1..], n) then [levels[0]] + PullLevels(levels[1..], n) else levels);
        SquashNodeKeepsMeaning(Merge(u), m, names[1..]);
        SameTwice(t, u, Merge(u));
        SameTwice(t, Merge(u), SquashNode(t, names).value);
      }
    }
  }

  lemma {:induction false} SquashEdgesKeepsMeaning(edges: seq<Edge>, levels: Levels, names: seq<Name>)
    requires forall i :: 0 <= i < |edges| ==> Uniform(edges[i].ptr, levels)
    requires SquashLevels(levels, names).Some?
    ensures SquashEdges(edges, names).Some?
    ensures forall i :: 0 <= i < |edges| ==>
              && SquashEdges(edges, names).value[i].vals == edges[i].vals
              && Uniform(SquashEdges(edges, names).value[i].ptr, SquashLevels(levels, names).value)
              && Same(edges[i].ptr, SquashEdges(edges, names).value[i].ptr)
    decreases |levels|, |edges| + 1
  {
    if edges != [] {
      SquashKeepsMeaning(edges[0].ptr, levels, names);
      SquashEdgesKeepsMeaning(edges[1..], levels, names);
      var r := SquashEdges(edges, names).value;
      forall i | 0 < i < |edges|
        ensures r[i] == SquashEdges(edges[1..], names).value[i - 1] && edges[i] == edges[1..][i - 1]
      {}
    }
  }

  /** As long as the levels do not run out, squash_names succeeds, joins the levels as the
      level order says, keeps the tree uniform and changes no result. */
  lemma {:induction false} SquashKeepsMeaning(t: Tree, levels: Levels, names: seq<Name>)
    requires Uniform(t, levels) && SquashLevels(levels, names).Some?
    ensures Squash(t, names).Some?
    ensures Uniform(Squash(t, names).value, SquashLevels(levels, names).value)
    ensures Same(t, Squash(t, names).value)
    decreases |levels|, 0
  {
    if levels != [] && Meets(levels[0], names) {
      SquashNodeKeepsMeaning(t, levels, names);
    } else if levels != [] {
      SquashEdgesKeepsMeaning(t.edges, levels[1..], names);
      var es := SquashEdges(t.edges, names).value;
      SameChildren(t, es);
      var order := SquashLevels(levels, names).value;
      assert order[1..] == SquashLevels(levels[1..], names).value;
    }
  }

  // ------------------------------------------------- when the levels run out

  /** No assignment leads anywhere. */
  ghost predicate Lost(t: Tree) {
    forall asg: Assignment :: Lookup(t, asg) == None
  }

  lemma NoEdgesIsLost(t: Tree)
    requires t.name != [] && t.edges == []
    ensures Lost(t)
  {}

  lemma {:induction false} SquashOfNothing(t: Tree, names: seq<Name>)
    requires t.name != [] && t.edges == []
    ensures SquashNode(t, names) == None || SquashNode(t, names) == Some(t)
    decreases |names|
  {
    if names != [] && names[0] in t.name {
      SquashOfNothing(t, names[1..]);
    }
  }

  lemma {:induction false} MergeWithLeaves(edges: seq<Edge>)
    requires forall i :: 0 <= i < |edges| ==> edges[i].ptr.edges == []
    ensures MergeEdges(edges) == []
    decreases |edges|
  {
    if edges != [] {
      MergeWithLeaves(edges[..|edges| - 1]);
    }
  }

  /** A node above leaves, squashed with a name it does not carry, loses all of them. */
  lemma LeavesVanish(t: Tree, levels: Levels, n: Name)
    requires |levels| == 1 && Uniform(t, levels) && n !in t.name
    ensures t.edges != []
    ensures var u := Merge(t.(edges := PullChildren(t.edges, n))); u.edges == [] && u.name != []
  {
    forall i | 0 <= i < |t.edges| ensures Pull(t.edges[i].ptr, n).0.edges == [] {
      PullKeepsMeaning(t.edges[i].ptr, levels[1..], n);
    }
    MergeWithLeaves(PullChildren(t.edges, n));
  }

  lemma {:induction false} SquashNodeLoses(t: Tree, levels: Levels, names: seq<Name>)
    requires levels != [] && Uniform(t, levels) && SquashNodeLevels(levels, names) == None
    ensures SquashNode(t, names) == None || Lost(SquashNode(t, names).value)
    decreases |names|
  {
    var n := names[0];
    if n in t.name {
      SquashNodeLoses(t, levels, names[1..]);
    } else {
      var u := t.(edges := PullChildren(t.edges, n));
      if |levels| == 1 {
        LeavesVanish(t, levels, n);
        SquashOfNothing(Merge(u), names[1..]);
        NoEdgesIsLost(Merge(u));
      } else {
        PulledChildren(t, levels, n);
        MergeKeepsMeaning(u, if Occurs(levels[1..], n) then [levels[0]] + PullLevels(levels[1..], n) else levels);
        SquashNodeLoses(Merge(u), MergeNameLevels(levels, n).value, names[1..]);
      }
    }
  }

  lemma {:induction false} SquashEdgesLoses(edges: seq<Edge>, levels: Levels, names: seq<Name>)
    requires forall i :: 0 <= i < |edges| ==> Uniform(edges[i].ptr, levels)
    requires SquashLevels(levels, names) == None
    ensures SquashEdges(edges, names).Some? ==>
              forall i :: 0 <= i < |edges| ==> Lost(SquashEdges(edges, names).value[i].ptr)
    decreases |levels|, |edges| + 1
  {
    if edges != [] {
      SquashLoses(edges[0].ptr, levels, names);
      SquashEdgesLoses(edges[1..], levels, names);
      if SquashEdges(edges, names).Some? {
        var r := SquashEdges(edges, names).value;
        forall i | 0 < i < |edges| ensures r[i] == SquashEdges(edges[1..], names).value[i - 1] {}
      }
    }
  }

  lemma {:induction false} SquashLoses(t: Tree, levels: Levels, names: seq<Name>)
    requires Uniform(t, levels) && SquashLevels(levels, names) == None
    ensures Squash(t, names) == None || Lost(Squash(t, names).value)
    decreases |levels|, 0
  {
    if Meets(levels[0], names) {
      SquashNodeLoses(t, levels, names);
    } else {
      SquashEdgesLoses(t.edges, levels[1..], names);
      if Squash(t, names).Some? {
        var u := Squash(t, names).value;
        forall asg: Assignment ensures Lookup(u, asg) == None {
          FindShrinks(u.edges, Values(u.name, asg));
        }
      }
    }
  }

  /** The names of all levels. */
  function Names(levels: Levels): multiset<Name> {
    if levels == [] then multiset{} else multiset(levels[0]) + Names(levels[1..])
  }

  /** No name stands twice, neither in one level nor in two. */
  ghost predicate NoRepeat(levels: Levels) {
    forall n :: Names(levels)[n] <= 1
  }

  lemma {:induction false} OccursIsName(levels: Levels, n: Name)
    ensures Occurs(levels, n) <==> n in Names(levels)
  {
    if levels != [] {
      OccursIsName(levels[1..], n);
    }
  }

  lemma TwiceCounted(s: seq<Name>, i: nat, j: nat)
    requires i < j < |s|
    ensures s[i] == s[j] ==> multiset(s)[s[i]] >= 2
  {
    assert s == s[..j] + s[j..];
    assert s[..j][i] == s[i] && s[j..][0] == s[j];
  }

  lemma NoRepeatParts(levels: Levels)
    requires levels != [] && NoRepeat(levels)
    ensures forall i, j :: 0 <= i < j < |levels[0]| ==> levels[0][i] != levels[0][j]
    ensures forall n :: n in levels[0] ==> !Occurs(levels[1..], n)
    ensures NoRepeat(levels[1..])
  {
    var top := levels[0];
    forall i, j | 0 <= i < j < |top| ensures top[i] != top[j] {
      TwiceCounted(top, i, j);
      assert Names(levels)[top[i]] == multiset(top)[top[i]] + Names(levels[1..])[top[i]];
    }
    forall n | n in top ensures !Occurs(levels[1..], n) {
      OccursIsName(levels[1..], n);
      assert Names(levels)[n] == multiset(top)[n] + Names(levels[1..])[n];
    }
    forall n ensures Names(levels[1..])[n] <= 1 {
      assert Names(levels)[n] == multiset(top)[n] + Names(levels[1..])[n];
    }
  }

  lemma {:induction false} NamesAfterPull(levels: Levels, n: Name)
    requires Occurs(levels, n)
    ensures Names(PullLevels(levels, n)) == Names(levels)
  {
    if n !in levels[0] {
      NamesAfterPull(levels[1..], n);
      var tail := PullLevels(levels[1..], n);
      assert ([tail[0], levels[0]] + tail[1..])[1..] == [levels[0]] + tail[1..];
      assert ([levels[0]] + tail[1..])[1..] == tail[1..];
    }
  }

  lemma NamesAfterMerge(levels: Levels)
    requires |levels| >= 2
    ensures Names(MergedLevels(levels)) == Names(levels)
  {
    assert MergedLevels(levels)[1..] == levels[2..] == levels[1..][1..];
  }

  lemma NamesAfterStep(levels: Levels, n: Name)
    requires levels != [] && MergeNameLevels(levels, n).Some?
    ensures Names(MergeNameLevels(levels, n).value) == Names(levels)
  {
    if n !in levels[0] {
      if Occurs(levels[1..], n) {
        NamesAfterPull(levels[1..], n);
        var order := [levels[0]] + PullLevels(levels[1..], n);
        assert order[1..] == PullLevels(levels[1..], n);
        NamesAfterMerge(order);
      } else {
        NamesAfterMerge(levels);
      }
    }
  }

  /** The assignment that gives the names of one level the given values. */
  ghost function Assigned(base: Assignment, name: seq<Name>, vals: seq<Value>): Assignment
    requires |vals| == |name|
  {
    (n: Name) => if n in name then vals[Position(name, n)] else base(n)
  }

  function Position(name: seq<Name>, n: Name): (k: nat)
    requires n in name
    ensures k < |name| && name[k] == n
  {
    if name[0] == n then 0 else 1 + Position(name[1..], n)
  }

  /** An assignment chosen on top of the first level's values keeps them. */
  lemma FirstLevelKept(levels: Levels, vals: seq<Value>, base: Assignment, asg: Assignment)
    requires levels != [] && NoRepeat(levels) && |vals| == |levels[0]|
    requires forall n :: !Occurs(levels[1..], n) ==> asg(n) == Assigned(base, levels[0], vals)(n)
    ensures Values(levels[0], asg) == vals
    ensures forall n :: !Occurs(levels, n) ==> asg(n) == base(n)
  {
    NoRepeatParts(levels);
    var name := levels[0];
    forall i | 0 <= i < |name| ensures asg(name[i]) == vals[i] {
      assert !Occurs(levels[1..], name[i]);
      assert Position(name, name[i]) == i;
    }
  }

  /** Some assignment reaches a leaf of a uniform tree, whatever it is to say about names
      that do not occur. */
  lemma {:induction false} LeafReached(t: Tree, levels: Levels, base: Assignment) returns (asg: Assignment)
    requires Uniform(t, levels) && NoRepeat(levels)
    ensures Lookup(t, asg).Some?
    ensures forall n :: !Occurs(levels, n) ==> asg(n) == base(n)
    decreases |levels|
  {
    if levels == [] {
      asg := base;
    } else {
      var e := t.edges[0];
      NoRepeatParts(levels);
      asg := LeafReached(e.ptr, levels[1..], Assigned(base, t.name, e.vals));
      hide Occurs, NoRepeat, Assigned;
      FirstLevelKept(levels, e.vals, base, asg);
    }
  }

  /** The exact condition: on a uniform tree without repeated names, squash_names returns
      a tree with the same results if and only if the levels do not run out. */
  lemma SquashExactly(t: Tree, levels: Levels, names: seq<Name>)
    requires Uniform(t, levels) && NoRepeat(levels)
    ensures (Squash(t, names).Some? && Same(t, Squash(t, names).value)) <==> SquashLevels(levels, names).Some?
  {
    if SquashLevels(levels, names).Some? {
      SquashKeepsMeaning(t, levels, names);
    } else {
      SquashLoses(t, levels, names);
      var asg := LeafReached(t, levels, _ => "");
    }
  }

  lemma {:induction false} OccurringNeverRunOut(levels: Levels, names: seq<Name>)
    requires levels != [] && forall k :: 0 <= k < |names| ==> Occurs(levels, names[k])
    ensures SquashNodeLevels(levels, names).Some?
    decreases |names|
  {
    if names != [] {
      var n := names[0];
      assert Occurs(levels, n);
      if n !in levels[0] {
        assert Occurs(levels[1..], n);
      }
      var m := MergeNameLevels(levels, n).value;
      forall k | 0 <= k < |names[1..]| ensures Occurs(m, names[1..][k]) {
        assert names[1..][k] == names[k + 1];
        NamesAfterStep(levels, n);
        OccursIsName(levels, names[k + 1]);
        OccursIsName(m, names[k + 1]);
      }
      OccurringNeverRunOut(m, names[1..]);
    }
  }

  /** If every squashed name occurs in the tree, the levels never run out. */
  lemma {:induction false} AllOccurSuffices(levels: Levels, names: seq<Name>)
    requires forall k :: 0 <= k < |names| ==> Occurs(levels, names[k])
    ensures SquashLevels(levels, names).Some?
    decreases |levels|
  {
    if levels != [] {
      if Meets(levels[0], names) {
        OccurringNeverRunOut(levels, names);
      } else {
        forall k | 0 <= k < |names| ensures Occurs(levels[1..], names[k]) {
          if names[k] in levels[0] {
            assert Meets(levels[0], names);
          }
        }
        AllOccurSuffices(levels[1..], names);
      }
    }
  }

  lemma {:induction false} NodeGathers(levels: Levels, names: seq<Name>)
    requires levels != [] && forall k :: 0 <= k < |names| ==> Occurs(levels, names[k])
    ensures SquashNodeLevels(levels, names).Some? && SquashNodeLevels(levels, names).value != []
    ensures forall x :: x in levels[0] ==> x in SquashNodeLevels(levels, names).value[0]
    ensures forall k :: 0 <= k < |names| ==> names[k] in SquashNodeLevels(levels, names).value[0]
    decreases |names|
  {
    OccurringNeverRunOut(levels, names);
    if names != [] {
      var n := names[0];
      assert Occurs(levels, n);
      var m := MergeNameLevels(levels, n).value;
      NamesAfterStep(levels, n);
      forall k | 0 <= k < |names[1..]| ensures Occurs(m, names[1..][k]) {
        assert names[1..][k] == names[k + 1];
        OccursIsName(levels, names[k + 1]);
        OccursIsName(m, names[k + 1]);
      }
      NodeGathers(m, names[1..]);
      forall k | 0 <= k < |names| ensures names[k] in SquashNodeLevels(m, names[1..]).value[0] {
        if k > 0 {
          assert names[k] == names[1..][k - 1];
        }
      }
    }
  }

  lemma MeetsBy(name: seq<Name>, names: seq<Name>, k: nat)
    requires k < |names| && names[k] in name
    ensures Meets(name, names)
  {
    var i :| 0 <= i < |name| && name[i] == names[k];
    assert name[i] in names;
  }

  /** When all squashed names occur, one level of the result carries all of them. */
  lemma {:induction false} SquashGathers(levels: Levels, names: seq<Name>) returns (q: nat)
    requires names != [] && forall k :: 0 <= k < |names| ==> Occurs(levels, names[k])
    ensures SquashLevels(levels, names).Some? && q < |SquashLevels(levels, names).value|
    ensures forall k :: 0 <= k < |names| ==> names[k] in SquashLevels(levels, names).value[q]
    decreases |levels|
  {
    assert Occurs(levels, names[0]);
    if Meets(levels[0], names) {
      NodeGathers(levels, names);
      q := 0;
    } else {
      forall k | 0 <= k < |names| ensures Occurs(levels[1..], names[k]) {
        assert Occurs(levels, names[k]);
        if names[k] in levels[0] {
          MeetsBy(levels[0], names, k);
        }
      }
      q := SquashGathers(levels[1..], names);
      q := q + 1;
    }
  }

  /** One leaf below a level "a". */
  function OneLeaf(): Tree {
    Tree(["a"], [Edge(["1"], Tree([], [], Some(["row"]), map[]))], None, map[])
  }

  /** Joining it with the level of an absent name takes the leaf away. */
  lemma LeafTaken(names: seq<Name>)
    requires |names| > 0 && names[0] !in OneLeaf().name
    ensures exists u: Tree :: u.name == ["a"] && u.edges == [] && SquashNode(OneLeaf(), names) == SquashNode(u, names[1..])
  {
    var t := OneLeaf();
    var u := t.(edges := PullChildren(t.edges, names[0]));
    assert u.edges == t.edges;
    assert MergeEdges([]) == [];
    MergeWithLeaves(u.edges);
    assert Merge(u).name == ["a"] && Merge(u).edges == [];
    assert SquashNode(t, names) == SquashNode(Merge(u), names[1..]);
  }

  lemma FirstNameMeets(names: seq<Name>)
    requires |names| > 1 && names[0] == "a"
    ensures Squash(OneLeaf(), names) == SquashNode(OneLeaf(), names[1..])
  {
    MeetsBy(OneLeaf().name, names, 0);
  }

  /** Squashing "a" with the absent "b" loses the leaf. */
  lemma SquashLosesLeaf()
    ensures Uniform(OneLeaf(), [["a"]]) && !Lost(OneLeaf())
    ensures Squash(OneLeaf(), ["a", "b"]).Some? && Lost(Squash(OneLeaf(), ["a", "b"]).value)
  {
    var t := OneLeaf();
    var asg: Assignment := (_: Name) => "1";
    assert Values(["a"], asg) == ["1"];
    assert Lookup(t, asg) == Some(t.edges[0].ptr.combo);
    FirstNameMeets(["a", "b"]);
    assert ["a", "b"][1..] == ["b"] && ["b"][1..] == [];
    LeafTaken(["b"]);
    var u: Tree :| u.name == ["a"] && u.edges == [] && SquashNode(t, ["b"]) == SquashNode(u, []);
    NoEdgesIsLost(u);
  }

  /** Squashing it with two absent names raises the IndexError. */
  lemma SquashRaisesIndexError()
    ensures Squash(OneLeaf(), ["a", "b", "c"]) == None
  {
    FirstNameMeets(["a", "b", "c"]);
    assert ["a", "b", "c"][1..] == ["b", "c"] && ["b", "c"][1..] == ["c"];
    LeafTaken(["b", "c"]);
    var u: Tree :| u.name == ["a"] && u.edges == [] && SquashNode(OneLeaf(), ["b", "c"]) == SquashNode(u, ["c"]);
    assert SquashNode(u, ["c"]) == None;
  }
}
