/** swap_with_next: exchanging a level with the one below it. */
module TreeSwap {
  import opened Basics
  import opened ParamTree

  const BLANK := Tree([], [], None, map[])

  /** One step of the inner loop: the subtree `sub`, found behind v and then m, goes
      behind m and then v. */
  function AddPair(acc: seq<Edge>, name: seq<Name>, p: Props, m: seq<Value>, v: seq<Value>, sub: Tree): seq<Edge> {
    var mid := match Find(acc, m) case Some(u) => u case None => BLANK;
    Put(acc, m, Tree(name, Put(mid.edges, v, sub), mid.combo, p))
  }

  /** The inner loop over the children behind one edge. */
  function SwapInner(acc: seq<Edge>, name: seq<Name>, p: Props, v: seq<Value>, es: seq<Edge>): seq<Edge> {
    if es == [] then acc
    else
      var last := es[|es| - 1];
      AddPair(SwapInner(acc, name, p, v, es[..|es| - 1]), name, p, last.vals, v, last.ptr)
  }

  /** The outer loop over the edges of the node. */
  function SwapOuter(name: seq<Name>, p: Props, edges: seq<Edge>): seq<Edge> {
    if edges == [] then []
    else
      var last := edges[|edges| - 1];
      SwapInner(SwapOuter(name, p, edges[..|edges| - 1]), name, p, last.vals, last.ptr.edges)
  }

  /** The properties of all children, later ones winning. */
  function Gathered(edges: seq<Edge>): Props {
    if edges == [] then map[]
    else Gathered(edges[..|edges| - 1]) + edges[|edges| - 1].ptr.props
  }

  function Swap(t: Tree): Tree
    requires t.edges != []
  {
    Tree(t.edges[0].ptr.name, SwapOuter(t.name, t.props, t.edges), t.combo, Gathered(t.edges))
  }

  // ------------------------------------------------------------- two levels

  /** The subtree behind a, and then b. */
  function Pair(edges: seq<Edge>, a: seq<Value>, b: seq<Value>): Option<Tree> {
    match Find(edges, a)
    case None => None
    case Some(u) => Find(u.edges, b)
  }

  lemma PairAfterAdd(acc: seq<Edge>, name: seq<Name>, p: Props, m: seq<Value>, v: seq<Value>, sub: Tree,
                     m': seq<Value>, v': seq<Value>)
    ensures Pair(AddPair(acc, name, p, m, v, sub), m', v')
         == if m' == m && v' == v then Some(sub) else Pair(acc, m', v')
  {
    var mid := match Find(acc, m) case Some(u) => u case None => BLANK;
    FindInPut(acc, m, Tree(name, Put(mid.edges, v, sub), mid.combo, p), m');
    FindInPut(mid.edges, v, sub, v');
  }

  lemma DistinctFront(es: seq<Edge>)
    requires es != [] && EdgesDistinct(es)
    ensures EdgesDistinct(es[..|es| - 1])
    ensures Find(es[..|es| - 1], es[|es| - 1].vals) == None
  {
    FindNone(es[..|es| - 1], es[|es| - 1].vals);
  }

  lemma FindLast(es: seq<Edge>, w: seq<Value>)
    requires es != [] && EdgesDistinct(es)
    ensures Find(es, w) == if w == es[|es| - 1].vals then Some(es[|es| - 1].ptr) else Find(es[..|es| - 1], w)
  {
    var front, last := es[..|es| - 1], es[|es| - 1];
    assert es == front + [last];
    FindInJoin(front, [last], w);
    DistinctFront(es);
  }

  lemma {:induction false} PairAfterInner(acc: seq<Edge>, name: seq<Name>, p: Props, v: seq<Value>, es: seq<Edge>,
                                          m': seq<Value>, v': seq<Value>)
    requires EdgesDistinct(es)
    ensures Pair(SwapInner(acc, name, p, v, es), m', v')
         == if v' == v && Find(es, m').Some? then Find(es, m') else Pair(acc, m', v')
    decreases |es|
  {
    if es != [] {
      var front, last := es[..|es| - 1], es[|es| - 1];
      DistinctFront(es);
      FindLast(es, m');
      PairAfterInner(acc, name, p, v, front, m', v');
      PairAfterAdd(SwapInner(acc, name, p, v, front), name, p, last.vals, v, last.ptr, m', v');
    }
  }

  /** Swapping transposes the two levels. */
  lemma {:induction false} PairAfterOuter(name: seq<Name>, p: Props, edges: seq<Edge>, m: seq<Value>, v: seq<Value>)
    requires EdgesDistinct(edges)
    requires forall i :: 0 <= i < |edges| ==> EdgesDistinct(edges[i].ptr.edges)
    ensures Pair(SwapOuter(name, p, edges), m, v) == Pair(edges, v, m)
    decreases |edges|
  {
    if edges != [] {
      var front, last := edges[..|edges| - 1], edges[|edges| - 1];
      DistinctFront(edges);
      FindLast(edges, v);
      PairAfterOuter(name, p, front, m, v);
      PairAfterInner(SwapOuter(name, p, front), name, p, last.vals, last.ptr.edges, m, v);
    }
  }

  // -------------------------------------------------------------- uniformity

  ghost predicate InnerShape(u: Tree, name: seq<Name>, rest: seq<seq<Name>>) {
    && u.name == name && u.edges != [] && EdgesDistinct(u.edges)
    && forall i :: 0 <= i < |u.edges| ==> |u.edges[i].vals| == |name| && Uniform(u.edges[i].ptr, rest)
  }

  ghost predicate OuterShape(acc: seq<Edge>, name: seq<Name>, width: nat, rest: seq<seq<Name>>) {
    && EdgesDistinct(acc)
    && forall i :: 0 <= i < |acc| ==> |acc[i].vals| == width && InnerShape(acc[i].ptr, name, rest)
  }

  lemma ShapeAfterAdd(acc: seq<Edge>, name: seq<Name>, p: Props, m: seq<Value>, v: seq<Value>, sub: Tree,
                      width: nat, rest: seq<seq<Name>>)
    requires OuterShape(acc, name, width, rest) && |m| == width && |v| == |name| && Uniform(sub, rest)
    ensures OuterShape(AddPair(acc, name, p, m, v, sub), name, width, rest)
    ensures AddPair(acc, name, p, m, v, sub) != []
  {
    var mid := match Find(acc, m) case Some(u) => u case None => BLANK;
    FindShrinks(acc, m);
    var mid' := Tree(name, Put(mid.edges, v, sub), mid.combo, p);
    PutDistinct(mid.edges, v, sub);
    assert InnerShape(mid', name, rest);
    PutDistinct(acc, m, mid');
  }

  lemma {:induction false} ShapeAfterInner(acc: seq<Edge>, name: seq<Name>, p: Props, v: seq<Value>, es: seq<Edge>,
                                           width: nat, rest: seq<seq<Name>>)
    requires OuterShape(acc, name, width, rest) && |v| == |name|
    requires forall i :: 0 <= i < |es| ==> |es[i].vals| == width && Uniform(es[i].ptr, rest)
    ensures OuterShape(SwapInner(acc, name, p, v, es), name, width, rest)
    ensures es != [] || acc != [] ==> SwapInner(acc, name, p, v, es) != []
    decreases |es|
  {
    if es != [] {
      var front, last := es[..|es| - 1], es[|es| - 1];
      ShapeAfterInner(acc, name, p, v, front, width, rest);
      ShapeAfterAdd(SwapInner(acc, name, p, v, front), name, p, last.vals, v, last.ptr, width, rest);
    }
  }

  lemma {:induction false} ShapeAfterOuter(name: seq<Name>, p: Props, edges: seq<Edge>, width: nat, rest: seq<seq<Name>>)
    requires forall i :: 0 <= i < |edges| ==> |edges[i].vals| == |name| && edges[i].ptr.edges != []
    requires forall i, k :: 0 <= i < |edges| && 0 <= k < |edges[i].ptr.edges| ==>
               |edges[i].ptr.edges[k].vals| == width && Uniform(edges[i].ptr.edges[k].ptr, rest)
    ensures OuterShape(SwapOuter(name, p, edges), name, width, rest)
    ensures edges != [] ==> SwapOuter(name, p, edges) != []
    decreases |edges|
  {
    if edges != [] {
      var front, last := edges[..|edges| - 1], edges[|edges| - 1];
      ShapeAfterOuter(name, p, front, width, rest);
      ShapeAfterInner(SwapOuter(name, p, front), name, p, last.vals, last.ptr.edges, width, rest);
    }
  }

  lemma InnerIsUniform(u: Tree, name: seq<Name>, rest: seq<seq<Name>>)
    requires InnerShape(u, name, rest) && name != []
    ensures Uniform(u, [name] + rest)
  {
    assert ([name] + rest)[1..] == rest;
  }

  lemma OuterIsUniform(t: Tree, name: seq<Name>, below: seq<Name>, rest: seq<seq<Name>>)
    requires t.name == below && below != [] && name != [] && t.edges != []
    requires OuterShape(t.edges, name, |below|, rest)
    ensures Uniform(t, [below, name] + rest)
  {
    assert ([below, name] + rest)[1..] == [name] + rest;
    forall i | 0 <= i < |t.edges| ensures Uniform(t.edges[i].ptr, [name] + rest) {
      InnerIsUniform(t.edges[i].ptr, name, rest);
    }
  }

  lemma TwoLevels(t: Tree, levels: seq<seq<Name>>)
    requires |levels| >= 2 && Uniform(t, levels)
    ensures t.name == levels[0] != [] && t.edges != [] && EdgesDistinct(t.edges) && levels[1] != []
    ensures forall i :: 0 <= i < |t.edges| ==>
              && |t.edges[i].vals| == |levels[0]| && t.edges[i].ptr.name == levels[1]
              && t.edges[i].ptr.edges != [] && EdgesDistinct(t.edges[i].ptr.edges)
    ensures forall i, k :: 0 <= i < |t.edges| && 0 <= k < |t.edges[i].ptr.edges| ==>
              |t.edges[i].ptr.edges[k].vals| == |levels[1]| && Uniform(t.edges[i].ptr.edges[k].ptr, levels[2..])
  {
    assert levels[1..][1..] == levels[2..];
    assert levels[1..][0] == levels[1];
    assert Uniform(t.edges[0].ptr, levels[1..]);
  }

  /** The level order after the swap. */
  function SwapLevels(levels: seq<seq<Name>>): seq<seq<Name>>
    requires |levels| >= 2
  {
    [levels[1], levels[0]] + levels[2..]
  }

  /** swap_with_next exchanges the first two levels of a uniform tree, keeps it uniform,
      and every assignment still leads to the same results. */
  lemma SwapKeepsMeaning(t: Tree, levels: seq<seq<Name>>)
    requires |levels| >= 2 && Uniform(t, levels)
    ensures t.edges != [] && Uniform(Swap(t), SwapLevels(levels)) && Same(t, Swap(t))
    ensures Swap(t).combo == t.combo
  {
    TwoLevels(t, levels);
    ShapeAfterOuter(t.name, t.props, t.edges, |levels[1]|, levels[2..]);
    OuterIsUniform(Swap(t), levels[0], levels[1], levels[2..]);
    forall asg: Assignment ensures Lookup(t, asg) == Lookup(Swap(t), asg) {
      LookupTwo(t, levels, asg);
      LookupTwo(Swap(t), SwapLevels(levels), asg);
      PairAfterOuter(t.name, t.props, t.edges, Values(levels[1], asg), Values(levels[0], asg));
    }
  }

  /** Looking up through two levels at once. */
  lemma LookupTwo(t: Tree, levels: seq<seq<Name>>, asg: Assignment)
    requires |levels| >= 2 && Uniform(t, levels)
    ensures Lookup(t, asg) == match Pair(t.edges, Values(levels[0], asg), Values(levels[1], asg))
                              case None => None
                              case Some(u) => Lookup(u, asg)
  {
    TwoLevels(t, levels);
    FindShrinks(t.edges, Values(t.name, asg));
  }
}
