/** get_nodes_level and the value tuples of a level. On a uniform tree without repeated
    names a level's tuples depend only on what the tree holds, not on its shape. */
module TreeLevels {
  import opened ParamTree
  import opened TreeSquash

  // ------------------------------------------------------------------ nodes

  function NodesBelow(edges: seq<Edge>, level: nat): seq<Tree>
    decreases edges, 0
  {
    if edges == [] then [] else Nodes(edges[0].ptr, level) + NodesBelow(edges[1..], level)
  }

  /** get_nodes_level */
  function Nodes(t: Tree, level: nat): seq<Tree>
    decreases t, 1
  {
    if level == 0 then [t] else NodesBelow(t.edges, level - 1)
  }

  function EdgeValues(edges: seq<Edge>): set<seq<Value>> {
    set e | e in edges :: e.vals
  }

  /** possible_values: the tuples on the edges of the given nodes, up to the first node
      without a name. */
  function PossibleValues(nodes: seq<Tree>): set<seq<Value>> {
    if nodes == [] || nodes[0].name == [] then {}
    else EdgeValues(nodes[0].edges) + PossibleValues(nodes[1..])
  }

  /** The number of levels of edges. */
  function Height(t: Tree): nat
    decreases t, 1
  {
    HeightBelow(t.edges)
  }

  function HeightBelow(edges: seq<Edge>): nat
    decreases edges, 0
  {
    if edges == [] then 0
    else
      var h, rest := Height(edges[0].ptr) + 1, HeightBelow(edges[1..]);
      if h > rest then h else rest
  }

  lemma {:induction false} NodesWithinHeight(t: Tree, level: nat)
    ensures Nodes(t, level) != [] ==> level <= Height(t)
    decreases t, 1
  {
    if level > 0 {
      NodesBelowWithinHeight(t.edges, level - 1);
    }
  }

  lemma {:induction false} NodesBelowWithinHeight(edges: seq<Edge>, level: nat)
    ensures NodesBelow(edges, level) != [] ==> level < HeightBelow(edges)
    decreases edges, 0
  {
    if edges != [] {
      NodesWithinHeight(edges[0].ptr, level);
      NodesBelowWithinHeight(edges[1..], level);
    }
  }

  // ---------------------------------------------------------- names of levels

  lemma {:induction false} NamesOfJoin(a: Levels, b: Levels)
    ensures Names(a + b) == Names(a) + Names(b)
  {
    if a == [] {
      assert a + b == b;
    } else {
      assert (a + b)[1..] == a[1..] + b;
      NamesOfJoin(a[1..], b);
    }
  }

  lemma PartsDoNotRepeat(a: Levels, b: Levels)
    requires NoRepeat(a + b)
    ensures NoRepeat(b)
  {
    NamesOfJoin(a, b);
    forall n ensures Names(b)[n] <= 1 {
      assert Names(a + b)[n] == Names(a)[n] + Names(b)[n];
    }
  }

  lemma {:induction false} OccursAt(levels: Levels, p: nat, n: Name)
    requires p < |levels| && n in levels[p]
    ensures Occurs(levels, n)
  {
    if p > 0 {
      OccursAt(levels[1..], p - 1, n);
    }
  }

  /** A name of one level is in no other. */
  lemma {:induction false} Apart(levels: Levels, p: nat, q: nat, n: Name)
    requires NoRepeat(levels) && p < q < |levels|
    ensures !(n in levels[p] && n in levels[q])
  {
    NoRepeatParts(levels);
    if p > 0 {
      Apart(levels[1..], p - 1, q - 1, n);
    } else if n in levels[q] {
      OccursAt(levels[1..], q - 1, n);
    }
  }

  lemma {:induction false} LevelsNonempty(t: Tree, levels: Levels)
    requires Uniform(t, levels)
    ensures forall i :: 0 <= i < |levels| ==> levels[i] != []
  {
    if levels != [] {
      LevelsNonempty(t.edges[0].ptr, levels[1..]);
      forall i | 0 <= i < |levels| ensures levels[i] != [] {
        if i > 0 {
          assert levels[i] == levels[1..][i - 1];
        }
      }
    }
  }

  // ------------------------------------------- what a level's tuples stand for

  /** Some edge of the given level carries the tuple. */
  ghost predicate HasTuple(t: Tree, level: nat, v: seq<Value>)
    decreases level
  {
    if level == 0 then exists i :: 0 <= i < |t.edges| && t.edges[i].vals == v
    else exists i :: 0 <= i < |t.edges| && HasTuple(t.edges[i].ptr, level - 1, v)
  }

  lemma {:induction false} ValuesOfJoin(a: seq<Tree>, b: seq<Tree>)
    requires forall i :: 0 <= i < |a| ==> a[i].name != []
    ensures PossibleValues(a + b) == PossibleValues(a) + PossibleValues(b)
  {
    if a == [] {
      assert a + b == b;
    } else {
      assert (a + b)[1..] == a[1..] + b;
      ValuesOfJoin(a[1..], b);
    }
  }

  lemma {:induction false} NodesAreUniform(t: Tree, levels: Levels, level: nat)
    requires Uniform(t, levels) && level <= |levels|
    ensures Nodes(t, level) != []
    ensures forall i :: 0 <= i < |Nodes(t, level)| ==> Uniform(Nodes(t, level)[i], levels[level..])
    decreases level, 0
  {
    if level > 0 {
      NodesBelowAreUniform(t.edges, levels[1..], level - 1);
      assert levels[1..][level - 1..] == levels[level..];
    }
  }

  lemma {:induction false} NodesBelowAreUniform(edges: seq<Edge>, levels: Levels, level: nat)
    requires level <= |levels| && forall i :: 0 <= i < |edges| ==> Uniform(edges[i].ptr, levels)
    ensures edges != [] ==> NodesBelow(edges, level) != []
    ensures forall i :: 0 <= i < |NodesBelow(edges, level)| ==> Uniform(NodesBelow(edges, level)[i], levels[level..])
    decreases level, |edges| + 1
  {
    if edges != [] {
      NodesAreUniform(edges[0].ptr, levels, level);
      NodesBelowAreUniform(edges[1..], levels, level);
    }
  }

  lemma {:induction false} ValuesAreTuples(t: Tree, levels: Levels, level: nat, v: seq<Value>)
    requires Uniform(t, levels) && level < |levels|
    ensures v in PossibleValues(Nodes(t, level)) <==> HasTuple(t, level, v)
    decreases level, 0
  {
    if level == 0 {
      assert Nodes(t, 0)[1..] == [];
      assert v in EdgeValues(t.edges) <==> exists e :: e in t.edges && e.vals == v;
    } else {
      ValuesBelowAreTuples(t.edges, levels[1..], level - 1, v);
    }
  }

  lemma {:induction false} ValuesBelowAreTuples(edges: seq<Edge>, levels: Levels, level: nat, v: seq<Value>)
    requires level < |levels| && forall i :: 0 <= i < |edges| ==> Uniform(edges[i].ptr, levels)
    ensures v in PossibleValues(NodesBelow(edges, level))
       <==> exists i :: 0 <= i < |edges| && HasTuple(edges[i].ptr, level, v)
    decreases level, |edges| + 1
  {
    if edges != [] {
      var first, rest := Nodes(edges[0].ptr, level), edges[1..];
      ValuesAreTuples(edges[0].ptr, levels, level, v);
      ValuesBelowAreTuples(rest, levels, level, v);
      NodesAreUniform(edges[0].ptr, levels, level);
      ValuesOfJoin(first, NodesBelow(rest, level));
      if i :| 0 <= i < |rest| && HasTuple(rest[i].ptr, level, v) {
        assert edges[i + 1] == rest[i];
      }
      if i :| 0 <= i < |edges| && HasTuple(edges[i].ptr, level, v) && i > 0 {
        assert rest[i - 1] == edges[i];
      }
    }
  }

  lemma EdgeWithTuple(t: Tree, level: nat, v: seq<Value>) returns (i: nat)
    requires HasTuple(t, level, v)
    ensures i < |t.edges|
    ensures if level == 0 then t.edges[i].vals == v else HasTuple(t.edges[i].ptr, level - 1, v)
  {
    i :| 0 <= i < |t.edges| && if level == 0 then t.edges[i].vals == v else HasTuple(t.edges[i].ptr, level - 1, v);
  }

  lemma UniformChild(t: Tree, levels: Levels, i: nat)
    requires Uniform(t, levels) && levels != [] && i < |t.edges|
    ensures t.name == levels[0] && |t.edges[i].vals| == |levels[0]| && Uniform(t.edges[i].ptr, levels[1..])
  {}

  /** A tuple of a level is what some assignment with a result says about its names. */
  lemma {:induction false} TupleReached(t: Tree, levels: Levels, level: nat, v: seq<Value>, base: Assignment)
    returns (asg: Assignment)
    requires Uniform(t, levels) && NoRepeat(levels) && level < |levels| && HasTuple(t, level, v)
    ensures Lookup(t, asg).Some? && Values(levels[level], asg) == v
    ensures forall n :: !Occurs(levels, n) ==> asg(n) == base(n)
    decreases level
  {
    hide *;
    var i := EdgeWithTuple(t, level, v);
    UniformChild(t, levels, i);
    NoRepeatParts(levels);
    var e := t.edges[i];
    var start := Assigned(base, levels[0], e.vals);
    if level == 0 {
      asg := LeafReached(e.ptr, levels[1..], start);
    } else {
      asg := TupleReached(e.ptr, levels[1..], level - 1, v, start);
      assert levels[1..][level - 1] == levels[level];
    }
    FirstLevelKept(levels, e.vals, base, asg);
    LookupThrough(t, levels, i, asg);
  }

  lemma LookupThrough(t: Tree, levels: Levels, i: nat, asg: Assignment)
    requires Uniform(t, levels) && levels != [] && i < |t.edges| && t.edges[i].vals == Values(t.name, asg)
    ensures Lookup(t, asg) == Lookup(t.edges[i].ptr, asg)
  {
    FindAt(t.edges, i);
  }

  lemma {:induction false} TupleOfResult(t: Tree, levels: Levels, level: nat, asg: Assignment)
    requires Uniform(t, levels) && level < |levels| && Lookup(t, asg).Some?
    ensures HasTuple(t, level, Values(levels[level], asg))
    decreases level
  {
    var v := Values(t.name, asg);
    FindShrinks(t.edges, v);
    var i :| 0 <= i < |t.edges| && t.edges[i].vals == v && t.edges[i].ptr == Find(t.edges, v).value;
    if level > 0 {
      TupleOfResult(t.edges[i].ptr, levels[1..], level - 1, asg);
    }
  }

  /** The value tuples of a level, as get_nodes_level and the loops over its nodes see
      them. */
  function LevelValues(t: Tree, level: nat): set<seq<Value>> {
    PossibleValues(Nodes(t, level))
  }

  /** The value tuples of every level. */
  function AllValues(t: Tree, n: nat): (r: seq<set<seq<Value>>>)
    ensures |r| == n && forall i :: 0 <= i < n ==> r[i] == LevelValues(t, i)
  {
    seq(n, i requires 0 <= i < n => LevelValues(t, i))
  }

  /** A level's tuples are exactly what assignments with a result say about its names. */
  lemma LevelValuesMean(t: Tree, levels: Levels, level: nat, v: seq<Value>)
    requires Uniform(t, levels) && NoRepeat(levels) && level < |levels|
    ensures v in LevelValues(t, level) <==>
              exists asg: Assignment :: Lookup(t, asg).Some? && Values(levels[level], asg) == v
  {
    ValuesAreTuples(t, levels, level, v);
    if HasTuple(t, level, v) {
      var asg := TupleReached(t, levels, level, v, _ => "");
    }
    if asg: Assignment :| Lookup(t, asg).Some? && Values(levels[level], asg) == v {
      TupleOfResult(t, levels, level, asg);
    }
  }

  /** So two uniform trees with the same results have the same tuples wherever they have
      the same name list. */
  lemma SameLevelValues(t: Tree, levels: Levels, i: nat, u: Tree, order: Levels, k: nat)
    requires Uniform(t, levels) && NoRepeat(levels) && i < |levels|
    requires Uniform(u, order) && NoRepeat(order) && k < |order|
    requires Same(t, u) && levels[i] == order[k]
    ensures LevelValues(t, i) == LevelValues(u, k)
  {
    forall v ensures v in LevelValues(t, i) <==> v in LevelValues(u, k) {
      LevelValuesMean(t, levels, i, v);
      LevelValuesMean(u, order, k, v);
    }
  }

  // ------------------------------------------------------- counting the tuples

  /** The results fix the names to tuples of the given set. */
  ghost predicate Within(t: Tree, names: seq<Name>, s: set<seq<Value>>) {
    forall asg: Assignment :: Lookup(t, asg).Some? ==> Values(names, asg) in s
  }

  ghost predicate AtMost(t: Tree, names: seq<Name>, c: nat) {
    exists s: set<seq<Value>> :: |s| <= c && Within(t, names, s)
  }

  function Image(s: set<seq<Value>>, f: seq<Value> -> seq<Value>): set<seq<Value>> {
    set x | x in s :: f(x)
  }

  lemma {:induction false} ImageSize(s: set<seq<Value>>, f: seq<Value> -> seq<Value>)
    ensures |Image(s, f)| <= |s|
  {
    if s != {} {
      var x :| x in s;
      ImageSize(s - {x}, f);
      assert Image(s, f) == Image(s - {x}, f) + {f(x)};
    }
  }

  function Joined(a: set<seq<Value>>, b: set<seq<Value>>): set<seq<Value>> {
    set x, y | x in a && y in b :: x + y
  }

  lemma OneMore(m: nat, n: nat)
    ensures (m + 1) * n == m * n + n
  {}

  lemma ProductsGrow(a: nat, b: nat, c: nat, d: nat)
    requires a <= c && b <= d
    ensures a * b <= c * d
  {
    assert a * b <= c * b <= c * d;
  }

  lemma JoinedSplit(a: set<seq<Value>>, x: seq<Value>, b: set<seq<Value>>)
    requires x in a
    ensures Joined(a, b) == Joined(a - {x}, b) + Image(b, y => x + y)
  {}

  lemma {:induction false} JoinedSize(a: set<seq<Value>>, b: set<seq<Value>>)
    ensures |Joined(a, b)| <= |a| * |b|
  {
    if a != {} {
      var x :| x in a;
      JoinedSplit(a, x, b);
      hide Joined, Image;
      JoinedSize(a - {x}, b);
      ImageSize(b, y => x + y);
      OneMore(|a - {x}|, |b|);
    }
  }

  lemma AtMostJoined(t: Tree, p: seq<Name>, q: seq<Name>, c: nat, d: nat)
    requires AtMost(t, p, c) && AtMost(t, q, d)
    ensures AtMost(t, p + q, c * d)
  {
    var a :| |a| <= c && Within(t, p, a);
    var b :| |b| <= d && Within(t, q, b);
    JoinedSize(a, b);
    ProductsGrow(|a|, |b|, c, d);
    forall asg: Assignment | Lookup(t, asg).Some? ensures Values(p + q, asg) in Joined(a, b) {
      ValuesJoin(p, q, asg);
    }
    assert Within(t, p + q, Joined(a, b));
  }

  /** Listing the same names in another order cannot add tuples. */
  lemma AtMostReordered(t: Tree, p: seq<Name>, q: seq<Name>, c: nat)
    requires AtMost(t, p, c) && forall k :: 0 <= k < |q| ==> q[k] in p
    ensures AtMost(t, q, c)
  {
    var s :| |s| <= c && Within(t, p, s);
    var f := (v: seq<Value>) =>
      if |v| == |p| then seq(|q|, k requires 0 <= k < |q| => v[Position(p, q[k])]) else [];
    ImageSize(s, f);
    forall asg: Assignment | Lookup(t, asg).Some? ensures Values(q, asg) in Image(s, f) {
      assert f(Values(p, asg)) == Values(q, asg);
    }
    assert Within(t, q, Image(s, f));
  }

  lemma AtMostLevel(t: Tree, levels: Levels, level: nat)
    requires Uniform(t, levels) && NoRepeat(levels) && level < |levels|
    ensures AtMost(t, levels[level], |LevelValues(t, level)|)
  {
    forall asg: Assignment | Lookup(t, asg).Some? ensures Values(levels[level], asg) in LevelValues(t, level) {
      LevelValuesMean(t, levels, level, Values(levels[level], asg));
    }
    assert Within(t, levels[level], LevelValues(t, level));
  }

  lemma SubsetSize(a: set<seq<Value>>, b: set<seq<Value>>)
    requires a <= b
    ensures |a| <= |b|
  {
    if a != {} {
      var x :| x in a;
      SubsetSize(a - {x}, b - {x});
    }
  }

  lemma LevelAtMost(t: Tree, levels: Levels, level: nat, c: nat)
    requires Uniform(t, levels) && NoRepeat(levels) && level < |levels| && AtMost(t, levels[level], c)
    ensures |LevelValues(t, level)| <= c
  {
    var s :| |s| <= c && Within(t, levels[level], s);
    forall v | v in LevelValues(t, level) ensures v in s {
      LevelValuesMean(t, levels, level, v);
    }
    SubsetSize(LevelValues(t, level), s);
  }
}
