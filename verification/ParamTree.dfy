/** Parameter trees as values: a path from the root fixes one value tuple per level and
    ends in the results for that combination of parameters. */
module ParamTree {
  import opened Basics

  type Name = string
  type Value = string
  type Combo = seq<string>

  /** Settings for the plots below a node. */
  type Props = map<string, string>

  datatype Tree = Tree(name: seq<Name>, edges: seq<Edge>, combo: Option<Combo>, props: Props)
  datatype Edge = Edge(vals: seq<Value>, ptr: Tree)

  /** A value for every parameter name. */
  type Assignment = Name -> Value

  // ---------------------------------------------------------------- meaning

  /** The subtree behind the first edge with the given values. */
  function Find(edges: seq<Edge>, vals: seq<Value>): Option<Tree> {
    if edges == [] then None
    else if edges[0].vals == vals then Some(edges[0].ptr)
    else Find(edges[1..], vals)
  }

  function Values(name: seq<Name>, asg: Assignment): (v: seq<Value>)
    ensures |v| == |name|
  {
    seq(|name|, i requires 0 <= i < |name| => asg(name[i]))
  }

  /** What the tree holds for a full assignment of values to names: the combo of the leaf
      that the assignment leads to, if there is one. */
  ghost function Lookup(t: Tree, asg: Assignment): Option<Option<Combo>>
    decreases t
  {
    if t.name == [] then Some(t.combo)
    else
      FindShrinks(t.edges, Values(t.name, asg));
      match Find(t.edges, Values(t.name, asg))
      case None => None
      case Some(u) => Lookup(u, asg)
  }

  lemma {:induction false} FindShrinks(edges: seq<Edge>, vals: seq<Value>)
    ensures Find(edges, vals).Some? ==>
              exists i :: 0 <= i < |edges| && edges[i].vals == vals && edges[i].ptr == Find(edges, vals).value
  {
    if edges != [] && edges[0].vals != vals {
      FindShrinks(edges[1..], vals);
      if Find(edges[1..], vals).Some? {
        var i :| 0 <= i < |edges[1..]| && edges[1..][i].vals == vals && edges[1..][i].ptr == Find(edges, vals).value;
        assert edges[i + 1].vals == vals;
      }
    }
  }

  /** Every assignment leads to the same results. */
  ghost predicate Same(t: Tree, u: Tree) {
    forall asg: Assignment :: Lookup(t, asg) == Lookup(u, asg)
  }

  // ------------------------------------------------------------- uniformity

  ghost predicate EdgesDistinct(edges: seq<Edge>) {
    forall i, j :: 0 <= i < j < |edges| ==> edges[i].vals != edges[j].vals
  }

  /** All nodes of a level carry the name list of that level, inner nodes have children
      behind distinct value tuples of the right width, and leaves have none. */
  ghost predicate Uniform(t: Tree, levels: seq<seq<Name>>)
    decreases |levels|
  {
    if levels == [] then t.name == [] && t.edges == []
    else
      && t.name == levels[0] && levels[0] != [] && t.edges != []
      && EdgesDistinct(t.edges)
      && forall i :: 0 <= i < |t.edges| ==> |t.edges[i].vals| == |t.name| && Uniform(t.edges[i].ptr, levels[1..])
  }

  // ----------------------------------------------------- lookups in edge lists

  lemma {:induction false} FindAt(edges: seq<Edge>, i: nat)
    requires EdgesDistinct(edges) && i < |edges|
    ensures Find(edges, edges[i].vals) == Some(edges[i].ptr)
  {
    if i > 0 {
      assert edges[0].vals != edges[i].vals;
      assert edges[1..][i - 1] == edges[i];
      FindAt(edges[1..], i - 1);
    }
  }

  lemma {:induction false} FindNone(edges: seq<Edge>, vals: seq<Value>)
    ensures Find(edges, vals) == None <==> forall i :: 0 <= i < |edges| ==> edges[i].vals != vals
  {
    if edges != [] {
      FindNone(edges[1..], vals);
      if edges[0].vals != vals {
        assert forall i :: 0 <= i < |edges[1..]| ==> edges[1..][i] == edges[i + 1];
        assert forall i :: 0 < i < |edges| ==> edges[i] == edges[1..][i - 1];
      }
    }
  }

  lemma {:induction false} FindInJoin(a: seq<Edge>, b: seq<Edge>, vals: seq<Value>)
    ensures Find(a + b, vals) == if Find(a, vals).Some? then Find(a, vals) else Find(b, vals)
  {
    if a == [] {
      assert a + b == b;
    } else if a[0].vals != vals {
      assert (a + b)[1..] == a[1..] + b;
      FindInJoin(a[1..], b, vals);
    }
  }

  /** Position of the edge with the given values, or |edges|. */
  function IndexOf(edges: seq<Edge>, vals: seq<Value>): (k: nat)
    ensures k <= |edges|
    ensures k < |edges| ==> edges[k].vals == vals
  {
    if edges == [] || edges[0].vals == vals then 0 else 1 + IndexOf(edges[1..], vals)
  }

  lemma {:induction false} IndexOfMisses(edges: seq<Edge>, vals: seq<Value>, i: nat)
    requires i < IndexOf(edges, vals)
    ensures i < |edges| && edges[i].vals != vals
  {
    if i > 0 {
      IndexOfMisses(edges[1..], vals, i - 1);
    }
  }

  /** _add_edge, then assigning the pointer: the edge's subtree is replaced, or a new
      edge goes to the end. */
  function Put(edges: seq<Edge>, vals: seq<Value>, ptr: Tree): (r: seq<Edge>) {
    var k := IndexOf(edges, vals);
    if k < |edges| then edges[k := Edge(vals, ptr)] else edges + [Edge(vals, ptr)]
  }

  lemma {:induction false} FindInPut(edges: seq<Edge>, vals: seq<Value>, ptr: Tree, w: seq<Value>)
    ensures Find(Put(edges, vals, ptr), w) == if w == vals then Some(ptr) else Find(edges, w)
  {
    if edges != [] && edges[0].vals != vals {
      assert Put(edges, vals, ptr)[1..] == Put(edges[1..], vals, ptr);
      assert Put(edges, vals, ptr)[0] == edges[0];
      FindInPut(edges[1..], vals, ptr, w);
    }
  }

  lemma PutDistinct(edges: seq<Edge>, vals: seq<Value>, ptr: Tree)
    requires EdgesDistinct(edges)
    ensures EdgesDistinct(Put(edges, vals, ptr))
  {
    if IndexOf(edges, vals) == |edges| {
      forall i | 0 <= i < |edges| ensures edges[i].vals != vals {
        IndexOfMisses(edges, vals, i);
      }
    }
  }
}
