/** class diff_tree: the parameter tree as linked objects, restructured in place. Every
    method is tied to the value it leaves behind. */
module DiffTrees {
  import opened Basics
  import opened ParamTree
  import opened TreeSwap
  import opened TreeSquash
  import opened TreeLevels
  import opened TreeAutosquash
  import opened TreeRemove

  datatype Branch = Branch(vals: seq<Value>, ptr: DiffTree)

  /** The branches stand for the given edges; their subtrees are sound, lie within R and
      share nothing. */
  ghost predicate Forest(es: seq<Branch>, edges: seq<Edge>, R: set<DiffTree>)
    reads R
    decreases R, 2
  {
    && |edges| == |es|
    && (forall i :: 0 <= i < |es| ==> es[i].ptr in R && es[i].ptr.Repr <= R && Sound(es[i], edges[i]))
    && (forall i, j :: 0 <= i < j < |es| ==> es[i].ptr.Repr !! es[j].ptr.Repr)
  }

  ghost predicate Sound(b: Branch, e: Edge)
    reads b.ptr, b.ptr.Repr
    decreases b.ptr.Repr, 1
  {
    b.ptr.Valid() && e == Edge(b.vals, b.ptr.view)
  }

  /** The nodes stand for the given trees and lie within R. */
  ghost predicate Showing(nodes: seq<DiffTree>, trees: seq<Tree>, R: set<DiffTree>)
    reads R
  {
    && |nodes| == |trees|
    && forall i :: 0 <= i < |nodes| ==> nodes[i] in R && nodes[i].Repr <= R && nodes[i].Valid() && nodes[i].view == trees[i]
  }

  lemma ShowingJoin(a: seq<DiffTree>, trees: seq<Tree>, R: set<DiffTree>,
                    b: seq<DiffTree>, more: seq<Tree>, S: set<DiffTree>)
    requires Showing(a, trees, R) && Showing(b, more, S) && S <= R
    ensures Showing(a + b, trees + more, R)
  {}

  class DiffTree {
    var name: seq<Name>
    var childs: seq<Branch>
    var combo: Option<Combo>
    var properties: Props
    /** The tree this node stands for, and the nodes it is made of. */
    ghost var view: Tree
    ghost var Repr: set<DiffTree>

    ghost predicate Valid()
      reads this, Repr
      decreases Repr, 0
    {
      && this in Repr && Forest(childs, view.edges, Repr - {this})
      && view.name == name && view.combo == combo && view.props == properties
    }

    lemma Shown()
      requires Valid()
      ensures this in Repr && view.name == name && view.combo == combo && view.props == properties
      ensures |view.edges| == |childs|
    {}

    constructor ()
      ensures Valid() && fresh(Repr) && Repr == {this} && view == BLANK
    {
      name := [];
      childs := [];
      combo := None;
      properties := map[];
      view := BLANK;
      Repr := {this};
    }

    /** Takes on another value, whose subtrees are those of the new branches. */
    method Become(newName: seq<Name>, newChilds: seq<Branch>, newCombo: Option<Combo>, newProperties: Props,
                  ghost edges: seq<Edge>, ghost S: set<DiffTree>)
      requires Forest(newChilds, edges, S) && this !in S
      modifies this
      ensures Valid() && Repr == {this} + S && view == Tree(newName, edges, newCombo, newProperties)
    {
      name, childs, combo, properties := newName, newChilds, newCombo, newProperties;
      view := Tree(newName, edges, newCombo, newProperties);
      Repr := {this} + S;
      assert Repr - {this} == S;
    }

    /** The subtrees have changed. */
    ghost method Settle(edges: seq<Edge>, S: set<DiffTree>)
      requires view.name == name && view.combo == combo && view.props == properties
      requires Forest(childs, edges, S) && this !in S
      modifies this`view, this`Repr
      ensures Valid() && Repr == S + {this} && view == old(view).(edges := edges)
    {
      view := view.(edges := edges);
      Repr := S + {this};
      assert Repr - {this} == S;
    }

    method Rename(newName: seq<Name>, p: Props)
      requires Valid()
      modifies this
      ensures Valid() && Repr == old(Repr) && view == old(view).(name := newName, props := p)
    {
      properties, name := p, newName;
      view := view.(name := newName, props := p);
    }

    /** Hangs `sub` behind the branch with the given values, which _add_edge finds or
        appends. */
    method Graft(vals: seq<Value>, sub: DiffTree)
      requires Valid() && sub.Valid() && sub.Repr !! Repr
      modifies this
      ensures Valid() && Repr == old(Repr) + sub.Repr
      ensures view == old(view).(edges := Put(old(view).edges, vals, sub.view))
    {
      ghost var S := Repr - {this} + sub.Repr;
      var r := PutBranch(childs, view.edges, vals, sub, Repr - {this});
      hide Put;
      childs := r;
      Repr := Repr + sub.Repr;
      view := view.(edges := Put(view.edges, vals, sub.view));
      assert Repr - {this} == S;
    }

    /** Adds the properties of child i. */
    method Collected(before: Props, i: nat) returns (p: Props)
      requires Valid() && i < |childs| == |view.edges|
      ensures p == before + view.edges[i].ptr.props
    {
      assert Sound(childs[i], view.edges[i]);
      childs[i].ptr.Shown();
      p := before + childs[i].ptr.properties;
    }

    /** The nested loops of swap_with_next: the list of the new top level, and the
        properties of all children. */
    method Transposed() returns (newChilds: seq<Branch>, newProperties: Props, ghost S: set<DiffTree>)
      requires Valid()
      ensures Forest(newChilds, SwapOuter(name, properties, view.edges), S)
      ensures newProperties == Gathered(view.edges)
      ensures this !in S && fresh(S - Repr)
    {
      newChilds, newProperties := [], map[];
      assert Gathered([]) == map[] && SwapOuter(name, properties, []) == [];
      hide Gathered, SwapOuter, SwapInner;
      ghost var acc: seq<Edge>, N: set<DiffTree>, done: set<DiffTree> := [], {}, {};
      assert view.edges[..0] == [];
      for i := 0 to |childs|
        invariant Forest(newChilds, acc, N + done) && acc == SwapOuter(name, properties, view.edges[..i])
        invariant newProperties == Gathered(view.edges[..i])
        invariant forall k :: 0 <= k < |newChilds| ==> newChilds[k].ptr in N
        invariant fresh(N)
        invariant done <= Repr - {this} && forall j :: i <= j < |childs| ==> childs[j].ptr.Repr !! done
      {
        assert Sound(childs[i], view.edges[i]);
        ghost var R := N + done;
        GatheredStep(map[], view.edges, i);
        newProperties := Collected(newProperties, i);
        newChilds, N := MoveChild(newChilds, acc, R, N, name, properties, childs[i].vals, childs[i].ptr);
        acc := SwapInner(acc, name, properties, childs[i].vals, childs[i].ptr.view.edges);
        SwapOuterStep(name, properties, view.edges, i);
        done := done + childs[i].ptr.Repr;
        ForestWidens(newChilds, acc, R + N + childs[i].ptr.Repr, N + done);
      }
      assert view.edges[..|childs|] == view.edges;
      S := N + done;
    }

    /** get_nodes_level */
    method GetNodesLevel(level: nat) returns (nodes: seq<DiffTree>)
      requires Valid()
      ensures Showing(nodes, Nodes(view, level), Repr)
      decreases Repr
    {
      if level == 0 {
        nodes := [this];
      } else {
        nodes := [];
        ghost var front: seq<Tree> := [];
        assert view.edges[0..] == view.edges;
        for i := 0 to |childs|
          invariant Showing(nodes, front, Repr)
          invariant front + NodesBelow(view.edges[i..], level - 1) == Nodes(view, level)
        {
          assert Sound(childs[i], view.edges[i]);
          var more := childs[i].ptr.GetNodesLevel(level - 1);
          assert view.edges[i..][1..] == view.edges[i + 1..];
          ShowingJoin(nodes, front, Repr, more, Nodes(view.edges[i].ptr, level - 1), childs[i].ptr.Repr);
          nodes := nodes + more;
          front := front + Nodes(view.edges[i].ptr, level - 1);
        }
      }
    }

    /** remove_name. The result is false where the source raises an IndexError. */
    method RemoveNameHere(gone: seq<Name>) returns (ok: bool)
      requires Valid()
      modifies Repr
      ensures ok <==> RemoveName(old(view), gone).Some?
      ensures ok ==> Valid() && fresh(Repr - old(Repr)) && view == RemoveName(old(view), gone).value
      decreases Repr, 0
    {
      if name == gone {
        if childs == [] {
          return false;
        }
        var child := childs[0].ptr;
        assert Sound(childs[0], view.edges[0]);
        child.Shown();
        Become(child.name, child.childs, child.combo, properties + child.properties, child.view.edges, child.Repr - {child});
        ok := true;
      } else {
        ghost var edges, S := view.edges, {};
        ok, S := RemoveInChilds(childs, edges, Repr - {this}, gone);
        if ok {
          Settle(RemoveFrom(edges, gone).value, S);
        }
      }
    }

    /** swap_with_next. Without children the source raises an IndexError. */
    method SwapWithNext()
      requires Valid() && childs != []
      modifies this
      ensures old(view).edges != [] && Valid() && view == Swap(old(view)) && fresh(Repr - old(Repr))
    {
      ghost var S;
      var newChilds, newProperties;
      newChilds, newProperties, S := Transposed();
      assert Sound(childs[0], view.edges[0]);
      childs[0].ptr.Shown();
      hide SwapOuter, Gathered, Forest, Sound;
      Become(childs[0].ptr.name, newChilds, combo, newProperties, SwapOuter(name, properties, view.edges), S);
    }

    /** pull_name_here */
    method PullNameHere(n: Name) returns (found: bool)
      requires Valid()
      modifies Repr
      ensures Valid() && fresh(Repr - old(Repr))
      ensures (view, found) == Pull(old(view), n)
      decreases Repr, 0
    {
      if n in name {
        return true;
      }
      if name == [] || childs == [] {
        return false;
      }
      ghost var edges, R, S := view.edges, Repr - {this}, {};
      found, S := PullChilds(childs, edges, R, n);
      Settle(PullEdges(edges, n).0, S);
      if found {
        SwapWithNext();
      }
    }

    /** The loop of squash_names that calls pull_name_here on every child. */
    method PullIntoChilds(n: Name)
      requires Valid()
      modifies Repr
      ensures Valid() && fresh(Repr - old(Repr)) && childs == old(childs) && name == old(name)
      ensures view == old(view).(edges := PullChildren(old(view).edges, n))
    {
      ghost var edges, R, S := view.edges, Repr - {this}, Repr - {this};
      ghost var acc := PulledUpTo(edges, n, 0);
      assert acc == edges;
      for i := 0 to |childs|
        invariant Forest(childs, acc, S) && acc == PulledUpTo(edges, n, i)
        invariant R <= S && fresh(S - R) && this !in S
        invariant childs == old(childs) && name == old(name) && combo == old(combo) && properties == old(properties)
        invariant view == old(view) && Repr == old(Repr)
        invariant forall j :: i <= j < |childs| ==> childs[j].ptr.Repr == old(childs[j].ptr.Repr)
      {
        var found;
        found, S := PullChildAt(childs, acc, S, i, n);
        acc := acc[i := Edge(childs[i].vals, Pull(edges[i].ptr, n).0)];
        assert acc == PulledUpTo(edges, n, i + 1);
      }
      assert acc == PullChildren(edges, n);
      Settle(acc, S);
    }

    /** squash_names. The result is false where the source raises an IndexError. */
    method SquashNames(names: seq<Name>) returns (ok: bool)
      requires Valid()
      modifies Repr
      ensures ok <==> Squash(old(view), names).Some?
      ensures ok ==> Valid() && fresh(Repr - old(Repr)) && view == Squash(old(view), names).value
      decreases Repr, 0
    {
      var oneMatch := AnyIn(name, names);
      if !oneMatch {
        ghost var edges, S := view.edges, {};
        ok, S := SquashChilds(childs, edges, Repr - {this}, names);
        if ok {
          Settle(SquashEdges(edges, names).value, S);
        }
      } else {
        ok := SquashHere(names);
      }
    }

    /** The loop over the names at a node that carries one of them. */
    method SquashHere(names: seq<Name>) returns (ok: bool)
      requires Valid()
      modifies Repr
      ensures ok <==> SquashNode(old(view), names).Some?
      ensures ok ==> Valid() && fresh(Repr - old(Repr)) && view == SquashNode(old(view), names).value
    {
      assert names[0..] == names;
      for i := 0 to |names|
        invariant Valid() && fresh(Repr - old(Repr))
        invariant SquashNode(old(view), names) == SquashNode(view, names[i..])
      {
        assert names[i..][1..] == names[i + 1..];
        if names[i] !in name {
          PullIntoChilds(names[i]);
          if childs == [] {
            return false;
          }
          MergeBelow();
        }
      }
      ok := true;
    }

    /** autosquash, first loop: the first name and the value tuples of every level. */
    method GatherPath() returns (path: seq<PathEntry>)
      requires Valid()
      ensures path == FullPath(view, 0)
    {
      path := [];
      var lvl := 0;
      while true
        invariant path + FullPath(view, lvl) == FullPath(view, 0)
        decreases Height(view) + 1 - lvl
      {
        hide FullPath, Nodes, PossibleValues, Height;
        var nodes := GetNodesLevel(lvl);
        if nodes == [] {
          PathStops(view, lvl);
          break;
        }
        nodes[0].Shown();
        var vals, nameless := CollectValues(nodes, Nodes(view, lvl), Repr);
        if nodes[0].name == [] {
          PathStops(view, lvl);
          break;
        }
        PathGoesOn(view, lvl);
        path := path + [(nodes[0].name[0], vals)];
        lvl := lvl + 1;
      }
    }

    /** autosquash. The list of bounds is reversed in place; the result is false where the
        source raises an IndexError. */
    method AutosquashHere(maxLevels: array<int>) returns (ok: bool)
      requires Valid()
      modifies Repr, maxLevels
      ensures maxLevels[..] == Reversed(old(maxLevels[..]))
      ensures ok <==> Autosquash(old(view), old(maxLevels[..])).Some?
      ensures ok ==> Valid() && fresh(Repr - old(Repr)) && view == Autosquash(old(view), old(maxLevels[..])).value
    {
      ReverseList(maxLevels);
      var path := GatherPath();
      ok := SquashPath(Reversed(path), maxLevels);
    }

    /** autosquash, second loop. */
    method SquashPath(path: seq<PathEntry>, maxLevels: array<int>) returns (ok: bool)
      requires Valid()
      modifies Repr
      ensures ok <==> SquashLoop(old(view), path, maxLevels[..], 0, [], 1).Some?
      ensures ok ==> Valid() && fresh(Repr - old(Repr)) && view == SquashLoop(old(view), path, maxLevels[..], 0, [], 1).value
    {
      hide SquashSeveral, Valid, SquashLoop;
      ghost var bounds, result := maxLevels[..], SquashLoop(view, path, maxLevels[..], 0, [], 1);
      var lvl: nat, toSquash: seq<Name>, gathered: nat := 0, [], 1;
      assert path[0..] == path;
      for i := 0 to |path|
        invariant Valid() && fresh(Repr - old(Repr))
        invariant result == SquashLoop(view, path[i..], bounds, lvl, toSquash, gathered)
      {
        var (name, vals) := path[i];
        assert path[i..][1..] == path[i + 1..];
        LoopEnds(view, path[i..], bounds, lvl, toSquash, gathered);
        if lvl >= maxLevels.Length {
          return false;
        }
        LoopTurn(view, path[i..], bounds, lvl, toSquash, gathered);
        if gathered * |vals| > maxLevels[lvl] {
          ok := SquashIfSeveral(toSquash);
          if !ok {
            return;
          }
          gathered, toSquash, lvl := 1, [], lvl + 1;
          if lvl >= maxLevels.Length {
            assert result == Some(view);
            break;
          }
          assert toSquash + [name] == [name];
        }
        gathered := gathered * |vals|;
        toSquash := toSquash + [name];
      }
      LoopEnds(view, [], bounds, lvl, toSquash, gathered);
      NothingToSquash(view);
      assert result == SquashSeveral(view, Reversed(toSquash));
      ok := SquashIfSeveral(Reversed(toSquash));
    }

    method SquashIfSeveral(names: seq<Name>) returns (ok: bool)
      requires Valid()
      modifies Repr
      ensures ok <==> SquashSeveral(old(view), names).Some?
      ensures ok ==> Valid() && fresh(Repr - old(Repr)) && view == SquashSeveral(old(view), names).value
    {
      ok := true;
      if |names| > 1 {
        ok := SquashNames(names);
      }
    }

    /** Notes the values of a level and removes it. */
    method RemoveLevel(gone: seq<Name>, vals: seq<Value>, before: Removed) returns (ok: bool, removed: Removed)
      requires Valid()
      modifies Repr
      ensures ok <==> Record(before, gone, vals).Some? && RemoveName(old(view), gone).Some?
      ensures ok ==> removed == Record(before, gone, vals).value
      ensures ok ==> Valid() && fresh(Repr - old(Repr)) && view == RemoveName(old(view), gone).value
    {
      hide Valid, RemoveName, Record;
      ok, removed := RecordValues(before, gone, vals);
      if ok {
        ok := RemoveNameHere(gone);
      }
    }

    /** One turn of the loop of remove_singleval_childs. */
    method RemoveTurn(lvl: nat, before: Removed, props0: Props)
      returns (ok: bool, done: bool, lvl': nat, removed: Removed, props: Props)
      requires Valid()
      modifies Repr
      ensures !ok ==> RemoveLoop(old(view), lvl, before, props0) == None
      ensures ok ==> Valid() && fresh(Repr - old(Repr))
      ensures ok && done ==> RemoveLoop(old(view), lvl, before, props0) == Some((view, removed, props))
      ensures ok && !done ==> RemoveLoop(old(view), lvl, before, props0) == RemoveLoop(view, lvl', removed, props)
      ensures ok && !done ==> Size(view) < Size(old(view)) || (view == old(view) && lvl' == lvl + 1 && lvl <= Height(view))
    {
      hide RemoveLoop, RemoveName, Record, Nodes, PossibleValues, Named, Height, Size;
      ok, done, lvl', removed, props := true, true, lvl, before, props0;
      var nodes := GetNodesLevel(lvl);
      if nodes == [] {
        LoopStops(view, lvl, removed, props);
        return;
      }
      nodes[0].Shown();
      var vals, nameless := CollectValues(nodes, Nodes(view, lvl), Repr);
      if nameless {
        LoopStops(view, lvl, removed, props);
        return;
      }
      done := false;
      if |vals| == 1 {
        var v :| v in vals;
        assert v == TheOne(vals);
        LoopRemoves(view, lvl, removed, props);
        props := props + nodes[0].properties;
        ok, removed := RemoveLevel(nodes[0].name, v, removed);
      } else {
        LoopSkips(view, lvl, removed, props);
        lvl' := lvl + 1;
      }
    }

    /** remove_singleval_childs. The result is false where the source raises an
        IndexError. */
    method RemoveSinglevalChilds() returns (ok: bool, removed: Removed, props: Props)
      requires Valid()
      modifies Repr
      ensures ok <==> RemoveSingles(old(view)).Some?
      ensures ok ==> Valid() && fresh(Repr - old(Repr)) && (view, removed, props) == RemoveSingles(old(view)).value
    {
      ghost var result := RemoveSingles(view);
      hide Valid, RemoveLoop, Height, Size;
      ok, removed, props := true, map[], map[];
      var lvl, done := 0, false;
      while !done
        invariant Valid() && fresh(Repr - old(Repr))
        invariant result == if done then Some((view, removed, props)) else RemoveLoop(view, lvl, removed, props)
        decreases !done, Size(view), Height(view) + 1 - lvl
      {
        ok, done, lvl, removed, props := RemoveTurn(lvl, removed, props);
        if !ok {
          return;
        }
      }
    }

    /** The nested loops of squash_names: one branch for each pair of values, and the
        properties of all children on top of the node's own. */
    method Combined() returns (newChilds: seq<Branch>, newProperties: Props, ghost S: set<DiffTree>)
      requires Valid()
      ensures Forest(newChilds, MergeEdges(view.edges), S) && S <= Repr - {this}
      ensures newProperties == properties + Gathered(view.edges)
    {
      newChilds, newProperties, S := [], properties, {};
      assert Gathered([]) == map[] && MergeEdges([]) == [];
      hide Gathered, MergeEdges;
      ghost var acc: seq<Edge> := [];
      assert view.edges[..0] == [];
      for i := 0 to |childs|
        invariant Forest(newChilds, acc, S) && acc == MergeEdges(view.edges[..i])
        invariant newProperties == properties + Gathered(view.edges[..i])
        invariant S <= Repr - {this} && forall j :: i <= j < |childs| ==> childs[j].ptr.Repr !! S
      {
        GatheredStep(properties, view.edges, i);
        newProperties := Collected(newProperties, i);
        assert Sound(childs[i], view.edges[i]);
        newChilds := AppendPrefixed(newChilds, acc, S, childs[i].vals, childs[i].ptr);
        acc := acc + Prefixed(childs[i].vals, childs[i].ptr.view.edges);
        S := S + childs[i].ptr.Repr;
        MergeStep(view.edges, i);
      }
      assert view.edges[..|childs|] == view.edges;
    }

    /** squash_names for one name this node lacks: join it with the level below. */
    method MergeBelow()
      requires Valid() && childs != []
      modifies this
      ensures old(view).edges != [] && Valid() && view == Merge(old(view)) && Repr <= old(Repr)
    {
      ghost var S;
      var newChilds, newProperties;
      newChilds, newProperties, S := Combined();
      assert Sound(childs[0], view.edges[0]);
      childs[0].ptr.Shown();
      hide MergeEdges, Gathered, Forest, Sound;
      Become(name + childs[0].ptr.name, newChilds, combo, newProperties, MergeEdges(view.edges), S);
    }
  }

  /** The search of _add_edge: the branch with the given values, or |es|. */
  method FindBranch(es: seq<Branch>, ghost edges: seq<Edge>, vals: seq<Value>) returns (k: nat)
    requires |edges| == |es| && forall i :: 0 <= i < |es| ==> edges[i].vals == es[i].vals
    ensures k == IndexOf(edges, vals)
  {
    k := 0;
    while k < |es|
      invariant k <= |es|
      invariant k <= IndexOf(edges, vals)
    {
      IndexOfBeyond(edges, vals, k);
      if es[k].vals == vals {
        return;
      }
      k := k + 1;
    }
  }

  lemma {:induction false} IndexOfBeyond(edges: seq<Edge>, vals: seq<Value>, k: nat)
    requires k < |edges| && k <= IndexOf(edges, vals)
    ensures edges[k].vals == vals <==> IndexOf(edges, vals) == k
  {
    if k > 0 {
      IndexOfBeyond(edges[1..], vals, k - 1);
    }
  }

  /** _add_edge: the branch with the given values, appended with a new node if there is
      none. */
  method AddEdge(es: seq<Branch>, ghost edges: seq<Edge>, vals: seq<Value>) returns (r: seq<Branch>, k: nat)
    requires |edges| == |es| && forall i :: 0 <= i < |es| ==> edges[i].vals == es[i].vals
    ensures k == IndexOf(edges, vals) && k < |r|
    ensures k < |es| ==> r == es
    ensures k == |es| ==> r == es + [r[k]] && r[k].vals == vals
    ensures k == |es| ==> r[k].ptr.Valid() && fresh(r[k].ptr) && r[k].ptr.Repr == {r[k].ptr} && r[k].ptr.view == BLANK
  {
    k := FindBranch(es, edges, vals);
    r := es;
    if k == |es| {
      var node := new DiffTree();
      r := es + [Branch(vals, node)];
    }
  }

  /** _add_edge, and then the assignment to the branch's pointer. */
  method PutBranch(es: seq<Branch>, ghost edges: seq<Edge>, vals: seq<Value>, sub: DiffTree, ghost R: set<DiffTree>)
    returns (r: seq<Branch>)
    requires Forest(es, edges, R) && sub.Valid() && sub.Repr !! R
    ensures Forest(r, Put(edges, vals, sub.view), R + sub.Repr)
  {
    var with, k := AddEdge(es, edges, vals);
    r := with[k := Branch(vals, sub)];
    assert r == if k < |es| then es[k := Branch(vals, sub)] else es + [Branch(vals, sub)];
    ForestPut(es, edges, R, k, Branch(vals, sub));
  }

  /** Replacing the branch at k, or appending one, by a subtree that shares nothing. */
  lemma ForestPut(es: seq<Branch>, edges: seq<Edge>, R: set<DiffTree>, k: nat, b: Branch)
    requires Forest(es, edges, R) && k <= |es| && b.ptr.Valid() && b.ptr.Repr !! R
    ensures Forest(if k < |es| then es[k := b] else es + [b],
                   if k < |es| then edges[k := Edge(b.vals, b.ptr.view)] else edges + [Edge(b.vals, b.ptr.view)],
                   R + b.ptr.Repr)
  {
    var r, S := if k < |es| then es[k := b] else es + [b], R + b.ptr.Repr;
    var edges' := if k < |es| then edges[k := Edge(b.vals, b.ptr.view)] else edges + [Edge(b.vals, b.ptr.view)];
    forall i | 0 <= i < |r| ensures r[i].ptr in S && r[i].ptr.Repr <= S && Sound(r[i], edges'[i]) {
      if i != k {
        assert r[i] == es[i] && Sound(es[i], edges[i]);
      }
    }
    forall i, j | 0 <= i < j < |r| ensures r[i].ptr.Repr !! r[j].ptr.Repr {
      if i == k {
        assert r[j] == es[j] && Sound(es[j], edges[j]);
      } else if j == k {
        assert r[i] == es[i] && Sound(es[i], edges[i]);
      }
    }
  }

  // ---------------------------------------------------------- swap_with_next

  lemma {:induction false} FindIsIndex(edges: seq<Edge>, vals: seq<Value>)
    ensures Find(edges, vals) == if IndexOf(edges, vals) < |edges| then Some(edges[IndexOf(edges, vals)].ptr) else None
  {
    if edges != [] && edges[0].vals != vals {
      FindIsIndex(edges[1..], vals);
    }
  }

  method GraftUnder(node: DiffTree, name: seq<Name>, p: Props, v: seq<Value>, sub: DiffTree)
    requires node.Valid() && sub.Valid() && sub.Repr !! node.Repr
    modifies node
    ensures node.Valid() && node.Repr == old(node.Repr) + sub.Repr
    ensures node.view == Tree(name, Put(old(node.view).edges, v, sub.view), old(node.view).combo, p)
    ensures sub.Valid()
  {
    hide Put;
    node.Rename(name, p);
    node.Graft(v, sub);
  }

  /** _add_edge on the list of the new level. */
  method AddToForest(es: seq<Branch>, ghost edges: seq<Edge>, ghost R: set<DiffTree>, vals: seq<Value>)
    returns (r: seq<Branch>, k: nat, ghost edges': seq<Edge>, ghost R': set<DiffTree>)
    requires Forest(es, edges, R)
    ensures Forest(r, edges', R') && k == IndexOf(edges, vals) && k < |r|
    ensures R' == R + {r[k].ptr} && fresh(R' - R)
    ensures k < |es| ==> r == es && edges' == edges
    ensures k == |es| ==> r == es + [r[k]] && edges' == edges + [Edge(vals, BLANK)] && fresh(r[k].ptr)
  {
    r, k := AddEdge(es, edges, vals);
    edges' := if k < |es| then edges else edges + [Edge(vals, BLANK)];
    R' := R + {r[k].ptr};
    if k == |es| {
      ForestPut(es, edges, R, k, r[k]);
    }
  }

  /** The body of the inner loop: `sub`, met behind v and then m, goes behind m and v. The
      nodes in N are those the loops have made. */
  method MoveOver(es: seq<Branch>, ghost edges: seq<Edge>, ghost R: set<DiffTree>, ghost N: set<DiffTree>,
                  name: seq<Name>, p: Props, m: seq<Value>, v: seq<Value>, sub: DiffTree)
    returns (r: seq<Branch>, ghost N': set<DiffTree>)
    requires Forest(es, edges, R) && sub.Valid() && sub.Repr !! R
    requires forall i :: 0 <= i < |es| ==> es[i].ptr in N
    modifies N
    ensures Forest(r, AddPair(edges, name, p, m, v, sub.view), R + N' + sub.Repr)
    ensures forall i :: 0 <= i < |r| ==> r[i].ptr in N'
    ensures N <= N' && fresh(N' - N)
  {
    var k;
    ghost var edges', R';
    r, k, edges', R' := AddToForest(es, edges, R, m);
    N' := N + {r[k].ptr};
    MoveOverAt(r, edges', R', k, r[k].ptr, name, p, v, sub);
    FindIsIndex(edges, m);
    ForestWidens(r, AddPair(edges, name, p, m, v, sub.view), R' + sub.Repr, R + N' + sub.Repr);
  }

  method MoveOverAt(es: seq<Branch>, ghost edges: seq<Edge>, ghost R: set<DiffTree>, ghost k: nat, node: DiffTree,
                    name: seq<Name>, p: Props, v: seq<Value>, sub: DiffTree)
    requires Forest(es, edges, R) && k < |es| && node == es[k].ptr && sub.Valid() && sub.Repr !! R
    modifies node
    ensures Forest(es,
                   edges[k := Edge(es[k].vals, Tree(name, Put(edges[k].ptr.edges, v, sub.view), edges[k].ptr.combo, p))],
                   R + sub.Repr)
    ensures sub.Valid() && sub.view == old(sub.view)
  {
    assert Sound(es[k], edges[k]);
    GraftUnder(node, name, p, v, sub);
    forall i | 0 <= i < |es| && i != k
      ensures es[i].ptr.Repr == old(es[i].ptr.Repr) && Sound(es[i], edges[i]) && es[i].ptr.Repr !! old(node.Repr)
    {
      assert old(Sound(es[i], edges[i]));
      assert old(es[i].ptr.Repr !! es[k].ptr.Repr);
      assert node !in old(es[i].ptr.Repr);
    }
    ghost var edges' := edges[k := Edge(es[k].vals, node.view)];
    assert Sound(es[k], edges'[k]);
    forall i, j | 0 <= i < j < |es| ensures es[i].ptr.Repr !! es[j].ptr.Repr {
      assert old(es[i].ptr.Repr !! es[j].ptr.Repr);
    }
    assert Forest(es, edges', R + sub.Repr);
  }

  /** The inner loop: the children behind one branch. */
  method MoveAll(es: seq<Branch>, ghost edges: seq<Edge>, ghost R: set<DiffTree>, ghost N: set<DiffTree>,
                 name: seq<Name>, p: Props, v: seq<Value>, ce: seq<Branch>, ghost cedges: seq<Edge>, ghost C: set<DiffTree>)
    returns (r: seq<Branch>, ghost N': set<DiffTree>)
    requires Forest(es, edges, R) && Forest(ce, cedges, C) && C !! R && C !! N
    requires forall i :: 0 <= i < |es| ==> es[i].ptr in N
    modifies N
    ensures Forest(r, SwapInner(edges, name, p, v, cedges), R + N' + C)
    ensures forall i :: 0 <= i < |r| ==> r[i].ptr in N'
    ensures N <= N' && fresh(N' - N)
  {
    r, N' := es, N;
    ghost var acc, done := edges, {};
    assert cedges[..0] == [];
    ForestWidens(r, acc, R, R + N' + done);
    for i := 0 to |ce|
      invariant Forest(ce, cedges, C) && C !! N'
      invariant Forest(r, acc, R + N' + done) && acc == SwapInner(edges, name, p, v, cedges[..i])
      invariant forall k :: 0 <= k < |r| ==> r[k].ptr in N'
      invariant N <= N' && fresh(N' - N)
      invariant done <= C && forall j :: i <= j < |ce| ==> ce[j].ptr.Repr !! done
    {
      assert Sound(ce[i], cedges[i]);
      ghost var sub, S := ce[i].ptr.Repr, R + N' + done;
      r, N' := MoveOver(r, acc, S, N', name, p, ce[i].vals, v, ce[i].ptr);
      acc := AddPair(acc, name, p, ce[i].vals, v, ce[i].ptr.view);
      done := done + sub;
      SwapInnerStep(edges, name, p, v, cedges, i);
      ForestWidens(r, acc, S + N' + sub, R + N' + done);
    }
    assert cedges[..|ce|] == cedges;
    ForestWidens(r, acc, R + N' + done, R + N' + C);
  }

  method MoveChild(es: seq<Branch>, ghost edges: seq<Edge>, ghost R: set<DiffTree>, ghost N: set<DiffTree>,
                   name: seq<Name>, p: Props, v: seq<Value>, child: DiffTree)
    returns (r: seq<Branch>, ghost N': set<DiffTree>)
    requires Forest(es, edges, R) && child.Valid() && child.Repr !! R && child.Repr !! N
    requires forall i :: 0 <= i < |es| ==> es[i].ptr in N
    modifies N
    ensures Forest(r, SwapInner(edges, name, p, v, child.view.edges), R + N' + child.Repr)
    ensures forall i :: 0 <= i < |r| ==> r[i].ptr in N'
    ensures N <= N' && fresh(N' - N)
  {
    ghost var C := child.Repr - {child};
    r, N' := MoveAll(es, edges, R, N, name, p, v, child.childs, child.view.edges, C);
    ForestWidens(r, SwapInner(edges, name, p, v, child.view.edges), R + N' + C, R + N' + child.Repr);
  }

  lemma SwapInnerStep(acc: seq<Edge>, name: seq<Name>, p: Props, v: seq<Value>, es: seq<Edge>, i: nat)
    requires i < |es|
    ensures SwapInner(acc, name, p, v, es[..i + 1])
         == AddPair(SwapInner(acc, name, p, v, es[..i]), name, p, es[i].vals, v, es[i].ptr)
  {
    assert es[..i + 1][..i] == es[..i];
  }

  lemma SwapOuterStep(name: seq<Name>, p: Props, edges: seq<Edge>, i: nat)
    requires i < |edges|
    ensures SwapOuter(name, p, edges[..i + 1])
         == SwapInner(SwapOuter(name, p, edges[..i]), name, p, edges[i].vals, edges[i].ptr.edges)
  {
    assert edges[..i + 1][..i] == edges[..i];
  }

  lemma GatheredStep(p: Props, edges: seq<Edge>, i: nat)
    requires i < |edges|
    ensures Gathered(edges[..i + 1]) == Gathered(edges[..i]) + edges[i].ptr.props
    ensures p + Gathered(edges[..i + 1]) == (p + Gathered(edges[..i])) + edges[i].ptr.props
  {
    assert edges[..i + 1][..i] == edges[..i];
  }

  lemma ForestWidens(es: seq<Branch>, edges: seq<Edge>, R: set<DiffTree>, S: set<DiffTree>)
    requires Forest(es, edges, R) && R <= S
    ensures Forest(es, edges, S)
  {}

  // --------------------------------------------------------- pull_name_here

  ghost function Reprs(es: seq<Branch>): (r: seq<set<DiffTree>>)
    reads set b | b in es :: b.ptr
    ensures |r| == |es| && forall i :: 0 <= i < |es| ==> r[i] == es[i].ptr.Repr
  {
    if es == [] then [] else Reprs(es[..|es| - 1]) + [es[|es| - 1].ptr.Repr]
  }

  /** The subtree at k has changed and grown by new nodes, the others are as they were. */
  lemma ForestRejoined(es: seq<Branch>, edges: seq<Edge>, reprs: seq<set<DiffTree>>,
                       R: set<DiffTree>, S: set<DiffTree>, k: nat)
    requires |es| == |edges| == |reprs| && k < |es| && R <= S
    requires forall i :: 0 <= i < |es| ==> es[i].ptr in R && reprs[i] <= R
    requires forall i, j :: 0 <= i < j < |es| ==> reprs[i] !! reprs[j]
    requires forall i :: 0 <= i < |es| ==> Sound(es[i], edges[i])
    requires forall i :: 0 <= i < |es| && i != k ==> es[i].ptr.Repr == reprs[i]
    requires es[k].ptr.Repr <= reprs[k] + (S - R)
    ensures Forest(es, edges, S)
  {}

  method PullChildAt(es: seq<Branch>, ghost edges: seq<Edge>, ghost R: set<DiffTree>, k: nat, n: Name)
    returns (found: bool, ghost S: set<DiffTree>)
    requires Forest(es, edges, R) && k < |es|
    modifies es[k].ptr.Repr
    ensures Forest(es, edges[k := Edge(es[k].vals, Pull(edges[k].ptr, n).0)], S) && found == Pull(edges[k].ptr, n).1
    ensures R <= S && fresh(S - R)
    ensures forall i :: 0 <= i < |es| && i != k ==> es[i].ptr.Repr == old(es[i].ptr.Repr)
    decreases es[k].ptr.Repr, 1
  {
    ghost var reprs, edges' := Reprs(es), edges[k := Edge(es[k].vals, Pull(edges[k].ptr, n).0)];
    forall i | 0 <= i < |es| ensures es[i].ptr in reprs[i] && Sound(es[i], edges[i]) {
      es[i].ptr.Shown();
    }
    found := es[k].ptr.PullNameHere(n);
    S := R + es[k].ptr.Repr;
    forall i | 0 <= i < |es| && i != k ensures es[i].ptr.Repr == reprs[i] && Sound(es[i], edges'[i]) {
      assert reprs[i] !! reprs[k];
    }
    ForestRejoined(es, edges', reprs, R, S, k);
  }

  /** The edges when the first i children have been pulled in. */
  ghost function PulledUpTo(edges: seq<Edge>, n: Name, i: nat): (r: seq<Edge>)
    ensures |r| == |edges|
    ensures forall j :: 0 <= j < |edges| ==> r[j] == if j < i then Edge(edges[j].vals, Pull(edges[j].ptr, n).0) else edges[j]
  {
    seq(|edges|, j requires 0 <= j < |edges| => if j < i then Edge(edges[j].vals, Pull(edges[j].ptr, n).0) else edges[j])
  }

  lemma {:induction false} PulledAll(edges: seq<Edge>, n: Name, i: nat)
    requires i <= |edges| && forall j :: 0 <= j < i ==> Pull(edges[j].ptr, n).1
    ensures i == |edges| ==> PullEdges(edges, n) == (PulledUpTo(edges, n, i), true)
    ensures i < |edges| && !Pull(edges[i].ptr, n).1 ==> PullEdges(edges, n) == (PulledUpTo(edges, n, i + 1), false)
    decreases |edges|
  {
    hide Pull;
    if edges != [] {
      var first := Edge(edges[0].vals, Pull(edges[0].ptr, n).0);
      if i > 0 {
        PulledAll(edges[1..], n, i - 1);
        assert PulledUpTo(edges, n, i) == [first] + PulledUpTo(edges[1..], n, i - 1);
        assert PulledUpTo(edges, n, i + 1) == [first] + PulledUpTo(edges[1..], n, i);
      } else {
        assert PulledUpTo(edges, n, 1) == [first] + edges[1..];
      }
    }
  }

  /** The loop of pull_name_here: ends at the first child without the name. */
  method PullChilds(es: seq<Branch>, ghost edges: seq<Edge>, ghost R: set<DiffTree>, n: Name)
    returns (found: bool, ghost S: set<DiffTree>)
    requires Forest(es, edges, R)
    modifies R
    ensures Forest(es, PullEdges(edges, n).0, S) && found == PullEdges(edges, n).1
    ensures R <= S && fresh(S - R)
    decreases R, 2
  {
    S := R;
    ghost var acc := PulledUpTo(edges, n, 0);
    assert acc == edges;
    for i := 0 to |es|
      invariant Forest(es, acc, S) && acc == PulledUpTo(edges, n, i)
      invariant forall j :: 0 <= j < i ==> Pull(edges[j].ptr, n).1
      invariant R <= S && fresh(S - R)
      invariant forall j :: i <= j < |es| ==> es[j].ptr.Repr == old(es[j].ptr.Repr)
    {
      found, S := PullChildAt(es, acc, S, i, n);
      acc := acc[i := Edge(es[i].vals, Pull(edges[i].ptr, n).0)];
      assert acc == PulledUpTo(edges, n, i + 1);
      PulledAll(edges, n, i);
      if !found {
        return;
      }
    }
    PulledAll(edges, n, |es|);
    found := true;
  }

  // ----------------------------------------------------------- squash_names

  lemma MergeStep(edges: seq<Edge>, i: nat)
    requires i < |edges|
    ensures MergeEdges(edges[..i + 1]) == MergeEdges(edges[..i]) + Prefixed(edges[i].vals, edges[i].ptr.edges)
  {
    assert edges[..i + 1][..i] == edges[..i];
  }

  method AppendPrefixed(es: seq<Branch>, ghost edges: seq<Edge>, ghost R: set<DiffTree>, v: seq<Value>, child: DiffTree)
    returns (r: seq<Branch>)
    requires Forest(es, edges, R) && child.Valid() && child.Repr !! R
    ensures Forest(r, edges + Prefixed(v, child.view.edges), R + child.Repr)
  {
    r := es;
    ghost var acc, done, ce := edges, R, child.view.edges;
    assert Forest(child.childs, ce, child.Repr - {child});
    for k := 0 to |child.childs|
      invariant Forest(r, acc, done) && acc == edges + Prefixed(v, ce)[..k]
      invariant R <= done <= R + child.Repr - {child}
      invariant forall j :: k <= j < |child.childs| ==> child.childs[j].ptr.Repr !! done
    {
      var c := child.childs[k];
      assert Sound(c, ce[k]);
      ForestPut(r, acc, done, |r|, Branch(v + c.vals, c.ptr));
      r := r + [Branch(v + c.vals, c.ptr)];
      acc := acc + [Edge(v + c.vals, c.ptr.view)];
      done := done + c.ptr.Repr;
    }
    ForestWidens(r, acc, done, R + child.Repr);
  }

  /** The search for a name of the node among the names to squash. */
  method AnyIn(name: seq<Name>, names: seq<Name>) returns (found: bool)
    ensures found == Meets(name, names)
  {
    for i := 0 to |name|
      invariant forall j :: 0 <= j < i ==> name[j] !in names
    {
      if name[i] in names {
        return true;
      }
    }
    found := false;
  }

  method SquashChildAt(es: seq<Branch>, ghost edges: seq<Edge>, ghost R: set<DiffTree>, k: nat, names: seq<Name>)
    returns (ok: bool, ghost S: set<DiffTree>)
    requires Forest(es, edges, R) && k < |es|
    modifies es[k].ptr.Repr
    ensures ok <==> Squash(edges[k].ptr, names).Some?
    ensures ok ==> Forest(es, edges[k := Edge(es[k].vals, Squash(edges[k].ptr, names).value)], S)
    ensures R <= S && fresh(S - R)
    ensures forall i :: 0 <= i < |es| && i != k ==> es[i].ptr.Repr == old(es[i].ptr.Repr)
    decreases es[k].ptr.Repr, 1
  {
    ghost var reprs := Reprs(es);
    forall i | 0 <= i < |es| ensures es[i].ptr in reprs[i] && Sound(es[i], edges[i]) {
      es[i].ptr.Shown();
    }
    S := R;
    ok := es[k].ptr.SquashNames(names);
    forall i | 0 <= i < |es| && i != k ensures es[i].ptr.Repr == reprs[i] && Sound(es[i], edges[i]) {
      assert reprs[i] !! reprs[k];
    }
    if ok {
      S := R + es[k].ptr.Repr;
      ForestRejoined(es, edges[k := Edge(es[k].vals, es[k].ptr.view)], reprs, R, S, k);
    }
  }

  /** The edges when the first i children have been squashed. */
  ghost predicate SquashedUpTo(edges: seq<Edge>, names: seq<Name>, i: nat, acc: seq<Edge>) {
    && |acc| == |edges| && i <= |edges|
    && (forall j :: 0 <= j < i ==> Squash(edges[j].ptr, names).Some?
                                   && acc[j] == Edge(edges[j].vals, Squash(edges[j].ptr, names).value))
    && (forall j :: i <= j < |edges| ==> acc[j] == edges[j])
  }

  lemma {:induction false} SquashedAll(edges: seq<Edge>, names: seq<Name>, i: nat, acc: seq<Edge>)
    requires SquashedUpTo(edges, names, i, acc)
    ensures i == |edges| ==> SquashEdges(edges, names) == Some(acc)
    ensures i < |edges| && Squash(edges[i].ptr, names) == None ==> SquashEdges(edges, names) == None
    decreases |edges|
  {
    hide Squash;
    if edges != [] && i > 0 {
      assert SquashedUpTo(edges[1..], names, i - 1, acc[1..]);
      SquashedAll(edges[1..], names, i - 1, acc[1..]);
      assert acc == [acc[0]] + acc[1..];
    }
  }

  /** The loop that squashes in every child. */
  method SquashChilds(es: seq<Branch>, ghost edges: seq<Edge>, ghost R: set<DiffTree>, names: seq<Name>)
    returns (ok: bool, ghost S: set<DiffTree>)
    requires Forest(es, edges, R)
    modifies R
    ensures ok <==> SquashEdges(edges, names).Some?
    ensures ok ==> Forest(es, SquashEdges(edges, names).value, S)
    ensures R <= S && fresh(S - R)
    decreases R, 2
  {
    S := R;
    ghost var acc := edges;
    for i := 0 to |es|
      invariant Forest(es, acc, S) && SquashedUpTo(edges, names, i, acc)
      invariant R <= S && fresh(S - R)
      invariant forall j :: i <= j < |es| ==> es[j].ptr.Repr == old(es[j].ptr.Repr)
    {
      ok, S := SquashChildAt(es, acc, S, i, names);
      if !ok {
        SquashedAll(edges, names, i, acc);
        return;
      }
      acc := acc[i := Edge(es[i].vals, Squash(edges[i].ptr, names).value)];
    }
    SquashedAll(edges, names, |es|, acc);
    ok := true;
  }

  // ------------------------------------------------------------ remove_name

  method RemoveInChildAt(es: seq<Branch>, ghost edges: seq<Edge>, ghost R: set<DiffTree>, k: nat, gone: seq<Name>)
    returns (ok: bool, ghost S: set<DiffTree>)
    requires Forest(es, edges, R) && k < |es|
    modifies es[k].ptr.Repr
    ensures ok <==> RemoveName(edges[k].ptr, gone).Some?
    ensures ok ==> Forest(es, edges[k := Edge(es[k].vals, RemoveName(edges[k].ptr, gone).value)], S)
    ensures R <= S && fresh(S - R)
    ensures forall i :: 0 <= i < |es| && i != k ==> es[i].ptr.Repr == old(es[i].ptr.Repr)
    decreases es[k].ptr.Repr, 1
  {
    ghost var reprs := Reprs(es);
    forall i | 0 <= i < |es| ensures es[i].ptr in reprs[i] && Sound(es[i], edges[i]) {
      es[i].ptr.Shown();
    }
    S := R;
    ok := es[k].ptr.RemoveNameHere(gone);
    forall i | 0 <= i < |es| && i != k ensures es[i].ptr.Repr == reprs[i] && Sound(es[i], edges[i]) {
      assert reprs[i] !! reprs[k];
    }
    if ok {
      S := R + es[k].ptr.Repr;
      ForestRejoined(es, edges[k := Edge(es[k].vals, es[k].ptr.view)], reprs, R, S, k);
    }
  }

  /** The edges when the name has been removed from the first i children. */
  ghost predicate RemovedUpTo(edges: seq<Edge>, gone: seq<Name>, i: nat, acc: seq<Edge>) {
    && |acc| == |edges| && i <= |edges|
    && (forall j :: 0 <= j < i ==> RemoveName(edges[j].ptr, gone).Some?
                                   && acc[j] == Edge(edges[j].vals, RemoveName(edges[j].ptr, gone).value))
    && (forall j :: i <= j < |edges| ==> acc[j] == edges[j])
  }

  lemma {:induction false} RemovedAll(edges: seq<Edge>, gone: seq<Name>, i: nat, acc: seq<Edge>)
    requires RemovedUpTo(edges, gone, i, acc)
    ensures i == |edges| ==> RemoveFrom(edges, gone) == Some(acc)
    ensures i < |edges| && RemoveName(edges[i].ptr, gone) == None ==> RemoveFrom(edges, gone) == None
    decreases |edges|
  {
    hide RemoveName;
    if edges != [] && i > 0 {
      assert RemovedUpTo(edges[1..], gone, i - 1, acc[1..]);
      RemovedAll(edges[1..], gone, i - 1, acc[1..]);
      assert acc == [acc[0]] + acc[1..];
    }
  }

  /** The loop that removes the name from every child. */
  method RemoveInChilds(es: seq<Branch>, ghost edges: seq<Edge>, ghost R: set<DiffTree>, gone: seq<Name>)
    returns (ok: bool, ghost S: set<DiffTree>)
    requires Forest(es, edges, R)
    modifies R
    ensures ok <==> RemoveFrom(edges, gone).Some?
    ensures ok ==> Forest(es, RemoveFrom(edges, gone).value, S)
    ensures R <= S && fresh(S - R)
    decreases R, 2
  {
    S := R;
    ghost var acc := edges;
    for i := 0 to |es|
      invariant Forest(es, acc, S) && RemovedUpTo(edges, gone, i, acc)
      invariant R <= S && fresh(S - R)
      invariant forall j :: i <= j < |es| ==> es[j].ptr.Repr == old(es[j].ptr.Repr)
    {
      ok, S := RemoveInChildAt(es, acc, S, i, gone);
      if !ok {
        RemovedAll(edges, gone, i, acc);
        return;
      }
      acc := acc[i := Edge(es[i].vals, RemoveName(edges[i].ptr, gone).value)];
    }
    RemovedAll(edges, gone, |es|, acc);
    ok := true;
  }

  // ------------------------------------------------- possible values of a level

  method CollectEdges(childs: seq<Branch>, ghost edges: seq<Edge>) returns (s: set<seq<Value>>)
    requires |edges| == |childs| && forall i :: 0 <= i < |childs| ==> edges[i].vals == childs[i].vals
    ensures s == EdgeValues(edges)
  {
    s := {};
    for i := 0 to |childs|
      invariant s == EdgeValues(edges[..i])
    {
      s := s + {childs[i].vals};
      assert edges[..i + 1] == edges[..i] + [edges[i]];
    }
    assert edges[..|childs|] == edges;
  }

  /** The loop over the nodes of a level; `nameless` when it met one without a name. */
  method CollectValues(nodes: seq<DiffTree>, ghost trees: seq<Tree>, ghost R: set<DiffTree>)
    returns (s: set<seq<Value>>, nameless: bool)
    requires Showing(nodes, trees, R)
    ensures s == PossibleValues(trees) && nameless == Named(trees, [])
  {
    s, nameless := {}, false;
    assert trees[0..] == trees;
    for i := 0 to |nodes|
      invariant PossibleValues(trees) == s + PossibleValues(trees[i..])
      invariant forall j :: 0 <= j < i ==> trees[j].name != []
    {
      assert trees[i..][1..] == trees[i + 1..];
      nodes[i].Shown();
      if nodes[i].name == [] {
        return s, true;
      }
      assert Forest(nodes[i].childs, trees[i].edges, nodes[i].Repr - {nodes[i]});
      assert forall k :: 0 <= k < |nodes[i].childs| ==> Sound(nodes[i].childs[k], trees[i].edges[k]);
      var more := CollectEdges(nodes[i].childs, trees[i].edges);
      s := s + more;
    }
  }

  /** The loop that notes a removed value for each name of the level. */
  method RecordValues(before: Removed, name: seq<Name>, vals: seq<Value>) returns (ok: bool, removed: Removed)
    ensures ok <==> Record(before, name, vals).Some?
    ensures ok ==> removed == Record(before, name, vals).value
  {
    removed := before;
    assert name[0..] == name && vals[0..] == vals;
    for i := 0 to |name|
      invariant i <= |vals| && Record(before, name, vals) == Record(removed, name[i..], vals[i..])
    {
      if i >= |vals| {
        return false, removed;
      }
      assert name[i..][1..] == name[i + 1..] && vals[i..][1..] == vals[i + 1..];
      removed := removed[name[i] := vals[i]];
    }
    ok := true;
  }

  lemma NothingToSquash(t: Tree)
    ensures SquashSeveral(t, Reversed([])) == Some(t)
  {}

  /** list.reverse on the list of bounds. */
  method ReverseList(a: array<int>)
    modifies a
    ensures a[..] == Reversed(old(a[..]))
  {
    var lo, hi := 0, a.Length;
    while lo + 1 < hi
      invariant 0 <= lo && hi == a.Length - lo && lo <= hi + 1
      invariant forall k :: 0 <= k < lo || hi <= k < a.Length ==> a[k] == old(a[a.Length - 1 - k])
      invariant forall k :: lo <= k < hi ==> a[k] == old(a[k])
    {
      hi := hi - 1;
      a[lo], a[hi] := a[hi], a[lo];
      lo := lo + 1;
    }
  }
}
