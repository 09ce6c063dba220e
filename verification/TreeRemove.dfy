/** remove_singleval_childs: dropping the levels on which nothing varies, and reporting
    the values they had. */
module TreeRemove {
  import opened Basics
  import opened ParamTree
  import opened TreeSquash
  import opened TreeLevels

  function RemoveFrom(edges: seq<Edge>, name: seq<Name>): Option<seq<Edge>>
    decreases edges, 0
  {
    if edges == [] then Some([])
    else
      match RemoveName(edges[0].ptr, name)
      case None => None
      case Some(u) =>
        match RemoveFrom(edges[1..], name)
        case None => None
        case Some(rest) => Some([Edge(edges[0].vals, u)] + rest)
  }

  /** A node gives way to a child, which also gets its properties. */
  function TakeOver(t: Tree, child: Tree): Tree {
    child.(props := t.props + child.props)
  }

  /** remove_name: a node with this name list gives way to its first child. None stands
      for the IndexError when there is none. */
  function RemoveName(t: Tree, name: seq<Name>): Option<Tree>
    decreases t, 1
  {
    if t.name == name then
      if t.edges == [] then None else Some(TakeOver(t, t.edges[0].ptr))
    else
      match RemoveFrom(t.edges, name)
      case None => None
      case Some(es) => Some(t.(edges := es))
  }

  function Size(t: Tree): nat
    decreases t, 1
  {
    1 + SizeBelow(t.edges)
  }

  function SizeBelow(edges: seq<Edge>): nat
    decreases edges, 0
  {
    if edges == [] then 0 else Size(edges[0].ptr) + SizeBelow(edges[1..])
  }

  predicate Named(nodes: seq<Tree>, name: seq<Name>) {
    exists i :: 0 <= i < |nodes| && nodes[i].name == name
  }

  /** Removing a name that stands at some node makes any tree smaller. */
  lemma {:induction false} RemovingShrinks(t: Tree, name: seq<Name>, level: nat)
    ensures RemoveName(t, name).Some? ==>
              && Size(RemoveName(t, name).value) <= Size(t)
              && (Named(Nodes(t, level), name) ==>
                    Size(RemoveName(t, name).value) < Size(t))
    decreases t, 1
  {
    if t.name != name {
      RemovingShrinksBelow(t.edges, name, if level > 0 then level - 1 else 0);
      assert Size(t) == 1 + SizeBelow(t.edges);
      if RemoveName(t, name).Some? {
        assert Size(RemoveName(t, name).value) == 1 + SizeBelow(RemoveFrom(t.edges, name).value);
        assert Nodes(t, level) == if level == 0 then [t] else NodesBelow(t.edges, level - 1);
      }
    } else if t.edges != [] {
      assert SizeBelow(t.edges) == Size(t.edges[0].ptr) + SizeBelow(t.edges[1..]);
    }
  }

  lemma {:induction false} RemovingShrinksBelow(edges: seq<Edge>, name: seq<Name>, level: nat)
    ensures RemoveFrom(edges, name).Some? ==>
              && SizeBelow(RemoveFrom(edges, name).value) <= SizeBelow(edges)
              && (Named(NodesBelow(edges, level), name) ==>
                    SizeBelow(RemoveFrom(edges, name).value) < SizeBelow(edges))
    decreases edges, 0
  {
    if edges != [] && RemoveFrom(edges, name).Some? {
      RemovingShrinks(edges[0].ptr, name, level);
      RemovingShrinksBelow(edges[1..], name, level);
      NamedInJoin(Nodes(edges[0].ptr, level), NodesBelow(edges[1..], level), name);
    }
  }

  lemma NamedInJoin(a: seq<Tree>, b: seq<Tree>, name: seq<Name>)
    ensures Named(a + b, name) ==> Named(a, name) || Named(b, name)
  {
    if i :| 0 <= i < |a + b| && (a + b)[i].name == name {
      if i < |a| {
        assert a[i].name == name;
      } else {
        assert b[i - |a|].name == name;
      }
    }
  }

  type Removed = map<Name, Value>

  /** The loop that notes one value for each name; None for the IndexError when there are
      too few values. */
  function Record(removed: Removed, name: seq<Name>, vals: seq<Value>): Option<Removed>
    decreases |name|
  {
    if name == [] then Some(removed)
    else if vals == [] then None
    else Record(removed[name[0] := vals[0]], name[1..], vals[1..])
  }

  ghost function TheOne(s: set<seq<Value>>): (v: seq<Value>)
    requires |s| == 1
    ensures s == {v}
  {
    var v :| v in s;
    assert |s - {v}| == 0;
    v
  }

  /** remove_singleval_childs from the given level on. */
  ghost function RemoveLoop(t: Tree, level: nat, removed: Removed, props: Props): Option<(Tree, Removed, Props)>
    decreases Size(t), Height(t) + 1 - level
  {
    NodesWithinHeight(t, level);
    var nodes := Nodes(t, level);
    if nodes == [] || Named(nodes, []) then Some((t, removed, props))
    else if |PossibleValues(nodes)| == 1 then
      var v := TheOne(PossibleValues(nodes));
      RemovingShrinks(t, nodes[0].name, level);
      assert Named(nodes, nodes[0].name);
      match Record(removed, nodes[0].name, v)
      case None => None
      case Some(more) =>
        match RemoveName(t, nodes[0].name)
        case None => None
        case Some(u) => RemoveLoop(u, level, more, props + nodes[0].props)
    else RemoveLoop(t, level + 1, removed, props)
  }

  ghost function RemoveSingles(t: Tree): Option<(Tree, Removed, Props)> {
    RemoveLoop(t, 0, map[], map[])
  }

  lemma LoopStops(t: Tree, level: nat, removed: Removed, props: Props)
    requires Nodes(t, level) == [] || Named(Nodes(t, level), [])
    ensures RemoveLoop(t, level, removed, props) == Some((t, removed, props))
  {}

  lemma LoopSkips(t: Tree, level: nat, removed: Removed, props: Props)
    requires Nodes(t, level) != [] && !Named(Nodes(t, level), []) && |PossibleValues(Nodes(t, level))| != 1
    ensures RemoveLoop(t, level, removed, props) == RemoveLoop(t, level + 1, removed, props)
    ensures level <= Height(t)
  {
    NodesWithinHeight(t, level);
  }

  lemma LoopRemoves(t: Tree, level: nat, removed: Removed, props: Props)
    requires var nodes := Nodes(t, level); nodes != [] && !Named(nodes, []) && |PossibleValues(nodes)| == 1
    ensures var nodes := Nodes(t, level);
            var name := nodes[0].name;
            var more := Record(removed, name, TheOne(PossibleValues(nodes)));
            && RemoveLoop(t, level, removed, props)
               == (if more.Some? && RemoveName(t, name).Some?
                   then RemoveLoop(RemoveName(t, name).value, level, more.value, props + nodes[0].props) else None)
            && (RemoveName(t, name).Some? ==> Size(RemoveName(t, name).value) < Size(t))
  {
    var nodes := Nodes(t, level);
    RemovingShrinks(t, nodes[0].name, level);
    assert Named(nodes, nodes[0].name);
    hide PossibleValues, RemoveName, Record, Size;
  }

  // --------------------------------------------------- removing a single level

  function Drop(levels: Levels, d: nat): (r: Levels)
    requires d < |levels|
    ensures |r| == |levels| - 1
    ensures forall i :: 0 <= i < |r| ==> r[i] == levels[if i < d then i else i + 1]
  {
    levels[..d] + levels[d + 1..]
  }

  /** Every tuple on level d is v. */
  ghost predicate Only(t: Tree, d: nat, v: seq<Value>) {
    forall w :: HasTuple(t, d, w) ==> w == v
  }

  lemma OnlyBelow(t: Tree, d: nat, v: seq<Value>, i: nat)
    requires d > 0 && i < |t.edges| && Only(t, d, v)
    ensures Only(t.edges[i].ptr, d - 1, v)
  {
    var u, k := t.edges[i].ptr, d - 1;
    forall w | HasTuple(u, k, w) ensures w == v {
      assert HasTuple(t, d, w);
    }
  }

  /** An assignment that says v about the names leads to the same results in both trees,
      any other leads nowhere in the first. */
  ghost predicate Restricted(t: Tree, u: Tree, name: seq<Name>, v: seq<Value>, asg: Assignment) {
    Lookup(t, asg) == if Values(name, asg) == v then Lookup(u, asg) else None
  }

  /** Removing a level on which only v stands keeps the tree uniform; assignments that
      give its names the values v lead where they led, and no others led anywhere. */
  lemma {:induction false} RemovedLevel(t: Tree, levels: Levels, d: nat, v: seq<Value>)
    requires Uniform(t, levels) && NoRepeat(levels) && d < |levels| && Only(t, d, v)
    ensures RemoveName(t, levels[d]).Some?
    ensures Uniform(RemoveName(t, levels[d]).value, Drop(levels, d))
    ensures forall asg: Assignment :: Restricted(t, RemoveName(t, levels[d]).value, levels[d], v, asg)
    decreases d
  {
    NoRepeatParts(levels);
    if d == 0 {
      TopLevelRemoved(t, levels, v);
    } else {
      LevelsNonempty(t, levels);
      assert t.name != levels[d] by {
        Apart(levels, 0, d, levels[d][0]);
      }
      forall i | 0 <= i < |t.edges| ensures Only(t.edges[i].ptr, d - 1, v) {
        OnlyBelow(t, d, v, i);
      }
      RemovedBelow(t.edges, levels, d, v);
      var u := RemoveName(t, levels[d]).value;
      assert Drop(levels, d)[1..] == Drop(levels[1..], d - 1);
      forall asg: Assignment ensures Restricted(t, u, levels[d], v, asg) {
        FindBoth(t.edges, u.edges, Values(t.name, asg));
        if i :| 0 <= i < |t.edges| && Find(t.edges, Values(t.name, asg)) == Some(t.edges[i].ptr)
                && Find(u.edges, Values(t.name, asg)) == Some(u.edges[i].ptr) {
          assert Restricted(t.edges[i].ptr, u.edges[i].ptr, levels[d], v, asg);
        }
      }
    }
  }

  lemma TopLevelRemoved(t: Tree, levels: Levels, v: seq<Value>)
    requires Uniform(t, levels) && levels != [] && Only(t, 0, v)
    ensures RemoveName(t, levels[0]).Some?
    ensures Uniform(RemoveName(t, levels[0]).value, Drop(levels, 0))
    ensures forall asg: Assignment :: Restricted(t, RemoveName(t, levels[0]).value, levels[0], v, asg)
  {
    assert Drop(levels, 0) == levels[1..];
    forall i | 0 <= i < |t.edges| ensures t.edges[i].vals == v {
      assert HasTuple(t, 0, t.edges[i].vals);
    }
    var u := TakeOver(t, t.edges[0].ptr);
    forall asg: Assignment ensures Restricted(t, u, t.name, v, asg) {
      assert Lookup(u, asg) == Lookup(t.edges[0].ptr, asg);
      var w := Values(t.name, asg);
      FindNone(t.edges, w);
      FindShrinks(t.edges, w);
      if w != v {
        assert Find(t.edges, w) == None;
      }
    }
  }

  /** Edge lists with the same tuples in the same places find in the same place. */
  lemma {:induction false} FindBoth(a: seq<Edge>, b: seq<Edge>, w: seq<Value>)
    requires |a| == |b| && forall i :: 0 <= i < |a| ==> a[i].vals == b[i].vals
    ensures Find(a, w) == None <==> Find(b, w) == None
    ensures Find(a, w).Some? ==> exists i :: 0 <= i < |a| && Find(a, w) == Some(a[i].ptr) && Find(b, w) == Some(b[i].ptr)
  {
    if a != [] && a[0].vals != w {
      FindBoth(a[1..], b[1..], w);
      if Find(a[1..], w).Some? {
        var i :| 0 <= i < |a[1..]| && Find(a[1..], w) == Some(a[1..][i].ptr) && Find(b[1..], w) == Some(b[1..][i].ptr);
        assert Find(a, w) == Some(a[i + 1].ptr);
      }
    }
  }

  lemma {:induction false} RemovedBelow(edges: seq<Edge>, levels: Levels, d: nat, v: seq<Value>)
    requires 0 < d < |levels| && NoRepeat(levels[1..])
    requires forall i :: 0 <= i < |edges| ==> Uniform(edges[i].ptr, levels[1..]) && Only(edges[i].ptr, d - 1, v)
    ensures RemoveFrom(edges, levels[d]).Some? && |RemoveFrom(edges, levels[d]).value| == |edges|
    ensures forall i :: 0 <= i < |edges| ==>
              && RemoveFrom(edges, levels[d]).value[i].vals == edges[i].vals
              && Uniform(RemoveFrom(edges, levels[d]).value[i].ptr, Drop(levels[1..], d - 1))
    ensures forall i, asg: Assignment :: 0 <= i < |edges| ==>
              Restricted(edges[i].ptr, RemoveFrom(edges, levels[d]).value[i].ptr, levels[d], v, asg)
    decreases d, |edges|
  {
    if edges != [] {
      RemovedLevel(edges[0].ptr, levels[1..], d - 1, v);
      RemovedBelow(edges[1..], levels, d, v);
    }
  }

  // ------------------------------------------------------------ over the loop

  /** Lookups depend on the names of the tree alone. */
  lemma {:induction false} OthersIgnored(t: Tree, levels: Levels, asg: Assignment, asg': Assignment)
    requires Uniform(t, levels) && forall n :: Occurs(levels, n) ==> asg(n) == asg'(n)
    ensures Lookup(t, asg) == Lookup(t, asg')
    decreases |levels|
  {
    if levels != [] {
      assert Values(t.name, asg) == Values(t.name, asg');
      FindShrinks(t.edges, Values(t.name, asg));
      match Find(t.edges, Values(t.name, asg))
      case None =>
      case Some(u) => OthersIgnored(u, levels[1..], asg, asg');
    }
  }

  /** The assignment says what the removed values say. */
  ghost predicate Agrees(asg: Assignment, removed: Removed) {
    forall n :: n in removed ==> asg(n) == removed[n]
  }

  lemma {:induction false} Recorded(removed: Removed, name: seq<Name>, vals: seq<Value>)
    requires |name| == |vals| && forall i, j :: 0 <= i < j < |name| ==> name[i] != name[j]
    ensures Record(removed, name, vals).Some?
    ensures forall n :: n in Record(removed, name, vals).value <==> n in removed || n in name
    ensures forall n :: n in removed && n !in name ==> Record(removed, name, vals).value[n] == removed[n]
    ensures forall i :: 0 <= i < |name| ==>
              name[i] in Record(removed, name, vals).value && Record(removed, name, vals).value[name[i]] == vals[i]
    decreases |name|
  {
    if name != [] {
      var first := removed[name[0] := vals[0]];
      Recorded(first, name[1..], vals[1..]);
      var r := Record(removed, name, vals).value;
      forall i | 0 <= i < |name| ensures name[i] in r && r[name[i]] == vals[i] {
        if i > 0 {
          assert name[1..][i - 1] == name[i];
        }
      }
    }
  }

  lemma AgreesRecorded(asg: Assignment, removed: Removed, name: seq<Name>, vals: seq<Value>)
    requires |name| == |vals| && forall i, j :: 0 <= i < j < |name| ==> name[i] != name[j]
    requires forall i :: 0 <= i < |name| ==> name[i] !in removed
    ensures Record(removed, name, vals).Some?
    ensures Agrees(asg, Record(removed, name, vals).value) <==> Agrees(asg, removed) && Values(name, asg) == vals
  {
    Recorded(removed, name, vals);
    var r := Record(removed, name, vals).value;
    if Agrees(asg, r) {
      forall n | n in removed ensures asg(n) == removed[n] {
        assert n in r;
      }
      forall i | 0 <= i < |name| ensures asg(name[i]) == vals[i] {
        assert name[i] in r;
      }
    }
    if Agrees(asg, removed) && Values(name, asg) == vals {
      forall n | n in r ensures asg(n) == r[n] {
        if i :| 0 <= i < |name| && name[i] == n {
          assert asg(n) == Values(name, asg)[i];
        }
      }
    }
  }

  /** The levels that stay: those with more than one value tuple. */
  function Kept(levels: Levels, vals: seq<set<seq<Value>>>): Levels
    requires |vals| == |levels|
  {
    if levels == [] then []
    else if |vals[0]| == 1 then Kept(levels[1..], vals[1..])
    else [levels[0]] + Kept(levels[1..], vals[1..])
  }

  /** Removing a level leaves the tuples of all other levels as they were. */
  lemma OtherLevelsKeepValues(t: Tree, u: Tree, levels: Levels, d: nat, v: seq<Value>, k: nat)
    requires Uniform(t, levels) && NoRepeat(levels) && d < |levels| && |v| == |levels[d]|
    requires Uniform(u, Drop(levels, d)) && NoRepeat(Drop(levels, d)) && k < |levels| - 1
    requires forall asg: Assignment :: Restricted(t, u, levels[d], v, asg)
    ensures LevelValues(u, k) == LevelValues(t, if k < d then k else k + 1)
  {
    var k' := if k < d then k else k + 1;
    forall w ensures w in LevelValues(u, k) <==> w in LevelValues(t, k') {
      LevelValuesMean(u, Drop(levels, d), k, w);
      LevelValuesMean(t, levels, k', w);
      if asg: Assignment :| Lookup(t, asg).Some? && Values(levels[k'], asg) == w {
        assert Restricted(t, u, levels[d], v, asg);
      }
      if asg: Assignment :| Lookup(u, asg).Some? && Values(levels[k'], asg) == w {
        var asg' := Assigned(asg, levels[d], v);
        ReassignedAlike(t, u, levels, d, v, asg);
        assert Lookup(t, asg').Some? && Values(levels[k'], asg') == w by {
          forall i | 0 <= i < |levels[k']| ensures asg'(levels[k'][i]) == asg(levels[k'][i]) {
            Apart(levels, if k' < d then k' else d, if k' < d then d else k', levels[k'][i]);
          }
        }
      }
    }
  }

  lemma {:induction false} OccursSomewhere(levels: Levels, n: Name) returns (p: nat)
    requires Occurs(levels, n)
    ensures p < |levels| && n in levels[p]
  {
    if n in levels[0] {
      p := 0;
    } else {
      p := OccursSomewhere(levels[1..], n);
      p := p + 1;
    }
  }

  /** What the smaller tree holds for an assignment is what the larger one holds once the
      removed names are given their values. */
  lemma ReassignedAlike(t: Tree, u: Tree, levels: Levels, d: nat, v: seq<Value>, asg: Assignment)
    requires NoRepeat(levels) && d < |levels| && |v| == |levels[d]| && Uniform(u, Drop(levels, d))
    requires forall asg: Assignment :: Restricted(t, u, levels[d], v, asg)
    ensures Lookup(t, Assigned(asg, levels[d], v)) == Lookup(u, asg)
  {
    var asg' := Assigned(asg, levels[d], v);
    AssignedSays(levels, d, v, asg);
    assert Restricted(t, u, levels[d], v, asg');
    forall n | Occurs(Drop(levels, d), n) ensures asg'(n) == asg(n) {
      var p := OccursSomewhere(Drop(levels, d), n);
      var p' := if p < d then p else p + 1;
      Apart(levels, if p' < d then p' else d, if p' < d then d else p', n);
    }
    OthersIgnored(u, Drop(levels, d), asg', asg);
  }

  lemma AssignedSays(levels: Levels, d: nat, v: seq<Value>, asg: Assignment)
    requires NoRepeat(levels) && d < |levels| && |v| == |levels[d]|
    ensures Values(levels[d], Assigned(asg, levels[d], v)) == v
    ensures forall i, j :: 0 <= i < j < |levels[d]| ==> levels[d][i] != levels[d][j]
  {
    LevelDistinct(levels, d);
    forall i | 0 <= i < |v| ensures Values(levels[d], Assigned(asg, levels[d], v))[i] == v[i] {
      assert Position(levels[d], levels[d][i]) == i;
    }
  }

  lemma {:induction false} LevelDistinct(levels: Levels, d: nat)
    requires NoRepeat(levels) && d < |levels|
    ensures forall i, j :: 0 <= i < j < |levels[d]| ==> levels[d][i] != levels[d][j]
  {
    NoRepeatParts(levels);
    if d > 0 {
      LevelDistinct(levels[1..], d - 1);
    }
  }

  /** Dropping a level takes its names away, once each. */
  lemma NamesOfDrop(levels: Levels, d: nat)
    requires d < |levels|
    ensures Names(levels) == Names(Drop(levels, d)) + multiset(levels[d])
  {
    NamesOfJoin(levels[..d], levels[d..]);
    NamesOfJoin(levels[..d], levels[d + 1..]);
    assert levels == levels[..d] + levels[d..];
    assert Names(levels[d..]) == multiset(levels[d]) + Names(levels[d + 1..]) by {
      assert levels[d..][1..] == levels[d + 1..];
    }
    hide Names;
  }

  lemma DropKeepsNames(levels: Levels, d: nat)
    requires NoRepeat(levels) && d < |levels|
    ensures NoRepeat(Drop(levels, d))
    ensures forall n :: Occurs(Drop(levels, d), n) ==> Occurs(levels, n) && n !in levels[d]
  {
    hide Names, Occurs, Drop;
    NamesOfDrop(levels, d);
    forall n ensures Names(Drop(levels, d))[n] <= 1 {
      assert Names(levels)[n] == Names(Drop(levels, d))[n] + multiset(levels[d])[n];
    }
    forall n | Occurs(Drop(levels, d), n) ensures Occurs(levels, n) && n !in levels[d] {
      OccursIsName(Drop(levels, d), n);
      OccursIsName(levels, n);
      assert Names(levels)[n] == Names(Drop(levels, d))[n] + multiset(levels[d])[n];
    }
  }

  /** The single tuple of a level is the only one on its edges, and has a value for each
      name. */
  lemma SingleTuple(t: Tree, levels: Levels, level: nat, v: seq<Value>)
    requires Uniform(t, levels) && NoRepeat(levels) && level < |levels| && LevelValues(t, level) == {v}
    ensures Only(t, level, v) && |v| == |levels[level]|
  {
    forall w | HasTuple(t, level, w) ensures w == v {
      ValuesAreTuples(t, levels, level, w);
    }
    LevelValuesMean(t, levels, level, v);
  }

  /** What the loop has to show for itself at the end: the tree holds for every assignment
      that agrees with the removed values what it held before, and held nothing for any
      other. */
  ghost predicate Accounts(t: Tree, before: Removed, u: Tree, after: Removed) {
    && (forall asg: Assignment :: Agrees(asg, after) ==> Agrees(asg, before))
    && (forall asg: Assignment :: Agrees(asg, before) ==>
          Lookup(t, asg) == if Agrees(asg, after) then Lookup(u, asg) else None)
  }

  lemma AccountsTwice(t: Tree, before: Removed, u: Tree, more: Removed, v: Tree, after: Removed)
    requires Accounts(t, before, u, more) && Accounts(u, more, v, after)
    ensures Accounts(t, before, v, after)
  {
    hide Lookup, Agrees;
  }

  ghost function KeptFrom(t: Tree, levels: Levels, level: nat): Levels
    requires level <= |levels|
  {
    levels[..level] + Kept(levels[level..], AllValues(t, |levels|)[level..])
  }

  lemma KeptStays(t: Tree, levels: Levels, level: nat)
    requires level < |levels| && |LevelValues(t, level)| != 1
    ensures KeptFrom(t, levels, level) == KeptFrom(t, levels, level + 1)
  {
    hide LevelValues;
    var vals := AllValues(t, |levels|);
    assert levels[level..][1..] == levels[level + 1..] && vals[level..][1..] == vals[level + 1..];
    var rest := Kept(levels[level + 1..], vals[level + 1..]);
    assert levels[..level] + ([levels[level]] + rest) == levels[..level + 1] + rest;
  }

  lemma KeptDrops(t: Tree, u: Tree, levels: Levels, level: nat)
    requires level < |levels| && |LevelValues(t, level)| == 1
    requires forall k :: level <= k < |levels| - 1 ==> LevelValues(u, k) == LevelValues(t, k + 1)
    ensures KeptFrom(t, levels, level) == KeptFrom(u, Drop(levels, level), level)
  {
    hide LevelValues;
    var vals, vals' := AllValues(t, |levels|), AllValues(u, |levels| - 1);
    assert levels[level..][1..] == levels[level + 1..] == Drop(levels, level)[level..];
    assert vals[level..][1..] == vals[level + 1..] == vals'[level..];
    assert Drop(levels, level)[..level] == levels[..level];
  }

  lemma SingleStep(t: Tree, levels: Levels, level: nat, removed: Removed) returns (u: Tree, more: Removed)
    requires Uniform(t, levels) && NoRepeat(levels) && level < |levels| && |LevelValues(t, level)| == 1
    requires forall n :: Occurs(levels, n) ==> n !in removed
    ensures RemoveName(t, levels[level]) == Some(u)
    ensures Record(removed, levels[level], TheOne(LevelValues(t, level))) == Some(more)
    ensures Uniform(u, Drop(levels, level)) && NoRepeat(Drop(levels, level))
    ensures forall n :: Occurs(Drop(levels, level), n) ==> n !in more
    ensures forall n :: n in more <==> n in removed || n in levels[level]
    ensures Accounts(t, removed, u, more)
    ensures forall k :: 0 <= k < |levels| - 1 ==> LevelValues(u, k) == LevelValues(t, if k < level then k else k + 1)
  {
    var name, v := levels[level], TheOne(LevelValues(t, level));
    SingleTuple(t, levels, level, v);
    RemovedLevel(t, levels, level, v);
    u := RemoveName(t, name).value;
    DropKeepsNames(levels, level);
    LevelDistinct(levels, level);
    Recorded(removed, name, v);
    more := Record(removed, name, v).value;
    forall i | 0 <= i < |name| ensures name[i] !in removed {
      OccursAt(levels, level, name[i]);
    }
    forall asg: Assignment
      ensures Agrees(asg, more) <==> Agrees(asg, removed) && Values(name, asg) == v
    {
      AgreesRecorded(asg, removed, name, v);
    }
    forall asg: Assignment | Agrees(asg, removed)
      ensures Lookup(t, asg) == if Agrees(asg, more) then Lookup(u, asg) else None
    {
      assert Restricted(t, u, name, v, asg);
    }
    forall k | 0 <= k < |levels| - 1 ensures LevelValues(u, k) == LevelValues(t, if k < level then k else k + 1) {
      OtherLevelsKeepValues(t, u, levels, level, v, k);
    }
  }

  /** Where the loop ends: the levels above `level` and those below on which something
      varies are left, none of them with a single tuple, and no removed name among them. */
  ghost predicate Reduced(t: Tree, levels: Levels, level: nat, u: Tree, after: Removed)
    requires level <= |levels|
  {
    var kept := KeptFrom(t, levels, level);
    && Uniform(u, kept)
    && (forall d :: 0 <= d < |kept| ==> |LevelValues(u, d)| != 1)
    && (forall n :: n in after ==> !Occurs(kept, n))
  }

  lemma {:induction false} RemoveLoopMeans(t: Tree, levels: Levels, level: nat, removed: Removed, props: Props)
    requires Uniform(t, levels) && NoRepeat(levels) && level <= |levels|
    requires forall n :: Occurs(levels, n) ==> n !in removed
    requires forall d :: 0 <= d < level ==> |LevelValues(t, d)| != 1
    ensures RemoveLoop(t, level, removed, props).Some?
    ensures var (u, after, _) := RemoveLoop(t, level, removed, props).value;
            Reduced(t, levels, level, u, after) && Accounts(t, removed, u, after)
    decreases |levels|, |levels| - level
  {
    hide Occurs, NoRepeat, KeptFrom, Accounts, PossibleValues, RemoveName, Record, RemoveLoop;
    if level == |levels| {
      NothingLeft(t, levels, removed);
      LoopStops(t, level, removed, props);
    } else if |LevelValues(t, level)| == 1 {
      InnerLevel(t, levels, level);
      LoopRemoves(t, level, removed, props);
      var u, more := SingleStep(t, levels, level, removed);
      var props' := props + Nodes(t, level)[0].props;
      KeptDrops(t, u, levels, level);
      RemoveLoopMeans(u, Drop(levels, level), level, more, props');
      var (v, after, _) := RemoveLoop(u, level, more, props').value;
      AccountsTwice(t, removed, u, more, v, after);
    } else {
      InnerLevel(t, levels, level);
      LoopSkips(t, level, removed, props);
      KeptStays(t, levels, level);
      RemoveLoopMeans(t, levels, level + 1, removed, props);
    }
  }

  lemma InnerLevel(t: Tree, levels: Levels, level: nat)
    requires Uniform(t, levels) && level < |levels|
    ensures Nodes(t, level) != [] && !Named(Nodes(t, level), []) && Nodes(t, level)[0].name == levels[level]
  {
    LevelsNonempty(t, levels);
    NodesAreUniform(t, levels, level);
  }

  lemma NothingLeft(t: Tree, levels: Levels, removed: Removed)
    requires Uniform(t, levels)
    ensures Named(Nodes(t, |levels|), [])
    ensures KeptFrom(t, levels, |levels|) == levels && Accounts(t, removed, t, removed)
  {
    NodesAreUniform(t, levels, |levels|);
    assert Uniform(Nodes(t, |levels|)[0], levels[|levels|..]);
    assert Nodes(t, |levels|)[0].name == [];
  }

  /** An assignment with the removed values filled in. */
  ghost function With(asg: Assignment, removed: Removed): Assignment {
    n => if n in removed then removed[n] else asg(n)
  }

  /** remove_singleval_childs on a uniform tree without repeated names: exactly the levels
      with a single value tuple are gone, and none is left with one. Whatever the tree
      held, it held for assignments that agree with the returned values, and the new tree
      holds the same for them; what the new tree holds for an assignment is what the old
      one held for it joined with the returned values. */
  lemma RemoveSinglesMeans(t: Tree, levels: Levels)
    requires Uniform(t, levels) && NoRepeat(levels)
    ensures RemoveSingles(t).Some?
    ensures var (u, removed, _) := RemoveSingles(t).value;
            && Uniform(u, Kept(levels, AllValues(t, |levels|)))
            && (forall d :: 0 <= d < |Kept(levels, AllValues(t, |levels|))| ==> |LevelValues(u, d)| != 1)
            && (forall asg: Assignment :: Lookup(t, asg) == if Agrees(asg, removed) then Lookup(u, asg) else None)
            && (forall asg: Assignment :: Lookup(u, asg) == Lookup(t, With(asg, removed)))
  {
    RemoveLoopMeans(t, levels, 0, map[], map[]);
    var (u, removed, _) := RemoveSingles(t).value;
    var kept := Kept(levels, AllValues(t, |levels|));
    assert levels[..0] + kept == kept && levels[0..] == levels && AllValues(t, |levels|)[0..] == AllValues(t, |levels|);
    assert KeptFrom(t, levels, 0) == kept;
    forall asg: Assignment ensures Lookup(t, asg) == if Agrees(asg, removed) then Lookup(u, asg) else None {
      assert Agrees(asg, map[]);
    }
    forall asg: Assignment ensures Lookup(u, asg) == Lookup(t, With(asg, removed)) {
      assert Agrees(With(asg, removed), removed);
      OthersIgnored(u, kept, asg, With(asg, removed));
    }
  }
}
