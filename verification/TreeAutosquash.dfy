/** autosquash: joining neighbouring levels from the bottom up, as long as the number of
    value combinations stays within the next bound of the list. */
module TreeAutosquash {
  import opened Basics
  import opened ParamTree
  import opened TreeSquash
  import opened TreeLevels

  function Reversed<T>(s: seq<T>): (r: seq<T>)
    ensures |r| == |s| && forall i :: 0 <= i < |s| ==> r[i] == s[|s| - 1 - i]
  {
    seq(|s|, i requires 0 <= i < |s| => s[|s| - 1 - i])
  }

  type PathEntry = (Name, set<seq<Value>>)

  /** The first loop: one entry per level, until the nodes have no name or run out. */
  function FullPath(t: Tree, level: nat): seq<PathEntry>
    decreases Height(t) + 1 - level
  {
    NodesWithinHeight(t, level);
    var nodes := Nodes(t, level);
    if nodes == [] || nodes[0].name == [] then []
    else [(nodes[0].name[0], PossibleValues(nodes))] + FullPath(t, level + 1)
  }

  lemma PathStops(t: Tree, level: nat)
    requires Nodes(t, level) == [] || Nodes(t, level)[0].name == []
    ensures FullPath(t, level) == []
  {}

  lemma PathGoesOn(t: Tree, level: nat)
    requires Nodes(t, level) != [] && Nodes(t, level)[0].name != []
    ensures level <= Height(t)
    ensures FullPath(t, level)
         == [(Nodes(t, level)[0].name[0], PossibleValues(Nodes(t, level)))] + FullPath(t, level + 1)
  {
    NodesWithinHeight(t, level);
  }

  function SquashSeveral(t: Tree, names: seq<Name>): Option<Tree> {
    if |names| > 1 then Squash(t, names) else Some(t)
  }

  /** The second loop. None stands for an IndexError. */
  function SquashLoop(t: Tree, path: seq<PathEntry>, bounds: seq<int>, lvl: nat,
                      names: seq<Name>, gathered: nat): Option<Tree>
    decreases |path|
  {
    if path == [] then SquashSeveral(t, Reversed(names))
    else if lvl >= |bounds| then None
    else if gathered * |path[0].1| > bounds[lvl] then
      match SquashSeveral(t, names)
      case None => None
      case Some(u) =>
        if lvl + 1 >= |bounds| then Some(u)
        else SquashLoop(u, path[1..], bounds, lvl + 1, [path[0].0], |path[0].1|)
    else SquashLoop(t, path[1..], bounds, lvl, names + [path[0].0], gathered * |path[0].1|)
  }

  /** One turn of the second loop. */
  lemma LoopTurn(t: Tree, path: seq<PathEntry>, bounds: seq<int>, lvl: nat, names: seq<Name>, gathered: nat)
    requires path != [] && lvl < |bounds|
    ensures gathered * |path[0].1| >= 0
    ensures gathered * |path[0].1| > bounds[lvl] && SquashSeveral(t, names) == None ==>
              SquashLoop(t, path, bounds, lvl, names, gathered) == None
    ensures gathered * |path[0].1| > bounds[lvl] && SquashSeveral(t, names).Some? ==>
              SquashLoop(t, path, bounds, lvl, names, gathered)
              == if lvl + 1 >= |bounds| then SquashSeveral(t, names)
                 else SquashLoop(SquashSeveral(t, names).value, path[1..], bounds, lvl + 1, [path[0].0], |path[0].1|)
    ensures gathered * |path[0].1| <= bounds[lvl] ==>
              SquashLoop(t, path, bounds, lvl, names, gathered)
              == SquashLoop(t, path[1..], bounds, lvl, names + [path[0].0], gathered * |path[0].1|)
  {}

  lemma LoopEnds(t: Tree, path: seq<PathEntry>, bounds: seq<int>, lvl: nat, names: seq<Name>, gathered: nat)
    ensures path == [] ==> SquashLoop(t, path, bounds, lvl, names, gathered) == SquashSeveral(t, Reversed(names))
    ensures path != [] && lvl >= |bounds| ==> SquashLoop(t, path, bounds, lvl, names, gathered) == None
  {}

  function Autosquash(t: Tree, maxLevels: seq<int>): Option<Tree> {
    SquashLoop(t, Reversed(FullPath(t, 0)), Reversed(maxLevels), 0, [], 1)
  }

  // ------------------------------------------------- joining one run of levels

  lemma {:induction false} PullAt(levels: Levels, n: Name, p: nat)
    requires p < |levels| && n in levels[p] && forall q :: 0 <= q < p ==> n !in levels[q]
    ensures Occurs(levels, n) && PullLevels(levels, n) == [levels[p]] + levels[..p] + levels[p + 1..]
  {
    if p > 0 {
      PullAt(levels[1..], n, p - 1);
      var tail := PullLevels(levels[1..], n);
      assert tail[1..] == levels[1..p] + levels[p + 1..];
    }
  }

  ghost predicate InFirst(levels: Levels, k: nat, n: Name)
    requires k <= |levels|
  {
    exists q :: 0 <= q < k && n in levels[q]
  }

  ghost predicate Called(level: seq<Name>, names: seq<Name>) {
    exists i :: 0 <= i < |names| && names[i] in level
  }

  /** The names are those of the first k levels, and every one of these below the first
      has its turn. */
  ghost predicate CallsFor(levels: Levels, k: nat, names: seq<Name>) {
    && 1 <= k <= |levels|
    && (forall i :: 0 <= i < |names| ==> InFirst(levels, k, names[i]))
    && (forall q :: 1 <= q < k ==> Called(levels[q], names))
  }

  lemma CalledLater(level: seq<Name>, names: seq<Name>)
    requires names != [] && names[0] !in level && Called(level, names)
    ensures Called(level, names[1..])
  {
    var i :| 0 <= i < |names| && names[i] in level;
    assert names[1..][i - 1] in level;
  }

  /** Level p joined onto the first. */
  function Without(levels: Levels, p: nat): (m: Levels)
    requires 1 <= p < |levels|
    ensures |m| == |levels| - 1 && m[0] == levels[0] + levels[p]
    ensures forall q :: 1 <= q < p ==> m[q] == levels[q]
    ensures forall q :: p <= q < |m| ==> m[q] == levels[q + 1]
  {
    [levels[0] + levels[p]] + levels[1..p] + levels[p + 1..]
  }

  lemma PullBelowFirst(levels: Levels, p: nat, n: Name)
    requires NoRepeat(levels) && 1 <= p < |levels| && n in levels[p]
    ensures n !in levels[0] && Occurs(levels[1..], n)
    ensures PullLevels(levels[1..], n) == [levels[p]] + levels[1..p] + levels[p + 1..]
  {
    forall q | 0 <= q < p ensures n !in levels[q] {
      Apart(levels, q, p, n);
    }
    hide NoRepeat;
    PullAt(levels[1..], n, p - 1);
    assert levels[1..][..p - 1] == levels[1..p] && levels[1..][p..] == levels[p + 1..];
  }

  lemma StepOnLevels(levels: Levels, p: nat, n: Name)
    requires NoRepeat(levels) && 1 <= p < |levels| && n in levels[p]
    ensures MergeNameLevels(levels, n) == Some(Without(levels, p))
  {
    hide NoRepeat, PullLevels, Occurs;
    PullBelowFirst(levels, p, n);
    var order := [levels[0]] + PullLevels(levels[1..], n);
    assert order[2..] == levels[1..p] + levels[p + 1..];
    assert MergedLevels(order) == Without(levels, p);
  }

  lemma InFirstAfter(levels: Levels, k: nat, p: nat, n: Name)
    requires 1 <= p < k <= |levels| && InFirst(levels, k, n)
    ensures InFirst(Without(levels, p), k - 1, n)
  {
    var q :| 0 <= q < k && n in levels[q];
    assert n in Without(levels, p)[if q == 0 || q == p then 0 else if q < p then q else q - 1];
  }

  lemma StepKeepsCalls(levels: Levels, k: nat, names: seq<Name>, p: nat)
    requires NoRepeat(levels) && CallsFor(levels, k, names) && names != []
    requires 1 <= p < k && names[0] in levels[p]
    ensures CallsFor(Without(levels, p), k - 1, names[1..])
  {
    var m := Without(levels, p);
    forall i | 0 <= i < |names[1..]| ensures InFirst(m, k - 1, names[1..][i]) {
      InFirstAfter(levels, k, p, names[i + 1]);
    }
    forall q | 1 <= q < k - 1 ensures Called(m[q], names[1..]) {
      var q' := if q < p then q else q + 1;
      Apart(levels, if q' < p then q' else p, if q' < p then p else q', names[0]);
      CalledLater(levels[q'], names);
    }
  }

  lemma SkipKeepsCalls(levels: Levels, k: nat, names: seq<Name>)
    requires NoRepeat(levels) && CallsFor(levels, k, names) && names != [] && names[0] in levels[0]
    ensures CallsFor(levels, k, names[1..])
  {
    forall i | 0 <= i < |names[1..]| ensures InFirst(levels, k, names[1..][i]) {
      assert names[1..][i] == names[i + 1];
    }
    forall q | 1 <= q < k ensures Called(levels[q], names[1..]) {
      Apart(levels, 0, q, names[0]);
      CalledLater(levels[q], names);
    }
  }

  lemma NodeLevelsStep(levels: Levels, names: seq<Name>, m: Levels)
    requires levels != [] && names != [] && MergeNameLevels(levels, names[0]) == Some(m)
    ensures SquashNodeLevels(levels, names) == SquashNodeLevels(m, names[1..])
  {
    hide MergeNameLevels;
  }

  lemma OwnNameStays(levels: Levels, n: Name)
    requires levels != [] && n in levels[0]
    ensures MergeNameLevels(levels, n) == Some(levels)
  {}

  lemma NothingCalled(levels: Levels, k: nat)
    requires CallsFor(levels, k, [])
    ensures levels != [] && k == 1 && SquashNodeLevels(levels, []) == Some(levels)
  {
    assert k > 1 ==> Called(levels[1], []);
  }

  lemma CalledAt(levels: Levels, k: nat, names: seq<Name>) returns (p: nat)
    requires CallsFor(levels, k, names) && names != []
    ensures p < k <= |levels| && names[0] in levels[p]
  {
    assert InFirst(levels, k, names[0]);
    p :| 0 <= p < k && names[0] in levels[p];
  }

  lemma WithoutTail(levels: Levels, p: nat, k: nat)
    requires 1 <= p < k <= |levels|
    ensures Without(levels, p)[k - 1..] == levels[k..]
  {}

  lemma {:induction false} GroupJoins(levels: Levels, k: nat, names: seq<Name>)
    requires NoRepeat(levels) && CallsFor(levels, k, names)
    ensures SquashNodeLevels(levels, names).Some?
    ensures SquashNodeLevels(levels, names).value != []
    ensures SquashNodeLevels(levels, names).value[1..] == levels[k..]
    ensures Names(SquashNodeLevels(levels, names).value) == Names(levels)
    decreases |names|
  {
    hide *;
    if names == [] {
      NothingCalled(levels, k);
    } else {
      var p := CalledAt(levels, k, names);
      if names[0] in levels[0] {
        SkipKeepsCalls(levels, k, names);
        OwnNameStays(levels, names[0]);
        NodeLevelsStep(levels, names, levels);
        GroupJoins(levels, k, names[1..]);
      } else {
        var m := Without(levels, p);
        StepOnLevels(levels, p, names[0]);
        NodeLevelsStep(levels, names, m);
        StepKeepsCalls(levels, k, names, p);
        NamesAfterStep(levels, names[0]);
        NoRepeatByNames(levels, m);
        GroupJoins(m, k - 1, names[1..]);
        WithoutTail(levels, p, k);
      }
    }
  }

  lemma NoRepeatByNames(levels: Levels, order: Levels)
    requires NoRepeat(levels) && Names(order) == Names(levels)
    ensures NoRepeat(order)
  {}

  lemma {:induction false} SquashBelow(top: Levels, levels: Levels, names: seq<Name>)
    requires forall a :: 0 <= a < |top| ==> !Meets(top[a], names)
    requires levels != [] && Meets(levels[0], names) && SquashNodeLevels(levels, names).Some?
    ensures SquashLevels(top + levels, names) == Some(top + SquashNodeLevels(levels, names).value)
  {
    var r := SquashNodeLevels(levels, names).value;
    if top == [] {
      assert top + levels == levels && top + r == r;
    } else {
      assert (top + levels)[1..] == top[1..] + levels;
      SquashBelow(top[1..], levels, names);
      assert [top[0]] + (top[1..] + r) == top + r;
    }
  }

  lemma NotMet(levels: Levels, lo: nat, k: nat, names: seq<Name>, a: nat)
    requires NoRepeat(levels) && a < lo && lo + k <= |levels| && CallsFor(levels[lo..], k, names)
    ensures !Meets(levels[a], names)
  {
    forall i | 0 <= i < |levels[a]| ensures levels[a][i] !in names {
      forall j | 0 <= j < |names| ensures names[j] !in levels[a] {
        assert InFirst(levels[lo..], k, names[j]);
        var q :| 0 <= q < k && names[j] in levels[lo..][q];
        Apart(levels, a, lo + q, names[j]);
      }
    }
  }

  lemma NamesSplit(levels: Levels, k: nat)
    requires k <= |levels|
    ensures Names(levels) == Names(levels[..k]) + Names(levels[k..])
  {
    hide Names;
    NamesOfJoin(levels[..k], levels[k..]);
    assert levels == levels[..k] + levels[k..];
  }

  lemma NamesUnfold(levels: Levels)
    requires levels != []
    ensures Names(levels) == multiset(levels[0]) + Names(levels[1..])
  {}

  lemma RestOfNames(levels: Levels, k: nat, order: Levels)
    requires k <= |levels| && order != [] && order[1..] == levels[k..] && Names(order) == Names(levels)
    ensures multiset(order[0]) == Names(levels[..k])
  {
    hide *;
    NamesSplit(levels, k);
    NamesUnfold(order);
    Cancel(multiset(order[0]), Names(levels[..k]), Names(levels[k..]), Names(levels));
  }

  lemma Cancel(a: multiset<Name>, b: multiset<Name>, c: multiset<Name>, all: multiset<Name>)
    requires a + c == all && b + c == all
    ensures a == b
  {
    assert a == all - c;
  }

  /** Squashing names of k neighbouring levels joins exactly these. */
  lemma RunJoins(t: Tree, levels: Levels, lo: nat, k: nat, names: seq<Name>) returns (joined: seq<Name>)
    requires Uniform(t, levels) && NoRepeat(levels) && lo + k <= |levels|
    requires CallsFor(levels[lo..], k, names) && Meets(levels[lo], names)
    ensures Squash(t, names).Some?
    ensures Uniform(Squash(t, names).value, levels[..lo] + [joined] + levels[lo + k..])
    ensures Same(t, Squash(t, names).value)
    ensures multiset(joined) == Names(levels[lo..lo + k])
  {
    hide NoRepeat, Names, Meets, Uniform, Same;
    var top, below := levels[..lo], levels[lo..];
    assert levels == top + below;
    PartsDoNotRepeat(top, below);
    GroupJoins(below, k, names);
    forall a | 0 <= a < lo ensures !Meets(top[a], names) {
      NotMet(levels, lo, k, names, a);
    }
    SquashBelow(top, below, names);
    assert SquashLevels(levels, names).Some?;
    SquashKeepsMeaning(t, levels, names);
    var r := SquashNodeLevels(below, names).value;
    RestOfNames(below, k, r);
    joined := r[0];
    SlicesOfRest(levels, lo, k);
    FirstAndTail(top, r);
  }

  lemma SlicesOfRest(levels: Levels, lo: nat, k: nat)
    requires lo + k <= |levels|
    ensures levels[lo..][k..] == levels[lo + k..] && levels[lo..][..k] == levels[lo..lo + k]
  {}

  lemma FirstAndTail(top: Levels, r: Levels)
    requires r != []
    ensures top + r == top + [r[0]] + r[1..]
  {}

  // -------------------------------------------------------------- the grouping

  /** The product of the level sizes from lo up to, but without, hi. */
  function Product(sizes: seq<nat>, lo: nat, hi: nat): nat
    requires hi <= |sizes|
    decreases hi - lo
  {
    if lo >= hi then 1 else Product(sizes, lo + 1, hi) * sizes[lo]
  }

  /** `joined` stands for the levels from a up to b; a run of one level is as it was. */
  ghost predicate Run(levels: Levels, joined: seq<Name>, a: nat, b: nat) {
    && a < b <= |levels|
    && multiset(joined) == Names(levels[a..b])
    && (b == a + 1 ==> joined == levels[a])
  }

  /** `out` joins the levels from `from` on in runs that start at the given cuts. */
  ghost predicate Grouping(levels: Levels, from: nat, out: Levels, cuts: seq<nat>) {
    && |cuts| == |out| + 1 && cuts[0] == from && cuts[|out|] == |levels|
    && forall g :: 0 <= g < |out| ==> Run(levels, out[g], cuts[g], cuts[g + 1])
  }

  /** The run from a to b obeys bound number j: joined levels stay within the bound, and
      the level above would have gone beyond it. Without a bound nothing is joined. */
  ghost predicate Fits(sizes: seq<nat>, bounds: seq<int>, j: nat, a: nat, b: nat) {
    && a < b <= |sizes|
    && if j < |bounds| then
         && (b - a >= 2 ==> Product(sizes, a, b) <= bounds[j])
         && (a > 0 ==> Product(sizes, a - 1, b) > bounds[j])
       else b == a + 1
  }

  /** The runs use up the bounds in order from the bottom, except for the first `skipped`. */
  ghost predicate AllFit(sizes: seq<nat>, bounds: seq<int>, skipped: nat, cuts: seq<nat>) {
    forall g :: 0 <= g < |cuts| - 1 ==> FitsAt(sizes, bounds, skipped, cuts, g)
  }

  ghost predicate FitsAt(sizes: seq<nat>, bounds: seq<int>, skipped: nat, cuts: seq<nat>, g: nat)
    requires g < |cuts| - 1
  {
    Fits(sizes, bounds, |cuts| - 2 - g + skipped, cuts[g], cuts[g + 1])
  }

  /** The lowest level alone beyond the first bound uses that bound up. */
  function Skipped(sizes: seq<nat>, bounds: seq<int>): nat {
    if sizes != [] && bounds != [] && sizes[|sizes| - 1] > bounds[0] then 1 else 0
  }

  lemma GroupingOnTop(levels: Levels, from: nat, out: Levels, cuts: seq<nat>, lo: nat, top: seq<Name>)
    requires Grouping(levels, from, out, cuts) && Run(levels, top, lo, from)
    ensures Grouping(levels, lo, [top] + out, [lo] + cuts)
  {
    hide Run;
    var out', cuts' := [top] + out, [lo] + cuts;
    forall g | 0 <= g < |out'| ensures Run(levels, out'[g], cuts'[g], cuts'[g + 1]) {
      if g > 0 {
        assert out'[g] == out[g - 1] && cuts'[g] == cuts[g - 1] && cuts'[g + 1] == cuts[g];
      }
    }
  }

  lemma FitOnTop(sizes: seq<nat>, bounds: seq<int>, skipped: nat, cuts: seq<nat>, lo: nat)
    requires cuts != [] && AllFit(sizes, bounds, skipped, cuts)
    requires Fits(sizes, bounds, |cuts| - 1 + skipped, lo, cuts[0])
    ensures AllFit(sizes, bounds, skipped, [lo] + cuts)
  {
    var more := [lo] + cuts;
    forall g | 0 <= g < |more| - 1 ensures FitsAt(sizes, bounds, skipped, more, g) {
      if g > 0 {
        assert FitsAt(sizes, bounds, skipped, cuts, g - 1);
      }
    }
  }

  lemma NamesOfOne(levels: Levels, i: nat)
    requires i < |levels|
    ensures Names(levels[i..i + 1]) == multiset(levels[i])
  {
    assert levels[i..i + 1] == [levels[i]];
    assert [levels[i]][1..] == [];
  }

  /** Once the bounds are used up, the levels above stay as they are. */
  lemma {:induction false} RestUntouched(levels: Levels, sizes: seq<nat>, bounds: seq<int>, skipped: nat,
                                         from: nat, out: Levels, cuts: seq<nat>) returns (all: seq<nat>)
    requires |sizes| == |levels| && from <= |levels|
    requires Grouping(levels, from, out, cuts) && AllFit(sizes, bounds, skipped, cuts)
    requires |out| + skipped >= |bounds|
    ensures Grouping(levels, 0, levels[..from] + out, all) && AllFit(sizes, bounds, skipped, all)
    decreases from
  {
    if from == 0 {
      all := cuts;
      assert levels[..0] + out == out;
    } else {
      NamesOfOne(levels, from - 1);
      GroupingOnTop(levels, from, out, cuts, from - 1, levels[from - 1]);
      FitOnTop(sizes, bounds, skipped, cuts, from - 1);
      all := RestUntouched(levels, sizes, bounds, skipped, from - 1, [levels[from - 1]] + out, [from - 1] + cuts);
      assert levels[..from - 1] + ([levels[from - 1]] + out) == levels[..from] + out;
    }
  }

  /** The first names of levels lo..hi, the lowest level first. */
  function Firsts(levels: Levels, lo: nat, hi: nat): (r: seq<Name>)
    requires lo <= hi <= |levels| && forall i :: 0 <= i < |levels| ==> levels[i] != []
    ensures |r| == hi - lo && forall i :: 0 <= i < hi - lo ==> r[i] == levels[hi - 1 - i][0]
  {
    seq(hi - lo, i requires 0 <= i < hi - lo => levels[hi - 1 - i][0])
  }

  /** The tree in the middle of the loop: the levels above hi are untouched, those below
      are joined as the cuts say. */
  ghost predicate Midway(t: Tree, levels: Levels, hi: nat, done: Levels, cuts: seq<nat>) {
    hi <= |levels| && Uniform(t, levels[..hi] + done) && Grouping(levels, hi, done, cuts)
  }

  lemma {:induction false} NamesOfGroups(levels: Levels, from: nat, out: Levels, cuts: seq<nat>)
    requires from <= |levels| && Grouping(levels, from, out, cuts)
    ensures Names(out) == Names(levels[from..])
    decreases |out|
  {
    if out == [] {
      assert levels[from..] == [];
    } else {
      assert Run(levels, out[0], cuts[0], cuts[1]);
      GroupingBelow(levels, from, out, cuts);
      hide Names, Grouping, Run;
      var c := cuts[1];
      NamesOfGroups(levels, c, out[1..], cuts[1..]);
      NamesSplit(levels[from..], c - from);
      NamesUnfold(out);
      assert levels[from..][..c - from] == levels[from..c] && levels[from..][c - from..] == levels[c..];
    }
  }

  lemma GroupingBelow(levels: Levels, from: nat, out: Levels, cuts: seq<nat>)
    requires Grouping(levels, from, out, cuts) && out != []
    ensures Grouping(levels, cuts[1], out[1..], cuts[1..])
  {
    hide Run;
    forall g | 0 <= g < |out| - 1 ensures Run(levels, out[1..][g], cuts[1..][g], cuts[1..][g + 1]) {
      assert Run(levels, out[g + 1], cuts[g + 1], cuts[g + 2]);
    }
  }

  lemma GroupsDoNotRepeat(levels: Levels, hi: nat, done: Levels, cuts: seq<nat>)
    requires NoRepeat(levels) && hi <= |levels| && Grouping(levels, hi, done, cuts)
    ensures NoRepeat(levels[..hi] + done)
  {
    NamesOfGroups(levels, hi, done, cuts);
    NamesOfJoin(levels[..hi], done);
    NamesOfJoin(levels[..hi], levels[hi..]);
    assert levels == levels[..hi] + levels[hi..];
  }

  ghost predicate InEitherOrder(levels: Levels, lo: nat, hi: nat, names: seq<Name>)
    requires lo <= hi <= |levels| && forall i :: 0 <= i < |levels| ==> levels[i] != []
  {
    names == Firsts(levels, lo, hi) || names == Reversed(Firsts(levels, lo, hi))
  }

  lemma CallsInEitherOrder(levels: Levels, lo: nat, hi: nat, names: seq<Name>, below: Levels)
    requires lo < hi <= |levels| && forall i :: 0 <= i < |levels| ==> levels[i] != []
    requires InEitherOrder(levels, lo, hi, names)
    requires hi - lo <= |below| && forall q :: 0 <= q < hi - lo ==> below[q] == levels[lo + q]
    ensures CallsFor(below, hi - lo, names) && Meets(below[0], names)
  {
    var k, down := hi - lo, names == Firsts(levels, lo, hi);
    forall i | 0 <= i < |names| ensures InFirst(below, k, names[i]) {
      assert names[i] == below[if down then k - 1 - i else i][0];
    }
    forall q | 0 <= q < k ensures Called(below[q], names) && below[q][0] in names {
      assert names[if down then k - 1 - q else q] == below[q][0];
    }
  }

  /** Closing the group of levels lo..hi, with its names in either order. */
  lemma GroupCloses(t: Tree, levels: Levels, lo: nat, hi: nat, done: Levels, cuts: seq<nat>, names: seq<Name>)
    returns (done': Levels)
    requires NoRepeat(levels) && Midway(t, levels, hi, done, cuts) && lo < hi
    requires forall i :: 0 <= i < |levels| ==> levels[i] != []
    requires InEitherOrder(levels, lo, hi, names)
    ensures SquashSeveral(t, names).Some? && Same(t, SquashSeveral(t, names).value)
    ensures Midway(SquashSeveral(t, names).value, levels, lo, done', [lo] + cuts)
    ensures |done'| == |done| + 1
  {
    hide Uniform, NoRepeat, Same, Names, CallsFor, Meets, Grouping, Squash;
    var cur, k := levels[..hi] + done, hi - lo;
    var joined: seq<Name>;
    if k == 1 {
      joined := levels[lo];
      NamesOfOne(levels, lo);
      SameAsItself(t);
    } else {
      GroupsDoNotRepeat(levels, hi, done, cuts);
      CallsInEitherOrder(levels, lo, hi, names, cur[lo..]);
      joined := RunJoins(t, cur, lo, k, names);
      assert cur[hi..] == done && cur[..lo] == levels[..lo] && cur[lo..hi] == levels[lo..hi];
    }
    done' := [joined] + done;
    assert levels[..lo] + [joined] + done == levels[..lo] + done';
    assert k == 1 ==> cur == levels[..lo] + done';
    GroupingOnTop(levels, hi, done, cuts, lo, joined);
  }

  lemma SameAsItself(t: Tree)
    ensures Same(t, t)
  {}

  /** The levels still to visit, the lowest first. */
  function Ahead(levels: Levels, vals: seq<set<seq<Value>>>, lo: nat): (r: seq<PathEntry>)
    requires lo <= |levels| == |vals| && forall i :: 0 <= i < |levels| ==> levels[i] != []
    ensures |r| == lo && forall i :: 0 <= i < lo ==> r[i] == (levels[lo - 1 - i][0], vals[lo - 1 - i])
  {
    seq(lo, i requires 0 <= i < lo => (levels[lo - 1 - i][0], vals[lo - 1 - i]))
  }

  function Sizes(vals: seq<set<seq<Value>>>): (r: seq<nat>)
    ensures |r| == |vals| && forall i :: 0 <= i < |vals| ==> r[i] == |vals[i]|
  {
    seq(|vals|, i requires 0 <= i < |vals| => |vals[i]|)
  }

  /** The loop with levels lo..hi gathered and the levels above lo still to visit. */
  function Loop(t: Tree, levels: Levels, vals: seq<set<seq<Value>>>, bounds: seq<int>,
                lo: nat, hi: nat, lvl: nat): Option<Tree>
    requires |vals| == |levels| && lo <= hi <= |levels| && forall i :: 0 <= i < |levels| ==> levels[i] != []
  {
    SquashLoop(t, Ahead(levels, vals, lo), bounds, lvl, Firsts(levels, lo, hi), Product(Sizes(vals), lo, hi))
  }

  lemma LoopStep(t: Tree, levels: Levels, vals: seq<set<seq<Value>>>, bounds: seq<int>, lo: nat, hi: nat, lvl: nat)
    requires |vals| == |levels| && lo <= hi <= |levels| && forall i :: 0 <= i < |levels| ==> levels[i] != []
    requires lo > 0 && lvl < |bounds|
    ensures Product(Sizes(vals), lo - 1, hi) <= bounds[lvl] ==>
              Loop(t, levels, vals, bounds, lo, hi, lvl) == Loop(t, levels, vals, bounds, lo - 1, hi, lvl)
    ensures Product(Sizes(vals), lo - 1, hi) > bounds[lvl] && SquashSeveral(t, Firsts(levels, lo, hi)).Some? ==>
              var u := SquashSeveral(t, Firsts(levels, lo, hi)).value;
              Loop(t, levels, vals, bounds, lo, hi, lvl)
              == if lvl + 1 >= |bounds| then Some(u) else Loop(u, levels, vals, bounds, lo - 1, lo, lvl + 1)
  {
    hide SquashSeveral;
    var sizes, path := Sizes(vals), Ahead(levels, vals, lo);
    assert path[1..] == Ahead(levels, vals, lo - 1);
    assert Product(sizes, lo - 1, hi) == Product(sizes, lo, hi) * sizes[lo - 1];
    assert Product(sizes, lo - 1, lo) == sizes[lo - 1];
    assert Firsts(levels, lo, hi) + [path[0].0] == Firsts(levels, lo - 1, hi);
    assert Firsts(levels, lo - 1, lo) == [path[0].0];
  }

  /** A point of the loop: the group being gathered is lo..hi; it is empty only before the
      first level. */
  ghost predicate LoopState(t: Tree, levels: Levels, sizes: seq<nat>, bounds: seq<int>, lo: nat, hi: nat, lvl: nat,
                            done: Levels, cuts: seq<nat>, skipped: nat) {
    && |sizes| == |levels| && lo <= hi
    && Midway(t, levels, hi, done, cuts) && AllFit(sizes, bounds, skipped, cuts)
    && lvl == |done| + skipped < |bounds|
    && (lo < hi ==> skipped == Skipped(sizes, bounds))
    && (lo == hi ==> lo == |levels| && done == [] && skipped == 0)
    && (hi - lo >= 2 ==> Product(sizes, lo, hi) <= bounds[lvl])
  }

  ghost predicate LoopResult(t: Tree, r: Option<Tree>, levels: Levels, sizes: seq<nat>, bounds: seq<int>,
                             out: Levels, all: seq<nat>) {
    && |sizes| == |levels|
    && r.Some? && Same(t, r.value) && Midway(r.value, levels, 0, out, all)
    && AllFit(sizes, bounds, Skipped(sizes, bounds), all)
  }

  lemma LastGroupCloses(t: Tree, levels: Levels, vals: seq<set<seq<Value>>>, bounds: seq<int>, hi: nat, lvl: nat,
                        done: Levels, cuts: seq<nat>, skipped: nat)
    returns (out: Levels, all: seq<nat>)
    requires NoRepeat(levels) && |vals| == |levels| && forall i :: 0 <= i < |levels| ==> levels[i] != []
    requires LoopState(t, levels, Sizes(vals), bounds, 0, hi, lvl, done, cuts, skipped)
    ensures LoopResult(t, Loop(t, levels, vals, bounds, 0, hi, lvl), levels, Sizes(vals), bounds, out, all)
  {
    hide Uniform, NoRepeat, Same, AllFit, Run, Squash;
    if hi == 0 {
      out, all := done, cuts;
      SameAsItself(t);
      NothingFits(Sizes(vals), bounds, hi);
    } else {
      out := GroupCloses(t, levels, 0, hi, done, cuts, Reversed(Firsts(levels, 0, hi)));
      all := [0] + cuts;
      FitOnTop(Sizes(vals), bounds, skipped, cuts, 0);
    }
  }

  lemma NothingFits(sizes: seq<nat>, bounds: seq<int>, n: nat)
    ensures forall skipped :: AllFit(sizes, bounds, skipped, [n])
  {}

  /** The level above does not fit: the group is closed, and a new one starts there. */
  lemma GroupGivesWay(t: Tree, levels: Levels, vals: seq<set<seq<Value>>>, bounds: seq<int>, lo: nat, hi: nat, lvl: nat,
                      done: Levels, cuts: seq<nat>, skipped: nat)
    returns (u: Tree, done': Levels, cuts': seq<nat>, skipped': nat)
    requires NoRepeat(levels) && |vals| == |levels| && forall i :: 0 <= i < |levels| ==> levels[i] != []
    requires lo > 0 && LoopState(t, levels, Sizes(vals), bounds, lo, hi, lvl, done, cuts, skipped)
    requires Product(Sizes(vals), lo - 1, hi) > bounds[lvl]
    ensures SquashSeveral(t, Firsts(levels, lo, hi)) == Some(u) && Same(t, u)
    ensures Midway(u, levels, lo, done', cuts') && AllFit(Sizes(vals), bounds, skipped', cuts')
    ensures |done'| + skipped' == lvl + 1 && skipped' == Skipped(Sizes(vals), bounds)
  {
    hide Uniform, NoRepeat, Same, AllFit, Run, Squash;
    if lo == hi {
      u, done', cuts', skipped' := t, done, cuts, 1;
      SameAsItself(t);
      NothingFits(Sizes(vals), bounds, lo);
      assert cuts == [lo];
      assert Product(Sizes(vals), lo - 1, lo) == Sizes(vals)[lo - 1];
    } else {
      done' := GroupCloses(t, levels, lo, hi, done, cuts, Firsts(levels, lo, hi));
      FitOnTop(Sizes(vals), bounds, skipped, cuts, lo);
      u, cuts', skipped' := SquashSeveral(t, Firsts(levels, lo, hi)).value, [lo] + cuts, skipped;
    }
  }

  lemma {:induction false} LoopGroups(t: Tree, levels: Levels, vals: seq<set<seq<Value>>>, bounds: seq<int>,
                                      lo: nat, hi: nat, lvl: nat, done: Levels, cuts: seq<nat>, skipped: nat)
    returns (out: Levels, all: seq<nat>)
    requires NoRepeat(levels) && |vals| == |levels| && forall i :: 0 <= i < |levels| ==> levels[i] != []
    requires LoopState(t, levels, Sizes(vals), bounds, lo, hi, lvl, done, cuts, skipped)
    ensures LoopResult(t, Loop(t, levels, vals, bounds, lo, hi, lvl), levels, Sizes(vals), bounds, out, all)
    decreases lo
  {
    hide Uniform, NoRepeat, Same, AllFit, Grouping, SquashSeveral, Loop, Skipped;
    if lo == 0 {
      out, all := LastGroupCloses(t, levels, vals, bounds, hi, lvl, done, cuts, skipped);
    } else {
      LoopStep(t, levels, vals, bounds, lo, hi, lvl);
      if Product(Sizes(vals), lo - 1, hi) <= bounds[lvl] {
        FirstLevelFits(Sizes(vals), bounds, lo, hi);
        out, all := LoopGroups(t, levels, vals, bounds, lo - 1, hi, lvl, done, cuts, skipped);
      } else {
        var u, done', cuts', skipped' := GroupGivesWay(t, levels, vals, bounds, lo, hi, lvl, done, cuts, skipped);
        if lvl + 1 >= |bounds| {
          all := RestUntouched(levels, Sizes(vals), bounds, skipped', lo, done', cuts');
          out := levels[..lo] + done';
          assert levels[..0] + out == out;
        } else {
          out, all := LoopGroups(u, levels, vals, bounds, lo - 1, lo, lvl + 1, done', cuts', skipped');
          SameTwice(t, u, Loop(u, levels, vals, bounds, lo - 1, lo, lvl + 1).value);
        }
      }
    }
  }

  lemma FirstLevelFits(sizes: seq<nat>, bounds: seq<int>, lo: nat, hi: nat)
    requires 0 < lo <= hi <= |sizes| && bounds != []
    ensures lo == hi == |sizes| && Product(sizes, lo - 1, hi) <= bounds[0] ==> Skipped(sizes, bounds) == 0
  {
    assert lo == hi ==> Product(sizes, lo - 1, hi) == sizes[lo - 1];
  }

  // --------------------------------------------------------------- the whole of it

  lemma {:induction false} FullPathOfUniform(t: Tree, levels: Levels, level: nat)
    requires Uniform(t, levels) && level <= |levels|
    requires forall i :: 0 <= i < |levels| ==> levels[i] != []
    ensures |FullPath(t, level)| == |levels| - level
    ensures forall i :: level <= i < |levels| ==> FullPath(t, level)[i - level] == (levels[i][0], LevelValues(t, i))
    decreases |levels| - level
  {
    NodesAreUniform(t, levels, level);
    NodesWithinHeight(t, level);
    if level < |levels| {
      FullPathOfUniform(t, levels, level + 1);
    }
  }

  function Flat(levels: Levels): seq<Name> {
    if levels == [] then [] else levels[0] + Flat(levels[1..])
  }

  lemma {:induction false} FlatHasNames(levels: Levels, n: Name)
    ensures n in Flat(levels) <==> n in Names(levels)
  {
    if levels != [] {
      FlatHasNames(levels[1..], n);
    }
  }

  lemma {:induction false} ProductBoundsRun(t: Tree, levels: Levels, a: nat, b: nat)
    requires Uniform(t, levels) && NoRepeat(levels) && a <= b <= |levels|
    ensures AtMost(t, Flat(levels[a..b]), Product(Sizes(AllValues(t, |levels|)), a, b))
    decreases b - a
  {
    var sizes := Sizes(AllValues(t, |levels|));
    if a == b {
      assert Within(t, [], {[]});
    } else {
      ProductBoundsRun(t, levels, a + 1, b);
      AtMostLevel(t, levels, a);
      AtMostJoined(t, levels[a], Flat(levels[a + 1..b]), sizes[a], Product(sizes, a + 1, b));
      assert levels[a..b][1..] == levels[a + 1..b];
      assert sizes[a] * Product(sizes, a + 1, b) == Product(sizes, a + 1, b) * sizes[a];
    }
  }

  lemma AtMostSame(t: Tree, u: Tree, names: seq<Name>, c: nat)
    requires AtMost(t, names, c) && Same(t, u)
    ensures AtMost(u, names, c)
  {
    var s :| |s| <= c && Within(t, names, s);
    assert Within(u, names, s);
  }

  /** A joined level has at most as many tuples as its parts have combinations. */
  lemma JoinedLevelSize(t: Tree, levels: Levels, u: Tree, out: Levels, cuts: seq<nat>, g: nat)
    requires Uniform(t, levels) && NoRepeat(levels) && Same(t, u)
    requires Uniform(u, out) && NoRepeat(out) && Grouping(levels, 0, out, cuts) && g < |out|
    ensures Run(levels, out[g], cuts[g], cuts[g + 1])
    ensures |LevelValues(u, g)| <= Product(Sizes(AllValues(t, |levels|)), cuts[g], cuts[g + 1])
  {
    assert Run(levels, out[g], cuts[g], cuts[g + 1]);
    var a, b := cuts[g], cuts[g + 1];
    var c := Product(Sizes(AllValues(t, |levels|)), a, b);
    ProductBoundsRun(t, levels, a, b);
    forall k | 0 <= k < |out[g]| ensures out[g][k] in Flat(levels[a..b]) {
      FlatHasNames(levels[a..b], out[g][k]);
      assert out[g][k] in multiset(out[g]);
    }
    AtMostReordered(t, Flat(levels[a..b]), out[g], c);
    AtMostSame(t, u, out[g], c);
    LevelAtMost(u, out, g, c);
  }

  /** `out` is what grouping the levels of t under the bounds gives, and u holds it. */
  ghost predicate AsPlanned(t: Tree, levels: Levels, maxLevels: seq<int>, u: Tree, out: Levels, cuts: seq<nat>) {
    && Same(t, u) && Uniform(u, out) && NoRepeat(out) && Grouping(levels, 0, out, cuts)
    && AllFit(Sizes(AllValues(t, |levels|)), Reversed(maxLevels), SkippedIn(t, levels, maxLevels), cuts)
  }

  function SkippedIn(t: Tree, levels: Levels, maxLevels: seq<int>): nat {
    Skipped(Sizes(AllValues(t, |levels|)), Reversed(maxLevels))
  }

  /** autosquash on a uniform tree without repeated names. It fails only for an empty list
      of bounds. Otherwise it changes no result, and joins runs of neighbouring levels so
      that the numbers of combinations obey the bounds, each run as long as they allow. */
  lemma AutosquashKeepsMeaning(t: Tree, levels: Levels, maxLevels: seq<int>) returns (out: Levels, cuts: seq<nat>)
    requires Uniform(t, levels) && NoRepeat(levels)
    ensures Autosquash(t, maxLevels) == None <==> maxLevels == [] && levels != []
    ensures Autosquash(t, maxLevels).Some? ==>
              AsPlanned(t, levels, maxLevels, Autosquash(t, maxLevels).value, out, cuts)
  {
    hide Uniform, NoRepeat, Same, AllFit;
    var n, vals := |levels|, AllValues(t, |levels|);
    LevelsNonempty(t, levels);
    FullPathOfUniform(t, levels, 0);
    assert Reversed(FullPath(t, 0)) == Ahead(levels, vals, n);
    assert levels[..n] + [] == levels;
    SameAsItself(t);
    NothingFits(Sizes(vals), Reversed(maxLevels), n);
    if maxLevels != [] {
      out, cuts := LoopGroups(t, levels, vals, Reversed(maxLevels), n, n, 0, [], [n], 0);
      assert Autosquash(t, maxLevels) == Loop(t, levels, vals, Reversed(maxLevels), n, n, 0);
      assert levels[..0] + out == out;
      GroupsDoNotRepeat(levels, 0, out, cuts);
    } else {
      out, cuts := [], [0];
    }
  }

  /** No two levels are ever joined into one with more value tuples than the bound they
      were joined under: runs take the entries of max_levels from the end, and a lowest
      level that is too large by itself uses the last entry up. */
  lemma StaysWithinBounds(t: Tree, levels: Levels, maxLevels: seq<int>, u: Tree, out: Levels, cuts: seq<nat>, g: nat)
    requires Uniform(t, levels) && NoRepeat(levels) && AsPlanned(t, levels, maxLevels, u, out, cuts)
    requires g < |out| && cuts[g + 1] - cuts[g] >= 2
    ensures var entry := |maxLevels| - |out| + g - SkippedIn(t, levels, maxLevels);
            0 <= entry < |maxLevels| && |LevelValues(u, g)| <= maxLevels[entry]
  {
    hide Uniform, NoRepeat, Same, Run, LevelValues, AllValues, Sizes, SkippedIn, Product;
    JoinedLevelSize(t, levels, u, out, cuts, g);
    assert FitsAt(Sizes(AllValues(t, |levels|)), Reversed(maxLevels), SkippedIn(t, levels, maxLevels), cuts, g);
  }
}
