/** The data a plugin produces, from production to storage and release. */
module RunData {

  datatype Kind = Monitor | Result | Other

  /** id: position in production order; made: barriers completed at production; warm:
      produced in a warm-up iteration. The last three record history only. */
  datatype Item = Item(kind: Kind, id: nat, made: nat, warm: bool)

  /** The two lists of a plugin, and the history of what was produced, handed to
      storage and freed. */
  datatype Plug = Plug(runData: seq<Item>, checkErr: seq<Item>, made: seq<Item>, stored: seq<Item>, freed: seq<Item>)

  const EMPTY := Plug([], [], [], [], [])

  // ------------------------------------------------------------- selection

  function Select(s: seq<Item>, f: Item -> bool): seq<Item> {
    if s == [] then []
    else
      var front := Select(s[..|s| - 1], f);
      if f(s[|s| - 1]) then front + [s[|s| - 1]] else front
  }

  lemma {:induction false} Selected(s: seq<Item>, f: Item -> bool)
    ensures forall x :: x in Select(s, f) <==> x in s && f(x)
  {
    if s != [] {
      Selected(s[..|s| - 1], f);
      assert s == s[..|s| - 1] + [s[|s| - 1]];
    }
  }

  predicate IsBatch(x: Item) { x.kind != Other }
  predicate IsOther(x: Item) { x.kind == Other }
  predicate IsResult(x: Item) { x.kind == Result }
  predicate NotResult(x: Item) { x.kind != Result }
  predicate IsMeasured(x: Item) { x.kind == Result && !x.warm }

  lemma SelectOne(s: seq<Item>, x: Item, f: Item -> bool)
    ensures Select(s + [x], f) == Select(s, f) + (if f(x) then [x] else [])
  {
    assert (s + [x])[..|s + [x]| - 1] == s;
  }

  /** A selection and its complement together hold everything. */
  lemma {:induction false} SelectSplits(s: seq<Item>, f: Item -> bool, g: Item -> bool)
    requires forall x :: f(x) <==> !g(x)
    ensures multiset(s) == multiset(Select(s, f)) + multiset(Select(s, g))
  {
    if s != [] {
      var u := s[..|s| - 1];
      assert s == u + [s[|s| - 1]];
      SelectSplits(u, f, g);
    }
  }

  lemma {:induction false} SelectTwice(s: seq<Item>, f: Item -> bool, g: Item -> bool, h: Item -> bool)
    requires forall x :: x in s ==> (h(x) <==> f(x) && g(x))
    ensures Select(Select(s, f), g) == Select(s, h)
  {
    if s != [] {
      var u, x := s[..|s| - 1], s[|s| - 1];
      SelectTwice(u, f, g, h);
      assert x in s;
      if f(x) {
        SelectOne(Select(u, f), x, g);
      }
    }
  }

  lemma {:induction false} SelectNone(s: seq<Item>, f: Item -> bool)
    requires forall x :: x in s ==> !f(x)
    ensures Select(s, f) == []
  {
    if s != [] {
      SelectNone(s[..|s| - 1], f);
    }
  }

  // ------------------------------------------------------------ operations

  function Produce(p: Plug, kind: Kind, gen: nat, warm: bool): Plug {
    var x := Item(kind, |p.made|, gen, warm);
    p.(runData := p.runData + [x], made := p.made + [x])
  }

  /** plugin_exec_drop_data */
  function Drop(p: Plug): Plug {
    p.(runData := [], checkErr := [], freed := p.freed + p.runData + p.checkErr)
  }

  /** plugin_exec_persist for monitor and result data */
  function Persist(p: Plug, error: bool): Plug {
    if error then p.(runData := [], freed := p.freed + p.runData)
    else
      var batch := Select(p.runData, IsBatch);
      p.(runData := Select(p.runData, IsOther),
         checkErr := p.checkErr + Select(batch, IsResult),
         stored := p.stored + batch,
         freed := p.freed + Select(batch, NotResult))
  }

  /** Whether persisting calls the storage at all. */
  predicate CallsStorage(p: Plug, error: bool) {
    !error && Select(p.runData, IsBatch) != []
  }

  /** It does so exactly if monitor or result data waits. */
  lemma StorageCalled(p: Plug)
    ensures CallsStorage(p, false) <==> exists x :: x in p.runData && (x.kind.Monitor? || x.kind.Result?)
  {
    Selected(p.runData, IsBatch);
    if x :| x in p.runData && (x.kind.Monitor? || x.kind.Result?) {
      assert x in Select(p.runData, IsBatch);
    } else {
      SelectNone(p.runData, IsBatch);
    }
  }

  // ------------------------------------------------------------- the ledger

  /** Nothing lost and nothing freed twice; only what was handed over once is stored. */
  ghost predicate Conserved(p: Plug) {
    && (forall k :: 0 <= k < |p.made| ==> p.made[k].id == k)
    && multiset(p.made) == multiset(p.freed) + multiset(p.runData) + multiset(p.checkErr)
    && multiset(p.stored) <= multiset(p.freed) + multiset(p.checkErr)
  }

  /** Kept results come in production order and, while all is well, leave none out. */
  ghost predicate InOrder(p: Plug, whole: bool) {
    && p.checkErr <= Select(p.made, IsMeasured)
    && (whole ==> Select(p.made, IsMeasured) == p.checkErr + Select(p.runData, IsMeasured))
  }

  /** Warm-up items are never stored and never survive into a measured run. */
  ghost predicate WarmthKept(p: Plug, warming: bool) {
    && (forall x :: x in p.stored ==> !x.warm)
    && (forall x :: x in p.runData ==> x.warm == warming)
    && (warming ==> forall x :: x in p.made ==> x.warm)
  }

  /** What is stored was produced before `limit`; what waits was produced by `gen`. */
  ghost predicate Dated(p: Plug, gen: nat, limit: nat) {
    && (forall x :: x in p.runData ==> x.made <= gen)
    && (forall x :: x in p.stored ==> x.made < limit)
  }

  lemma MadeOnce(p: Plug, x: Item)
    requires Conserved(p)
    ensures multiset(p.made)[x] <= 1
  {
    AtMostOnce(p.made, x);
  }

  lemma {:induction false} AtMostOnce(s: seq<Item>, x: Item)
    requires forall k :: 0 <= k < |s| ==> s[k].id == k
    ensures multiset(s)[x] <= 1
    ensures x in s ==> x.id < |s|
  {
    if s != [] {
      var u := s[..|s| - 1];
      assert s == u + [s[|s| - 1]];
      AtMostOnce(u, x);
    }
  }

  /** Once both lists are empty, everything produced has been freed exactly once, and
      was handed to storage at most once. */
  lemma ReleasedExactlyOnce(p: Plug, x: Item)
    requires Conserved(p) && p.runData == [] && p.checkErr == []
    ensures multiset(p.freed)[x] == (if x in p.made then 1 else 0)
    ensures multiset(p.stored)[x] <= 1
  {
    MadeOnce(p, x);
  }

  lemma ProduceConserves(p: Plug, kind: Kind, gen: nat, warm: bool)
    requires Conserved(p)
    ensures Conserved(Produce(p, kind, gen, warm))
  {}

  lemma DropConserves(p: Plug)
    requires Conserved(p)
    ensures Conserved(Drop(p))
  {
    var q := Drop(p);
    assert multiset(q.freed) == multiset(p.freed) + multiset(p.runData) + multiset(p.checkErr);
  }

  lemma PersistConserves(p: Plug, error: bool)
    requires Conserved(p)
    ensures Conserved(Persist(p, error))
  {
    var q := Persist(p, error);
    if error {
      assert multiset(q.freed) == multiset(p.freed) + multiset(p.runData);
    } else {
      var batch := Select(p.runData, IsBatch);
      SelectSplits(p.runData, IsBatch, IsOther);
      SelectSplits(batch, IsResult, NotResult);
      assert multiset(q.freed) == multiset(p.freed) + multiset(Select(batch, NotResult));
      assert multiset(q.checkErr) == multiset(p.checkErr) + multiset(Select(batch, IsResult));
      assert multiset(q.stored) == multiset(p.stored) + multiset(batch);
    }
  }

  lemma ProduceOrder(p: Plug, kind: Kind, gen: nat, warm: bool, whole: bool)
    requires InOrder(p, whole)
    ensures InOrder(Produce(p, kind, gen, warm), whole)
  {
    var x := Item(kind, |p.made|, gen, warm);
    SelectOne(p.made, x, IsMeasured);
    SelectOne(p.runData, x, IsMeasured);
    if whole && IsMeasured(x) {
      assert p.checkErr + Select(p.runData, IsMeasured) + [x] == p.checkErr + (Select(p.runData, IsMeasured) + [x]);
    }
  }

  lemma PersistOrder(p: Plug, error: bool)
    requires InOrder(p, !error) && (!error ==> WarmthKept(p, false))
    ensures InOrder(Persist(p, error), !error)
  {
    if !error {
      var batch := Select(p.runData, IsBatch);
      SelectTwice(p.runData, IsBatch, IsResult, IsMeasured);
      Selected(p.runData, IsOther);
      SelectNone(Select(p.runData, IsOther), IsMeasured);
    }
  }

  /** What measured runs are made for. */
  predicate IsMeasurement(x: Item) { !x.warm && (x.kind == Monitor || x.kind == Result) }

  /** Storage has got the measurements in production order and, while all is well, none
      is missing but those that wait. */
  ghost predicate HandedOver(p: Plug, whole: bool) {
    && p.stored <= Select(p.made, IsMeasurement)
    && (whole ==> Select(p.made, IsMeasurement) == p.stored + Select(p.runData, IsMeasurement))
  }

  lemma ProduceHandsOver(p: Plug, kind: Kind, gen: nat, warm: bool, whole: bool)
    requires HandedOver(p, whole)
    ensures HandedOver(Produce(p, kind, gen, warm), whole)
  {
    var x := Item(kind, |p.made|, gen, warm);
    SelectOne(p.made, x, IsMeasurement);
    SelectOne(p.runData, x, IsMeasurement);
    if whole && IsMeasurement(x) {
      assert p.stored + Select(p.runData, IsMeasurement) + [x] == p.stored + (Select(p.runData, IsMeasurement) + [x]);
    }
  }

  lemma {:induction false} SameSelection(s: seq<Item>, f: Item -> bool, g: Item -> bool)
    requires forall x :: x in s ==> f(x) == g(x)
    ensures Select(s, f) == Select(s, g)
  {
    if s != [] {
      SameSelection(s[..|s| - 1], f, g);
      assert s[|s| - 1] in s;
    }
  }

  /** In a measured run without an error persisting gives storage every monitor and every
      result item that waits, in order, and leaves none of them behind. */
  lemma PersistHandsOver(p: Plug)
    requires forall x :: x in p.runData ==> !x.warm
    ensures var q := Persist(p, false);
            && q.stored == p.stored + Select(p.runData, IsMeasurement)
            && (forall x :: x in q.runData <==> x in p.runData && x.kind == Other)
    ensures HandedOver(p, true) ==> HandedOver(Persist(p, false), true)
  {
    SameSelection(p.runData, IsBatch, IsMeasurement);
    Selected(p.runData, IsOther);
    SelectNone(Select(p.runData, IsOther), IsMeasurement);
  }

  lemma WarmDropOrder(p: Plug, whole: bool)
    requires InOrder(p, whole) && WarmthKept(p, true)
    ensures InOrder(Drop(p), true)
  {
    SelectNone(p.made, IsMeasured);
  }
}
