/** The two data lists of a plugin as real linked lists: adding, dropping and persisting
    data do to them what RunData says. */
module PluginLists {
  import opened KList
  import opened RunData

  /** A bare list head is embedded in no data; its owner is never looked at. */
  const NO_DATA := Item(Other, 0, 0, false)

  class Plugin {
    const runData: ListHead<Item>
    const checkErr: ListHead<Item>
    /** What was produced, given to storage and freed, in order. */
    ghost var made: seq<Item>
    ghost var stored: seq<Item>
    ghost var freed: seq<Item>
    ghost var runNodes: seq<ListHead<Item>>
    ghost var errNodes: seq<ListHead<Item>>

    ghost predicate Valid()
      reads this, Nodes(runData, runNodes), Nodes(checkErr, errNodes)
    {
      && IsList(runData, runNodes) && IsList(checkErr, errNodes)
      && Nodes(runData, runNodes) !! Nodes(checkErr, errNodes)
    }

    ghost function View(): Plug
      reads this
    {
      Plug(Owners(runNodes), Owners(errNodes), made, stored, freed)
    }

    constructor ()
      ensures Valid() && View() == EMPTY
      ensures fresh(runData) && fresh(checkErr)
    {
      var a := new ListHead<Item>(NO_DATA);
      var b := new ListHead<Item>(NO_DATA);
      runData, checkErr := a, b;
      stored, freed, made, runNodes, errNodes := [], [], [], [], [];
    }

    /** plugin_add_data: the entry goes to the end of run_data. */
    method AddData(entry: ListHead<Item>)
      requires Valid() && entry !in Nodes(runData, runNodes) && entry !in Nodes(checkErr, errNodes)
      requires entry.owner.id == |made|
      modifies this, entry, Nodes(runData, runNodes)
      ensures Valid() && View() == Produce(old(View()), entry.owner.kind, entry.owner.made, entry.owner.warm)
      ensures runNodes == old(runNodes) + [entry] && errNodes == old(errNodes)
    {
      AddTail(entry, runData, runNodes);
      runNodes := runNodes + [entry];
      made := made + [entry.owner];
    }

    /** plugin_exec_drop_data */
    method DropData()
      requires Valid()
      modifies this, Nodes(runData, runNodes), Nodes(checkErr, errNodes)
      ensures Valid() && View() == Drop(old(View()))
      ensures runNodes == [] && errNodes == []
    {
      hide Apart;
      var gone := DeleteAll(runData, runNodes);
      freed := freed + gone;
      runNodes := [];
      gone := DeleteAll(checkErr, errNodes);
      freed := freed + gone;
      errNodes := [];
    }

    /** plugin_exec_persist for monitor and result data; `storageFails` is what
        storage_add_data would return. The result is the new error_shutdown. Without an
        error every monitor and every result item of a measured run goes to storage, in
        order, and the others stay. */
    method PersistData(error: bool, storageFails: bool) returns (shutdown: bool)
      requires Valid()
      modifies this, Nodes(runData, runNodes), Nodes(checkErr, errNodes)
      ensures Valid() && View() == Persist(old(View()), error)
      ensures shutdown <==>
                error || (storageFails && exists x :: x in old(View()).runData && (x.kind.Monitor? || x.kind.Result?))
      ensures !error && (forall x :: x in old(View()).runData ==> !x.warm) ==>
                && View().stored == old(View()).stored + Select(old(View()).runData, IsMeasurement)
                && (forall x :: x in View().runData <==> x in old(View()).runData && x.kind.Other?)
      ensures Nodes(runData, runNodes) <= old(Nodes(runData, runNodes))
      ensures Nodes(checkErr, errNodes) <= old(Nodes(checkErr, errNodes) + Nodes(runData, runNodes))
    {
      hide Apart, Select, At, Persist;
      ghost var before, left, batch := View(), runNodes, runNodes;
      var gone;
      var toPersist := new ListHead<Item>(NO_DATA);
      EmptyList(toPersist);
      gone, left, batch := SortOut(runData, toPersist, error, runNodes);
      freed := freed + gone;
      runNodes := left;
      shutdown := StoreAndSettle(toPersist, batch, storageFails);
      shutdown := error || shutdown;
      PersistParts(before, View(), error, Owners(batch));
      StorageCalled(before);
      if !error && forall x :: x in before.runData ==> !x.warm {
        PersistHandsOver(before);
      }
    }

    /** Its second half: a batch that is not empty goes to the storage, and then its
        results are kept and the rest is freed. */
    method StoreAndSettle(list: ListHead<Item>, ghost batch: seq<ListHead<Item>>, storageFails: bool)
      returns (failed: bool)
      requires Valid() && IsList(list, batch)
      requires Nodes(list, batch) !! Nodes(runData, runNodes) && Nodes(list, batch) !! Nodes(checkErr, errNodes)
      modifies this, Nodes(list, batch), Nodes(checkErr, errNodes)
      ensures Valid() && runNodes == old(runNodes)
      ensures failed == (batch != [] && storageFails)
      ensures Nodes(checkErr, errNodes) <= old(Nodes(checkErr, errNodes)) + (Nodes(list, batch) - {list})
      ensures View() == Plug(old(View()).runData, old(View()).checkErr + Select(Owners(batch), IsResult), old(made),
                             if batch == [] then old(stored) else old(stored) + Owners(batch),
                             old(freed) + Select(Owners(batch), NotResult))
    {
      hide Apart, Select, At;
      failed := false;
      var empty := IsEmpty(list, batch);
      if !empty {
        stored := stored + Owners(batch);
        if storageFails {
          failed := true;
        }
      }
      ghost var kept;
      var gone;
      gone, kept := SettleBatch(list, checkErr, batch, errNodes);
      freed := freed + gone;
      errNodes := errNodes + kept;
    }
  }

  lemma EmptyList(head: ListHead<Item>)
    requires head.next == head && head.prev == head
    ensures IsList(head, []) && Nodes(head, []) == {head}
  {}

  /** What the pieces of plugin_exec_persist add up to. */
  lemma PersistParts(p: Plug, q: Plug, error: bool, batch: seq<Item>)
    requires batch == if error then [] else Select(p.runData, IsBatch)
    requires q.runData == if error then [] else Select(p.runData, IsOther)
    requires q.checkErr == p.checkErr + Select(batch, IsResult)
    requires q.stored == if batch == [] then p.stored else p.stored + batch
    requires q.freed == p.freed + (if error then p.runData else []) + Select(batch, NotResult)
    requires q.made == p.made
    ensures q == Persist(p, error)
  {
    hide Select;
    if batch == [] {
      assert p.stored + batch == p.stored;
    }
    if error {
      assert p.checkErr + Select(batch, IsResult) == p.checkErr by {
        SelectNone(batch, IsResult);
      }
      SelectNone(batch, NotResult);
    }
  }

  /** The first loop of plugin_exec_persist: monitor and result data move to the list to
      persist. */
  function Sort(x: Item): Fate {
    if IsBatch(x) then Relink else Keep
  }

  /** The last loop: results are kept for the error check, the rest is freed. */
  function Settle(x: Item): Fate {
    if IsResult(x) then Relink else Delete
  }

  function Discard(x: Item): Fate {
    Delete
  }

  lemma {:induction false} AllDiscarded(s: seq<ListHead<Item>>)
    ensures Fated(s, Discard, Delete) == s && Fated(s, Discard, Keep) == [] && Fated(s, Discard, Relink) == []
  {
    if s != [] {
      AllDiscarded(s[..|s| - 1]);
    }
  }

  lemma SortFacts(s: seq<ListHead<Item>>, head: ListHead<Item>, other: ListHead<Item>)
    requires Apart(head, s) && other !in Nodes(head, s)
    ensures var left, batch := Fated(s, Sort, Keep), Fated(s, Sort, Relink);
            && Nodes(head, left) <= Nodes(head, s) && Nodes(other, batch) <= Nodes(head, s) + {other}
            && Nodes(head, left) !! Nodes(other, batch)
            && Owners(left) == Select(Owners(s), IsOther) && Owners(batch) == Select(Owners(s), IsBatch)
    ensures Owners(Fated(s, Sort, Delete)) == []
  {
    FatedIsPart(s, Sort, Keep);
    FatedIsPart(s, Sort, Relink);
    FatedOwners(s, Sort, Keep, IsOther);
    FatedOwners(s, Sort, Relink, IsBatch);
    FatedOwners(s, Sort, Delete, Never);
    SelectNone(Owners(s), Never);
  }

  /** The first loop of plugin_exec_persist. */
  method SortOut(head: ListHead<Item>, other: ListHead<Item>, error: bool, ghost s: seq<ListHead<Item>>)
    returns (gone: seq<Item>, ghost left: seq<ListHead<Item>>, ghost batch: seq<ListHead<Item>>)
    requires IsList(head, s) && IsList(other, []) && other !in Nodes(head, s)
    modifies Nodes(head, s), other
    ensures IsList(head, left) && IsList(other, batch) && Nodes(head, left) !! Nodes(other, batch)
    ensures Nodes(head, left) <= Nodes(head, s) && Nodes(other, batch) <= Nodes(head, s) + {other}
    ensures Owners(left) == (if error then [] else Select(Owners(s), IsOther))
    ensures Owners(batch) == (if error then [] else Select(Owners(s), IsBatch))
    ensures gone == (if error then Owners(s) else [])
  {
    var visited;
    if error {
      gone := DeleteAll(head, s);
      left, batch := [], [];
    } else {
      SortFacts(s, head, other);
      left, batch := Fated(s, Sort, Keep), Fated(s, Sort, Relink);
      assert [] + batch == batch;
      hide Fated, IsList, Select;
      visited, gone := TraverseSafely(head, other, Sort, s, []);
    }
  }

  /** The last loop of plugin_exec_persist. */
  method SettleBatch(list: ListHead<Item>, other: ListHead<Item>,
                     ghost batch: seq<ListHead<Item>>, ghost o: seq<ListHead<Item>>)
    returns (gone: seq<Item>, ghost kept: seq<ListHead<Item>>)
    requires IsList(list, batch) && IsList(other, o) && Nodes(list, batch) !! Nodes(other, o)
    modifies Nodes(list, batch), Nodes(other, o)
    ensures IsList(other, o + kept) && Nodes(other, o + kept) <= Nodes(other, o) + (Nodes(list, batch) - {list})
    ensures Owners(o + kept) == Owners(o) + Select(Owners(batch), IsResult)
    ensures gone == Select(Owners(batch), NotResult)
  {
    var visited;
    kept := Fated(batch, Settle, Relink);
    FatedIsPart(batch, Settle, Relink);
    FatedOwners(batch, Settle, Relink, IsResult);
    FatedOwners(batch, Settle, Delete, NotResult);
    hide Fated, IsList, Select;
    visited, gone := TraverseSafely(list, other, Settle, batch, o);
  }

  predicate Never(x: Item) {
    false
  }

  /** A traversal that deletes every entry and frees its data. */
  method DeleteAll(head: ListHead<Item>, ghost s: seq<ListHead<Item>>) returns (gone: seq<Item>)
    requires IsList(head, s)
    modifies Nodes(head, s)
    ensures IsList(head, []) && gone == Owners(s)
  {
    var visited;
    var spare := new ListHead<Item>(NO_DATA);
    AllDiscarded(s);
    visited, gone := TraverseSafely(head, spare, Discard, s, []);
  }

  /** Selecting entries and selecting data are the same. */
  lemma {:induction false} FatedOwners(s: seq<ListHead<Item>>, choose: Item -> Fate, fate: Fate, f: Item -> bool)
    requires forall x :: choose(x) == fate <==> f(x)
    ensures Owners(Fated(s, choose, fate)) == Select(Owners(s), f)
  {
    if s != [] {
      FatedOwners(s[..|s| - 1], choose, fate, f);
      assert Owners(s)[..|s| - 1] == Owners(s[..|s| - 1]);
    }
  }
}
