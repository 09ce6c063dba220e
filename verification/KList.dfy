/** The intrusive circular doubly linked list: every operation rewires next and prev, and
    stands for one on sequences. */
module KList {

  /** A list head or an entry. `owner` is the struct the entry is embedded in, which
      list_entry recovers; a bare head has none. A null pointer stands for the poison
      values that list_del leaves behind. */
  class ListHead<T> {
    var next: ListHead?<T>
    var prev: ListHead?<T>
    const owner: T

    /** INIT_LIST_HEAD on a new head or entry. */
    constructor (owner: T)
      ensures next == this && prev == this && this.owner == owner
    {
      this.owner := owner;
      next := this;
      prev := this;
    }
  }

  /** The i-th node on the way round: the head, the entries, and the head again. */
  ghost function At<T>(head: ListHead<T>, s: seq<ListHead<T>>, i: nat): ListHead<T> {
    if 1 <= i <= |s| then s[i - 1] else head
  }

  ghost predicate Linked<T>(head: ListHead<T>, s: seq<ListHead<T>>, i: nat)
    reads At(head, s, i), At(head, s, i + 1)
  {
    At(head, s, i).next == At(head, s, i + 1) && At(head, s, i + 1).prev == At(head, s, i)
  }

  ghost predicate Apart<T>(head: ListHead<T>, s: seq<ListHead<T>>) {
    && (forall i, j :: 0 <= i < j < |s| ==> s[i] != s[j])
    && (forall i :: 0 <= i < |s| ==> s[i] != head)
  }

  ghost function Nodes<T>(head: ListHead<T>, s: seq<ListHead<T>>): set<ListHead<T>> {
    {head} + set n | n in s
  }

  /** `head` heads the list of exactly these entries: next and prev are mutually inverse
      all the way round, and no entry stands twice. */
  ghost predicate IsList<T>(head: ListHead<T>, s: seq<ListHead<T>>)
    reads Nodes(head, s)
  {
    Apart(head, s) && forall i :: 0 <= i <= |s| ==> Linked(head, s, i)
  }

  /** INIT_LIST_HEAD */
  method Init<T>(list: ListHead<T>)
    modifies list
    ensures IsList(list, [])
  {
    list.next := list;
    list.prev := list;
  }

  /** Two different links start at different nodes and end at different ones. */
  lemma LinksApart<T>(head: ListHead<T>, s: seq<ListHead<T>>, i: nat, k: nat)
    requires Apart(head, s) && i <= |s| && k <= |s| && i != k
    ensures At(head, s, i) != At(head, s, k) && At(head, s, i + 1) != At(head, s, k + 1)
  {}

  function Insert<T>(s: seq<T>, i: nat, x: T): seq<T>
    requires i <= |s|
  {
    s[..i] + [x] + s[i..]
  }

  function Remove<T>(s: seq<T>, i: nat): seq<T>
    requires i < |s|
  {
    s[..i] + s[i + 1..]
  }

  lemma AtInsert<T>(head: ListHead<T>, s: seq<ListHead<T>>, i: nat, x: ListHead<T>, j: nat)
    requires i <= |s| && j <= |s| + 2
    ensures At(head, Insert(s, i, x), j) == if j <= i then At(head, s, j) else if j == i + 1 then x else At(head, s, j - 1)
  {}

  lemma ApartInsert<T>(head: ListHead<T>, s: seq<ListHead<T>>, i: nat, x: ListHead<T>)
    requires Apart(head, s) && i <= |s| && x !in Nodes(head, s)
    ensures Apart(head, Insert(s, i, x))
  {}

  /** __list_add between two neighbours. */
  method AddBetween<T>(entry: ListHead<T>, prev: ListHead<T>, next: ListHead<T>,
                       ghost head: ListHead<T>, ghost s: seq<ListHead<T>>, ghost i: nat)
    requires IsList(head, s) && entry !in Nodes(head, s) && i <= |s|
    requires prev == At(head, s, i) && next == At(head, s, i + 1)
    modifies entry, prev, next
    ensures IsList(head, Insert(s, i, entry))
  {
    ghost var s' := Insert(s, i, entry);
    ApartInsert(head, s, i, entry);
    next.prev := entry;
    entry.next := next;
    entry.prev := prev;
    prev.next := entry;
    forall j | 0 <= j <= |s'| ensures Linked(head, s', j) {
      AtInsert(head, s, i, entry, j);
      AtInsert(head, s, i, entry, j + 1);
      if j != i && j != i + 1 {
        var k := if j < i then j else j - 1;
        assert old(Linked(head, s, k));
        LinksApart(head, s, k, i);
      }
    }
  }

  /** list_add */
  method Add<T>(entry: ListHead<T>, head: ListHead<T>, ghost s: seq<ListHead<T>>)
    requires IsList(head, s) && entry !in Nodes(head, s)
    modifies entry, Nodes(head, s)
    ensures IsList(head, [entry] + s)
  {
    assert Linked(head, s, 0);
    AddBetween(entry, head, head.next, head, s, 0);
    assert Insert(s, 0, entry) == [entry] + s;
  }

  /** list_add_tail */
  method AddTail<T>(entry: ListHead<T>, head: ListHead<T>, ghost s: seq<ListHead<T>>)
    requires IsList(head, s) && entry !in Nodes(head, s)
    modifies entry, Nodes(head, s)
    ensures IsList(head, s + [entry])
  {
    assert Linked(head, s, |s|);
    AddBetween(entry, head.prev, head, head, s, |s|);
    assert Insert(s, |s|, entry) == s + [entry];
  }

  lemma AtRemove<T>(head: ListHead<T>, s: seq<ListHead<T>>, i: nat, j: nat)
    requires i < |s| && j <= |s|
    ensures At(head, Remove(s, i), j) == if j <= i then At(head, s, j) else At(head, s, j + 1)
  {}

  lemma ApartRemove<T>(head: ListHead<T>, s: seq<ListHead<T>>, i: nat)
    requires Apart(head, s) && i < |s|
    ensures Apart(head, Remove(s, i)) && s[i] !in Nodes(head, Remove(s, i))
    ensures Nodes(head, Remove(s, i)) <= Nodes(head, s)
  {}

  /** __list_del, on the neighbours of entry i. */
  method DelBetween<T>(prev: ListHead<T>, next: ListHead<T>,
                       ghost head: ListHead<T>, ghost s: seq<ListHead<T>>, ghost i: nat)
    requires IsList(head, s) && i < |s| && prev == At(head, s, i) && next == At(head, s, i + 2)
    modifies prev, next
    ensures IsList(head, Remove(s, i))
    ensures s[i].next == old(s[i].next) && s[i].prev == old(s[i].prev)
  {
    ghost var s' := Remove(s, i);
    ApartRemove(head, s, i);
    LinksApart(head, s, i, i + 1);
    next.prev := prev;
    prev.next := next;
    forall j | 0 <= j <= |s'| ensures Linked(head, s', j) {
      AtRemove(head, s, i, j);
      AtRemove(head, s, i, j + 1);
      if j != i {
        var k := if j < i then j else j + 1;
        assert old(Linked(head, s, k));
        LinksApart(head, s, k, i);
        LinksApart(head, s, k, i + 1);
      }
    }
  }

  /** The neighbours of entry i. */
  lemma Neighbours<T>(head: ListHead<T>, s: seq<ListHead<T>>, i: nat)
    requires IsList(head, s) && i < |s|
    ensures s[i].prev == At(head, s, i) && s[i].next == At(head, s, i + 2)
  {
    assert Linked(head, s, i) && Linked(head, s, i + 1);
  }

  /** __list_del_entry */
  method DelEntry<T>(entry: ListHead<T>, ghost head: ListHead<T>, ghost s: seq<ListHead<T>>, ghost i: nat)
    requires IsList(head, s) && i < |s| && entry == s[i]
    modifies Nodes(head, s) - {entry}
    ensures IsList(head, Remove(s, i)) && entry !in Nodes(head, Remove(s, i))
  {
    Neighbours(head, s, i);
    ApartRemove(head, s, i);
    LinksApart(head, s, i, i + 1);
    DelBetween(entry.prev, entry.next, head, s, i);
  }

  /** list_del */
  method Del<T>(entry: ListHead<T>, ghost head: ListHead<T>, ghost s: seq<ListHead<T>>, ghost i: nat)
    requires IsList(head, s) && i < |s| && entry == s[i]
    modifies Nodes(head, s)
    ensures IsList(head, Remove(s, i)) && entry !in Nodes(head, Remove(s, i))
    ensures entry.next == null && entry.prev == null
  {
    DelEntry(entry, head, s, i);
    entry.next := null;
    entry.prev := null;
  }

  /** list_del_init: the entry ends up as an empty list of its own. */
  method DelInit<T>(entry: ListHead<T>, ghost head: ListHead<T>, ghost s: seq<ListHead<T>>, ghost i: nat)
    requires IsList(head, s) && i < |s| && entry == s[i]
    modifies Nodes(head, s)
    ensures IsList(head, Remove(s, i)) && IsList(entry, [])
  {
    DelEntry(entry, head, s, i);
    Init(entry);
  }

  /** list_move: from anywhere in one list to the front of another, or of the same. */
  method Move<T>(entry: ListHead<T>, head: ListHead<T>, ghost t: seq<ListHead<T>>,
                 ghost from: ListHead<T>, ghost s: seq<ListHead<T>>, ghost i: nat)
    requires IsList(from, s) && i < |s| && entry == s[i]
    requires IsList(head, t) && if head == from then t == s else Nodes(head, t) !! Nodes(from, s)
    modifies Nodes(from, s), Nodes(head, t)
    ensures head == from ==> IsList(head, [entry] + Remove(s, i))
    ensures head != from ==> IsList(from, Remove(s, i)) && IsList(head, [entry] + t)
  {
    DelEntry(entry, from, s, i);
    Add(entry, head, if head == from then Remove(s, i) else t);
  }

  /** list_move_tail: the same to the end. */
  method MoveTail<T>(entry: ListHead<T>, head: ListHead<T>, ghost t: seq<ListHead<T>>,
                     ghost from: ListHead<T>, ghost s: seq<ListHead<T>>, ghost i: nat)
    requires IsList(from, s) && i < |s| && entry == s[i]
    requires IsList(head, t) && if head == from then t == s else Nodes(head, t) !! Nodes(from, s)
    modifies Nodes(from, s), Nodes(head, t)
    ensures head == from ==> IsList(head, Remove(s, i) + [entry])
    ensures head != from ==> IsList(from, Remove(s, i)) && IsList(head, t + [entry])
  {
    DelEntry(entry, from, s, i);
    AddTail(entry, head, if head == from then Remove(s, i) else t);
  }

  /** list_empty */
  method IsEmpty<T>(head: ListHead<T>, ghost s: seq<ListHead<T>>) returns (empty: bool)
    requires IsList(head, s)
    ensures empty == (s == [])
  {
    assert Linked(head, s, 0);
    empty := head.next == head;
  }

  /** list_is_singular */
  method IsSingular<T>(head: ListHead<T>, ghost s: seq<ListHead<T>>) returns (singular: bool)
    requires IsList(head, s)
    ensures singular == (|s| == 1)
  {
    assert Linked(head, s, 0) && Linked(head, s, |s|);
    singular := head.next != head && head.next == head.prev;
  }

  /** list_rotate_left */
  method RotateLeft<T>(head: ListHead<T>, ghost s: seq<ListHead<T>>)
    requires IsList(head, s)
    modifies Nodes(head, s)
    ensures IsList(head, if s == [] then [] else s[1..] + [s[0]])
  {
    var empty := IsEmpty(head, s);
    if !empty {
      assert Linked(head, s, 0);
      var first := head.next;
      MoveTail(first, head, s, head, s, 0);
      assert Remove(s, 0) == s[1..];
    }
  }

  /** __list_cut_position, after entry number c. */
  method CutAfter<T>(list: ListHead<T>, head: ListHead<T>, entry: ListHead<T>, ghost s: seq<ListHead<T>>, ghost c: nat)
    requires IsList(head, s) && list !in Nodes(head, s) && 1 <= c <= |s| && entry == s[c - 1]
    modifies list, Nodes(head, s)
    ensures IsList(list, s[..c]) && IsList(head, s[c..])
  {
    assert Linked(head, s, 0) && Linked(head, s, c);
    var newFirst: ListHead<T> := entry.next;
    list.next := head.next;
    var first: ListHead<T> := head.next;
    first.prev := list;
    list.prev := entry;
    entry.next := list;
    head.next := newFirst;
    newFirst.prev := head;
    forall j | 0 <= j <= c ensures Linked(list, s[..c], j) {
      if 0 < j < c {
        assert old(Linked(head, s, j));
        LinksApart(head, s, j, 0);
        LinksApart(head, s, j, c);
      }
    }
    forall j | 0 <= j <= |s| - c ensures Linked(head, s[c..], j) {
      if j > 0 {
        assert old(Linked(head, s, c + j));
        LinksApart(head, s, c + j, 0);
        LinksApart(head, s, c + j, c);
      }
    }
  }

  /** list_cut_position: the entries up to and including the c-th go to `list`. On an empty
      list nothing happens, so `list` is not even initialised. */
  method CutPosition<T>(list: ListHead<T>, head: ListHead<T>, entry: ListHead<T>,
                        ghost s: seq<ListHead<T>>, ghost c: nat)
    requires IsList(head, s) && list !in Nodes(head, s) && c <= |s| && entry == At(head, s, c)
    modifies list, Nodes(head, s)
    ensures s != [] ==> IsList(list, s[..c]) && IsList(head, s[c..])
    ensures s == [] ==> unchanged(list) && IsList(head, [])
  {
    var empty := IsEmpty(head, s);
    if empty {
      return;
    }
    var singular := IsSingular(head, s);
    assert Linked(head, s, 0);
    if singular && head.next != entry && head != entry {
      return;
    }
    if entry == head {
      Init(list);
    } else {
      CutAfter(list, head, entry, s, c);
    }
  }

  /** The entries t put into s at position i. */
  function Join<T>(s: seq<T>, i: nat, t: seq<T>): seq<T>
    requires i <= |s|
  {
    s[..i] + t + s[i..]
  }

  lemma AtJoin<T>(head: ListHead<T>, s: seq<ListHead<T>>, i: nat, list: ListHead<T>, t: seq<ListHead<T>>, j: nat)
    requires i <= |s| && t != [] && j <= |s| + |t| + 1
    ensures At(head, Join(s, i, t), j)
         == if j <= i then At(head, s, j) else if j <= i + |t| then At(list, t, j - i) else At(head, s, j - |t|)
  {}

  lemma ApartJoin<T>(head: ListHead<T>, s: seq<ListHead<T>>, i: nat, list: ListHead<T>, t: seq<ListHead<T>>)
    requires Apart(head, s) && Apart(list, t) && Nodes(head, s) !! Nodes(list, t) && i <= |s|
    ensures Apart(head, Join(s, i, t))
  {
    var r := Join(s, i, t);
    assert forall k :: 0 <= k < |s| ==> s[k] in Nodes(head, s);
    assert forall k :: 0 <= k < |t| ==> t[k] in Nodes(list, t);
    forall a, b | 0 <= a < b < |r| ensures r[a] != r[b] {
      assert r[a] == if a < i then s[a] else if a < i + |t| then t[a - i] else s[a - |t|];
      assert r[b] == if b < i then s[b] else if b < i + |t| then t[b - i] else s[b - |t|];
    }
  }

  /** __list_splice: the entries of `list` go between two neighbours. `list` itself is left
      pointing at entries that are no longer its own. */
  method SpliceBetween<T>(list: ListHead<T>, prev: ListHead<T>, next: ListHead<T>, ghost t: seq<ListHead<T>>,
                          ghost head: ListHead<T>, ghost s: seq<ListHead<T>>, ghost i: nat)
    requires IsList(head, s) && IsList(list, t) && t != [] && Nodes(head, s) !! Nodes(list, t)
    requires i <= |s| && prev == At(head, s, i) && next == At(head, s, i + 1)
    modifies Nodes(head, s), Nodes(list, t) - {list}
    ensures IsList(head, Join(s, i, t))
  {
    ghost var r, n := Join(s, i, t), |t|;
    assert Linked(list, t, 0) && Linked(list, t, n);
    ApartJoin(head, s, i, list, t);
    var first: ListHead<T>, last: ListHead<T> := list.next, list.prev;
    first.prev := prev;
    prev.next := first;
    last.next := next;
    next.prev := last;
    forall j | 0 <= j <= |r| ensures Linked(head, r, j) {
      AtJoin(head, s, i, list, t, j);
      AtJoin(head, s, i, list, t, j + 1);
      if j < i {
        assert old(Linked(head, s, j));
        LinksApart(head, s, j, i);
      } else if i < j < i + n {
        assert old(Linked(list, t, j - i));
        LinksApart(list, t, j - i, 0);
        LinksApart(list, t, j - i, n);
      } else if j > i + n {
        assert old(Linked(head, s, j - n));
        LinksApart(head, s, j - n, i);
      }
    }
  }

  /** list_splice */
  method Splice<T>(list: ListHead<T>, head: ListHead<T>, ghost t: seq<ListHead<T>>, ghost s: seq<ListHead<T>>)
    requires IsList(head, s) && IsList(list, t) && Nodes(head, s) !! Nodes(list, t)
    modifies Nodes(head, s), Nodes(list, t) - {list}
    ensures IsList(head, t + s)
  {
    var empty := IsEmpty(list, t);
    if !empty {
      assert Linked(head, s, 0);
      SpliceBetween(list, head, head.next, t, head, s, 0);
      assert Join(s, 0, t) == t + s;
    }
    assert t == [] ==> t + s == s;
  }

  /** list_splice_tail */
  method SpliceTail<T>(list: ListHead<T>, head: ListHead<T>, ghost t: seq<ListHead<T>>, ghost s: seq<ListHead<T>>)
    requires IsList(head, s) && IsList(list, t) && Nodes(head, s) !! Nodes(list, t)
    modifies Nodes(head, s), Nodes(list, t) - {list}
    ensures IsList(head, s + t)
  {
    var empty := IsEmpty(list, t);
    if !empty {
      assert Linked(head, s, |s|);
      SpliceBetween(list, head.prev, head, t, head, s, |s|);
      assert Join(s, |s|, t) == s + t;
    }
    assert t == [] ==> s + t == s;
  }

  /** list_splice_init */
  method SpliceInit<T>(list: ListHead<T>, head: ListHead<T>, ghost t: seq<ListHead<T>>, ghost s: seq<ListHead<T>>)
    requires IsList(head, s) && IsList(list, t) && Nodes(head, s) !! Nodes(list, t)
    modifies Nodes(head, s), Nodes(list, t)
    ensures IsList(head, t + s) && IsList(list, [])
  {
    var empty := IsEmpty(list, t);
    if !empty {
      assert Linked(head, s, 0);
      SpliceBetween(list, head, head.next, t, head, s, 0);
      assert Join(s, 0, t) == t + s;
      Init(list);
    }
    assert t == [] ==> t + s == s;
  }

  /** list_splice_tail_init */
  method SpliceTailInit<T>(list: ListHead<T>, head: ListHead<T>, ghost t: seq<ListHead<T>>, ghost s: seq<ListHead<T>>)
    requires IsList(head, s) && IsList(list, t) && Nodes(head, s) !! Nodes(list, t)
    modifies Nodes(head, s), Nodes(list, t)
    ensures IsList(head, s + t) && IsList(list, [])
  {
    var empty := IsEmpty(list, t);
    if !empty {
      assert Linked(head, s, |s|);
      SpliceBetween(list, head.prev, head, t, head, s, |s|);
      assert Join(s, |s|, t) == s + t;
      Init(list);
    }
    assert t == [] ==> s + t == s;
  }

  // -------------------------------------------------- list_for_each_entry_safe

  /** What the body of a traversal does with an entry. */
  datatype Fate = Keep | Delete | Relink

  /** The entries with the given fate, in order. */
  ghost function Fated<T>(s: seq<ListHead<T>>, choose: T -> Fate, fate: Fate): seq<ListHead<T>> {
    if s == [] then []
    else
      var last := s[|s| - 1];
      Fated(s[..|s| - 1], choose, fate) + (if choose(last.owner) == fate then [last] else [])
  }

  lemma {:induction false} FatedIsPart<T>(s: seq<ListHead<T>>, choose: T -> Fate, fate: Fate)
    ensures forall n :: n in Fated(s, choose, fate) ==> n in s && choose(n.owner) == fate
  {
    if s != [] {
      FatedIsPart(s[..|s| - 1], choose, fate);
    }
  }

  lemma FatedStep<T>(s: seq<ListHead<T>>, choose: T -> Fate, fate: Fate, i: nat)
    requires i < |s|
    ensures Fated(s[..i + 1], choose, fate)
         == Fated(s[..i], choose, fate) + (if choose(s[i].owner) == fate then [s[i]] else [])
  {
    assert s[..i + 1][..i] == s[..i];
  }

  /** The traversed list when i entries have been visited. */
  ghost function Left<T>(s: seq<ListHead<T>>, choose: T -> Fate, i: nat): seq<ListHead<T>>
    requires i <= |s|
  {
    Fated(s[..i], choose, Keep) + s[i..]
  }

  lemma LeftStep<T>(s: seq<ListHead<T>>, choose: T -> Fate, i: nat)
    requires i < |s|
    ensures var k := |Fated(s[..i], choose, Keep)|;
            && k < |Left(s, choose, i)| && Left(s, choose, i)[k] == s[i]
            && Left(s, choose, i + 1)
               == (if choose(s[i].owner) == Keep then Left(s, choose, i) else Remove(Left(s, choose, i), k))
  {
    FatedStep(s, choose, Keep, i);
  }

  lemma LeftIsPart<T>(head: ListHead<T>, s: seq<ListHead<T>>, choose: T -> Fate, i: nat)
    requires i <= |s|
    ensures Nodes(head, Left(s, choose, i)) <= Nodes(head, s)
    ensures Apart(head, s) ==> forall n :: n in Fated(s[..i], choose, Relink) ==> n in s && n !in Left(s, choose, i)
  {
    FatedIsPart(s[..i], choose, Keep);
    FatedIsPart(s[..i], choose, Relink);
    if Apart(head, s) {
      forall n | n in Fated(s[..i], choose, Relink) ensures n !in Left(s, choose, i) {
        var k :| 0 <= k < i && s[k] == n;
      }
    }
  }

  lemma NextOf<T>(head: ListHead<T>, s: seq<ListHead<T>>, i: nat)
    requires IsList(head, s) && i <= |s| + 1
    ensures At(head, s, i).next == if i <= |s| then At(head, s, i + 1) else At(head, s, 1)
  {
    assert Linked(head, s, if i <= |s| then i else 0);
  }

  /** What is still ahead is linked as it was in the full list. */
  lemma LeftNext<T>(head: ListHead<T>, s: seq<ListHead<T>>, choose: T -> Fate, i: nat)
    requires i <= |s| && IsList(head, Left(s, choose, i))
    ensures At(head, s, i + 1).next != null
    ensures i < |s| ==> At(head, s, i + 1).next == At(head, s, i + 2)
  {
    var k := |Fated(s[..i], choose, Keep)|;
    NextOf(head, Left(s, choose, i), k + 1);
  }

  /** The two lists in the middle of the traversal. */
  ghost predicate Midway<T>(head: ListHead<T>, other: ListHead<T>, choose: T -> Fate,
                            s: seq<ListHead<T>>, o: seq<ListHead<T>>, i: nat)
    reads Nodes(head, s), Nodes(other, o)
    requires i <= |s|
  {
    LeftIsPart(head, s, choose, i);
    FatedIsPart(s[..i], choose, Relink);
    && Apart(head, s) && Nodes(head, s) !! Nodes(other, o)
    && IsList(head, Left(s, choose, i)) && IsList(other, o + Fated(s[..i], choose, Relink))
  }

  lemma MidwayApart<T>(head: ListHead<T>, other: ListHead<T>, choose: T -> Fate,
                       s: seq<ListHead<T>>, o: seq<ListHead<T>>, i: nat)
    requires i <= |s| && Apart(head, s) && Nodes(head, s) !! Nodes(other, o)
    ensures Nodes(head, Left(s, choose, i)) <= Nodes(head, s)
    ensures Nodes(other, o + Fated(s[..i], choose, Relink)) <= Nodes(other, o) + Nodes(head, s)
    ensures Nodes(head, Left(s, choose, i)) !! Nodes(other, o + Fated(s[..i], choose, Relink))
  {
    LeftIsPart(head, s, choose, i);
    FatedIsPart(s[..i], choose, Relink);
  }

  lemma MidwayIs<T>(head: ListHead<T>, other: ListHead<T>, choose: T -> Fate,
                    s: seq<ListHead<T>>, o: seq<ListHead<T>>, i: nat)
    requires i <= |s| && Apart(head, s) && Nodes(head, s) !! Nodes(other, o)
    ensures Midway(head, other, choose, s, o, i)
       <==> IsList(head, Left(s, choose, i)) && IsList(other, o + Fated(s[..i], choose, Relink))
  {
    hide IsList, Left, Fated, Apart, Nodes;
  }

  /** What becomes of the two lists when entry i meets its fate. */
  lemma NextLists<T>(choose: T -> Fate, s: seq<ListHead<T>>, o: seq<ListHead<T>>, i: nat)
    requires i < |s|
    ensures var fate := choose(s[i].owner);
            var cur, moved, k := Left(s, choose, i), o + Fated(s[..i], choose, Relink), |Fated(s[..i], choose, Keep)|;
            && k < |cur| && cur[k] == s[i]
            && Left(s, choose, i + 1) == (if fate == Keep then cur else Remove(cur, k))
            && o + Fated(s[..i + 1], choose, Relink) == (if fate == Relink then moved + [s[i]] else moved)
  {
    LeftStep(s, choose, i);
    FatedStep(s, choose, Relink, i);
  }

  /** One turn: entry i meets its fate. */
  method MeetFate<T>(pos: ListHead<T>, head: ListHead<T>, other: ListHead<T>, choose: T -> Fate,
                     ghost s: seq<ListHead<T>>, ghost o: seq<ListHead<T>>, ghost i: nat)
    requires i < |s| && Midway(head, other, choose, s, o, i) && pos == s[i]
    modifies Nodes(head, s), Nodes(other, o)
    ensures Midway(head, other, choose, s, o, i + 1)
  {
    ghost var cur, moved, k := Left(s, choose, i), o + Fated(s[..i], choose, Relink), |Fated(s[..i], choose, Keep)|;
    assert Apart(head, s) && Nodes(head, s) !! Nodes(other, o);
    MidwayApart(head, other, choose, s, o, i);
    NextLists(choose, s, o, i);
    MidwayIs(head, other, choose, s, o, i);
    hide Left, Fated, IsList, Apart, Nodes, Midway, Remove;
    match choose(pos.owner) {
      case Keep =>
      case Delete =>
        Del(pos, head, cur, k);
      case Relink =>
        MoveTail(pos, other, moved, head, cur, k);
    }
    MidwayIs(head, other, choose, s, o, i + 1);
  }

  lemma MidwayAtStart<T>(head: ListHead<T>, other: ListHead<T>, choose: T -> Fate,
                         s: seq<ListHead<T>>, o: seq<ListHead<T>>)
    requires IsList(head, s) && IsList(other, o) && Nodes(head, s) !! Nodes(other, o)
    ensures Midway(head, other, choose, s, o, 0)
  {
    assert s[..0] == [] && Left(s, choose, 0) == s && o + [] == o;
  }

  lemma MidwayAtEnd<T>(head: ListHead<T>, other: ListHead<T>, choose: T -> Fate,
                       s: seq<ListHead<T>>, o: seq<ListHead<T>>, i: nat)
    requires i <= |s| && Midway(head, other, choose, s, o, i) && At(head, s, i + 1) == head
    ensures i == |s|
    ensures IsList(head, Fated(s, choose, Keep)) && IsList(other, o + Fated(s, choose, Relink))
  {
    assert Apart(head, s);
    assert s[..|s|] == s && Left(s, choose, |s|) == Fated(s, choose, Keep);
  }

  /** The structs that the entries are embedded in. */
  function Owners<T>(s: seq<ListHead<T>>): (r: seq<T>)
    ensures |r| == |s| && forall i :: 0 <= i < |s| ==> r[i] == s[i].owner
  {
    seq(|s|, i requires 0 <= i < |s| => s[i].owner)
  }

  /** list_for_each_entry_safe with a body that deletes some entries and moves others to
      the end of another list: every original entry is visited once, in order, and meets
      its fate. `gone` are the deleted ones, which the caller frees. */
  method TraverseSafely<T>(head: ListHead<T>, other: ListHead<T>, choose: T -> Fate,
                           ghost s: seq<ListHead<T>>, ghost o: seq<ListHead<T>>) returns (visited: seq<T>, gone: seq<T>)
    requires IsList(head, s) && IsList(other, o) && Nodes(head, s) !! Nodes(other, o)
    modifies Nodes(head, s), Nodes(other, o)
    ensures visited == Owners(s) && gone == Owners(Fated(s, choose, Delete))
    ensures IsList(head, Fated(s, choose, Keep)) && IsList(other, o + Fated(s, choose, Relink))
  {
    hide Fated, IsList, Apart, Nodes;
    visited, gone := [], [];
    ghost var i := 0;
    MidwayAtStart(head, other, choose, s, o);
    NothingFated<T>(choose);
    assert s[..0] == [];
    NextOf(head, s, 0);
    var pos: ListHead<T> := head.next;
    NextOf(head, s, 1);
    var n: ListHead<T> := pos.next;
    while pos != head
      invariant 0 <= i <= |s| && Midway(head, other, choose, s, o, i)
      invariant pos == At(head, s, i + 1) && (i < |s| ==> n == At(head, s, i + 2))
      invariant visited == Owners(s[..i]) && gone == Owners(Fated(s[..i], choose, Delete))
      decreases |s| - i
    {
      visited := visited + [pos.owner];
      if choose(pos.owner) == Delete {
        gone := gone + [pos.owner];
      }
      FatedStep(s, choose, Delete, i);
      MeetFate(pos, head, other, choose, s, o, i);
      i := i + 1;
      pos := n;
      LeftNext(head, s, choose, i);
      n := n.next;
    }
    MidwayAtEnd(head, other, choose, s, o, i);
    assert s[..|s|] == s;
  }

  lemma NothingFated<T>(choose: T -> Fate)
    ensures forall fate :: Fated<T>([], choose, fate) == []
  {}
}
