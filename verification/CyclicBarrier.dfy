/** A cyclic barrier for any number of parties, as pthread_barrier_wait behaves: the
    last party to arrive completes the generation, and a released party may run ahead
    and arrive again while others have not yet left the wait. */
module CyclicBarrier {

  /** passed: barriers this party has come out of. */
  datatype Party = Party(passed: nat, waiting: bool, gone: bool)

  /** gen: completed generations; count: arrivals in the current one. */
  datatype Barrier = Barrier(gen: nat, count: nat, parties: seq<Party>)

  ghost function Waiters(b: Barrier): set<nat> {
    set t: nat | t < |b.parties| && b.parties[t].waiting && b.parties[t].passed == b.gen
  }

  /** Every party is in the current generation, or was just released into it. */
  ghost predicate Lockstep(b: Barrier) {
    forall t :: 0 <= t < |b.parties| ==>
      var p := b.parties[t];
      && (p.passed == b.gen || (p.passed + 1 == b.gen && p.waiting))
      && (p.gone ==> p.passed == b.gen && !p.waiting)
  }

  ghost predicate Inv(b: Barrier) {
    Lockstep(b) && b.count == |Waiters(b)| && b.count < |b.parties|
  }

  function Start(n: nat): Barrier {
    Barrier(0, 0, seq(n, _ => Party(0, false, false)))
  }

  function Arrive(b: Barrier, t: nat): Barrier
    requires t < |b.parties|
  {
    var parties := b.parties[t := b.parties[t].(waiting := true)];
    if b.count + 1 == |b.parties| then Barrier(b.gen + 1, 0, parties)
    else Barrier(b.gen, b.count + 1, parties)
  }

  function Resume(b: Barrier, t: nat): Barrier
    requires t < |b.parties|
  {
    b.(parties := b.parties[t := b.parties[t].(passed := b.parties[t].passed + 1, waiting := false)])
  }

  function Leave(b: Barrier, t: nat): Barrier
    requires t < |b.parties|
  {
    b.(parties := b.parties[t := b.parties[t].(gone := true)])
  }

  lemma StartHolds(n: nat)
    requires n > 0
    ensures Inv(Start(n))
  {
    assert Waiters(Start(n)) == {};
  }

  /** The numbers below n. */
  ghost function Below(n: nat): (s: set<nat>)
    ensures |s| == n && forall t: nat :: t in s <==> t < n
  {
    if n == 0 then {} else Below(n - 1) + {n - 1}
  }

  lemma SubsetSize(s: set<nat>, t: set<nat>)
    requires s <= t
    ensures |s| <= |t| && (|s| == |t| ==> s == t)
  {
    assert t == s + (t - s);
    assert |t| == |s| + |t - s|;
  }

  /** When all but one have arrived, each of the others has. */
  lemma LastArrival(b: Barrier, t: nat, u: nat)
    requires Inv(b) && t < |b.parties| && t !in Waiters(b) && b.count + 1 == |b.parties|
    requires u < |b.parties| && u != t
    ensures b.parties[u].waiting && b.parties[u].passed == b.gen
  {
    var n := |b.parties|;
    assert Waiters(b) + {t} <= Below(n);
    SubsetSize(Waiters(b) + {t}, Below(n));
    assert u in Below(n);
    assert u in Waiters(b);
  }

  lemma ArriveHolds(b: Barrier, t: nat)
    requires Inv(b) && t < |b.parties| && !b.parties[t].waiting && !b.parties[t].gone
    ensures Inv(Arrive(b, t))
    ensures Arrive(b, t).gen != b.gen ==>
              forall u: nat :: u < |b.parties| && u != t ==> b.parties[u].waiting && b.parties[u].passed == b.gen
  {
    var c := Arrive(b, t);
    assert b.parties[t].passed == b.gen && t !in Waiters(b);
    if b.count + 1 == |b.parties| {
      forall u: nat | u < |b.parties| && u != t
        ensures b.parties[u].waiting && b.parties[u].passed == b.gen
      {
        LastArrival(b, t, u);
      }
      assert Waiters(c) == {};
    } else {
      assert Waiters(c) == Waiters(b) + {t};
    }
  }

  lemma ResumeHolds(b: Barrier, t: nat)
    requires Inv(b) && t < |b.parties| && b.parties[t].waiting && b.parties[t].passed < b.gen
    ensures Inv(Resume(b, t))
  {
    assert Waiters(Resume(b, t)) == Waiters(b);
  }

  lemma LeaveHolds(b: Barrier, t: nat)
    requires Inv(b) && t < |b.parties| && !b.parties[t].waiting && b.parties[t].passed == b.gen
    ensures Inv(Leave(b, t))
  {
    assert Waiters(Leave(b, t)) == Waiters(b);
  }

  /** While nobody has left, somebody is outside the wait or may come out of it. */
  lemma SomeoneCanMove(b: Barrier) returns (t: nat)
    requires Inv(b)
    ensures t < |b.parties| && (!b.parties[t].waiting || b.parties[t].passed < b.gen)
  {
    var n := |b.parties|;
    if Below(n) <= Waiters(b) {
      SubsetSize(Below(n), Waiters(b));
    }
    t :| t in Below(n) && t !in Waiters(b);
  }
}
