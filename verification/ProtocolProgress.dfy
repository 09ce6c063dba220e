/** No thread can go on for ever inside a segment. */
module ProtocolProgress {
  import opened RunData
  import opened Protocol
  import opened ProtocolSync
  import opened ProtocolTraces

  /** Steps after which thread t waits at the barrier that ends generation gen, or has
      left. */
  function StepsLeft(c: Config, t: Thread, gen: nat): nat {
    match t.mode
    case Waiting => if t.passed < gen then c.n + 7 else 0
    case Begin => c.n + 6
    case Joining => c.n + 4
    case Exited => c.n + 3
    case Persisting(j) => if j < c.n then c.n - j + 2 else 2
    case Dropping(j) => if j < c.n then c.n - j + 1 else 1
    case InFunction => 2
    case Checking => 2
    case Prelude => 2
    case Ready => 1
    case Done => 0
  }

  function TotalLeft(c: Config, ts: seq<Thread>, gen: nat): nat {
    if ts == [] then 0 else TotalLeft(c, ts[..|ts| - 1], gen) + StepsLeft(c, ts[|ts| - 1], gen)
  }

  /** A step of a thread's own: not of the monitor thread, and not the production of data. */
  predicate IsMove(step: Step) {
    !IsMonitorStep(step) && !step.ProduceItem?
  }

  /** The thread that takes the step. */
  function Mover(c: Config, step: Step): nat
    requires IsMove(step)
  {
    match step
    case Arrive(t) => t
    case Resume(t) => t
    case WorkerBegin(w) => w
    case Return(w, _) => w
    case Check(w) => w
    case _ => c.n
  }

  lemma {:induction false} OneMoves(c: Config, ts: seq<Thread>, gen: nat, t: nat, x: Thread)
    requires t < |ts|
    ensures TotalLeft(c, ts[t := x], gen) == TotalLeft(c, ts, gen) - StepsLeft(c, ts[t], gen) + StepsLeft(c, x, gen)
  {
    hide StepsLeft;
    var k := |ts| - 1;
    if t < k {
      OneMoves(c, ts[..k], gen, t, x);
      assert ts[t := x][..k] == ts[..k][t := x];
    } else {
      assert ts[t := x][..k] == ts[..k];
    }
  }

  lemma {:induction false} TotalIsBounded(c: Config, ts: seq<Thread>, gen: nat)
    ensures TotalLeft(c, ts, gen) <= |ts| * (c.n + 7)
  {
    if ts != [] {
      TotalIsBounded(c, ts[..|ts| - 1], gen);
      assert |ts| * (c.n + 7) == (|ts| - 1) * (c.n + 7) + (c.n + 7);
    }
  }

  /** What a move does to the threads. */
  ghost predicate Moves(c: Config, s: State, u: State, t: nat)
    requires t < |s.threads|
  {
    && |u.threads| == |s.threads| && u.threads == s.threads[t := u.threads[t]]
    && StepsLeft(c, u.threads[t], s.gen) < StepsLeft(c, s.threads[t], s.gen)
    && (u.gen == s.gen || u.gen == s.gen + 1)
  }

  lemma ControllerBeginMoves(c: Config, s: State, now: nat)
    requires Shaped(c, s) && ModeOf(s, c.n) == Begin
    ensures Moves(c, s, DoControllerBegin(c, s, now), c.n)
  {
    hide Decide, Seg, PersistSeg;
  }

  lemma WorkerMoves(c: Config, s: State, step: Step)
    requires Shaped(c, s) && Enabled(c, s, step) && (step.WorkerBegin? || step.Return? || step.Check?)
    ensures Mover(c, step) <= c.n && Moves(c, s, Do(c, s, step), Mover(c, step))
  {
    hide Seg;
  }

  lemma BarrierMoves(c: Config, s: State, step: Step)
    requires SyncInv(c, s) && Enabled(c, s, step) && (step.Arrive? || step.Resume?)
    ensures Mover(c, step) <= c.n && Moves(c, s, Do(c, s, step), Mover(c, step))
  {
    Current(c, s, step.t);
    assert Shaped(c, s);
    hide SyncInv;
  }

  lemma HandlingMoves(c: Config, s: State, step: Step)
    requires Shaped(c, s) && Enabled(c, s, step) && (step.PersistPlug? || step.DropPlug?)
    ensures Moves(c, s, Do(c, s, step), c.n)
  {
    hide Persist, Drop, CallsStorage;
  }

  lemma ControllerMoves(c: Config, s: State, step: Step)
    requires Shaped(c, s) && Enabled(c, s, step) && (step.EndPrelude? || step.JoinMonitor? || step.JoinWorkers?)
    ensures Moves(c, s, Do(c, s, step), c.n)
  {}

  lemma ThreadMoves(c: Config, s: State, step: Step)
    requires SyncInv(c, s) && Enabled(c, s, step) && IsMove(step)
    ensures Mover(c, step) <= c.n && Moves(c, s, Do(c, s, step), Mover(c, step))
  {
    hide Moves;
    if step.ControllerBegin? {
      ControllerBeginMoves(c, s, step.now);
    } else if step.Arrive? || step.Resume? {
      BarrierMoves(c, s, step);
    } else if step.WorkerBegin? || step.Return? || step.Check? {
      WorkerMoves(c, s, step);
    } else if step.PersistPlug? || step.DropPlug? {
      HandlingMoves(c, s, step);
    } else {
      ControllerMoves(c, s, step);
    }
    hide SyncInv, DoControllerBegin;
  }

  /** Every move brings the threads nearer to the end of the generation. */
  lemma MoveMakesProgress(c: Config, s: State, step: Step)
    requires SyncInv(c, s) && Enabled(c, s, step) && IsMove(step)
    ensures var u := Do(c, s, step);
            u.gen == s.gen + 1 || (u.gen == s.gen && TotalLeft(c, u.threads, u.gen) < TotalLeft(c, s.threads, s.gen))
  {
    var u, t := Do(c, s, step), Mover(c, step);
    ThreadMoves(c, s, step);
    hide Do, SyncInv, Enabled, StepsLeft;
    OneMoves(c, s.threads, s.gen, t, u.threads[t]);
  }

  lemma OthersStandStill(c: Config, s: State, step: Step)
    requires Shaped(c, s) && Enabled(c, s, step) && !IsMove(step)
    ensures Do(c, s, step).threads == s.threads && Do(c, s, step).gen == s.gen
  {}

  /** Moves from state i on. */
  function MovesFrom(steps: seq<Step>, i: nat): nat
    decreases |steps|
  {
    if |steps| <= i then 0
    else MovesFrom(steps[..|steps| - 1], i) + (if IsMove(steps[|steps| - 1]) then 1 else 0)
  }

  lemma {:induction false} TraceMoves(c: Config, steps: seq<Step>, ss: seq<State>, i: nat)
    requires Trace(c, steps, ss) && i <= |steps|
    ensures var s, u := ss[i], ss[|steps|];
            && s.gen <= u.gen
            && (s.gen == u.gen ==>
                  MovesFrom(steps, i) + TotalLeft(c, u.threads, u.gen) <= TotalLeft(c, s.threads, s.gen))
    decreases |steps|
  {
    hide Do, Enabled, SyncInv, TotalLeft, IsMove;
    if i < |steps| {
      var n := |steps| - 1;
      TraceMoves(c, steps[..n], ss[..n + 1], i);
      TraceReaches(c, steps[..n], ss[..n + 1]);
      ReachableSync(c, steps[..n], ss[n]);
      if IsMove(steps[n]) {
        MoveMakesProgress(c, ss[n], steps[n]);
      } else {
        OthersStandStill(c, ss[n], steps[n]);
      }
    }
  }

  /** In the course of one generation, in any order, the threads take no more than
      (n + 1) * (n + 7) steps of their own: after so many they are through the barrier, or
      nothing but the monitor thread and the production of data goes on. */
  lemma GenerationIsFinite(c: Config, steps: seq<Step>, ss: seq<State>, i: nat)
    requires Trace(c, steps, ss) && i <= |steps| && ss[|steps|].gen == ss[i].gen
    ensures MovesFrom(steps, i) <= (c.n + 1) * (c.n + 7)
  {
    TraceMoves(c, steps, ss, i);
    ShapedWithin(c, steps, ss, i);
    TotalIsBounded(c, ss[i].threads, ss[i].gen);
    hide Trace, MovesFrom, TotalLeft;
  }

  lemma {:induction false} ShapedWithin(c: Config, steps: seq<Step>, ss: seq<State>, i: nat)
    requires Trace(c, steps, ss) && i <= |steps|
    ensures Shaped(c, ss[i])
    decreases |steps|
  {
    hide Do, Enabled;
    if i < |steps| {
      ShapedWithin(c, steps[..|steps| - 1], ss[..|steps|], i);
    }
  }
}
