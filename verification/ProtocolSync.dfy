/** Lockstep, slot order, agreement on leaving the loop and freedom from deadlock, for
    every number of plugins and every interleaving. */
module ProtocolSync {
  import opened CyclicBarrier
  import opened RunData
  import opened Protocol

  function PartyOf(t: Thread): Party {
    Party(t.passed, t.mode == Waiting, Gone(t.mode))
  }

  function PartiesOf(ts: seq<Thread>): (ps: seq<Party>)
    ensures |ps| == |ts| && forall i :: 0 <= i < |ts| ==> ps[i] == PartyOf(ts[i])
  {
    seq(|ts|, i requires 0 <= i < |ts| => PartyOf(ts[i]))
  }

  /** The threads as parties of their barrier. */
  function BarrierOf(s: State): Barrier {
    Barrier(s.gen, s.count, PartiesOf(s.threads))
  }

  /** Mode m is one that thread t can be in after passing p barriers. */
  predicate Fits(c: Config, t: nat, p: nat, m: Mode) {
    var g := Seg(p);
    match m
    case InFunction => t < c.n && SlotSeg(g)
    case Checking => t < c.n && g == CHECK_SEG
    case Prelude => t == c.n && g == 0
    case Joining => t == c.n && g == JOIN_SEG
    case Persisting(j) => t == c.n && PersistSeg(g) && j <= c.n
    case Exited => g == 0
    case Dropping(j) => t == c.n && g == 0 && j <= c.n
    case Done => t == c.n && g == 0
    case Begin => true
    case Ready => true
    case Waiting => true
  }

  ghost predicate ModesFit(c: Config, s: State)
    requires Shaped(c, s)
  {
    forall t :: 0 <= t <= c.n ==> Fits(c, t, s.threads[t].passed, s.threads[t].mode)
  }

  /** In the current generation, past the loop test. */
  predicate PastTest(m: Mode) {
    m.Ready? || m.Waiting? || m.Prelude?
  }

  /** Who has left, and who has gone on, agrees with the shared state. */
  ghost predicate Agreement(c: Config, s: State)
    requires Shaped(c, s)
  {
    && (s.state == Stop ==> Seg(s.gen) == 0 || Seg(s.gen) >= DECIDE_SEG)
    && (s.state == Stop ==> s.gen > 0)
    && (forall t :: 0 <= t <= c.n && Gone(s.threads[t].mode) ==> s.state == Stop)
    && (Seg(s.gen) == 0 && s.state == Stop ==>
          forall t :: 0 <= t <= c.n && s.threads[t].passed == s.gen ==> !PastTest(s.threads[t].mode))
    && (s.threads[c.n].mode == Prelude ==> s.state != Stop)
    && (s.threads[c.n].mode.Dropping? || s.threads[c.n].mode.Done? ==>
          forall w :: 0 <= w < c.n ==> s.threads[w].mode == Exited)
  }

  /** The controller is past creating the monitor and has not joined it yet. */
  predicate MonitorWindow(c: Config, s: State)
    requires Shaped(c, s)
  {
    var t := s.threads[c.n];
    || (Seg(t.passed) == CREATE_SEG && (t.mode.Ready? || t.mode.Waiting?))
    || Seg(t.passed) == RUN_SEG
    || (Seg(t.passed) == JOIN_SEG && (t.mode.Begin? || t.mode.Joining?))
  }

  ghost predicate MonitorInv(c: Config, s: State)
    requires Shaped(c, s)
  {
    && (s.monitor != Off <==> MonitorWindow(c, s))
    && (s.monitorStop <==> s.threads[c.n].mode == Joining)
    && (s.monitor.InMonitor? ==> s.monitor.plug < c.n)
    && (s.monitor == Ended ==> s.threads[c.n].mode == Joining)
  }

  ghost predicate SyncInv(c: Config, s: State) {
    && Shaped(c, s)
    && Inv(BarrierOf(s))
    && ModesFit(c, s)
    && Agreement(c, s)
    && MonitorInv(c, s)
  }

  // --------------------------------------------------------- preservation

  lemma InitSync(c: Config)
    ensures SyncInv(c, Init(c))
  {
    StartHolds(c.n + 1);
    assert BarrierOf(Init(c)) == Start(c.n + 1);
  }

  /** A step that changes no thread position leaves the barrier alone. */
  lemma SameParties(s: State, u: State)
    requires u.gen == s.gen && u.count == s.count && PartiesOf(u.threads) == PartiesOf(s.threads)
    ensures BarrierOf(u) == BarrierOf(s)
  {}

  lemma ModeChange(s: State, t: nat, m: Mode)
    requires t < |s.threads|
    requires m != Waiting && s.threads[t].mode != Waiting && Gone(m) == Gone(s.threads[t].mode)
    ensures PartiesOf(WithMode(s, t, m).threads) == PartiesOf(s.threads)
  {}

  lemma ArriveKeepsBarrier(c: Config, s: State, t: nat)
    requires Shaped(c, s) && Inv(BarrierOf(s)) && t <= c.n && ModeOf(s, t) == Ready
    ensures BarrierOf(DoArrive(c, s, t)) == CyclicBarrier.Arrive(BarrierOf(s), t)
    ensures Inv(BarrierOf(DoArrive(c, s, t)))
  {
    assert PartiesOf(DoArrive(c, s, t).threads) == CyclicBarrier.Arrive(BarrierOf(s), t).parties;
    ArriveHolds(BarrierOf(s), t);
  }

  lemma ResumeKeepsBarrier(c: Config, s: State, t: nat)
    requires Shaped(c, s) && Inv(BarrierOf(s)) && t <= c.n && ModeOf(s, t) == Waiting && s.threads[t].passed < s.gen
    ensures Inv(BarrierOf(DoResume(s, t)))
  {
    assert PartiesOf(DoResume(s, t).threads) == CyclicBarrier.Resume(BarrierOf(s), t).parties;
    ResumeHolds(BarrierOf(s), t);
  }

  lemma LeaveKeepsBarrier(c: Config, s: State, t: nat)
    requires Shaped(c, s) && Inv(BarrierOf(s)) && t <= c.n && ModeOf(s, t) == Begin
    ensures Inv(BarrierOf(WithMode(s, t, Exited)))
  {
    assert PartiesOf(WithMode(s, t, Exited).threads) == CyclicBarrier.Leave(BarrierOf(s), t).parties;
    LeaveHolds(BarrierOf(s), t);
  }

  /** A thread that is not waiting and has not left stands in the current generation. */
  lemma Current(c: Config, s: State, t: nat)
    requires SyncInv(c, s) && t <= c.n
    ensures s.threads[t].mode != Waiting ==> s.threads[t].passed == s.gen
    ensures s.threads[t].passed == s.gen || (s.threads[t].passed + 1 == s.gen && s.threads[t].mode == Waiting)
  {
    assert PartiesOf(s.threads)[t] == PartyOf(s.threads[t]);
  }

  /** Nobody has left while the current generation is past the loop test. */
  lemma NobodyGone(c: Config, s: State)
    requires SyncInv(c, s) && Seg(s.gen) != 0
    ensures forall t :: 0 <= t <= c.n ==> !Gone(s.threads[t].mode)
  {
    forall t | 0 <= t <= c.n ensures !Gone(s.threads[t].mode) {
      Current(c, s, t);
    }
  }

  lemma NextSeg(p: nat)
    ensures Seg(p + 1) == if Seg(p) == 25 then 0 else Seg(p) + 1
  {}

  lemma ArriveSync(c: Config, s: State, t: nat)
    requires SyncInv(c, s) && t <= c.n && ModeOf(s, t) == Ready
    ensures SyncInv(c, DoArrive(c, s, t))
  {
    ArriveKeepsBarrier(c, s, t);
    Current(c, s, t);
    Current(c, s, c.n);
    NextSeg(s.gen);
    hide Inv, Seg;
    if s.count + 1 == c.n + 1 {
      EveryoneArrived(c, s, t);
    }
  }

  /** Completing a generation: everybody else is waiting in it. */
  lemma EveryoneArrived(c: Config, s: State, t: nat)
    requires SyncInv(c, s) && t <= c.n && ModeOf(s, t) == Ready && s.count == c.n
    ensures forall u :: 0 <= u <= c.n && u != t ==> s.threads[u] == Thread(s.gen, Waiting)
  {
    hide ModesFit, Agreement, MonitorInv;
    ArriveHolds(BarrierOf(s), t);
    forall u: nat | u <= c.n && u != t ensures s.threads[u] == Thread(s.gen, Waiting) {
      assert PartiesOf(s.threads)[u] == PartyOf(s.threads[u]);
    }
  }

  lemma ResumeSync(c: Config, s: State, t: nat)
    requires SyncInv(c, s) && t <= c.n && ModeOf(s, t) == Waiting && s.threads[t].passed < s.gen
    ensures SyncInv(c, DoResume(s, t))
  {
    ResumeKeepsBarrier(c, s, t);
    Current(c, s, t);
    NextSeg(s.threads[t].passed);
    hide Inv, Seg;
  }

  lemma WorkerBeginSync(c: Config, s: State, w: nat)
    requires SyncInv(c, s) && w < c.n && ModeOf(s, w) == Begin
    ensures SyncInv(c, WithMode(s, w, AfterBegin(c, s, w)))
  {
    Current(c, s, w);
    WorkerBeginBarrier(c, s, w);
    hide Inv;
  }

  lemma ReturnSync(c: Config, s: State, w: nat, ok: bool)
    requires SyncInv(c, s) && w < c.n && ModeOf(s, w) == InFunction
    ensures SyncInv(c, DoReturn(s, w, ok))
  {
    Current(c, s, w);
    ModeChange(s, w, Ready);
    SameParties(s, DoReturn(s, w, ok));
    hide Inv;
  }

  lemma CheckAgreement(c: Config, s: State, w: nat)
    requires SyncInv(c, s) && w < c.n && ModeOf(s, w) == Checking
    ensures Shaped(c, DoCheck(c, s, w)) && Agreement(c, DoCheck(c, s, w))
  {
    Current(c, s, w);
    NobodyGone(c, s);
    hide Inv, MonitorInv, ModesFit;
  }

  lemma CheckSync(c: Config, s: State, w: nat)
    requires SyncInv(c, s) && w < c.n && ModeOf(s, w) == Checking
    ensures SyncInv(c, DoCheck(c, s, w))
  {
    ModeChange(s, w, Ready);
    SameParties(s, DoCheck(c, s, w));
    CheckAgreement(c, s, w);
    hide Inv, Agreement;
  }

  lemma WorkerBeginBarrier(c: Config, s: State, w: nat)
    requires Shaped(c, s) && Inv(BarrierOf(s)) && w < c.n && ModeOf(s, w) == Begin
    ensures Inv(BarrierOf(WithMode(s, w, AfterBegin(c, s, w))))
  {
    hide Inv;
    var m := AfterBegin(c, s, w);
    if m == Exited {
      LeaveKeepsBarrier(c, s, w);
    } else {
      ModeChange(s, w, m);
      SameParties(s, WithMode(s, w, m));
    }
  }

  lemma ControllerBeginBarrier(c: Config, s: State, now: nat)
    requires Shaped(c, s) && Inv(BarrierOf(s)) && ModeOf(s, c.n) == Begin
    ensures Inv(BarrierOf(DoControllerBegin(c, s, now)))
  {
    hide Inv;
    var u := DoControllerBegin(c, s, now);
    var m := u.threads[c.n].mode;
    assert u.threads == WithMode(s, c.n, m).threads;
    if m == Exited {
      LeaveKeepsBarrier(c, s, c.n);
      SameParties(WithMode(s, c.n, Exited), u);
    } else {
      ModeChange(s, c.n, m);
      SameParties(s, u);
    }
  }

  lemma ControllerBeginModes(c: Config, s: State, now: nat)
    requires SyncInv(c, s) && ModeOf(s, c.n) == Begin
    ensures var u := DoControllerBegin(c, s, now); Shaped(c, u) && ModesFit(c, u) && MonitorInv(c, u)
  {
    hide Inv, Agreement, Decide;
    Current(c, s, c.n);
  }

  lemma ControllerBeginAgreement(c: Config, s: State, now: nat)
    requires SyncInv(c, s) && ModeOf(s, c.n) == Begin
    ensures var u := DoControllerBegin(c, s, now); Shaped(c, u) && Agreement(c, u)
  {
    Current(c, s, c.n);
    if Seg(s.gen) != 0 {
      NobodyGone(c, s);
    }
    hide Inv, MonitorInv, ModesFit;
  }

  lemma ControllerBeginSync(c: Config, s: State, now: nat)
    requires SyncInv(c, s) && ModeOf(s, c.n) == Begin
    ensures SyncInv(c, DoControllerBegin(c, s, now))
  {
    ControllerBeginBarrier(c, s, now);
    ControllerBeginModes(c, s, now);
    ControllerBeginAgreement(c, s, now);
    hide Inv, ModesFit, Agreement, MonitorInv;
  }

  lemma EndPreludeSync(c: Config, s: State)
    requires SyncInv(c, s) && Enabled(c, s, EndPrelude)
    ensures SyncInv(c, Do(c, s, EndPrelude))
  {
    var u := Do(c, s, EndPrelude);
    Current(c, s, c.n);
    ModeChange(s, c.n, u.threads[c.n].mode);
    SameParties(s, u);
    hide Inv;
  }

  lemma JoinMonitorSync(c: Config, s: State)
    requires SyncInv(c, s) && Enabled(c, s, JoinMonitor)
    ensures SyncInv(c, Do(c, s, JoinMonitor))
  {
    var u := Do(c, s, JoinMonitor);
    Current(c, s, c.n);
    ModeChange(s, c.n, u.threads[c.n].mode);
    SameParties(s, u);
    hide Inv;
  }

  lemma JoinWorkersSync(c: Config, s: State)
    requires SyncInv(c, s) && Enabled(c, s, JoinWorkers)
    ensures SyncInv(c, WithMode(s, c.n, Dropping(0)))
  {
    Current(c, s, c.n);
    ModeChange(s, c.n, Dropping(0));
    SameParties(s, WithMode(s, c.n, Dropping(0)));
    hide Inv;
  }

  lemma PersistPlugSync(c: Config, s: State, ok: bool)
    requires SyncInv(c, s) && ModeOf(s, c.n).Persisting?
    ensures SyncInv(c, DoPersistPlug(c, s, ok))
  {
    var u := DoPersistPlug(c, s, ok);
    Current(c, s, c.n);
    ModeChange(s, c.n, u.threads[c.n].mode);
    SameParties(s, u);
    hide Inv;
  }

  lemma DropPlugSync(c: Config, s: State)
    requires SyncInv(c, s) && ModeOf(s, c.n).Dropping?
    ensures SyncInv(c, DoDropPlug(c, s))
  {
    var u := DoDropPlug(c, s);
    Current(c, s, c.n);
    ModeChange(s, c.n, u.threads[c.n].mode);
    SameParties(s, u);
    hide Inv;
  }

  lemma InPlaceSync(c: Config, s: State, step: Step)
    requires SyncInv(c, s) && Enabled(c, s, step)
    requires step.MonitorLoop? || step.MonitorPoll? || step.MonitorProduce? || step.MonitorReturn?
      || step.ProduceItem?
    ensures SyncInv(c, Do(c, s, step))
  {
    SameParties(s, Do(c, s, step));
    hide Inv;
  }

  /** Every step of every thread keeps the invariant. */
  lemma StepKeepsSync(c: Config, s: State, step: Step)
    requires SyncInv(c, s) && Enabled(c, s, step)
    ensures SyncInv(c, Do(c, s, step))
  {
    hide SyncInv;
    match step
    case Arrive(t) => ArriveSync(c, s, t);
    case Resume(t) => ResumeSync(c, s, t);
    case ControllerBegin(now) => ControllerBeginSync(c, s, now);
    case WorkerBegin(w) => WorkerBeginSync(c, s, w);
    case ProduceItem(_, _) => InPlaceSync(c, s, step);
    case Return(w, ok) => ReturnSync(c, s, w, ok);
    case Check(w) => CheckSync(c, s, w);
    case EndPrelude => EndPreludeSync(c, s);
    case JoinMonitor => JoinMonitorSync(c, s);
    case PersistPlug(ok) => PersistPlugSync(c, s, ok);
    case JoinWorkers => JoinWorkersSync(c, s);
    case DropPlug => DropPlugSync(c, s);
    case MonitorLoop => InPlaceSync(c, s, step);
    case MonitorPoll => InPlaceSync(c, s, step);
    case MonitorProduce(_) => InPlaceSync(c, s, step);
    case MonitorReturn => InPlaceSync(c, s, step);
  }

  lemma {:induction false} ReachableSync(c: Config, steps: seq<Step>, s: State)
    requires Reaches(c, steps, s)
    ensures SyncInv(c, s)
    decreases |steps|
  {
    hide SyncInv, Do;
    if steps == [] {
      InitSync(c);
    } else {
      var r: State :| Reaches(c, steps[..|steps| - 1], r) && Shaped(c, r)
        && Enabled(c, r, steps[|steps| - 1]) && s == Do(c, r, steps[|steps| - 1]);
      ReachableSync(c, steps[..|steps| - 1], r);
      StepKeepsSync(c, r, steps[|steps| - 1]);
    }
  }

  // ---------------------------------------------------------------- results

  /** Two threads are never more than one barrier apart, and the one behind is already
      released: in particular no thread waits at a barrier another has skipped. */
  lemma ThreadsInLockstep(c: Config, steps: seq<Step>, s: State, t: nat, u: nat)
    requires Reaches(c, steps, s) && t <= c.n && u <= c.n
    ensures |s.threads| == c.n + 1
    ensures s.threads[t].passed == s.threads[u].passed
         || (s.threads[t].passed + 1 == s.threads[u].passed && s.threads[t].mode == Waiting)
         || (s.threads[u].passed + 1 == s.threads[t].passed && s.threads[u].mode == Waiting)
  {
    ReachableSync(c, steps, s);
    Current(c, s, t);
    Current(c, s, u);
  }

  /** Slots that lie before segment g of an iteration. */
  function SlotsBefore(g: nat): nat {
    if g <= 8 then g / 2 else if g <= 11 then 4 else if g <= 22 then (g - 2) / 2 else 10
  }

  lemma SlotsBeforeCounts(g: nat)
    requires g < BARRIERS
    ensures SlotsBefore(0) == 0 && SlotsBefore(BARRIERS) == 10
    ensures SlotsBefore(g + 1) == SlotsBefore(g) + (if SlotSeg(g) then 1 else 0)
    ensures SlotSeg(g) ==> SlotOf(g) == SlotsBefore(g)
  {}

  /** Slots a worker has finished since the start, over all iterations. */
  function SlotsFinished(w: Thread): nat {
    var g := Seg(w.passed);
    10 * (w.passed / 26) + SlotsBefore(g) + (if SlotSeg(g) && (w.mode.Ready? || w.mode.Waiting?) then 1 else 0)
  }

  lemma SlotsGrow(p: nat)
    ensures SlotsFinished(Thread(p + 1, Begin)) == SlotsFinished(Thread(p, Waiting))
  {
    NextSeg(p);
    SlotsBeforeCounts(Seg(p));
    if Seg(p) == 25 {
      assert (p + 1) / 26 == p / 26 + 1;
    } else {
      assert (p + 1) / 26 == p / 26;
    }
  }

  /** Slots finished before those of segment g of generation p. */
  function SlotsDue(p: nat): nat {
    10 * (p / 26) + SlotsBefore(Seg(p))
  }

  lemma SlotsInSegment(p: nat, m: Mode)
    ensures SlotsDue(p) <= SlotsFinished(Thread(p, m)) <= SlotsDue(p) + 1
    ensures m == InFunction || m == Begin ==> SlotsFinished(Thread(p, m)) == SlotsDue(p)
  {}

  /** A thread that has been released but not resumed has finished what was due. */
  lemma SlotsOfReleased(p: nat)
    ensures SlotsFinished(Thread(p, Waiting)) == SlotsDue(p + 1)
  {
    SlotsGrow(p);
    SlotsInSegment(p + 1, Begin);
  }

  lemma WorkerInSlot(c: Config, s: State, w: nat)
    requires SyncInv(c, s) && w < c.n && s.threads[w].mode == InFunction
    ensures s.threads[w].passed == s.gen && SlotSeg(Seg(s.gen))
  {
    Current(c, s, w);
    assert Fits(c, w, s.threads[w].passed, InFunction);
  }

  /** While a worker executes a slot function, every plugin has finished all slots
      before that slot, and none is more than that one slot ahead. */
  lemma NoSlotStartsEarly(c: Config, steps: seq<Step>, s: State, w: nat, v: nat)
    requires Reaches(c, steps, s) && w < c.n && v < c.n
    requires |s.threads| == c.n + 1 && s.threads[w].mode == InFunction
    ensures SlotsFinished(s.threads[w]) <= SlotsFinished(s.threads[v]) <= SlotsFinished(s.threads[w]) + 1
    ensures SlotSeg(Seg(s.gen))
         && SlotsFinished(s.threads[w]) == 10 * (s.gen / 26) + SlotOf(Seg(s.gen))
  {
    hide SlotsFinished, SlotsDue, Reaches;
    ReachableSync(c, steps, s);
    WorkerInSlot(c, s, w);
    Current(c, s, v);
    hide SyncInv;
    SlotsInSegment(s.gen, InFunction);
    var p, m := s.threads[v].passed, s.threads[v].mode;
    if p == s.gen {
      SlotsInSegment(p, m);
    } else {
      SlotsOfReleased(p);
    }
    assert s.threads[v] == Thread(p, m) && s.threads[w] == Thread(s.gen, InFunction);
    SlotsBeforeCounts(Seg(s.gen));
    assert SlotsDue(s.gen) == 10 * (s.gen / 26) + SlotsBefore(Seg(s.gen)) by {
      DueIs(s.gen);
    }
  }

  lemma DueIs(p: nat)
    ensures SlotsDue(p) == 10 * (p / 26) + SlotsBefore(Seg(p))
  {}

  /** All threads agree on iterating again: in a generation where one has left, every
      other that came out of the last barrier has left or is about to, and nobody has
      gone on, although the controller may have overwritten the shared state. */
  lemma LoopTestAgrees(c: Config, steps: seq<Step>, s: State, t: nat, u: nat)
    requires Reaches(c, steps, s) && t <= c.n && u <= c.n && |s.threads| == c.n + 1
    requires Gone(s.threads[t].mode)
    ensures s.state == Stop && Seg(s.gen) == 0 && s.gen > 0
    ensures Gone(s.threads[u].mode)
         || (s.threads[u] == Thread(s.gen, Begin)
             && (u < c.n ==> |s.failed| == |s.plugs| == c.n && AfterBegin(c, s, u) == Exited))
         || s.threads[u] == Thread(s.gen - 1, Waiting)
  {
    ReachableSync(c, steps, s);
    Current(c, s, t);
    Current(c, s, u);
    if s.threads[u].passed == s.gen && !Gone(s.threads[u].mode) {
      assert !PastTest(s.threads[u].mode);
      assert Fits(c, u, s.gen, s.threads[u].mode);
    }
  }

  predicate Finished(c: Config, s: State)
    requires Shaped(c, s)
  {
    s.threads[c.n].mode == Done
  }

  /** Steps the monitor thread needs at most until it has seen the stop flag. */
  function MonitorLeft(c: Config, m: Monitor): nat {
    match m
    case Off => 0
    case Ended => 0
    case Looping => 1
    case Polling(i) => if i >= c.n then 2 else 2 + 2 * (c.n - i)
    case InMonitor(i) => if i + 1 >= c.n then 3 else 1 + 2 * (c.n - i)
  }

  function MonitorStep(s: State): Step {
    match s.monitor
    case Looping => MonitorLoop
    case Polling(_) => MonitorPoll
    case _ => MonitorReturn
  }

  predicate IsMonitorStep(step: Step) {
    step.MonitorLoop? || step.MonitorPoll? || step.MonitorProduce? || step.MonitorReturn?
  }

  lemma JoiningProgress(c: Config, s: State) returns (step: Step)
    requires SyncInv(c, s) && s.threads[c.n].mode == Joining
    ensures Enabled(c, s, step) && (IsMonitorStep(step) || step == JoinMonitor)
    ensures IsMonitorStep(step) ==> MonitorLeft(c, Do(c, s, step).monitor) < MonitorLeft(c, s.monitor)
  {
    Current(c, s, c.n);
    assert Fits(c, c.n, s.threads[c.n].passed, Joining);
    hide Inv, ModesFit, Agreement;
    step := if s.monitor == Ended then JoinMonitor else MonitorStep(s);
  }

  /** The step a thread outside the wait can take; ok and now are what a function or the
      storage returns and what the clock shows. */
  function OwnStep(c: Config, s: State, t: nat, ok: bool, now: nat): Step
    requires Shaped(c, s) && t <= c.n
  {
    match s.threads[t].mode
    case Begin => if t == c.n then ControllerBegin(now) else WorkerBegin(t)
    case InFunction => Return(t, ok)
    case Checking => Check(t)
    case Prelude => EndPrelude
    case Persisting(_) => PersistPlug(ok)
    case Exited => JoinWorkers
    case Dropping(_) => DropPlug
    case Waiting => Resume(t)
    case _ => Arrive(t)
  }

  /** The step lets a function or the storage return ok and the clock show now. */
  predicate Answers(step: Step, ok: bool, now: nat) {
    (step.Return? || step.PersistPlug? ==> step.ok == ok) && (step.ControllerBegin? ==> step.now == now)
  }

  lemma OwnProgress(c: Config, s: State, t: nat, ok: bool, now: nat)
    requires SyncInv(c, s) && t <= c.n && s.elapsed + c.tick <= now
    requires !Gone(s.threads[t].mode) && s.threads[t].mode != Joining
    requires s.threads[t].mode == Waiting ==> s.threads[t].passed < s.gen
    ensures var step := OwnStep(c, s, t, ok, now);
            Enabled(c, s, step) && !IsMonitorStep(step) && Answers(step, ok, now)
  {
    assert Fits(c, t, s.threads[t].passed, s.threads[t].mode);
  }

  lemma ExitProgress(c: Config, s: State, ok: bool, now: nat)
    requires SyncInv(c, s) && !Finished(c, s)
    requires forall t :: 0 <= t <= c.n ==> Gone(s.threads[t].mode)
    ensures var step := OwnStep(c, s, c.n, ok, now);
            Enabled(c, s, step) && !IsMonitorStep(step) && Answers(step, ok, now)
  {
    forall w | 0 <= w < c.n ensures s.threads[w].mode == Exited {
      assert Fits(c, w, s.threads[w].passed, s.threads[w].mode);
    }
  }

  /** If some thread has left, no thread waits in the current generation. */
  lemma NobodyWaitsForTheGone(c: Config, s: State, t: nat, u: nat)
    requires SyncInv(c, s) && t <= c.n && u <= c.n
    requires Gone(s.threads[t].mode) && s.threads[u].mode == Waiting
    ensures s.threads[u].passed < s.gen
  {
    Current(c, s, t);
    Current(c, s, u);
    assert Fits(c, t, s.gen, s.threads[t].mode);
  }

  /** No reachable state is deadlocked, whatever functions and storage return and the clock
      shows: until the execution has finished some thread other than the monitor can move,
      unless the controller is waiting for the monitor, which then gets closer to its end
      with every step it takes. */
  lemma NoDeadlock(c: Config, steps: seq<Step>, s: State, ok: bool, now: nat) returns (step: Step)
    requires Reaches(c, steps, s) && Shaped(c, s) && !Finished(c, s) && s.elapsed + c.tick <= now
    ensures Enabled(c, s, step) && Answers(step, ok, now)
    ensures IsMonitorStep(step) ==>
              s.threads[c.n].mode == Joining && MonitorLeft(c, Do(c, s, step).monitor) < MonitorLeft(c, s.monitor)
  {
    ReachableSync(c, steps, s);
    hide Do, Enabled, Inv, ModesFit, Agreement, MonitorInv;
    if s.threads[c.n].mode == Joining {
      step := JoiningProgress(c, s);
    } else if forall t :: 0 <= t <= c.n ==> Gone(s.threads[t].mode) {
      ExitProgress(c, s, ok, now);
      step := OwnStep(c, s, c.n, ok, now);
    } else {
      var t := Movable(c, s);
      OwnProgress(c, s, t, ok, now);
      step := OwnStep(c, s, t, ok, now);
    }
  }

  lemma Movable(c: Config, s: State) returns (t: nat)
    requires SyncInv(c, s) && s.threads[c.n].mode != Joining
    requires exists u :: 0 <= u <= c.n && !Gone(s.threads[u].mode)
    ensures t <= c.n && !Gone(s.threads[t].mode) && s.threads[t].mode != Joining
    ensures s.threads[t].mode == Waiting ==> s.threads[t].passed < s.gen
  {
    if u: nat :| u <= c.n && Gone(s.threads[u].mode) {
      t :| 0 <= t <= c.n && !Gone(s.threads[t].mode);
      if s.threads[t].mode == Waiting {
        NobodyWaitsForTheGone(c, s, u, t);
      }
    } else {
      t := SomeoneCanMove(BarrierOf(s));
      assert PartiesOf(s.threads)[t] == PartyOf(s.threads[t]);
      assert !Gone(s.threads[t].mode);
    }
    assert Fits(c, t, s.threads[t].passed, s.threads[t].mode);
  }

  /** While a function of a plugin is being executed it may produce data of any kind. */
  lemma FunctionsMayProduce(c: Config, steps: seq<Step>, s: State, w: nat, kind: Kind)
    requires Reaches(c, steps, s) && Shaped(c, s) && w < c.n
    ensures s.threads[w].mode == InFunction ==> Enabled(c, s, ProduceItem(w, kind))
    ensures s.monitor == InMonitor(w) ==> Enabled(c, s, MonitorProduce(kind))
  {}
}
