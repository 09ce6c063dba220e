/** When the loop runs warm, when it runs measured, and when it stops. */
module ProtocolSchedule {
  import opened RunData
  import opened Protocol
  import opened ProtocolSync

  /** Warm-up iterations that are due. */
  function WarmRuns(c: Config): nat {
    if c.warmupRuns > 0 then c.warmupRuns else 0
  }

  ghost predicate SomeCheckFails(c: Config, s: State)
    requires Shaped(c, s)
  {
    exists w: nat :: w < c.n && c.fails(w, s.plugs[w].checkErr)
  }

  /** The controller has done its part of the current segment. */
  predicate ControllerDone(c: Config, s: State)
    requires Shaped(c, s)
  {
    var t := s.threads[c.n];
    t.passed == s.gen && (t.mode.Ready? || t.mode.Waiting?)
  }

  /** Between the controller's decision after an iteration and the start of the next. */
  predicate AfterDecision(c: Config, s: State)
    requires Shaped(c, s)
  {
    var g := Seg(s.gen);
    || (g == DECIDE_SEG && ControllerDone(c, s))
    || g == CHECK_SEG || g == FINAL_SEG
    || (g == 0 && !ControllerDone(c, s) && s.gen > 0)
  }

  predicate BeforeFirst(c: Config, s: State)
    requires Shaped(c, s)
  {
    s.gen == 0 && !ControllerDone(c, s)
  }

  /** The iteration that is running or was decided last. */
  function Iteration(s: State): nat {
    if Seg(s.gen) == 0 && s.gen > 0 then s.gen / 26 - 1 else s.gen / 26
  }

  /** The iteration whose slots are being executed. */
  ghost predicate RunningOk(c: Config, s: State)
    requires Shaped(c, s)
  {
    var i := s.gen / 26;
    && (i < WarmRuns(c) ==> s.state == Warmup && s.run == i)
    && (i >= WarmRuns(c) ==> s.state == Run && s.run == i - WarmRuns(c) && TimeOk(c, s) && WithinBound(c, s))
  }

  /** The elapsed reading has grown with every measured run. */
  predicate TimeOk(c: Config, s: State) {
    c.tick >= 1 ==> s.run <= s.elapsed
  }

  /** No more than maxTime measured runs have been completed without stopping. */
  predicate WithinBound(c: Config, s: State) {
    c.tick >= 1 && c.minTime <= c.maxTime ==> s.run <= c.maxTime
  }

  /** What the decision was, given the state of affairs it was taken in. */
  function Decision(c: Config, s: State): RunState {
    Decide(c, s.error, if Iteration(s) < WarmRuns(c) then Warmup else Run, s.run, s.elapsed)
  }

  /** The plugins' checks and the controller's last word, on top of the decision. */
  ghost predicate Verdict(c: Config, s: State)
    requires Shaped(c, s)
  {
    var d, g := Decision(c, s), Seg(s.gen);
    if d != Undecided then s.state == d
    else if g == DECIDE_SEG then s.state == Undecided
    else if g == CHECK_SEG || (g == FINAL_SEG && !ControllerDone(c, s)) then
      && (s.state == Undecided || s.state == StderrNotReached)
      && (s.state == StderrNotReached ==> SomeCheckFails(c, s))
      && (forall w: nat :: w < c.n && PastCheck(s, w) && c.fails(w, s.plugs[w].checkErr) ==> s.state == StderrNotReached)
    else s.state == if SomeCheckFails(c, s) then StderrNotReached else Stop
  }

  /** Worker w has made its check, or decided that none is needed. */
  predicate PastCheck(s: State, w: nat)
    requires w < |s.threads|
  {
    || Seg(s.gen) == FINAL_SEG
    || (Seg(s.gen) == CHECK_SEG && s.threads[w].passed == s.gen
        && (s.threads[w].mode.Ready? || s.threads[w].mode.Waiting?))
  }

  predicate Released(c: Config, s: State)
    requires Shaped(c, s)
  {
    s.threads[c.n].mode.Dropping? || s.threads[c.n].mode.Done?
  }

  ghost predicate DecidedOk(c: Config, s: State)
    requires Shaped(c, s)
  {
    var k := Iteration(s);
    && s.run == (if k < WarmRuns(c) then k + 1 else k - WarmRuns(c) + 1)
    && (k >= WarmRuns(c) && !s.error ==> TimeOk(c, s))
    && Verdict(c, s)
    && (Decision(c, s) != Undecided ==> forall w: nat :: w < c.n ==> s.threads[w].mode != Checking)
  }

  ghost predicate ScheduleOk(c: Config, s: State)
    requires Shaped(c, s)
  {
    if BeforeFirst(c, s) then s.state == Warmup && s.run == 0 && !s.error
    else if AfterDecision(c, s) then Released(c, s) || DecidedOk(c, s)
    else RunningOk(c, s)
  }

  ghost predicate ScheduleInv(c: Config, s: State) {
    SyncInv(c, s) && ScheduleOk(c, s)
  }

  lemma InitSchedule(c: Config)
    ensures ScheduleInv(c, Init(c))
  {
    InitSync(c);
    hide SyncInv;
  }

  // ----------------------------------------------------------- preservation

  /** Steps of this kind change neither the phase nor anything the schedule is about. */
  ghost predicate SameSchedule(c: Config, s: State, u: State)
    requires Shaped(c, s) && Shaped(c, u)
  {
    && u.gen == s.gen && u.run == s.run && u.state == s.state && u.elapsed == s.elapsed && u.error == s.error
    && (Seg(s.gen) == 0 || Seg(s.gen) == DECIDE_SEG || Seg(s.gen) == FINAL_SEG ==>
          ControllerDone(c, u) == ControllerDone(c, s))
    && (forall w: nat :: w < c.n && PastCheck(u, w) ==> PastCheck(s, w))
    && (forall w: nat :: w < c.n && u.threads[w].mode == Checking ==> s.threads[w].mode == Checking)
    && (forall w: nat :: w < c.n ==> u.plugs[w].checkErr == s.plugs[w].checkErr)
    && (Released(c, s) ==> Released(c, u))
  }

  lemma SameScheduleKeeps(c: Config, s: State, u: State)
    requires Shaped(c, s) && Shaped(c, u) && SameSchedule(c, s, u) && ScheduleOk(c, s)
    ensures ScheduleOk(c, u)
  {
    assert SomeCheckFails(c, u) == SomeCheckFails(c, s);
    hide SomeCheckFails, PastCheck, ControllerDone;
  }

  /** While slots run, only the run state, counter and times matter. */
  lemma RunningKeeps(c: Config, s: State, u: State)
    requires Shaped(c, s) && Shaped(c, u) && ScheduleOk(c, s)
    requires u.gen == s.gen && u.run == s.run && u.state == s.state && u.elapsed == s.elapsed
    requires 1 <= Seg(s.gen) <= 22
    ensures ScheduleOk(c, u)
  {}

  /** Steps of the slots and of persisting, which leave what the schedule is about. */
  predicate SlotStep(step: Step) {
    step.Return? || step.ProduceItem? || step.PersistPlug? || step.JoinMonitor? || step.MonitorProduce?
  }

  lemma SlotStepRuns(c: Config, s: State, step: Step)
    requires SyncInv(c, s) && Enabled(c, s, step) && SlotStep(step)
    ensures 1 <= Seg(s.gen) <= 22
  {
    var t := if step.Return? || step.ProduceItem? then step.w else c.n;
    Current(c, s, t);
    if step.MonitorProduce? {
      MonitorRunsInside(c, s);
    } else {
      assert Fits(c, t, s.threads[t].passed, s.threads[t].mode);
    }
  }

  lemma SlotStepLeaves(c: Config, s: State, step: Step)
    requires Shaped(c, s) && Enabled(c, s, step) && SlotStep(step)
    ensures var u := Do(c, s, step);
            && Shaped(c, u) && u.gen == s.gen && u.run == s.run && u.state == s.state && u.elapsed == s.elapsed
  {
    hide Produce, Persist, Drop, CallsStorage;
  }

  lemma SlotStepKeeps(c: Config, s: State, step: Step)
    requires ScheduleInv(c, s) && Enabled(c, s, step) && SlotStep(step)
    ensures ScheduleOk(c, Do(c, s, step))
  {
    SlotStepRuns(c, s, step);
    SlotStepLeaves(c, s, step);
    hide SyncInv, ScheduleOk, Do, Enabled;
    RunningKeeps(c, s, Do(c, s, step));
  }

  lemma MonitorRunsInside(c: Config, s: State)
    requires SyncInv(c, s) && s.monitor != Off
    ensures 1 <= Seg(s.gen) <= 22
  {
    Current(c, s, c.n);
    NextSeg(s.threads[c.n].passed);
  }

  lemma ResumeKeeps(c: Config, s: State, t: nat)
    requires ScheduleInv(c, s) && Enabled(c, s, Resume(t))
    ensures ScheduleOk(c, DoResume(s, t))
  {
    Current(c, s, t);
    hide SyncInv, ScheduleOk;
    assert SameSchedule(c, s, DoResume(s, t));
    SameScheduleKeeps(c, s, DoResume(s, t));
  }

  lemma QuietStepKeeps(c: Config, s: State, step: Step)
    requires ScheduleInv(c, s) && Enabled(c, s, step)
    requires step.MonitorLoop? || step.MonitorPoll? || step.MonitorReturn? || step.JoinWorkers?
    ensures ScheduleOk(c, Do(c, s, step))
  {
    assert Shaped(c, s);
    hide SyncInv, ScheduleOk;
    assert SameSchedule(c, s, Do(c, s, step));
    SameScheduleKeeps(c, s, Do(c, s, step));
  }

  lemma DropKeepsSchedule(c: Config, s: State)
    requires ScheduleInv(c, s) && ModeOf(s, c.n).Dropping?
    ensures ScheduleOk(c, DoDropPlug(c, s))
  {
    Current(c, s, c.n);
    assert Gone(s.threads[c.n].mode) && s.state == Stop;
    assert Fits(c, c.n, s.threads[c.n].passed, s.threads[c.n].mode);
  }

  lemma WorkerBeginKeeps(c: Config, s: State, w: nat)
    requires ScheduleInv(c, s) && w < c.n && ModeOf(s, w) == Begin
    ensures ScheduleOk(c, WithMode(s, w, AfterBegin(c, s, w)))
  {
    var u := WithMode(s, w, AfterBegin(c, s, w));
    Current(c, s, w);
    hide SyncInv;
    if Seg(s.gen) == CHECK_SEG {
      assert SomeCheckFails(c, u) == SomeCheckFails(c, s);
      hide SomeCheckFails;
    } else {
      assert SameSchedule(c, s, u);
      SameScheduleKeeps(c, s, u);
    }
  }

  lemma CheckKeeps(c: Config, s: State, w: nat)
    requires ScheduleInv(c, s) && w < c.n && ModeOf(s, w) == Checking
    ensures ScheduleOk(c, DoCheck(c, s, w))
  {
    var u := DoCheck(c, s, w);
    Current(c, s, w);
    Current(c, s, c.n);
    assert Fits(c, w, s.threads[w].passed, Checking);
    assert Fits(c, c.n, s.threads[c.n].passed, s.threads[c.n].mode);
    hide SyncInv;
    assert c.fails(w, s.plugs[w].checkErr) ==> SomeCheckFails(c, s);
    assert SomeCheckFails(c, u) == SomeCheckFails(c, s);
    assert Decision(c, u) == Decision(c, s) == Undecided;
    hide SomeCheckFails, Decision;
  }

  lemma EndPreludeKeeps(c: Config, s: State)
    requires ScheduleInv(c, s) && ModeOf(s, c.n) == Prelude
    ensures ScheduleOk(c, DoEndPrelude(c, s))
  {
    Current(c, s, c.n);
    assert Fits(c, c.n, s.threads[c.n].passed, Prelude);
    assert s.state != Stop;
    hide SyncInv;
  }

  lemma DecideKeeps(c: Config, s: State, now: nat)
    requires ScheduleInv(c, s) && ModeOf(s, c.n) == Begin && Seg(s.threads[c.n].passed) == DECIDE_SEG
    requires s.elapsed + c.tick <= now
    ensures ScheduleOk(c, DoControllerBegin(c, s, now))
  {
    Current(c, s, c.n);
    forall w: nat | w < c.n ensures s.threads[w].mode != Checking {
      Current(c, s, w);
      assert Fits(c, w, s.threads[w].passed, s.threads[w].mode);
    }
    hide SyncInv, SomeCheckFails;
  }

  lemma FinalKeeps(c: Config, s: State, now: nat)
    requires ScheduleInv(c, s) && ModeOf(s, c.n) == Begin && Seg(s.threads[c.n].passed) == FINAL_SEG
    ensures ScheduleOk(c, DoControllerBegin(c, s, now))
  {
    var u := DoControllerBegin(c, s, now);
    Current(c, s, c.n);
    hide SyncInv;
    assert SomeCheckFails(c, u) == SomeCheckFails(c, s);
    assert Decision(c, u) == Decision(c, s);
    hide Decision;
  }

  lemma ControllerBeginKeeps(c: Config, s: State, now: nat)
    requires ScheduleInv(c, s) && Enabled(c, s, ControllerBegin(now))
    ensures ScheduleOk(c, DoControllerBegin(c, s, now))
  {
    var u := DoControllerBegin(c, s, now);
    Current(c, s, c.n);
    var g := Seg(s.gen);
    if g == DECIDE_SEG {
      DecideKeeps(c, s, now);
    } else if g == FINAL_SEG {
      FinalKeeps(c, s, now);
    } else {
      hide SyncInv, ScheduleOk;
      assert SameSchedule(c, s, u);
      SameScheduleKeeps(c, s, u);
    }
  }

  lemma ArriveKeeps(c: Config, s: State, t: nat)
    requires ScheduleInv(c, s) && t <= c.n && ModeOf(s, t) == Ready
    ensures ScheduleOk(c, DoArrive(c, s, t))
  {
    var u := DoArrive(c, s, t);
    Current(c, s, t);
    Current(c, s, c.n);
    NextSeg(s.gen);
    if s.count == c.n {
      EveryoneArrived(c, s, t);
      NextGeneration(c, s, t);
    } else {
      hide SyncInv, ScheduleOk;
      assert SameSchedule(c, s, u);
      SameScheduleKeeps(c, s, u);
    }
  }

  lemma NextIteration(p: nat)
    ensures (p + 1) / 26 == if Seg(p) == 25 then p / 26 + 1 else p / 26
  {}

  lemma NextGeneration(c: Config, s: State, t: nat)
    requires ScheduleInv(c, s) && t <= c.n && s.threads[t] == Thread(s.gen, Ready) && s.count == c.n
    requires forall u: nat :: u <= c.n && u != t ==> s.threads[u] == Thread(s.gen, Waiting)
    ensures ScheduleOk(c, DoArrive(c, s, t))
  {
    var u := DoArrive(c, s, t);
    NextSeg(s.gen);
    NextIteration(s.gen);
    hide SyncInv, Seg;
    assert SomeCheckFails(c, u) == SomeCheckFails(c, s);
    assert Iteration(u) == Iteration(s) || !AfterDecision(c, u);
    assert ControllerDone(c, s) && !ControllerDone(c, u);
    hide SomeCheckFails, Decide;
    if Seg(s.gen) == CHECK_SEG {
      assert forall w: nat :: w < c.n ==> PastCheck(s, w);
    }
  }

  lemma StepKeepsSchedule(c: Config, s: State, step: Step)
    requires ScheduleInv(c, s) && Enabled(c, s, step)
    ensures ScheduleInv(c, Do(c, s, step))
  {
    StepKeepsSync(c, s, step);
    hide SyncInv, ScheduleOk;
    match step
    case Arrive(t) => ArriveKeeps(c, s, t);
    case Resume(t) => ResumeKeeps(c, s, t);
    case WorkerBegin(w) => WorkerBeginKeeps(c, s, w);
    case Return(_, _) => SlotStepKeeps(c, s, step);
    case Check(w) => CheckKeeps(c, s, w);
    case ControllerBegin(now) => ControllerBeginKeeps(c, s, now);
    case EndPrelude => EndPreludeKeeps(c, s);
    case JoinMonitor => SlotStepKeeps(c, s, step);
    case JoinWorkers => QuietStepKeeps(c, s, step);
    case PersistPlug(_) => SlotStepKeeps(c, s, step);
    case DropPlug => DropKeepsSchedule(c, s);
    case ProduceItem(_, _) => SlotStepKeeps(c, s, step);
    case MonitorProduce(_) => SlotStepKeeps(c, s, step);
    case MonitorLoop => QuietStepKeeps(c, s, step);
    case MonitorPoll => QuietStepKeeps(c, s, step);
    case MonitorReturn => QuietStepKeeps(c, s, step);
  }

  lemma {:induction false} ReachableSchedule(c: Config, steps: seq<Step>, s: State)
    requires Reaches(c, steps, s)
    ensures ScheduleInv(c, s)
    decreases |steps|
  {
    hide ScheduleInv, Do;
    if steps == [] {
      InitSchedule(c);
    } else {
      var r: State :| Reaches(c, steps[..|steps| - 1], r) && Shaped(c, r)
        && Enabled(c, r, steps[|steps| - 1]) && s == Do(c, r, steps[|steps| - 1]);
      ReachableSchedule(c, steps[..|steps| - 1], r);
      StepKeepsSchedule(c, r, steps[|steps| - 1]);
    }
  }

  // ---------------------------------------------------------------- results

  /** The run state and the run counter while iteration i executes its slots. */
  predicate WarmOrMeasured(c: Config, s: State, i: nat) {
    if i < WarmRuns(c) then s.state == Warmup && s.run == i else s.state == Run && s.run == i - WarmRuns(c)
  }

  lemma RunningIsScheduled(c: Config, s: State)
    requires ScheduleInv(c, s) && 1 <= Seg(s.gen) <= 22
    ensures WarmOrMeasured(c, s, s.gen / 26)
  {
    hide SyncInv, Verdict;
  }

  /** Exactly the first max(0, warmupRuns) iterations are warm-up iterations; all later
      ones are measured, and the run counter starts again with them. */
  lemma WarmupComesFirst(c: Config, steps: seq<Step>, s: State)
    requires Reaches(c, steps, s) && 1 <= Seg(s.gen) <= 22
    ensures WarmOrMeasured(c, s, s.gen / 26)
  {
    ReachableSchedule(c, steps, s);
    hide *;
    RunningIsScheduled(c, s);
  }

  lemma SlotSegInside(g: nat)
    requires SlotSeg(g)
    ensures 1 <= g <= 22
  {}

  /** In particular that is what every slot function sees that a worker executes. */
  lemma FunctionsSeeWarmup(c: Config, steps: seq<Step>, s: State, w: nat)
    requires Reaches(c, steps, s) && w < c.n && |s.threads| == c.n + 1 && s.threads[w].mode == InFunction
    ensures WarmOrMeasured(c, s, s.gen / 26)
  {
    ReachableSchedule(c, steps, s);
    WorkerInSlot(c, s, w);
    SlotSegInside(Seg(s.gen));
    hide *;
    RunningIsScheduled(c, s);
  }

  /** When the workers have checked, the shared state says so exactly if at least one
      plugin's check fails, whatever the order in which they looked. */
  lemma ChecksAreScheduleIndependent(c: Config, steps: seq<Step>, s: State)
    requires Reaches(c, steps, s) && Shaped(c, s) && s.threads[c.n] == Thread(s.gen, Begin)
    requires Seg(s.gen) == FINAL_SEG && Decision(c, s) == Undecided
    ensures s.state == (if SomeCheckFails(c, s) then StderrNotReached else Undecided)
  {
    ReachableSchedule(c, steps, s);
    hide SyncInv;
  }

  /** The settings justify ending after this measured run. */
  ghost predicate Justified(c: Config, s: State)
    requires Shaped(c, s)
  {
    && s.elapsed >= c.minTime
    && (s.elapsed > c.maxTime
        || (s.run >= c.runsMin && (s.run >= c.runsMax || !SomeCheckFails(c, s))))
  }

  /** At the loop test: after a measured run the loop ends exactly when an error has
      occurred or the settings justify it; after a warm-up run only on an error. */
  lemma LoopEndsJustified(c: Config, steps: seq<Step>, s: State)
    requires Reaches(c, steps, s) && Shaped(c, s) && Seg(s.gen) == 0 && s.gen > 0
    requires s.threads[c.n] == Thread(s.gen, Begin)
    ensures s.state == Stop <==> s.error || (s.gen / 26 > WarmRuns(c) && Justified(c, s))
    ensures s.gen / 26 > WarmRuns(c) ==> s.run == s.gen / 26 - WarmRuns(c)
  {
    ReachableSchedule(c, steps, s);
    hide SyncInv;
  }

  /** If the clock advances by at least a second per measured run and the times are
      consistent, at most maxTime + 1 measured runs are ever started. */
  lemma MeasuredRunsBounded(c: Config, steps: seq<Step>, s: State)
    requires Reaches(c, steps, s) && Shaped(c, s) && c.tick >= 1 && c.minTime <= c.maxTime
    requires 1 <= Seg(s.gen) <= 22
    ensures s.gen / 26 < WarmRuns(c) + c.maxTime + 1
  {
    ReachableSchedule(c, steps, s);
    hide SyncInv;
  }
}
