/** When the execution goes wrong and when it ends, told by what happened in the run. */
module ProtocolLoop {
  import opened RunData
  import opened Protocol
  import opened ProtocolSync
  import opened ProtocolSchedule
  import opened ProtocolData
  import opened ProtocolTraces
  import opened ProtocolStorage

  // ------------------------------------------------------------------ errors

  /** Plugin i has data waiting that is meant for storage. */
  ghost predicate HasMeasurements(s: State, i: nat) {
    i < |s.plugs| && exists x :: x in s.plugs[i].runData && (x.kind.Monitor? || x.kind.Result?)
  }

  /** In this step a function fails, or storage fails that is given data of a measured
      iteration. */
  ghost predicate GoesWrong(c: Config, s: State, step: Step) {
    || (step.Return? && !step.ok)
    || (step.PersistPlug? && !step.ok && |s.threads| == c.n + 1 && ModeOf(s, c.n).Persisting?
        && ModeOf(s, c.n).next < c.n && HasMeasurements(s, ModeOf(s, c.n).next) && s.gen / 26 >= WarmRuns(c))
  }

  ghost predicate WentWrong(c: Config, steps: seq<Step>, ss: seq<State>)
    requires |ss| == |steps| + 1
    decreases |steps|
  {
    var n := |steps| - 1;
    steps != [] && (WentWrong(c, steps[..n], ss[..n + 1]) || GoesWrong(c, ss[n], steps[n]))
  }

  lemma PersistError(c: Config, s: State, ok: bool)
    requires ScheduleInv(c, s) && ModeOf(s, c.n).Persisting?
    ensures DoPersistPlug(c, s, ok).error <==> s.error || GoesWrong(c, s, PersistPlug(ok))
  {
    var i := ModeOf(s, c.n).next;
    SlotStepRuns(c, s, PersistPlug(ok));
    RunningIsScheduled(c, s);
    hide ScheduleInv, SyncInv, ScheduleOk;
    if i < c.n {
      StorageCalled(s.plugs[i]);
    }
    hide Persist, Drop, CallsStorage, HasMeasurements;
  }

  lemma OthersKeepError(c: Config, s: State, step: Step)
    requires Shaped(c, s) && Enabled(c, s, step) && !step.Return? && !step.PersistPlug?
    ensures Do(c, s, step).error == s.error
  {
    hide Produce, Drop, Seg, PersistSeg, Decide, AfterBegin;
  }

  lemma StepError(c: Config, s: State, step: Step)
    requires ScheduleInv(c, s) && Enabled(c, s, step)
    ensures Do(c, s, step).error <==> s.error || GoesWrong(c, s, step)
  {
    if step.PersistPlug? {
      PersistError(c, s, step.ok);
      hide DoPersistPlug, GoesWrong;
    } else if step.Return? {
    } else {
      OthersKeepError(c, s, step);
      hide Do;
    }
    hide ScheduleInv;
  }

  /** An error is on record exactly if something went wrong. */
  lemma {:induction false} ErrorMeansWentWrong(c: Config, steps: seq<Step>, ss: seq<State>)
    requires Trace(c, steps, ss)
    ensures ss[|steps|].error <==> WentWrong(c, steps, ss)
    decreases |steps|
  {
    hide Do, Enabled, ScheduleInv, GoesWrong;
    if steps != [] {
      var n := |steps| - 1;
      ErrorMeansWentWrong(c, steps[..n], ss[..n + 1]);
      TraceReaches(c, steps[..n], ss[..n + 1]);
      ReachableSchedule(c, steps[..n], ss[n]);
      StepError(c, ss[n], steps[n]);
    }
  }

  // ----------------------------------------------------- the end of the loop

  /** The last loop test that the threads have come to, or will come to next. */
  function NextTest(gen: nat): nat {
    (gen + 25) / 26
  }

  lemma NextTestStays(gen: nat)
    ensures NextTest(gen + 1) == if Seg(gen) == 0 then NextTest(gen) + 1 else NextTest(gen)
  {}

  /** An error is noticed at the next loop test. */
  predicate ErrorStops(s: State) {
    s.error && Seg(s.gen) == 0 ==> s.state == Stop && s.gen > 0
  }

  lemma OnlyArrivingCompletes(c: Config, s: State, step: Step)
    requires Shaped(c, s) && Enabled(c, s, step) && !step.Arrive?
    ensures Do(c, s, step).gen == s.gen
  {
    hide Produce, Persist, Drop, CallsStorage, Seg, PersistSeg, Decide, AfterBegin;
  }

  lemma NobodyReady(c: Config, s: State, t: nat)
    requires SyncInv(c, s) && s.state == Stop && Seg(s.gen) == 0 && t <= c.n
    ensures s.threads[t].mode != Ready && s.threads[t].mode != Prelude
  {
    Current(c, s, t);
    assert s.threads[t].passed == s.gen ==> !PastTest(s.threads[t].mode);
  }

  lemma StopAtTest(c: Config, s: State, step: Step)
    requires SyncInv(c, s) && Enabled(c, s, step) && s.state == Stop && Seg(s.gen) == 0
    ensures !step.Arrive? && !step.EndPrelude? && !step.Check?
    ensures step.ControllerBegin? ==> Seg(s.threads[c.n].passed) == 0
  {
    Current(c, s, c.n);
    if step.Arrive? {
      NobodyReady(c, s, step.t);
    } else if step.EndPrelude? {
      NobodyReady(c, s, c.n);
    } else if step.Check? {
      NobodyChecks(c, s, step.w);
    }
    hide SyncInv;
  }

  lemma NobodyChecks(c: Config, s: State, w: nat)
    requires SyncInv(c, s) && Seg(s.gen) == 0 && w < c.n
    ensures s.threads[w].mode != Checking
  {
    Current(c, s, w);
    assert Fits(c, w, s.threads[w].passed, s.threads[w].mode);
  }

  /** Nobody gets past a loop test that says stop. */
  lemma StoppedStays(c: Config, s: State, step: Step)
    requires SyncInv(c, s) && Enabled(c, s, step) && s.state == Stop && Seg(s.gen) == 0
    ensures Do(c, s, step).gen == s.gen && Do(c, s, step).state == Stop
  {
    StopAtTest(c, s, step);
    OnlyArrivingCompletes(c, s, step);
    hide SyncInv, DoControllerBegin, Decide;
  }

  lemma ErrorSeen(c: Config, s: State)
    requires ScheduleInv(c, s) && s.error && Seg(s.gen) == 0 && s.gen > 0 && !ControllerDone(c, s)
    ensures s.state == Stop
  {
    if Released(c, s) {
      assert Gone(s.threads[c.n].mode);
    }
    hide SyncInv;
  }

  lemma ArrivingError(c: Config, s: State, t: nat)
    requires ScheduleInv(c, s) && t <= c.n && ModeOf(s, t) == Ready && s.error && Seg(s.gen) != 0
    ensures var u := DoArrive(c, s, t);
            u.error && NextTest(u.gen) == NextTest(s.gen) && (Seg(u.gen) == 0 ==> u.state == Stop && u.gen > 0)
  {
    var u := DoArrive(c, s, t);
    ArriveKeeps(c, s, t);
    ArriveSync(c, s, t);
    Current(c, s, c.n);
    NextTestStays(s.gen);
    assert u.gen != s.gen ==> u.gen == s.gen + 1 && u.threads[c.n].passed == s.threads[c.n].passed;
    hide ScheduleOk, SyncInv, DoArrive, NextTest, Seg;
    if Seg(u.gen) == 0 {
      ErrorSeen(c, u);
    }
  }

  lemma ErrorIsMadeInside(c: Config, s: State, step: Step)
    requires SyncInv(c, s) && Enabled(c, s, step) && GoesWrong(c, s, step)
    ensures 1 <= Seg(s.gen) <= 22 && Do(c, s, step).gen == s.gen
  {
    SlotStepRuns(c, s, step);
    OnlyArrivingCompletes(c, s, step);
    hide SyncInv, Do, HasMeasurements;
  }

  lemma StepAfterError(c: Config, s: State, step: Step)
    requires ScheduleInv(c, s) && Enabled(c, s, step) && ErrorStops(s)
    ensures var u := Do(c, s, step);
            ErrorStops(u) && (s.error ==> u.error && NextTest(u.gen) == NextTest(s.gen))
  {
    StepError(c, s, step);
    if !s.error {
      if GoesWrong(c, s, step) {
        ErrorIsMadeInside(c, s, step);
      }
    } else if Seg(s.gen) == 0 {
      StoppedStays(c, s, step);
    } else if step.Arrive? {
      ArrivingError(c, s, step.t);
    } else {
      OnlyArrivingCompletes(c, s, step);
    }
    hide ScheduleInv, Do, GoesWrong, NextTest;
  }

  lemma {:induction false} TraceErrorStops(c: Config, steps: seq<Step>, ss: seq<State>)
    requires Trace(c, steps, ss)
    ensures ErrorStops(ss[|steps|])
    decreases |steps|
  {
    hide Do, Enabled, ScheduleInv, ErrorStops;
    if steps == [] {
      assert ErrorStops(Init(c)) by {
        NoErrorYet(c);
      }
    } else {
      var n := |steps| - 1;
      TraceErrorStops(c, steps[..n], ss[..n + 1]);
      TraceReaches(c, steps[..n], ss[..n + 1]);
      ReachableSchedule(c, steps[..n], ss[n]);
      StepAfterError(c, ss[n], steps[n]);
    }
  }

  lemma NoErrorYet(c: Config)
    ensures ErrorStops(Init(c))
  {}

  /** After an error no thread gets past the next loop test: when the threads come to it,
      it says stop, and it is the last one. */
  lemma {:induction false} ErrorEndsLoop(c: Config, steps: seq<Step>, ss: seq<State>, i: nat)
    requires Trace(c, steps, ss) && i <= |steps| && ss[i].error
    ensures var s := ss[|steps|];
            NextTest(s.gen) == NextTest(ss[i].gen) && (Seg(s.gen) == 0 ==> s.state == Stop)
    ensures ss[|steps|].error
    decreases |steps|
  {
    hide Do, Enabled, ScheduleInv, NextTest;
    TraceErrorStops(c, steps, ss);
    if i < |steps| {
      var n := |steps| - 1;
      ErrorEndsLoop(c, steps[..n], ss[..n + 1], i);
      TraceErrorStops(c, steps[..n], ss[..n + 1]);
      TraceReaches(c, steps[..n], ss[..n + 1]);
      ReachableSchedule(c, steps[..n], ss[n]);
      StepAfterError(c, ss[n], steps[n]);
    }
  }

  // ------------------------------------------------------------ the decision

  /** The clock as the controller read it last when it decided about the loop. */
  function Reading(steps: seq<Step>, ss: seq<State>): nat
    requires |ss| == |steps| + 1
    decreases |steps|
  {
    if steps == [] then 0
    else
      var n := |steps| - 1;
      if steps[n].ControllerBegin? && Seg(ss[n].gen) == DECIDE_SEG then steps[n].now
      else Reading(steps[..n], ss[..n + 1])
  }

  /** The decision about a measured iteration has been taken. */
  predicate MeasuredDecided(c: Config, s: State)
    requires Shaped(c, s)
  {
    var i, g := s.gen / 26, Seg(s.gen);
    i > WarmRuns(c) || (i == WarmRuns(c) && (g > DECIDE_SEG || (g == DECIDE_SEG && ControllerDone(c, s))))
  }

  ghost predicate ReadingOk(c: Config, s: State, reading: nat) {
    Shaped(c, s) && s.elapsed <= reading && (MeasuredDecided(c, s) && !s.error ==> s.elapsed == reading)
  }

  lemma ControllerBeginReading(c: Config, s: State, now: nat, reading: nat)
    requires ScheduleInv(c, s) && Enabled(c, s, ControllerBegin(now)) && ReadingOk(c, s, reading)
    ensures ReadingOk(c, DoControllerBegin(c, s, now), if Seg(s.gen) == DECIDE_SEG then now else reading)
  {
    Current(c, s, c.n);
    hide SyncInv, Verdict, Decide;
  }

  lemma EndPreludeReading(c: Config, s: State, reading: nat)
    requires ScheduleInv(c, s) && ModeOf(s, c.n) == Prelude && ReadingOk(c, s, reading)
    ensures ReadingOk(c, DoEndPrelude(c, s), reading)
  {
    Current(c, s, c.n);
    assert Fits(c, c.n, s.threads[c.n].passed, Prelude);
    hide SyncInv;
  }

  lemma ArriveReading(c: Config, s: State, t: nat, reading: nat)
    requires ScheduleInv(c, s) && t <= c.n && ModeOf(s, t) == Ready && ReadingOk(c, s, reading)
    ensures ReadingOk(c, DoArrive(c, s, t), reading)
  {
    Current(c, s, t);
    Current(c, s, c.n);
    NextSeg(s.gen);
    NextIteration(s.gen);
    if s.count == c.n {
      EveryoneArrived(c, s, t);
    }
    hide SyncInv, ScheduleOk;
  }

  lemma OthersLeaveClock(c: Config, s: State, step: Step)
    requires Shaped(c, s) && Enabled(c, s, step) && !step.ControllerBegin? && !step.EndPrelude?
    ensures var u := Do(c, s, step); u.elapsed == s.elapsed && (s.error ==> u.error)
  {
    hide Produce, Persist, Drop, CallsStorage, AfterBegin;
  }

  lemma OthersDecideNothing(c: Config, s: State, step: Step)
    requires SyncInv(c, s) && Enabled(c, s, step) && Seg(s.gen) == DECIDE_SEG
    requires !step.ControllerBegin? && !step.EndPrelude? && !step.Arrive?
    ensures ControllerDone(c, Do(c, s, step)) ==> ControllerDone(c, s)
  {
    Current(c, s, c.n);
    assert Fits(c, c.n, s.threads[c.n].passed, s.threads[c.n].mode);
    if !ControllerStep(step) {
      OthersLeaveDone(c, s, step);
      hide Do;
    }
    hide SyncInv, Persist, Drop, CallsStorage, AfterBegin;
  }

  lemma OthersLeaveDone(c: Config, s: State, step: Step)
    requires Shaped(c, s) && Enabled(c, s, step) && !ControllerStep(step) && !step.Arrive?
    ensures ControllerDone(c, Do(c, s, step)) ==> ControllerDone(c, s)
  {
    hide Produce, AfterBegin;
  }

  lemma OthersKeepReading(c: Config, s: State, step: Step, reading: nat)
    requires SyncInv(c, s) && Enabled(c, s, step) && ReadingOk(c, s, reading)
    requires !step.ControllerBegin? && !step.EndPrelude? && !step.Arrive?
    ensures ReadingOk(c, Do(c, s, step), reading)
  {
    OnlyArrivingCompletes(c, s, step);
    OthersLeaveClock(c, s, step);
    if Seg(s.gen) == DECIDE_SEG {
      OthersDecideNothing(c, s, step);
    }
    hide SyncInv, Do, ControllerDone, Seg;
  }

  lemma StepReading(c: Config, s: State, step: Step, reading: nat)
    requires ScheduleInv(c, s) && Enabled(c, s, step) && ReadingOk(c, s, reading)
    ensures ReadingOk(c, Do(c, s, step),
                      if step.ControllerBegin? && Seg(s.gen) == DECIDE_SEG then step.now else reading)
  {
    if step.ControllerBegin? {
      ControllerBeginReading(c, s, step.now, reading);
    } else if step.EndPrelude? {
      EndPreludeReading(c, s, reading);
    } else if step.Arrive? {
      ArriveReading(c, s, step.t, reading);
    } else {
      OthersKeepReading(c, s, step, reading);
    }
    hide ScheduleInv, ReadingOk;
  }

  lemma {:induction false} TraceReading(c: Config, steps: seq<Step>, ss: seq<State>)
    requires Trace(c, steps, ss)
    ensures ReadingOk(c, ss[|steps|], Reading(steps, ss))
    decreases |steps|
  {
    hide Do, Enabled, ScheduleInv, ReadingOk;
    if steps == [] {
      assert ReadingOk(c, Init(c), 0) by {
        NothingRead(c);
      }
    } else {
      var n := |steps| - 1;
      TraceReading(c, steps[..n], ss[..n + 1]);
      TraceReaches(c, steps[..n], ss[..n + 1]);
      ReachableSchedule(c, steps[..n], ss[n]);
      StepReading(c, ss[n], steps[n], Reading(steps[..n], ss[..n + 1]));
    }
  }

  lemma NothingRead(c: Config)
    ensures ReadingOk(c, Init(c), 0)
  {}

  /** The clock is free: the controller may read any time that is not before the last
      reading, or as much later as the configuration says. */
  lemma EveryReadingPossible(c: Config, steps: seq<Step>, ss: seq<State>, now: nat)
    requires Trace(c, steps, ss) && Reading(steps, ss) + c.tick <= now
    ensures Shaped(c, ss[|steps|])
    ensures ModeOf(ss[|steps|], c.n) == Begin ==> Enabled(c, ss[|steps|], ControllerBegin(now))
  {
    TraceReading(c, steps, ss);
    hide Trace, Reading;
  }

  /** All standard error checks are satisfied with the measured results produced so far. */
  ghost predicate ChecksHold(c: Config, steps: seq<Step>, ss: seq<State>)
    requires |ss| == |steps| + 1
  {
    forall w: nat :: w < c.n ==> !c.fails(w, Select(Produced(c, steps, ss, w), IsMeasured))
  }

  /** The results on which the checks work are all measured results there are. */
  lemma CheckedResults(c: Config, steps: seq<Step>, ss: seq<State>, w: nat)
    requires Trace(c, steps, ss) && w < c.n
    ensures var s := ss[|steps|];
            && Shaped(c, s)
            && (!s.error && !Ending(c, s) && Handled(c, s, w) ==>
                  s.plugs[w].checkErr == Select(Produced(c, steps, ss, w), IsMeasured))
  {
    var s := ss[|steps|];
    MadeIsProduced(c, steps, ss, w);
    TraceReaches(c, steps, ss);
    ReachableStore(c, steps, s, w);
    ResultsKeptInOrder(c, steps, s, w);
    hide Trace, Reaches, Produced, Handled, HandedOver;
    if !s.error && !Ending(c, s) && Handled(c, s, w) {
      SelectNone(s.plugs[w].runData, IsMeasured);
    }
  }

  /** The execution is to end after the iterations completed so far: something went wrong,
      or at least one of them was measured and the last reading of the clock, their number
      and the results produced justify it. */
  ghost predicate Ends(c: Config, steps: seq<Step>, ss: seq<State>)
    requires |ss| == |steps| + 1
  {
    var now, runs := Reading(steps, ss), ss[|steps|].gen / 26 - WarmRuns(c);
    || WentWrong(c, steps, ss)
    || (runs > 0 && now >= c.minTime
        && (now > c.maxTime
            || (runs >= c.runsMin && (runs >= c.runsMax || ChecksHold(c, steps, ss)))))
  }

  /** The controller is about to take the loop test after an iteration. */
  predicate AtLoopTest(c: Config, s: State) {
    Seg(s.gen) == 0 && s.gen > 0 && |s.threads| == c.n + 1 && s.threads[c.n] == Thread(s.gen, Begin)
  }

  /** The loop test, from the run alone. */
  lemma LoopEndsExactlyWhen(c: Config, steps: seq<Step>, ss: seq<State>)
    requires Trace(c, steps, ss) && AtLoopTest(c, ss[|steps|])
    ensures ss[|steps|].state == Stop <==> Ends(c, steps, ss)
  {
    var s := ss[|steps|];
    TraceReaches(c, steps, ss);
    ErrorMeansWentWrong(c, steps, ss);
    TraceReading(c, steps, ss);
    ReachableSchedule(c, steps, s);
    assert Shaped(c, s);
    hide Trace, Reaches, WentWrong, Reading;
    LoopEndsJustified(c, steps, s);
    if !s.error {
      forall w: nat | w < c.n
        ensures s.plugs[w].checkErr == Select(Produced(c, steps, ss, w), IsMeasured)
      {
        CheckedResults(c, steps, ss, w);
      }
    }
    hide ScheduleOk, SyncInv;
  }

  /** A step that produces nothing, fails nowhere and decides nothing. */
  ghost predicate Idle(c: Config, s: State, step: Step) {
    && !step.ProduceItem? && !step.MonitorProduce? && !GoesWrong(c, s, step)
    && !(step.ControllerBegin? && Seg(s.gen) == DECIDE_SEG)
  }

  lemma IdleKeepsResults(c: Config, steps: seq<Step>, ss: seq<State>, w: nat)
    requires |ss| == |steps| + 1 && steps != [] && Idle(c, ss[|steps| - 1], steps[|steps| - 1])
    ensures Produced(c, steps, ss, w) == Produced(c, steps[..|steps| - 1], ss[..|steps|], w)
  {
    assert !Produces(ss[|steps| - 1], steps[|steps| - 1], w);
  }

  lemma IdleKeepsChecks(c: Config, steps: seq<Step>, ss: seq<State>)
    requires |ss| == |steps| + 1 && steps != [] && Idle(c, ss[|steps| - 1], steps[|steps| - 1])
    ensures ChecksHold(c, steps, ss) <==> ChecksHold(c, steps[..|steps| - 1], ss[..|steps|])
  {
    var front, early := steps[..|steps| - 1], ss[..|steps|];
    hide Produced;
    if ChecksHold(c, front, early) {
      forall w: nat | w < c.n ensures !c.fails(w, Select(Produced(c, steps, ss, w), IsMeasured)) {
        IdleKeepsResults(c, steps, ss, w);
      }
    }
    if ChecksHold(c, steps, ss) {
      forall w: nat | w < c.n ensures !c.fails(w, Select(Produced(c, front, early, w), IsMeasured)) {
        IdleKeepsResults(c, steps, ss, w);
      }
    }
  }

  lemma IdleKeepsEnds(c: Config, steps: seq<Step>, ss: seq<State>)
    requires |ss| == |steps| + 1 && steps != []
    requires Idle(c, ss[|steps| - 1], steps[|steps| - 1]) && ss[|steps|].gen == ss[|steps| - 1].gen
    ensures Ends(c, steps, ss) <==> Ends(c, steps[..|steps| - 1], ss[..|steps|])
  {
    var n := |steps| - 1;
    assert WentWrong(c, steps, ss) == WentWrong(c, steps[..n], ss[..n + 1]);
    assert Reading(steps, ss) == Reading(steps[..n], ss[..n + 1]);
    IdleKeepsChecks(c, steps, ss);
    hide WentWrong, Reading, ChecksHold;
  }

  /** Once the loop is over for the controller, nothing of this kind happens. */
  lemma IdleAfterLoop(c: Config, s: State, step: Step)
    requires SyncInv(c, s) && Enabled(c, s, step) && Seg(s.gen) == 0
    ensures Idle(c, s, step)
  {
    if SlotStep(step) {
      SlotStepRuns(c, s, step);
    }
    hide SyncInv, HasMeasurements;
  }

  lemma ControllerExits(c: Config, s: State, now: nat)
    requires Shaped(c, s) && Gone(DoControllerBegin(c, s, now).threads[c.n].mode)
    ensures Seg(s.threads[c.n].passed) == 0 && s.state == Stop
  {
    hide Decide, PersistSeg, Seg;
  }

  lemma OthersStay(c: Config, s: State, step: Step)
    requires Shaped(c, s) && Enabled(c, s, step) && ControllerStep(step) && !step.ControllerBegin?
    ensures Gone(Do(c, s, step).threads[c.n].mode) ==> Gone(s.threads[c.n].mode)
  {
    hide Persist, Drop, CallsStorage;
  }

  lemma ControllerLeaves(c: Config, s: State, step: Step)
    requires SyncInv(c, s) && Enabled(c, s, step)
    requires var u := Do(c, s, step); Gone(u.threads[c.n].mode) && !Gone(s.threads[c.n].mode)
    ensures step.ControllerBegin? && AtLoopTest(c, s) && s.state == Stop
  {
    Current(c, s, c.n);
    if !ControllerStep(step) {
      OthersLeaveController(c, s, step);
      hide Do;
    } else if step.ControllerBegin? {
      ControllerExits(c, s, step.now);
      assert s.state == Stop ==> s.gen > 0;
    } else {
      OthersStay(c, s, step);
      hide Do;
    }
    hide SyncInv, DoControllerBegin;
  }

  lemma GoneAtTheTest(c: Config, s: State)
    requires SyncInv(c, s) && Gone(s.threads[c.n].mode)
    ensures Seg(s.gen) == 0 && s.state == Stop
  {
    Current(c, s, c.n);
    assert Fits(c, c.n, s.threads[c.n].passed, s.threads[c.n].mode);
  }

  /** So whenever the controller has left the loop, and when the execution has finished, it
      was to end after the iterations made. */
  lemma {:induction false} LeavesOnlyWhenItEnds(c: Config, steps: seq<Step>, ss: seq<State>)
    requires Trace(c, steps, ss)
    ensures var s := ss[|steps|];
            Shaped(c, s) && (Gone(s.threads[c.n].mode) ==> Seg(s.gen) == 0 && Ends(c, steps, ss))
    decreases |steps|
  {
    hide Do, Enabled, SyncInv, Ends, Idle;
    if steps != [] {
      var n := |steps| - 1;
      var s, u := ss[n], ss[n + 1];
      LeavesOnlyWhenItEnds(c, steps[..n], ss[..n + 1]);
      TraceReaches(c, steps[..n], ss[..n + 1]);
      ReachableSync(c, steps[..n], s);
      TraceReaches(c, steps, ss);
      ReachableSync(c, steps, u);
      if Gone(u.threads[c.n].mode) {
        GoneAtTheTest(c, u);
        if !Gone(s.threads[c.n].mode) {
          ControllerLeaves(c, s, steps[n]);
          OnlyArrivingCompletes(c, s, steps[n]);
          LoopEndsExactlyWhen(c, steps[..n], ss[..n + 1]);
        } else {
          GoneAtTheTest(c, s);
          StoppedStays(c, s, steps[n]);
        }
        IdleAfterLoop(c, s, steps[n]);
        IdleKeepsEnds(c, steps, ss);
      }
    }
  }
}
