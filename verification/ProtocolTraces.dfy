/** What a run does, read off the states it leads through: which functions of which plugin
    are called, in which order, and what they produce. */
module ProtocolTraces {
  import opened Basics
  import opened RunData
  import opened Protocol
  import opened ProtocolSync
  import opened ProtocolSchedule

  /** The last state of a trace is reached by its steps, and so is every earlier one. */
  lemma {:induction false} TraceReaches(c: Config, steps: seq<Step>, ss: seq<State>)
    requires Trace(c, steps, ss)
    ensures Reaches(c, steps, ss[|steps|])
    decreases |steps|
  {
    hide Do, Enabled, Init;
    if steps != [] {
      var n := |steps|;
      TraceReaches(c, steps[..n - 1], ss[..n]);
      assert ss[..n][n - 1] == ss[n - 1];
    }
  }

  /** Every reachable state ends a trace. */
  lemma {:induction false} ReachedByTrace(c: Config, steps: seq<Step>, s: State) returns (ss: seq<State>)
    requires Reaches(c, steps, s)
    ensures Trace(c, steps, ss) && ss[|steps|] == s
    decreases |steps|
  {
    hide Do, Enabled, Init;
    if steps == [] {
      ss := [s];
    } else {
      var n := |steps|;
      var r: State :| Reaches(c, steps[..n - 1], r) && Shaped(c, r)
        && Enabled(c, r, steps[n - 1]) && s == Do(c, r, steps[n - 1]);
      var front := ReachedByTrace(c, steps[..n - 1], r);
      ss := front + [s];
      assert ss[..n] == front;
    }
  }

  // ------------------------------------------------------ calls of a plugin

  /** A call of the function in `slot` in the iteration. */
  datatype Call = Call(iteration: nat, slot: nat)

  predicate Enters(s: State, u: State, w: nat) {
    && w < |s.threads| && w < |u.threads|
    && s.threads[w].mode != InFunction && u.threads[w].mode == InFunction
  }

  /** Where the thread is, as a call. There is no slot 10. */
  function CallIn(t: Thread): Call {
    Call(t.passed / 26, if SlotSeg(Seg(t.passed)) then SlotOf(Seg(t.passed)) else 10)
  }

  /** The calls that worker w has made in the course of ss: one for each time it enters a
      function. */
  function Calls(ss: seq<State>, w: nat): seq<Call> {
    if |ss| < 2 then []
    else
      var n := |ss| - 1;
      Calls(ss[..n], w) + (if Enters(ss[n - 1], ss[n], w) then [CallIn(ss[n].threads[w])] else [])
  }

  /** Slots a worker has finished or is executing, over all iterations. */
  function SlotsEntered(t: Thread): nat {
    SlotsFinished(t) + (if t.mode == InFunction then 1 else 0)
  }

  /** The first slot, counted over all iterations, in which a function of worker w has
      reported a failure. */
  function FirstFailed(steps: seq<Step>, ss: seq<State>, w: nat): Option<nat>
    requires |ss| == |steps| + 1
    decreases |steps|
  {
    if steps == [] then None
    else
      var n := |steps| - 1;
      match FirstFailed(steps[..n], ss[..n + 1], w)
      case Some(k) => Some(k)
      case None =>
        if steps[n] == Return(w, false) && w < |ss[n].threads| then Some(SlotsFinished(ss[n].threads[w])) else None
  }

  /** Of the first `count` slots, those for which the plugin has a function and which do
      not come after the failed one. */
  function Due(c: Config, w: nat, count: nat, failed: Option<nat>): seq<Call> {
    if count == 0 then []
    else
      var k := count - 1;
      Due(c, w, k, failed)
      + (if c.has(w, k % 10) && (failed.Some? ==> k <= failed.value) then [Call(k / 10, k % 10)] else [])
  }

  /** A failure in the last of these slots or later makes no difference yet. */
  lemma {:induction false} DueUpToFailure(c: Config, w: nat, count: nat, k: nat)
    requires count <= k + 1
    ensures Due(c, w, count, Some(k)) == Due(c, w, count, None)
  {
    if count > 0 {
      DueUpToFailure(c, w, count - 1, k);
    }
  }

  lemma TenTimes(q: nat, r: nat)
    requires r < 10
    ensures (10 * q + r) / 10 == q && (10 * q + r) % 10 == r
  {}

  lemma SlotNumber(p: nat)
    requires SlotSeg(Seg(p))
    ensures SlotsDue(p) % 10 == SlotOf(Seg(p)) && SlotsDue(p) / 10 == p / 26
  {
    SlotsBeforeCounts(Seg(p));
    DueIs(p);
    TenTimes(p / 26, SlotOf(Seg(p)));
    hide SlotOf, SlotsBefore, SlotsDue, Seg;
  }

  /** How a worker moves through its slots. */
  lemma EnteredSlots(p: nat)
    ensures SlotsEntered(Thread(p, Begin)) == SlotsDue(p)
    ensures SlotSeg(Seg(p)) ==> SlotsEntered(Thread(p, InFunction)) == SlotsDue(p) + 1
    ensures SlotsEntered(Thread(p, Waiting)) == SlotsEntered(Thread(p, Ready)) == SlotsDue(p + 1)
    ensures !SlotSeg(Seg(p)) ==> SlotsDue(p + 1) == SlotsDue(p)
    ensures SlotSeg(Seg(p)) ==> SlotsDue(p + 1) == SlotsDue(p) + 1
    ensures !SlotSeg(Seg(p)) ==> SlotsEntered(Thread(p, Checking)) == SlotsEntered(Thread(p, Exited)) == SlotsDue(p)
  {
    SlotsGrow(p);
    SlotsBeforeCounts(Seg(p));
  }

  /** What is recorded about worker w's calls agrees with where it stands. */
  ghost predicate CallsOk(c: Config, t: Thread, stopped: bool, calls: seq<Call>, failed: Option<nat>, w: nat) {
    && calls == Due(c, w, SlotsEntered(t), failed)
    && stopped == failed.Some?
    && (failed.Some? ==> failed.value < SlotsEntered(t))
  }

  /** What a step does to worker w: it moves, or it stays where it is. */
  lemma OthersLeaveWorker(c: Config, s: State, step: Step, w: nat)
    requires Shaped(c, s) && Enabled(c, s, step) && w < c.n
    requires step != WorkerBegin(w) && step != Return(w, true) && step != Return(w, false)
    requires step != Arrive(w) && step != Resume(w) && step != Check(w)
    ensures Do(c, s, step).threads[w] == s.threads[w] && Do(c, s, step).failed[w] == s.failed[w]
  {
    if step.ControllerBegin? {
      ControllerBeginLeaves(c, s, step.now, w);
      hide DoControllerBegin, Enabled;
    } else {
      hide Produce, Persist, Drop, CallsStorage, AfterBegin;
    }
  }

  lemma ControllerBeginLeaves(c: Config, s: State, now: nat, w: nat)
    requires Shaped(c, s) && w < c.n
    ensures var u := DoControllerBegin(c, s, now); u.threads[w] == s.threads[w] && u.failed == s.failed
  {
    hide Decide, Seg, PersistSeg;
  }

  /** What a worker does at the start of a segment. */
  lemma BeginsWith(c: Config, s: State, w: nat)
    requires Shaped(c, s) && w < c.n && s.threads[w].mode == Begin
    ensures var u, p, m := Do(c, s, WorkerBegin(w)), s.threads[w].passed, AfterBegin(c, s, w);
            && u.threads[w] == Thread(p, m) && u.failed == s.failed
            && (SlotSeg(Seg(p)) ==> m == if c.has(w, SlotOf(Seg(p))) && !s.failed[w] then InFunction else Ready)
            && (!SlotSeg(Seg(p)) ==> m == Ready || m == Exited || m == Checking)
  {
    hide Seg, SlotOf;
  }

  lemma BeginCalls(c: Config, s: State, w: nat, calls: seq<Call>, failed: Option<nat>)
    requires Shaped(c, s) && w < c.n && s.threads[w].mode == Begin
    requires CallsOk(c, s.threads[w], s.failed[w], calls, failed, w)
    ensures var u := Do(c, s, WorkerBegin(w));
            var calls' := calls + (if Enters(s, u, w) then [CallIn(u.threads[w])] else []);
            CallsOk(c, u.threads[w], u.failed[w], calls', failed, w)
  {
    var p := s.threads[w].passed;
    BeginsWith(c, s, w);
    EnteredSlots(p);
    if SlotSeg(Seg(p)) {
      SlotNumber(p);
    }
    hide Do, AfterBegin, SlotsEntered, SlotsDue, Seg, SlotOf, SlotSeg;
  }

  lemma ReturnCalls(c: Config, s: State, w: nat, ok: bool, calls: seq<Call>, failed: Option<nat>)
    requires SyncInv(c, s) && w < c.n && s.threads[w].mode == InFunction
    requires CallsOk(c, s.threads[w], s.failed[w], calls, failed, w)
    ensures var u := DoReturn(s, w, ok);
            var failed' := if !ok && failed == None then Some(SlotsFinished(s.threads[w])) else failed;
            CallsOk(c, u.threads[w], u.failed[w], calls, failed', w)
  {
    var t := s.threads[w];
    WorkerInSlot(c, s, w);
    hide SyncInv;
    EnteredSlots(t.passed);
    DueUpToFailure(c, w, SlotsEntered(t), SlotsFinished(t));
    hide SlotsFinished, SlotsDue, Seg, SlotSeg, Due;
  }

  /** Where a worker stands that arrives, goes on or has checked. */
  lemma MovesOn(c: Config, s: State, step: Step, w: nat)
    requires Shaped(c, s) && w < c.n && Enabled(c, s, step)
    requires step == Arrive(w) || step == Resume(w) || step == Check(w)
    ensures var t, u := s.threads[w], Do(c, s, step);
            && u.failed == s.failed
            && (t.mode, u.threads[w])
               == if step == Arrive(w) then (Ready, Thread(t.passed, Waiting))
                  else if step == Resume(w) then (Waiting, Thread(t.passed + 1, Begin))
                  else (Checking, Thread(t.passed, Ready))
  {}

  lemma MovesKeepSlots(c: Config, s: State, step: Step, w: nat)
    requires SyncInv(c, s) && w < c.n && Enabled(c, s, step)
    requires step == Arrive(w) || step == Resume(w) || step == Check(w)
    ensures SlotsEntered(Do(c, s, step).threads[w]) == SlotsEntered(s.threads[w])
  {
    var t := s.threads[w];
    MovesOn(c, s, step, w);
    assert step == Check(w) ==> Seg(t.passed) == CHECK_SEG by {
      assert Fits(c, w, t.passed, t.mode);
    }
    CheckingIsNoSlot();
    assert t == Thread(t.passed, t.mode);
    hide *;
    EnteredSlots(t.passed);
    EnteredSlots(t.passed + 1);
  }

  lemma MoveCalls(c: Config, s: State, step: Step, w: nat, calls: seq<Call>, failed: Option<nat>)
    requires SyncInv(c, s) && w < c.n && Enabled(c, s, step)
    requires step == Arrive(w) || step == Resume(w) || step == Check(w)
    requires CallsOk(c, s.threads[w], s.failed[w], calls, failed, w)
    ensures var u := Do(c, s, step);
            !Enters(s, u, w) && CallsOk(c, u.threads[w], u.failed[w], calls, failed, w)
  {
    MovesKeepSlots(c, s, step, w);
    MovesOn(c, s, step, w);
    hide SyncInv, Do, Enabled, SlotsEntered, Due;
  }

  lemma CheckingIsNoSlot()
    ensures !SlotSeg(CHECK_SEG)
  {}

  /** One more step keeps the record of worker w's calls right. */
  lemma StepCalls(c: Config, s: State, step: Step, w: nat, calls: seq<Call>, failed: Option<nat>)
    requires SyncInv(c, s) && Enabled(c, s, step) && w < c.n
    requires CallsOk(c, s.threads[w], s.failed[w], calls, failed, w)
    ensures var u := Do(c, s, step);
            var calls' := calls + (if Enters(s, u, w) then [CallIn(u.threads[w])] else []);
            var failed' := if step == Return(w, false) && failed == None then Some(SlotsFinished(s.threads[w]))
                           else failed;
            CallsOk(c, u.threads[w], u.failed[w], calls', failed', w)
  {
    if step == WorkerBegin(w) {
      BeginCalls(c, s, w, calls, failed);
    } else if step == Return(w, true) || step == Return(w, false) {
      ReturnCalls(c, s, w, step.ok, calls, failed);
    } else if step == Arrive(w) || step == Resume(w) || step == Check(w) {
      MoveCalls(c, s, step, w, calls, failed);
    } else {
      OthersLeaveWorker(c, s, step, w);
    }
    hide SyncInv, CallsOk;
  }

  lemma NoCallsYet(c: Config, w: nat)
    requires w < c.n
    ensures var s := Init(c); Shaped(c, s) && CallsOk(c, s.threads[w], s.failed[w], [], None, w)
  {
    NothingEntered();
    hide SlotsEntered;
  }

  lemma NothingEntered()
    ensures SlotsEntered(Thread(0, Begin)) == 0
  {}

  lemma {:induction false} TraceCalls(c: Config, steps: seq<Step>, ss: seq<State>, w: nat)
    requires Trace(c, steps, ss) && w < c.n
    ensures Shaped(c, ss[|steps|])
    ensures CallsOk(c, ss[|steps|].threads[w], ss[|steps|].failed[w], Calls(ss, w), FirstFailed(steps, ss, w), w)
    decreases |steps|
  {
    hide Do, Enabled, SyncInv, CallsOk, Init, Enters, CallIn;
    if steps == [] {
      NoCallsYet(c, w);
    } else {
      var n := |steps| - 1;
      TraceCalls(c, steps[..n], ss[..n + 1], w);
      TraceReaches(c, steps[..n], ss[..n + 1]);
      ReachableSync(c, steps[..n], ss[n]);
      StepCalls(c, ss[n], steps[n], w, Calls(ss[..n + 1], w), FirstFailed(steps[..n], ss[..n + 1], w));
    }
  }

  /** In every run the calls of a plugin's functions are, in order and once each, those of
      the slots its worker has entered, for which it has a function and which do not come
      after the first function that failed. */
  lemma FunctionsCalledInTurn(c: Config, steps: seq<Step>, ss: seq<State>, w: nat)
    requires Trace(c, steps, ss) && w < c.n
    ensures |ss[|steps|].threads| == c.n + 1
    ensures Calls(ss, w) == Due(c, w, SlotsEntered(ss[|steps|].threads[w]), FirstFailed(steps, ss, w))
  {
    TraceCalls(c, steps, ss, w);
    hide Trace, Due, SlotsEntered, Calls;
  }

  lemma CallNumber(call: Call, k: nat)
    requires call.slot < 10
    ensures call == Call(k / 10, k % 10) <==> 10 * call.iteration + call.slot == k
  {
    TenTimes(call.iteration, call.slot);
  }

  lemma {:induction false} DueOnce(c: Config, w: nat, count: nat, failed: Option<nat>, call: Call)
    requires call.slot < 10
    ensures var k := 10 * call.iteration + call.slot;
            multiset(Due(c, w, count, failed))[call]
            == if k < count && c.has(w, call.slot) && (failed.Some? ==> k <= failed.value) then 1 else 0
  {
    if count > 0 {
      var k := count - 1;
      DueOnce(c, w, k, failed, call);
      CallNumber(call, k);
      DueStep(c, w, k, failed);
      hide Due;
    }
  }

  lemma DueStep(c: Config, w: nat, k: nat, failed: Option<nat>)
    ensures var last := Call(k / 10, k % 10);
            Due(c, w, k + 1, failed)
            == Due(c, w, k, failed) + (if c.has(w, last.slot) && (failed.Some? ==> k <= failed.value) then [last] else [])
  {}

  /** So when all is over each function has been called exactly once in every iteration,
      unless one of this plugin had failed before. */
  lemma CalledOncePerIteration(c: Config, steps: seq<Step>, ss: seq<State>, w: nat, call: Call)
    requires Trace(c, steps, ss) && w < c.n && call.slot < 10
    ensures var s, failed := ss[|steps|], FirstFailed(steps, ss, w);
            && Shaped(c, s)
            && (Finished(c, s) ==>
                  multiset(Calls(ss, w))[call]
                  == if && call.iteration < s.gen / 26 && c.has(w, call.slot)
                        && (failed.Some? ==> 10 * call.iteration + call.slot <= failed.value) then 1 else 0)
  {
    var s := ss[|steps|];
    FunctionsCalledInTurn(c, steps, ss, w);
    TraceReaches(c, steps, ss);
    ReachableSync(c, steps, s);
    hide Trace, Calls, Reaches;
    if Finished(c, s) {
      AllSlotsEntered(c, s, w);
      DueOnce(c, w, SlotsEntered(s.threads[w]), FirstFailed(steps, ss, w), call);
    }
    hide SyncInv, Due, SlotsEntered, FirstFailed;
  }

  lemma AllSlotsEntered(c: Config, s: State, w: nat)
    requires SyncInv(c, s) && Finished(c, s) && w < c.n
    ensures SlotsEntered(s.threads[w]) == 10 * (s.gen / 26)
  {
    Current(c, s, w);
    Current(c, s, c.n);
    assert Fits(c, c.n, s.gen, Done);
    hide SyncInv;
    DueIs(s.gen);
    EnteredSlots(s.gen);
    SlotsBeforeCounts(0);
    hide SlotsEntered, SlotsDue, SlotsBefore;
  }

  // ---------------------------------------------------- calls of the monitor

  predicate Polls(s: State, u: State) {
    !s.monitor.InMonitor? && u.monitor.InMonitor?
  }

  /** The plugins whose monitor function has been called, one entry for each call. */
  function MonitorCalls(ss: seq<State>): seq<nat> {
    if |ss| < 2 then []
    else
      var n := |ss| - 1;
      MonitorCalls(ss[..n]) + (if Polls(ss[n - 1], ss[n]) then [ss[n].monitor.plug] else [])
  }

  predicate BeginsRound(s: State, u: State) {
    s.monitor == Looping && u.monitor.Polling?
  }

  /** How often the monitor thread has started to go through the plugins. */
  function RoundsBegun(ss: seq<State>): nat {
    if |ss| < 2 then 0
    else
      var n := |ss| - 1;
      RoundsBegun(ss[..n]) + (if BeginsRound(ss[n - 1], ss[n]) then 1 else 0)
  }

  /** The plugins before k that have a monitor function. */
  function Monitored(c: Config, k: nat): seq<nat> {
    if k == 0 then [] else Monitored(c, k - 1) + (if c.monitors(k - 1) then [k - 1] else [])
  }

  function Rounds(c: Config, r: nat): seq<nat> {
    if r == 0 then [] else Rounds(c, r - 1) + Monitored(c, c.n)
  }

  /** The round the monitor thread is in, none between two rounds, as what it has called
      in it. */
  function InRound(c: Config, m: Monitor): Option<seq<nat>> {
    match m
    case Polling(k) => Some(Monitored(c, k))
    case InMonitor(k) => Some(Monitored(c, k + 1))
    case _ => None
  }

  ghost predicate MonitorCallsOk(c: Config, m: Monitor, calls: seq<nat>, begun: nat) {
    match InRound(c, m)
    case None => calls == Rounds(c, begun)
    case Some(now) => begun > 0 && calls == Rounds(c, begun - 1) + now
  }

  predicate WithinPlugins(c: Config, m: Monitor) {
    (m.Polling? ==> m.next <= c.n) && (m.InMonitor? ==> m.plug < c.n && c.monitors(m.plug))
  }

  /** How a step can move the monitor thread. */
  ghost predicate MonitorMoves(c: Config, m: Monitor, m': Monitor) {
    || m' == m || (m == Off && m' == Looping) || (m == Ended && m' == Off)
    || (m == Looping && (m' == Ended || m' == Polling(0)))
    || (m.InMonitor? && m' == Polling(m.plug + 1))
    || (m.Polling? && m' == if m.next >= c.n then Looping
                            else if c.monitors(m.next) then InMonitor(m.next) else Polling(m.next + 1))
  }

  lemma OthersLeaveMonitor(c: Config, s: State, step: Step)
    requires Shaped(c, s) && Enabled(c, s, step)
    requires !IsMonitorStep(step) && !step.ControllerBegin? && !step.JoinMonitor?
    ensures Do(c, s, step).monitor == s.monitor
  {
    hide Produce, Persist, Drop, CallsStorage, AfterBegin;
  }

  lemma OwnMonitorMoves(c: Config, s: State, step: Step)
    requires Shaped(c, s) && Enabled(c, s, step) && (IsMonitorStep(step) || step.JoinMonitor?)
    ensures MonitorMoves(c, s.monitor, Do(c, s, step).monitor)
  {
    hide Produce;
  }

  lemma StepMovesMonitor(c: Config, s: State, step: Step)
    requires SyncInv(c, s) && Enabled(c, s, step)
    ensures MonitorMoves(c, s.monitor, Do(c, s, step).monitor)
  {
    if step.ControllerBegin? {
      ControllerBeginMonitor(c, s, step.now);
    } else if IsMonitorStep(step) || step.JoinMonitor? {
      OwnMonitorMoves(c, s, step);
      hide Do;
    } else {
      OthersLeaveMonitor(c, s, step);
      hide Do;
    }
    hide SyncInv, DoControllerBegin;
  }

  lemma ControllerBeginMonitor(c: Config, s: State, now: nat)
    requires SyncInv(c, s) && ModeOf(s, c.n) == Begin
    ensures var m := DoControllerBegin(c, s, now).monitor; m == s.monitor || (s.monitor == Off && m == Looping)
  {
    hide ModesFit, Agreement, Decide, PersistSeg;
  }

  lemma MovesKeepCalls(c: Config, s: State, u: State, calls: seq<nat>, begun: nat)
    requires MonitorMoves(c, s.monitor, u.monitor)
    requires WithinPlugins(c, s.monitor) && MonitorCallsOk(c, s.monitor, calls, begun)
    ensures WithinPlugins(c, u.monitor)
    ensures MonitorCallsOk(c, u.monitor, calls + (if Polls(s, u) then [u.monitor.plug] else []),
                           begun + (if BeginsRound(s, u) then 1 else 0))
  {}

  lemma {:induction false} TraceMonitorCalls(c: Config, steps: seq<Step>, ss: seq<State>)
    requires Trace(c, steps, ss)
    ensures WithinPlugins(c, ss[|steps|].monitor)
    ensures MonitorCallsOk(c, ss[|steps|].monitor, MonitorCalls(ss), RoundsBegun(ss))
    decreases |steps|
  {
    hide Do, Enabled, SyncInv, Polls, BeginsRound;
    if steps != [] {
      var n := |steps| - 1;
      TraceMonitorCalls(c, steps[..n], ss[..n + 1]);
      TraceReaches(c, steps[..n], ss[..n + 1]);
      ReachableSync(c, steps[..n], ss[n]);
      StepMovesMonitor(c, ss[n], steps[n]);
      hide MonitorMoves, MonitorCallsOk, WithinPlugins;
      MovesKeepCalls(c, ss[n], ss[n + 1], MonitorCalls(ss[..n + 1]), RoundsBegun(ss[..n + 1]));
    }
  }

  /** The monitor thread calls the monitor functions in rounds: every completed round calls
      that of every plugin that has one, in order and once, and the round it is in has
      done so up to where it stands. */
  lemma MonitorCallsInRounds(c: Config, steps: seq<Step>, ss: seq<State>)
    requires Trace(c, steps, ss)
    ensures var r, now := RoundsBegun(ss), InRound(c, ss[|steps|].monitor);
            MonitorCalls(ss) == if now == None then Rounds(c, r) else Rounds(c, if r > 0 then r - 1 else 0) + now.value
  {
    TraceMonitorCalls(c, steps, ss);
  }

  // ------------------------------------------------------- what is produced

  /** The step lets plugin w produce an item. */
  predicate Produces(s: State, step: Step, w: nat) {
    (step.ProduceItem? && step.w == w) || (step.MonitorProduce? && s.monitor == InMonitor(w))
  }

  /** What the functions of plugin w have produced, in order: each item with the kind they
      gave it, and marked as warm in the iterations that only warm up. */
  function Produced(c: Config, steps: seq<Step>, ss: seq<State>, w: nat): seq<Item>
    requires |ss| == |steps| + 1
    decreases |steps|
  {
    if steps == [] then []
    else
      var n := |steps| - 1;
      var front := Produced(c, steps[..n], ss[..n + 1], w);
      if Produces(ss[n], steps[n], w) then
        front + [Item(steps[n].kind, |front|, ss[n].gen, ss[n].gen / 26 < WarmRuns(c))]
      else front
  }

  lemma ProductionRecorded(c: Config, s: State, step: Step, w: nat)
    requires ScheduleInv(c, s) && Enabled(c, s, step) && w < c.n && Produces(s, step, w)
    ensures var made := s.plugs[w].made;
            Do(c, s, step).plugs[w].made == made + [Item(step.kind, |made|, s.gen, s.gen / 26 < WarmRuns(c))]
  {
    SlotStepRuns(c, s, step);
    RunningIsScheduled(c, s);
    hide SyncInv, ScheduleOk, ScheduleInv;
  }

  lemma HandlingProducesNothing(p: Plug, error: bool)
    ensures Persist(p, error).made == p.made && Drop(p).made == p.made
  {
    hide Select;
  }

  /** Only producing, persisting and dropping touch the data. */
  lemma OthersLeaveData(c: Config, s: State, step: Step)
    requires Shaped(c, s) && Enabled(c, s, step)
    requires !step.ProduceItem? && !step.MonitorProduce? && !step.PersistPlug? && !step.DropPlug?
    ensures Do(c, s, step).plugs == s.plugs
  {
    hide Seg, PersistSeg, Decide, AfterBegin;
  }

  lemma NothingElseProduced(c: Config, s: State, step: Step, w: nat)
    requires Shaped(c, s) && Enabled(c, s, step) && w < c.n && !Produces(s, step, w)
    ensures Do(c, s, step).plugs[w].made == s.plugs[w].made
  {
    if !step.ProduceItem? && !step.MonitorProduce? && !step.PersistPlug? && !step.DropPlug? {
      OthersLeaveData(c, s, step);
      hide Do, Enabled;
    } else {
      HandlingProducesNothing(s.plugs[w], s.error);
      hide Persist, Drop, CallsStorage, DoControllerBegin;
    }
  }

  /** The history of a plugin's data is what its functions produced. */
  lemma {:induction false} MadeIsProduced(c: Config, steps: seq<Step>, ss: seq<State>, w: nat)
    requires Trace(c, steps, ss) && w < c.n
    ensures |ss[|steps|].plugs| == c.n && ss[|steps|].plugs[w].made == Produced(c, steps, ss, w)
    decreases |steps|
  {
    hide Do, Enabled, ScheduleInv, Produces;
    if steps != [] {
      var n := |steps| - 1;
      MadeIsProduced(c, steps[..n], ss[..n + 1], w);
      TraceReaches(c, steps[..n], ss[..n + 1]);
      ReachableSchedule(c, steps[..n], ss[n]);
      if Produces(ss[n], steps[n], w) {
        ProductionRecorded(c, ss[n], steps[n], w);
      } else {
        NothingElseProduced(c, ss[n], steps[n], w);
      }
    }
  }

  // ------------------------------------------------------------ the first failure

  /** The generation in which some function first failed. */
  function FailedAt(steps: seq<Step>, ss: seq<State>): Option<nat>
    requires |ss| == |steps| + 1
    decreases |steps|
  {
    if steps == [] then None
    else
      var n := |steps| - 1;
      match FailedAt(steps[..n], ss[..n + 1])
      case Some(g) => Some(g)
      case None => if steps[n].Return? && !steps[n].ok then Some(ss[n].gen) else None
  }

  lemma OthersKeepFailure(c: Config, s: State, step: Step)
    requires Shaped(c, s) && Enabled(c, s, step) && !step.Return?
    ensures Do(c, s, step).firstFailure == s.firstFailure
  {
    hide Produce, Persist, Drop, CallsStorage, Seg, PersistSeg, Decide, AfterBegin;
  }

  lemma StepFailure(c: Config, s: State, step: Step)
    requires Shaped(c, s) && Enabled(c, s, step)
    ensures Do(c, s, step).firstFailure
         == if s.firstFailure == None && step.Return? && !step.ok then Some(s.gen) else s.firstFailure
  {
    if !step.Return? {
      OthersKeepFailure(c, s, step);
      hide Do;
    }
  }

  /** The first failure on record is the first that happened. */
  lemma {:induction false} FailureOnRecord(c: Config, steps: seq<Step>, ss: seq<State>)
    requires Trace(c, steps, ss)
    ensures ss[|steps|].firstFailure == FailedAt(steps, ss)
    decreases |steps|
  {
    hide Do, Enabled;
    if steps != [] {
      var n := |steps| - 1;
      FailureOnRecord(c, steps[..n], ss[..n + 1]);
      StepFailure(c, ss[n], steps[n]);
    }
  }
}
