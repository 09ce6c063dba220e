/** What happens to every item a plugin produces, in every run: exclusive access while
    the controller handles it, conservation, order, and what never reaches storage. */
module ProtocolData {
  import opened CyclicBarrier
  import opened RunData
  import opened Protocol
  import opened ProtocolSync

  // -------------------------------------------------------------- exclusion

  lemma MonitorIsOff(c: Config, s: State)
    requires SyncInv(c, s) && (s.threads[c.n].mode.Persisting? || Gone(s.threads[c.n].mode))
    ensures s.monitor == Off
  {
    assert Fits(c, c.n, s.threads[c.n].passed, s.threads[c.n].mode);
  }

  lemma NotASlot(c: Config, s: State)
    requires SyncInv(c, s) && (s.threads[c.n].mode.Persisting? || Gone(s.threads[c.n].mode))
    ensures !SlotSeg(Seg(s.gen))
  {
    Current(c, s, c.n);
    assert Fits(c, c.n, s.threads[c.n].passed, s.threads[c.n].mode);
  }

  lemma NobodyInFunction(c: Config, s: State, w: nat)
    requires SyncInv(c, s) && w < c.n && !SlotSeg(Seg(s.gen))
    ensures s.threads[w].mode != InFunction
  {
    Current(c, s, w);
    assert Fits(c, w, s.threads[w].passed, s.threads[w].mode);
  }

  /** While the controller persists or drops data, no slot function and no monitor
      function runs. */
  lemma ControllerHasDataAlone(c: Config, steps: seq<Step>, s: State, w: nat)
    requires Reaches(c, steps, s) && w < c.n && |s.threads| == c.n + 1
    requires s.threads[c.n].mode.Persisting? || s.threads[c.n].mode.Dropping?
    ensures s.threads[w].mode != InFunction && s.monitor == Off
  {
    ReachableSync(c, steps, s);
    assert Shaped(c, s);
    hide SyncInv, Reaches;
    MonitorIsOff(c, s);
    NotASlot(c, s);
    NobodyInFunction(c, s, w);
  }

  // ---------------------------------------------------------- the invariant

  predicate Warming(s: State) {
    s.state == Warmup
  }

  /** The final release has begun. */
  predicate Ending(c: Config, s: State)
    requires Shaped(c, s)
  {
    s.threads[c.n].mode.Dropping? || s.threads[c.n].mode.Done?
  }

  /** Nothing produced at or after this barrier count has been stored. */
  function Limit(s: State): nat {
    if s.firstFailure.Some? then s.firstFailure.value
    else if SlotSeg(Seg(s.gen)) then s.gen
    else s.gen + 1
  }

  /** The data of plugin i that this iteration gathered has been dealt with. */
  predicate Settled(c: Config, s: State, i: nat)
    requires Shaped(c, s)
  {
    var g, t := Seg(s.gen), s.threads[c.n];
    || g == 0 || g >= DECIDE_SEG
    || (g == 22 && t.passed == s.gen
        && (t.mode.Ready? || t.mode.Waiting? || (t.mode.Persisting? && i < t.mode.next)))
  }

  ghost predicate PlugOk(p: Plug, gen: nat, warming: bool, whole: bool, limit: nat, settled: bool) {
    && Conserved(p)
    && InOrder(p, whole)
    && WarmthKept(p, warming)
    && Dated(p, gen, limit)
    && (warming && settled ==> p.runData == [])
  }

  ghost predicate PlugsOk(c: Config, s: State)
    requires Shaped(c, s)
  {
    forall i :: 0 <= i < c.n ==>
      PlugOk(s.plugs[i], s.gen, Warming(s), !s.error && !Ending(c, s), Limit(s), Settled(c, s, i))
  }

  ghost predicate FailureOk(s: State) {
    s.firstFailure.Some? ==> s.error && s.firstFailure.value <= s.gen
  }

  ghost predicate DataInv(c: Config, s: State) {
    SyncInv(c, s) && PlugsOk(c, s) && FailureOk(s)
  }

  lemma InitData(c: Config)
    ensures DataInv(c, Init(c))
  {
    InitSync(c);
    hide SyncInv;
    assert Select([], IsMeasured) == [];
  }

  // ------------------------------------------- steps that leave the data alone

  /** How the rest of the state may move without disturbing any plugin's data. */
  ghost predicate Calm(c: Config, s: State, u: State)
    requires Shaped(c, s) && Shaped(c, u)
  {
    && s.gen <= u.gen && Limit(s) <= Limit(u)
    && (s.error ==> u.error) && (Ending(c, s) ==> Ending(c, u))
    && (Warming(u) ==> Warming(s))
    && (Warming(s) && !Warming(u) ==> forall i: nat :: i < c.n ==> Settled(c, s, i))
    && (Warming(u) ==> forall i: nat :: i < c.n && Settled(c, u, i) ==> Settled(c, s, i))
  }

  lemma CalmKeepsPlug(c: Config, s: State, u: State, i: nat)
    requires Shaped(c, s) && Shaped(c, u) && Calm(c, s, u) && i < c.n
    requires PlugOk(s.plugs[i], s.gen, Warming(s), !s.error && !Ending(c, s), Limit(s), Settled(c, s, i))
    ensures PlugOk(s.plugs[i], u.gen, Warming(u), !u.error && !Ending(c, u), Limit(u), Settled(c, u, i))
  {
    hide Limit, Settled, Ending;
  }

  lemma CalmKeepsPlugs(c: Config, s: State, u: State)
    requires Shaped(c, s) && Shaped(c, u) && Calm(c, s, u) && u.plugs == s.plugs && PlugsOk(c, s)
    ensures PlugsOk(c, u)
  {
    hide PlugOk, Calm;
    forall i | 0 <= i < c.n
      ensures PlugOk(u.plugs[i], u.gen, Warming(u), !u.error && !Ending(c, u), Limit(u), Settled(c, u, i))
    {
      CalmKeepsPlug(c, s, u, i);
    }
  }

  lemma ArriveIsCalm(c: Config, s: State, t: nat)
    requires DataInv(c, s) && t <= c.n && ModeOf(s, t) == Ready
    ensures Calm(c, s, DoArrive(c, s, t)) && FailureOk(DoArrive(c, s, t))
  {
    hide PlugsOk;
    NextSeg(s.gen);
    Current(c, s, t);
    Current(c, s, c.n);
    if s.count == c.n {
      EveryoneArrived(c, s, t);
    }
    hide SyncInv;
  }

  lemma ControllerBeginIsCalm(c: Config, s: State, now: nat)
    requires DataInv(c, s) && ModeOf(s, c.n) == Begin
    ensures Calm(c, s, DoControllerBegin(c, s, now)) && FailureOk(DoControllerBegin(c, s, now))
    ensures DoControllerBegin(c, s, now).plugs == s.plugs
  {
    hide PlugsOk;
    Current(c, s, c.n);
    hide SyncInv;
  }

  lemma WorkerIsCalm(c: Config, s: State, step: Step)
    requires DataInv(c, s) && Enabled(c, s, step)
    requires step.WorkerBegin? || step.Return? || step.Check? || step.Resume?
    ensures Calm(c, s, Do(c, s, step)) && FailureOk(Do(c, s, step)) && Do(c, s, step).plugs == s.plugs
  {
    hide PlugsOk;
    var t := if step.Resume? then step.t else step.w;
    Current(c, s, t);
    assert Fits(c, t, s.threads[t].passed, s.threads[t].mode);
    hide SyncInv;
  }

  lemma ControllerIsCalm(c: Config, s: State, step: Step)
    requires DataInv(c, s) && Enabled(c, s, step)
    requires step.EndPrelude? || step.JoinMonitor? || step.JoinWorkers?
    ensures Calm(c, s, Do(c, s, step)) && FailureOk(Do(c, s, step)) && Do(c, s, step).plugs == s.plugs
  {
    hide PlugsOk;
    Current(c, s, c.n);
    assert Fits(c, c.n, s.threads[c.n].passed, s.threads[c.n].mode);
    hide SyncInv;
  }

  // --------------------------------------------------- steps that change data

  /** A step that changes plugin j only, and is calm for the others. */
  lemma OnePlugChanges(c: Config, s: State, u: State, j: nat)
    requires Shaped(c, s) && Shaped(c, u) && j < c.n && PlugsOk(c, s)
    requires forall i :: 0 <= i < c.n && i != j ==> u.plugs[i] == s.plugs[i]
    requires s.gen == u.gen && Limit(s) == Limit(u) && (s.error ==> u.error) && (Ending(c, s) ==> Ending(c, u))
    requires Warming(u) == Warming(s)
    requires forall i: nat :: i < c.n && i != j && Settled(c, u, i) ==> Settled(c, s, i)
    requires PlugOk(u.plugs[j], u.gen, Warming(u), !u.error && !Ending(c, u), Limit(u), Settled(c, u, j))
    ensures PlugsOk(c, u)
  {
    hide Limit, Settled, Ending;
    forall i | 0 <= i < c.n
      ensures PlugOk(u.plugs[i], u.gen, Warming(u), !u.error && !Ending(c, u), Limit(u), Settled(c, u, i))
    {}
  }

  lemma ProducePlug(p: Plug, kind: Kind, gen: nat, warming: bool, whole: bool, limit: nat)
    requires PlugOk(p, gen, warming, whole, limit, false)
    ensures PlugOk(Produce(p, kind, gen, warming), gen, warming, whole, limit, false)
  {
    ProduceConserves(p, kind, gen, warming);
    ProduceOrder(p, kind, gen, warming, whole);
    hide Conserved, InOrder;
  }

  lemma ProduceKeepsData(c: Config, s: State, w: nat, kind: Kind)
    requires DataInv(c, s) && w < c.n && !Settled(c, s, w)
    ensures PlugsOk(c, WithItem(s, w, kind)) && FailureOk(WithItem(s, w, kind))
  {
    var u := WithItem(s, w, kind);
    assert Shaped(c, s) && Limit(u) == Limit(s) && Ending(c, u) == Ending(c, s);
    assert forall i: nat :: i < c.n ==> Settled(c, u, i) == Settled(c, s, i);
    hide SyncInv, PlugOk, Produce, Limit, Settled, Ending;
    ProducePlug(s.plugs[w], kind, s.gen, Warming(s), !s.error && !Ending(c, s), Limit(s));
    OnePlugChanges(c, s, u, w);
  }

  lemma DropPlugWhileWarm(p: Plug, gen: nat, whole: bool, limit: nat, settled: bool)
    requires PlugOk(p, gen, true, whole, limit, settled)
    ensures PlugOk(Drop(p), gen, true, true, limit, true)
  {
    DropConserves(p);
    WarmDropOrder(p, whole);
    hide Conserved, InOrder;
  }

  lemma DropPlugAtEnd(p: Plug, gen: nat, warming: bool, limit: nat, settled: bool)
    requires PlugOk(p, gen, warming, false, limit, settled)
    ensures PlugOk(Drop(p), gen, warming, false, limit, settled)
  {
    DropConserves(p);
    hide Conserved;
  }

  lemma PersistedPlug(p: Plug, gen: nat, error: bool, limit: nat, settled: bool)
    requires PlugOk(p, gen, false, !error, limit, settled)
    requires error || gen < limit
    ensures PlugOk(Persist(p, error), gen, false, !error, limit, true)
  {
    PersistConserves(p, error);
    PersistOrder(p, error);
    Selected(p.runData, IsBatch);
    Selected(p.runData, IsOther);
    hide Conserved, InOrder;
  }

  /** The persisting controller is alone in a generation that is not a slot. */
  lemma PersistingScalars(c: Config, s: State, ok: bool)
    requires DataInv(c, s) && ModeOf(s, c.n).Persisting?
    ensures Shaped(c, DoPersistPlug(c, s, ok)) && FailureOk(DoPersistPlug(c, s, ok))
    ensures s.error || s.gen < Limit(s)
    ensures var u, j := DoPersistPlug(c, s, ok), ModeOf(s, c.n).next;
            && (j >= c.n ==> Calm(c, s, u))
            && u.gen == s.gen && Limit(u) == Limit(s) && Warming(u) == Warming(s)
            && (s.error ==> u.error) && !Ending(c, s) && !Ending(c, u)
            && (forall i: nat :: i < c.n && i != j && Settled(c, u, i) ==> Settled(c, s, i))
  {
    Current(c, s, c.n);
    assert Fits(c, c.n, s.threads[c.n].passed, s.threads[c.n].mode);
    hide SyncInv, PlugsOk, Persist, Drop;
  }

  lemma PersistKeepsData(c: Config, s: State, ok: bool)
    requires DataInv(c, s) && ModeOf(s, c.n).Persisting?
    ensures PlugsOk(c, DoPersistPlug(c, s, ok)) && FailureOk(DoPersistPlug(c, s, ok))
  {
    var u := DoPersistPlug(c, s, ok);
    var j := ModeOf(s, c.n).next;
    PersistingScalars(c, s, ok);
    hide SyncInv, PlugOk, Persist, Drop, Limit, Settled, Ending, Calm;
    if j >= c.n {
      CalmKeepsPlugs(c, s, u);
    } else {
      if Warming(s) {
        DropPlugWhileWarm(s.plugs[j], s.gen, !s.error, Limit(s), Settled(c, s, j));
        WeakenWhole(u.plugs[j], s.gen, true, !u.error, Limit(s), Settled(c, u, j));
      } else {
        PersistedPlug(s.plugs[j], s.gen, s.error, Limit(s), Settled(c, s, j));
        WeakenWhole2(u.plugs[j], s.gen, !s.error, !u.error, Limit(s), Settled(c, u, j));
      }
      OnePlugChanges(c, s, u, j);
    }
  }

  lemma WeakenWhole(p: Plug, gen: nat, warming: bool, whole: bool, limit: nat, settled: bool)
    requires PlugOk(p, gen, warming, true, limit, true)
    ensures PlugOk(p, gen, warming, whole, limit, settled)
  {}

  lemma WeakenWhole2(p: Plug, gen: nat, whole: bool, whole': bool, limit: nat, settled: bool)
    requires PlugOk(p, gen, false, whole, limit, true) && (whole' ==> whole)
    ensures PlugOk(p, gen, false, whole', limit, settled)
  {}

  lemma DroppingScalars(c: Config, s: State)
    requires DataInv(c, s) && ModeOf(s, c.n).Dropping?
    ensures Shaped(c, DoDropPlug(c, s)) && FailureOk(DoDropPlug(c, s))
    ensures var u, j := DoDropPlug(c, s), ModeOf(s, c.n).next;
            && (j >= c.n ==> Calm(c, s, u))
            && u.gen == s.gen && Limit(u) == Limit(s) && Warming(u) == Warming(s)
            && u.error == s.error && Ending(c, s) && Ending(c, u)
            && (forall i: nat :: i < c.n && Settled(c, u, i) <==> i < c.n && Settled(c, s, i))
  {
    Current(c, s, c.n);
    assert Fits(c, c.n, s.threads[c.n].passed, s.threads[c.n].mode);
    hide SyncInv, PlugsOk, Drop;
  }

  lemma DropKeepsData(c: Config, s: State)
    requires DataInv(c, s) && ModeOf(s, c.n).Dropping?
    ensures PlugsOk(c, DoDropPlug(c, s)) && FailureOk(DoDropPlug(c, s))
  {
    var u := DoDropPlug(c, s);
    var j := ModeOf(s, c.n).next;
    DroppingScalars(c, s);
    hide SyncInv, PlugOk, Drop, Limit, Settled, Ending, Calm;
    if j >= c.n {
      CalmKeepsPlugs(c, s, u);
    } else {
      DropPlugAtEnd(s.plugs[j], s.gen, Warming(s), Limit(s), Settled(c, s, j));
      OnePlugChanges(c, s, u, j);
    }
  }

  lemma WorkerProductionUnsettled(c: Config, s: State, w: nat)
    requires SyncInv(c, s) && w < c.n && s.threads[w].mode == InFunction
    ensures !Settled(c, s, w)
  {
    Current(c, s, w);
    assert Fits(c, w, s.threads[w].passed, InFunction);
  }

  lemma MonitorProductionUnsettled(c: Config, s: State, w: nat)
    requires SyncInv(c, s) && w < c.n && s.monitor.InMonitor?
    ensures !Settled(c, s, w)
  {
    Current(c, s, c.n);
    NextSeg(s.threads[c.n].passed);
  }

  lemma ArriveKeepsData(c: Config, s: State, step: Step)
    requires DataInv(c, s) && Enabled(c, s, step) && step.Arrive?
    ensures PlugsOk(c, Do(c, s, step)) && FailureOk(Do(c, s, step))
  {
    ArriveIsCalm(c, s, step.t);
    hide PlugsOk, Calm, FailureOk, SyncInv, Limit, Settled, Ending, AfterBegin, Decide;
    CalmKeepsPlugs(c, s, DoArrive(c, s, step.t));
  }

  lemma ControllerBeginKeepsData(c: Config, s: State, step: Step)
    requires DataInv(c, s) && Enabled(c, s, step) && step.ControllerBegin?
    ensures PlugsOk(c, Do(c, s, step)) && FailureOk(Do(c, s, step))
  {
    ControllerBeginIsCalm(c, s, step.now);
    hide DoControllerBegin;
    var u := DoControllerBegin(c, s, step.now);
    assert Shaped(c, s) && u == Do(c, s, step);
    hide *;
    CalmKeepsPlugs(c, s, u);
  }

  lemma WorkerKeepsData(c: Config, s: State, step: Step)
    requires DataInv(c, s) && Enabled(c, s, step)
    requires step.WorkerBegin? || step.Return? || step.Check? || step.Resume?
    ensures PlugsOk(c, Do(c, s, step)) && FailureOk(Do(c, s, step))
  {
    WorkerIsCalm(c, s, step);
    var u := Do(c, s, step);
    assert Shaped(c, s);
    hide *;
    CalmKeepsPlugs(c, s, u);
  }

  lemma ControllerKeepsData(c: Config, s: State, step: Step)
    requires DataInv(c, s) && Enabled(c, s, step)
    requires step.EndPrelude? || step.JoinMonitor? || step.JoinWorkers?
    ensures PlugsOk(c, Do(c, s, step)) && FailureOk(Do(c, s, step))
  {
    ControllerIsCalm(c, s, step);
    var u := Do(c, s, step);
    assert Shaped(c, s);
    hide *;
    CalmKeepsPlugs(c, s, u);
  }

  lemma ProductionKeepsData(c: Config, s: State, step: Step)
    requires DataInv(c, s) && Enabled(c, s, step)
    requires step.ProduceItem? || step.MonitorProduce?
    ensures PlugsOk(c, Do(c, s, step)) && FailureOk(Do(c, s, step))
  {
    if step.ProduceItem? {
      WorkerProductionUnsettled(c, s, step.w);
      ProduceKeepsData(c, s, step.w, step.kind);
    } else {
      MonitorProductionUnsettled(c, s, s.monitor.plug);
      ProduceKeepsData(c, s, s.monitor.plug, step.kind);
    }
    hide PlugsOk, FailureOk, SyncInv, Settled;
  }

  lemma MonitorKeepsData(c: Config, s: State, step: Step)
    requires DataInv(c, s) && Enabled(c, s, step)
    requires step.MonitorLoop? || step.MonitorPoll? || step.MonitorReturn?
    ensures PlugsOk(c, Do(c, s, step)) && FailureOk(Do(c, s, step))
  {
    MonitorIsCalm(c, s, Do(c, s, step));
    hide PlugsOk, FailureOk, SyncInv;
  }

  /** Every step of every thread keeps the ledger of every plugin in order. */
  lemma StepKeepsData(c: Config, s: State, step: Step)
    requires DataInv(c, s) && Enabled(c, s, step)
    ensures DataInv(c, Do(c, s, step))
  {
    StepKeepsSync(c, s, step);
    hide SyncInv, PlugsOk, FailureOk, DoPersistPlug, DoDropPlug, DoArrive, DoControllerBegin, DoReturn, DoCheck,
         DoEndPrelude, DoResume, DoMonitorPoll, WithItem, AfterBegin;
    match step
    case Arrive(_) => ArriveKeepsData(c, s, step);
    case Resume(_) => WorkerKeepsData(c, s, step);
    case WorkerBegin(_) => WorkerKeepsData(c, s, step);
    case Return(_, _) => WorkerKeepsData(c, s, step);
    case Check(_) => WorkerKeepsData(c, s, step);
    case ControllerBegin(_) => ControllerBeginKeepsData(c, s, step);
    case EndPrelude => ControllerKeepsData(c, s, step);
    case JoinMonitor => ControllerKeepsData(c, s, step);
    case JoinWorkers => ControllerKeepsData(c, s, step);
    case PersistPlug(ok) => PersistKeepsData(c, s, ok);
    case DropPlug => DropKeepsData(c, s);
    case ProduceItem(_, _) => ProductionKeepsData(c, s, step);
    case MonitorProduce(_) => ProductionKeepsData(c, s, step);
    case MonitorLoop => MonitorKeepsData(c, s, step);
    case MonitorPoll => MonitorKeepsData(c, s, step);
    case MonitorReturn => MonitorKeepsData(c, s, step);
  }

  lemma MonitorIsCalm(c: Config, s: State, u: State)
    requires DataInv(c, s) && u == s.(monitor := u.monitor)
    ensures Shaped(c, u) && PlugsOk(c, u) && FailureOk(u)
  {}

  lemma {:induction false} ReachableData(c: Config, steps: seq<Step>, s: State)
    requires Reaches(c, steps, s)
    ensures DataInv(c, s)
    decreases |steps|
  {
    hide DataInv, Do;
    if steps == [] {
      InitData(c);
    } else {
      var r: State :| Reaches(c, steps[..|steps| - 1], r) && Shaped(c, r)
        && Enabled(c, r, steps[|steps| - 1]) && s == Do(c, r, steps[|steps| - 1]);
      ReachableData(c, steps[..|steps| - 1], r);
      StepKeepsData(c, r, steps[|steps| - 1]);
    }
  }

  // ---------------------------------------------------------------- results

  /** Plugins whose lists the final release has already emptied. */
  ghost predicate EmptiedSoFar(c: Config, s: State)
    requires Shaped(c, s)
  {
    var m := s.threads[c.n].mode;
    forall i :: 0 <= i < c.n && (m.Done? || (m.Dropping? && i < m.next)) ==>
      s.plugs[i].runData == [] && s.plugs[i].checkErr == []
  }

  /** Once the release has begun only the controller can do anything. */
  lemma OnlyDropping(c: Config, s: State, step: Step)
    requires SyncInv(c, s) && Ending(c, s) && Enabled(c, s, step)
    ensures step.DropPlug?
  {
    MonitorIsOff(c, s);
    assert s.threads[c.n].mode != Waiting && s.threads[c.n].mode != Ready;
    hide Inv, ModesFit, MonitorInv;
  }

  lemma StepKeepsEmptied(c: Config, s: State, step: Step)
    requires SyncInv(c, s) && EmptiedSoFar(c, s) && Enabled(c, s, step)
    ensures EmptiedSoFar(c, Do(c, s, step))
  {
    if Ending(c, s) {
      OnlyDropping(c, s, step);
      hide SyncInv;
    } else {
      ReleaseBegins(c, s, step);
    }
  }

  predicate ControllerStep(step: Step) {
    || step.ControllerBegin? || step.EndPrelude? || step.JoinMonitor?
    || step.PersistPlug? || step.JoinWorkers? || step.DropPlug?
  }

  lemma OthersLeaveController(c: Config, s: State, step: Step)
    requires Shaped(c, s) && Enabled(c, s, step) && !ControllerStep(step)
    ensures var m := Do(c, s, step).threads[c.n].mode; m == ModeOf(s, c.n) || m == Waiting || m == Begin
  {
    hide Produce, AfterBegin;
  }

  lemma ControllerBeginMode(c: Config, s: State, now: nat)
    requires Shaped(c, s)
    ensures var m := DoControllerBegin(c, s, now).threads[c.n].mode; !m.Done? && !m.Dropping?
  {
    hide Decide, PersistSeg, Seg;
  }

  lemma ReleaseBegins(c: Config, s: State, step: Step)
    requires Shaped(c, s) && !Ending(c, s) && Enabled(c, s, step)
    ensures var m := Do(c, s, step).threads[c.n].mode; !m.Done? && (m.Dropping? ==> m.next == 0)
  {
    if !ControllerStep(step) {
      OthersLeaveController(c, s, step);
      hide Do, Enabled;
    } else if step.ControllerBegin? {
      ControllerBeginMode(c, s, step.now);
      hide DoControllerBegin;
    } else {
      hide Persist, Drop, CallsStorage;
    }
  }

  lemma {:induction false} ReachableEmptied(c: Config, steps: seq<Step>, s: State)
    requires Reaches(c, steps, s)
    ensures Shaped(c, s) && EmptiedSoFar(c, s)
    decreases |steps|
  {
    hide Do, EmptiedSoFar, SyncInv;
    if steps == [] {
      assert EmptiedSoFar(c, s) by {
        NothingEmptied(c);
      }
    } else {
      var r: State :| Reaches(c, steps[..|steps| - 1], r) && Shaped(c, r)
        && Enabled(c, r, steps[|steps| - 1]) && s == Do(c, r, steps[|steps| - 1]);
      ReachableEmptied(c, steps[..|steps| - 1], r);
      ReachableSync(c, steps[..|steps| - 1], r);
      StepKeepsEmptied(c, r, steps[|steps| - 1]);
    }
  }

  lemma NothingEmptied(c: Config)
    ensures EmptiedSoFar(c, Init(c))
  {}

  /** When the execution has finished, every item ever produced has been freed exactly
      once, and was handed to storage at most once. */
  lemma EveryItemReleasedOnce(c: Config, steps: seq<Step>, s: State, i: nat, x: Item)
    requires Reaches(c, steps, s) && Shaped(c, s) && Finished(c, s) && i < c.n
    ensures multiset(s.plugs[i].freed)[x] == (if x in s.plugs[i].made then 1 else 0)
    ensures multiset(s.plugs[i].stored)[x] <= 1
  {
    ReachableData(c, steps, s);
    ReachableEmptied(c, steps, s);
    hide SyncInv, InOrder, Dated, WarmthKept, Conserved;
    ReleasedExactlyOnce(s.plugs[i], x);
  }

  /** At any time: no item has been stored twice or freed twice, and nothing from a
      warm-up iteration has been stored. */
  lemma StoredOnceAndMeasured(c: Config, steps: seq<Step>, s: State, i: nat, x: Item)
    requires Reaches(c, steps, s) && Shaped(c, s) && i < c.n
    ensures multiset(s.plugs[i].stored)[x] <= 1 && multiset(s.plugs[i].freed)[x] <= 1
    ensures x in s.plugs[i].stored ==> !x.warm && x in s.plugs[i].made
  {
    ReachableData(c, steps, s);
    assert Conserved(s.plugs[i]) && WarmthKept(s.plugs[i], Warming(s));
    MadeOnce(s.plugs[i], x);
  }

  /** The results kept for the error check are the measured results in production
      order: a prefix of them at any time, and all but those still waiting while no
      error has occurred and the final release has not begun. */
  lemma ResultsKeptInOrder(c: Config, steps: seq<Step>, s: State, i: nat)
    requires Reaches(c, steps, s) && Shaped(c, s) && i < c.n
    ensures s.plugs[i].checkErr <= Select(s.plugs[i].made, IsMeasured)
    ensures !s.error && !Ending(c, s) ==>
              Select(s.plugs[i].made, IsMeasured) == s.plugs[i].checkErr + Select(s.plugs[i].runData, IsMeasured)
  {
    ReachableData(c, steps, s);
    assert InOrder(s.plugs[i], !s.error && !Ending(c, s));
  }

  /** Nothing produced in or after the slot in which a function first failed, as it is on
      record, ever reaches storage. */
  lemma StoredBeforeFailure(c: Config, steps: seq<Step>, s: State, i: nat, x: Item)
    requires Reaches(c, steps, s) && Shaped(c, s) && i < c.n
    requires s.firstFailure.Some? && x in s.plugs[i].stored
    ensures s.error && x.made < s.firstFailure.value <= s.gen
  {
    ReachableData(c, steps, s);
    assert Dated(s.plugs[i], s.gen, Limit(s));
  }
}
