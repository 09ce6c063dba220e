/** What reaches storage, and what an error does, in every run. */
module ProtocolStorage {
  import opened RunData
  import opened Protocol
  import opened ProtocolSync
  import opened ProtocolData
  import opened ProtocolTraces

  // ----------------------------------------------------- the measured data

  /** The controller has persisted what plugin i gathered, and nothing has run since: it
      has done its part of an even segment, or is past plugin i in it, and the monitor is
      off. */
  predicate Handled(c: Config, s: State, i: nat)
    requires Shaped(c, s)
  {
    var g, t := Seg(s.gen), s.threads[c.n];
    || g == 0 || g == 9 || g >= DECIDE_SEG
    || (g % 2 == 0 && s.monitor == Off && t.passed == s.gen
        && (t.mode.Ready? || t.mode.Waiting? || (t.mode.Persisting? && i < t.mode.next)))
    || (g == CREATE_SEG && s.monitor == Off)
  }

  ghost predicate NothingWaits(p: Plug) {
    forall x :: x in p.runData ==> x.kind == Other
  }

  ghost predicate StoreOk(c: Config, s: State, i: nat)
    requires Shaped(c, s) && i < c.n
  {
    && HandedOver(s.plugs[i], !s.error && !Ending(c, s))
    && (!s.error && Ending(c, s) ==> s.plugs[i].stored == Select(s.plugs[i].made, IsMeasurement))
    && (!s.error && !Ending(c, s) && Handled(c, s, i) ==> NothingWaits(s.plugs[i]))
  }

  /** Once nothing waits, storage has everything. */
  lemma NothingMissing(p: Plug)
    requires HandedOver(p, true) && NothingWaits(p)
    ensures p.stored == Select(p.made, IsMeasurement)
  {
    SelectNone(p.runData, IsMeasurement);
  }

  /** How the rest of the state may move without plugin i's data. */
  ghost predicate Still(c: Config, s: State, u: State, i: nat)
    requires Shaped(c, s) && Shaped(c, u) && i < c.n
  {
    && u.plugs[i] == s.plugs[i] && (s.error ==> u.error)
    && (Ending(c, s) ==> Ending(c, u)) && (Ending(c, u) && !Ending(c, s) ==> Handled(c, s, i))
    && (Handled(c, u, i) && !Ending(c, u) ==> Handled(c, s, i))
  }

  lemma StillKeepsStore(c: Config, s: State, u: State, i: nat)
    requires Shaped(c, s) && Shaped(c, u) && i < c.n && Still(c, s, u, i) && StoreOk(c, s, i)
    ensures StoreOk(c, u, i)
  {
    hide Handled, Ending;
    if !s.error && Ending(c, u) && !Ending(c, s) {
      NothingMissing(s.plugs[i]);
    }
  }

  lemma ArriveIsStill(c: Config, s: State, t: nat, i: nat)
    requires SyncInv(c, s) && t <= c.n && ModeOf(s, t) == Ready && i < c.n
    ensures Still(c, s, DoArrive(c, s, t), i)
  {
    NextSeg(s.gen);
    Current(c, s, t);
    Current(c, s, c.n);
    if s.count == c.n {
      EveryoneArrived(c, s, t);
    }
    hide SyncInv;
  }

  lemma ControllerBeginIsStill(c: Config, s: State, now: nat, i: nat)
    requires SyncInv(c, s) && ModeOf(s, c.n) == Begin && i < c.n
    ensures Still(c, s, DoControllerBegin(c, s, now), i)
  {
    Current(c, s, c.n);
    hide SyncInv, Decide;
  }

  lemma ControllerIsStill(c: Config, s: State, step: Step, i: nat)
    requires SyncInv(c, s) && Enabled(c, s, step) && i < c.n
    requires step.EndPrelude? || step.JoinMonitor? || step.JoinWorkers?
    ensures Still(c, s, Do(c, s, step), i)
  {
    Current(c, s, c.n);
    assert Fits(c, c.n, s.threads[c.n].passed, s.threads[c.n].mode);
    hide SyncInv;
  }

  lemma WorkerIsStill(c: Config, s: State, step: Step, i: nat)
    requires SyncInv(c, s) && Enabled(c, s, step) && i < c.n
    requires step.WorkerBegin? || step.Return? || step.Check? || step.Resume?
    ensures Still(c, s, Do(c, s, step), i)
  {
    hide AfterBegin;
    var t := if step.Resume? then step.t else step.w;
    Current(c, s, t);
    hide SyncInv;
  }

  lemma MonitorIsStill(c: Config, s: State, step: Step, i: nat)
    requires Shaped(c, s) && Enabled(c, s, step) && i < c.n
    requires step.MonitorLoop? || step.MonitorPoll? || step.MonitorReturn?
    ensures Still(c, s, Do(c, s, step), i)
  {}

  lemma EndingIsHandled(c: Config, s: State, i: nat)
    requires SyncInv(c, s) && Ending(c, s)
    ensures Handled(c, s, i)
  {
    Current(c, s, c.n);
    assert Fits(c, c.n, s.threads[c.n].passed, s.threads[c.n].mode);
  }

  /** While a function of a plugin may produce data, the plugin's data is not handled. */
  lemma NotHandledYet(c: Config, s: State, step: Step, i: nat)
    requires SyncInv(c, s) && Enabled(c, s, step) && (step.ProduceItem? || step.MonitorProduce?)
    ensures !Handled(c, s, i) && !Ending(c, s)
  {
    if step.ProduceItem? {
      WorkerInSlot(c, s, step.w);
    } else {
      Current(c, s, c.n);
      NextSeg(s.threads[c.n].passed);
      assert MonitorWindow(c, s);
    }
    if Ending(c, s) {
      EndingIsHandled(c, s, i);
    }
  }

  lemma ProductionKeepsStore(c: Config, s: State, step: Step, i: nat)
    requires SyncInv(c, s) && Enabled(c, s, step) && i < c.n && (step.ProduceItem? || step.MonitorProduce?)
    requires StoreOk(c, s, i)
    ensures StoreOk(c, Do(c, s, step), i)
  {
    var w := if step.ProduceItem? then step.w else s.monitor.plug;
    var u := Do(c, s, step);
    NotHandledYet(c, s, step, i);
    assert u == WithItem(s, w, step.kind) && Handled(c, u, i) == Handled(c, s, i) && Ending(c, u) == Ending(c, s);
    hide SyncInv, Handled, Do, Enabled, HandedOver, Produce, Ending;
    if w == i {
      ProduceHandsOver(s.plugs[i], step.kind, s.gen, s.state == Warmup, !s.error);
    }
  }

  lemma WarmDropKeepsStore(p: Plug)
    requires HandedOver(p, true) && forall x :: x in p.runData ==> x.warm
    ensures HandedOver(Drop(p), true)
  {
    SelectNone(p.runData, IsMeasurement);
  }

  /** What persisting does about plugin i: its turn may come, and nobody else's comes back. */
  lemma PersistingTurns(c: Config, s: State, ok: bool, i: nat)
    requires DataInv(c, s) && ModeOf(s, c.n).Persisting? && i < c.n
    ensures var u, j, p := DoPersistPlug(c, s, ok), ModeOf(s, c.n).next, s.plugs[i];
            && Shaped(c, u) && (s.error ==> u.error) && !Ending(c, s) && !Ending(c, u)
            && u.plugs[i] == (if i != j then p else if s.state == Warmup then Drop(p) else Persist(p, s.error))
            && (i != j && Handled(c, u, i) ==> Handled(c, s, i))
  {
    Current(c, s, c.n);
    assert Fits(c, c.n, s.threads[c.n].passed, s.threads[c.n].mode);
    hide SyncInv, Persist, Drop, CallsStorage, PlugsOk;
  }

  lemma PersistKeepsStore(c: Config, s: State, ok: bool, i: nat)
    requires DataInv(c, s) && ModeOf(s, c.n).Persisting? && i < c.n && StoreOk(c, s, i)
    ensures StoreOk(c, DoPersistPlug(c, s, ok), i)
  {
    PersistingTurns(c, s, ok, i);
    assert WarmthKept(s.plugs[i], Warming(s));
    assert Shaped(c, s);
    hide DataInv, HandedOver, DoPersistPlug, Handled, Ending;
    if i == ModeOf(s, c.n).next {
      if s.error {
        StoredStays(s.plugs[i]);
      } else if s.state == Warmup {
        WarmDropKeepsStore(s.plugs[i]);
      } else {
        PersistHandsOver(s.plugs[i]);
      }
    }
    hide Persist;
  }

  lemma StoredStays(p: Plug)
    requires HandedOver(p, false)
    ensures HandedOver(Persist(p, true), false) && HandedOver(Drop(p), false)
  {}

  lemma DropKeepsStore(c: Config, s: State, i: nat)
    requires SyncInv(c, s) && ModeOf(s, c.n).Dropping? && i < c.n && StoreOk(c, s, i)
    ensures StoreOk(c, DoDropPlug(c, s), i)
  {}

  lemma StillStepKeepsStore(c: Config, s: State, step: Step, i: nat)
    requires SyncInv(c, s) && Enabled(c, s, step) && i < c.n && StoreOk(c, s, i)
    requires !step.ProduceItem? && !step.MonitorProduce? && !step.PersistPlug? && !step.DropPlug?
    ensures StoreOk(c, Do(c, s, step), i)
  {
    var u := Do(c, s, step);
    if step.Arrive? {
      ArriveIsStill(c, s, step.t, i);
    } else if step.ControllerBegin? {
      ControllerBeginIsStill(c, s, step.now, i);
    } else if step.EndPrelude? || step.JoinMonitor? || step.JoinWorkers? {
      ControllerIsStill(c, s, step, i);
    } else if step.MonitorLoop? || step.MonitorPoll? || step.MonitorReturn? {
      MonitorIsStill(c, s, step, i);
    } else {
      WorkerIsStill(c, s, step, i);
    }
    assert Shaped(c, s);
    hide SyncInv, StoreOk, Still, DoArrive, DoControllerBegin;
    StillKeepsStore(c, s, u, i);
  }

  lemma StepKeepsStore(c: Config, s: State, step: Step, i: nat)
    requires DataInv(c, s) && Enabled(c, s, step) && i < c.n && StoreOk(c, s, i)
    ensures StoreOk(c, Do(c, s, step), i)
  {
    if step.PersistPlug? {
      PersistKeepsStore(c, s, step.ok, i);
    } else if step.DropPlug? {
      DropKeepsStore(c, s, i);
    } else if step.ProduceItem? || step.MonitorProduce? {
      ProductionKeepsStore(c, s, step, i);
    } else {
      StillStepKeepsStore(c, s, step, i);
    }
    hide SyncInv, StoreOk;
  }

  lemma NothingStoredYet(c: Config, i: nat)
    requires i < c.n
    ensures Shaped(c, Init(c)) && StoreOk(c, Init(c), i)
  {}

  lemma {:induction false} ReachableStore(c: Config, steps: seq<Step>, s: State, i: nat)
    requires Reaches(c, steps, s) && i < c.n
    ensures Shaped(c, s) && StoreOk(c, s, i)
    decreases |steps|
  {
    hide DataInv, StoreOk, Do, Enabled;
    if steps == [] {
      NothingStoredYet(c, i);
    } else {
      var r: State :| Reaches(c, steps[..|steps| - 1], r) && Shaped(c, r)
        && Enabled(c, r, steps[|steps| - 1]) && s == Do(c, r, steps[|steps| - 1]);
      ReachableStore(c, steps[..|steps| - 1], r, i);
      ReachableData(c, steps[..|steps| - 1], r);
      StepKeepsStore(c, r, steps[|steps| - 1], i);
    }
  }

  /** What storage has got from plugin i is, in order, the monitor and result data that its
      functions produced in measured iterations: a prefix of it at any time, and all of it,
      with nothing of these kinds left waiting, whenever the controller has persisted it
      and when the execution has finished, as long as there is no error. */
  lemma MeasurementsAreStored(c: Config, steps: seq<Step>, ss: seq<State>, i: nat)
    requires Trace(c, steps, ss) && i < c.n
    ensures var s, all := ss[|steps|], Select(Produced(c, steps, ss, i), IsMeasurement);
            && Shaped(c, s) && s.plugs[i].stored <= all
            && (!s.error && (Handled(c, s, i) || Finished(c, s)) ==> s.plugs[i].stored == all)
            && (!s.error && Handled(c, s, i) && !Ending(c, s) ==> forall x :: x in s.plugs[i].runData ==> x.kind == Other)
  {
    var s := ss[|steps|];
    MadeIsProduced(c, steps, ss, i);
    TraceReaches(c, steps, ss);
    ReachableStore(c, steps, s, i);
    hide Trace, Reaches, Produced, Handled;
    if !s.error && Handled(c, s, i) && !Ending(c, s) {
      NothingMissing(s.plugs[i]);
    }
  }

  /** Nothing produced in or after the slot in which a function first failed ever reaches
      storage. */
  lemma NothingStoredFromFailure(c: Config, steps: seq<Step>, ss: seq<State>, i: nat, x: Item)
    requires Trace(c, steps, ss) && i < c.n && FailedAt(steps, ss).Some?
    requires |ss[|steps|].plugs| == c.n && x in ss[|steps|].plugs[i].stored
    ensures x in Produced(c, steps, ss, i) && x.made < FailedAt(steps, ss).value
  {
    var s := ss[|steps|];
    FailureOnRecord(c, steps, ss);
    MadeIsProduced(c, steps, ss, i);
    TraceReaches(c, steps, ss);
    ReachableSync(c, steps, s);
    assert Shaped(c, s);
    hide SyncInv, Trace, Reaches, Produced, FailedAt;
    StoredBeforeFailure(c, steps, s, i, x);
    StoredOnceAndMeasured(c, steps, s, i, x);
  }
}
