/** One controller, n plugin workers and a monitor thread, executing plugins in
    barrier-delimited segments. Every atomic access to shared state is a step of its
    own; a run is any interleaving of enabled steps. */
module Protocol {
  import opened Basics
  import opened RunData

  // ----------------------------------------------------------- the program

  /** Barriers each thread passes per iteration. */
  const BARRIERS: nat := 26

  /** The segment a thread is in after passing `passed` barriers: the code between its
      previous barrier and its next. */
  function Seg(passed: nat): (g: nat)
    ensures g < BARRIERS
  {
    passed % 26
  }

  /** Segments in which the workers execute a function slot. */
  predicate SlotSeg(g: nat) {
    g % 2 == 1 && (g <= 7 || 11 <= g <= 21)
  }

  function SlotOf(g: nat): (slot: nat)
    requires SlotSeg(g)
    ensures slot < 10
  {
    if g <= 7 then (g - 1) / 2 else (g - 3) / 2
  }

  /** Segments in which the controller persists or drops what the slot before gathered. */
  predicate PersistSeg(g: nat) {
    g % 2 == 0 && (2 <= g <= 8 || 12 <= g <= 22)
  }

  const RUN_SEG: nat := 11
  const JOIN_SEG: nat := 12
  const CREATE_SEG: nat := 10
  const DECIDE_SEG: nat := 23
  const CHECK_SEG: nat := 24
  const FINAL_SEG: nat := 25

  // ------------------------------------------------------------------ state

  datatype RunState = Stop | Warmup | Run | Undecided | StderrNotReached | ForceContinue

  /** Where a thread stands inside its segment. Workers use the first line, the
      controller the second, both the third. */
  datatype Mode =
    | InFunction | Checking
    | Prelude | Joining | Persisting(next: nat) | Exited | Dropping(next: nat) | Done
    | Begin | Ready | Waiting

  datatype Thread = Thread(passed: nat, mode: Mode)

  datatype Monitor = Off | Looping | Polling(next: nat) | InMonitor(plug: nat) | Ended

  /** has: plugin w provides a function for the slot; monitors: plugin w has a monitor
      function; fails: plugin w's standard error check fails on the kept results;
      tick: seconds by which the elapsed reading grows at least between two measured
      decisions (0 when nothing is assumed). */
  datatype Config = Config(
    n: nat, has: (nat, nat) -> bool, monitors: nat -> bool, fails: (nat, seq<Item>) -> bool,
    warmupRuns: int, runsMin: int, runsMax: int, minTime: nat, maxTime: nat, tick: nat)

  /** threads[n] is the controller. `firstFailure` and the histories inside
      `plugs` record what happened and are never read by the program. */
  datatype State = State(
    gen: nat, count: nat, threads: seq<Thread>, failed: seq<bool>,
    monitor: Monitor, monitorStop: bool,
    state: RunState, error: bool, run: int, elapsed: nat,
    plugs: seq<Plug>, firstFailure: Option<nat>)

  function Init(c: Config): State {
    State(0, 0, seq(c.n + 1, _ => Thread(0, Begin)), seq(c.n, _ => false), Off, false,
          Warmup, false, 0, 0, seq(c.n, _ => EMPTY), None)
  }

  ghost predicate Shaped(c: Config, s: State) {
    |s.threads| == c.n + 1 && |s.failed| == c.n && |s.plugs| == c.n
  }

  predicate Gone(m: Mode) {
    m.Exited? || m.Dropping? || m.Done?
  }

  // ------------------------------------------------------------------ steps

  datatype Step =
    | Arrive(t: nat) | Resume(t: nat)
    | WorkerBegin(w: nat) | ProduceItem(w: nat, kind: Kind) | Return(w: nat, ok: bool) | Check(w: nat)
    | ControllerBegin(now: nat) | EndPrelude | JoinMonitor | PersistPlug(ok: bool)
    | JoinWorkers | DropPlug
    | MonitorLoop | MonitorPoll | MonitorProduce(kind: Kind) | MonitorReturn

  function ModeOf(s: State, t: nat): Mode
    requires t < |s.threads|
  {
    s.threads[t].mode
  }

  function WithMode(s: State, t: nat, m: Mode): (u: State)
    requires t < |s.threads|
    ensures |u.threads| == |s.threads|
  {
    s.(threads := s.threads[t := Thread(s.threads[t].passed, m)])
  }

  ghost predicate Enabled(c: Config, s: State, step: Step)
    requires Shaped(c, s)
  {
    match step
    case Arrive(t) => t <= c.n && ModeOf(s, t) == Ready
    case Resume(t) => t <= c.n && ModeOf(s, t) == Waiting && s.threads[t].passed < s.gen
    case WorkerBegin(w) => w < c.n && ModeOf(s, w) == Begin
    case ProduceItem(w, _) => w < c.n && ModeOf(s, w) == InFunction
    case Return(w, _) => w < c.n && ModeOf(s, w) == InFunction
    case Check(w) => w < c.n && ModeOf(s, w) == Checking
    case ControllerBegin(now) => ModeOf(s, c.n) == Begin && s.elapsed + c.tick <= now
    case EndPrelude => ModeOf(s, c.n) == Prelude
    case JoinMonitor => ModeOf(s, c.n) == Joining && s.monitor == Ended
    case PersistPlug(_) => ModeOf(s, c.n).Persisting?
    case JoinWorkers => ModeOf(s, c.n) == Exited && forall w :: 0 <= w < c.n ==> s.threads[w].mode == Exited
    case DropPlug => ModeOf(s, c.n).Dropping?
    case MonitorLoop => s.monitor == Looping
    case MonitorPoll => s.monitor.Polling?
    case MonitorProduce(_) => s.monitor.InMonitor? && s.monitor.plug < c.n
    case MonitorReturn => s.monitor.InMonitor?
  }

  /** pthread_barrier_wait, first half. */
  function DoArrive(c: Config, s: State, t: nat): (u: State)
    requires Shaped(c, s) && t <= c.n
    ensures Shaped(c, u)
  {
    var u := WithMode(s, t, Waiting);
    if s.count + 1 == c.n + 1 then u.(gen := s.gen + 1, count := 0) else u.(count := s.count + 1)
  }

  function DoResume(s: State, t: nat): (u: State)
    requires t < |s.threads|
    ensures |u.threads| == |s.threads|
  {
    s.(threads := s.threads[t := Thread(s.threads[t].passed + 1, Begin)])
  }

  /** What a worker does first in its segment. */
  function AfterBegin(c: Config, s: State, w: nat): Mode
    requires Shaped(c, s) && w < c.n
  {
    var g := Seg(s.threads[w].passed);
    if g == 0 then (if s.threads[w].passed > 0 && s.state == Stop then Exited else Ready)
    else if SlotSeg(g) then (if c.has(w, SlotOf(g)) && !s.failed[w] then InFunction else Ready)
    else if g == CHECK_SEG && s.state == Undecided then Checking
    else Ready
  }

  function WithItem(s: State, w: nat, kind: Kind): State
    requires w < |s.plugs|
  {
    s.(plugs := s.plugs[w := Produce(s.plugs[w], kind, s.gen, s.state == Warmup)])
  }

  function DoReturn(s: State, w: nat, ok: bool): State
    requires w < |s.threads| && w < |s.failed|
  {
    var u := WithMode(s, w, Ready);
    if ok then u
    else u.(error := true, failed := s.failed[w := true],
            firstFailure := if s.firstFailure == None then Some(s.gen) else s.firstFailure)
  }

  function DoCheck(c: Config, s: State, w: nat): (u: State)
    requires Shaped(c, s) && w < c.n
    ensures Shaped(c, u)
  {
    var u := WithMode(s, w, Ready);
    if c.fails(w, s.plugs[w].checkErr) then u.(state := StderrNotReached) else u
  }

  /** The decision after the last slot. */
  function Decide(c: Config, error: bool, state: RunState, run: int, now: nat): RunState {
    if error then Stop
    else if state == Warmup then Warmup
    else if now < c.minTime then ForceContinue
    else if now > c.maxTime then Stop
    else if c.runsMin > run then ForceContinue
    else if c.runsMax <= run then Stop
    else Undecided
  }

  function DoDecide(c: Config, s: State, now: nat): State {
    var d := Decide(c, s.error, s.state, s.run + 1, now);
    s.(run := s.run + 1, state := d,
       elapsed := if !s.error && s.state != Warmup then now else s.elapsed)
  }

  function DoControllerBegin(c: Config, s: State, now: nat): (u: State)
    requires Shaped(c, s)
    ensures Shaped(c, u)
  {
    var g := Seg(s.threads[c.n].passed);
    if g == 0 then WithMode(s, c.n, if s.state == Stop then Exited else Prelude)
    else if g == CREATE_SEG then WithMode(s, c.n, Ready).(monitor := Looping)
    else if g == JOIN_SEG then WithMode(s, c.n, Joining).(monitorStop := true)
    else if PersistSeg(g) then WithMode(s, c.n, Persisting(0))
    else if g == DECIDE_SEG then DoDecide(c, WithMode(s, c.n, Ready), now)
    else if g == FINAL_SEG then
      WithMode(s, c.n, Ready).(state := if s.state == Undecided then Stop else s.state)
    else WithMode(s, c.n, Ready)
  }

  /** The top of the controller's loop body, after the test. */
  function DoEndPrelude(c: Config, s: State): (u: State)
    requires Shaped(c, s)
    ensures Shaped(c, u)
  {
    var u := WithMode(s, c.n, Ready);
    if s.state != Warmup then u.(state := Run)
    else if s.run >= c.warmupRuns then u.(state := Run, run := 0, elapsed := 0)
    else u
  }

  function DoPersistPlug(c: Config, s: State, ok: bool): (u: State)
    requires Shaped(c, s) && ModeOf(s, c.n).Persisting?
    ensures Shaped(c, u)
  {
    var j := ModeOf(s, c.n).next;
    if j >= c.n then WithMode(s, c.n, Ready)
    else
      var u := WithMode(s, c.n, Persisting(j + 1));
      if s.state == Warmup then u.(plugs := s.plugs[j := Drop(s.plugs[j])])
      else u.(plugs := s.plugs[j := Persist(s.plugs[j], s.error)],
              error := s.error || (CallsStorage(s.plugs[j], s.error) && !ok))
  }

  function DoDropPlug(c: Config, s: State): (u: State)
    requires Shaped(c, s) && ModeOf(s, c.n).Dropping?
    ensures Shaped(c, u)
  {
    var j := ModeOf(s, c.n).next;
    if j >= c.n then WithMode(s, c.n, Done)
    else WithMode(s, c.n, Dropping(j + 1)).(plugs := s.plugs[j := Drop(s.plugs[j])])
  }

  function DoMonitorPoll(c: Config, s: State): State
    requires s.monitor.Polling?
  {
    var i := s.monitor.next;
    s.(monitor := if i >= c.n then Looping else if c.monitors(i) then InMonitor(i) else Polling(i + 1))
  }

  ghost function Do(c: Config, s: State, step: Step): (u: State)
    requires Shaped(c, s) && Enabled(c, s, step)
    ensures Shaped(c, u)
  {
    match step
    case Arrive(t) => DoArrive(c, s, t)
    case Resume(t) => DoResume(s, t)
    case WorkerBegin(w) => WithMode(s, w, AfterBegin(c, s, w))
    case ProduceItem(w, kind) => WithItem(s, w, kind)
    case Return(w, ok) => DoReturn(s, w, ok)
    case Check(w) => DoCheck(c, s, w)
    case ControllerBegin(now) => DoControllerBegin(c, s, now)
    case EndPrelude => DoEndPrelude(c, s)
    case JoinMonitor => WithMode(s, c.n, Persisting(0)).(monitor := Off, monitorStop := false)
    case PersistPlug(ok) => DoPersistPlug(c, s, ok)
    case JoinWorkers => WithMode(s, c.n, Dropping(0))
    case DropPlug => DoDropPlug(c, s)
    case MonitorLoop => s.(monitor := if s.monitorStop then Ended else Polling(0))
    case MonitorPoll => DoMonitorPoll(c, s)
    case MonitorProduce(kind) => WithItem(s, s.monitor.plug, kind)
    case MonitorReturn => s.(monitor := Polling(s.monitor.plug + 1))
  }

  // ------------------------------------------------------------------- runs

  /** steps leads from the initial state to s, each step enabled where it is taken. */
  ghost predicate Reaches(c: Config, steps: seq<Step>, s: State)
    decreases |steps|
  {
    if steps == [] then s == Init(c)
    else exists r: State ::
      Reaches(c, steps[..|steps| - 1], r) && Shaped(c, r)
      && Enabled(c, r, steps[|steps| - 1]) && s == Do(c, r, steps[|steps| - 1])
  }

  /** ss are the states that steps leads through, the first being the initial state. */
  ghost predicate Trace(c: Config, steps: seq<Step>, ss: seq<State>)
    decreases |steps|
  {
    var n := |steps|;
    && |ss| == n + 1
    && if n == 0 then ss[0] == Init(c)
       else
         && Trace(c, steps[..n - 1], ss[..n]) && Shaped(c, ss[n - 1])
         && Enabled(c, ss[n - 1], steps[n - 1]) && ss[n] == Do(c, ss[n - 1], steps[n - 1])
  }
}
