/**
 * The main loop of the daemon as a step machine (daemon.c): each return of
 * pselect() handles at most one signal, then the interval tick, then the
 * worker timeout, then the schedule. System calls are the inputs of a step,
 * but for the worker's timer: setting it clears its expirations, and reading
 * it waits for one, for ever if it is not armed.
 */
module MainLoop {
  import opened Options

  /** How a child process ended, as waitpid() reports it. */
  datatype Status = ExitCode(code: int) | Signaled | Neither

  /**
   * One signal read from the signal descriptor. SIGCHLD comes with the result
   * of waitpid(); SIGHUP may replace the schedule, but none of the state here.
   */
  datatype Signal = Term | Hup | Usr1 | Usr2 | Chld(pid: int, status: Status) | Other

  /** What a schedule wake-up does: the suspension flag it leaves, and whether it ends the daemon. */
  datatype Pumping = Pumping(suspended: bool, exits: bool)

  /**
   * What one pselect() return finds ready, and what the system calls made in
   * its course return: fork() for a tick, kill() for a timeout.
   */
  datatype Wake = Wake(
    signal: Option<Signal>,
    tick: bool,
    fork: int,
    timeout: bool,
    killFails: bool,
    pump: Option<Pumping>)

  /**
   * The state the loop keeps, and what the system holds for it: its children,
   * whether the worker's timer is armed and has an expiration to be read, and
   * whether the loop waits for an expiration that cannot come.
   */
  datatype State = State(
    ticks: int,
    actions: int,
    success: int,
    worker: int,
    importer: int,
    timerArmed: bool,
    timerExpired: bool,
    byCommand: bool,
    bySchedule: bool,
    running: bool,
    exited: bool,
    stuck: bool,
    children: set<int>)

  const INITIAL := State(0, 0, 0, 0, 0, false, false, false, false, true, false, false, {})

  // ---------- One wake-up, branch by branch ----------

  /** A child, or none for a negative id, has been waited for. */
  function Reaped(s: State, pid: int, status: Status): State {
    var mine := pid == s.worker;
    s.(children := s.children - {pid},
       worker := if mine then 0 else s.worker,
       importer := if !mine && pid == s.importer then 0 else s.importer,
       success := s.success + if mine && status == ExitCode(0) then 1 else 0,
       timerArmed := s.timerArmed && !mine, timerExpired := s.timerExpired && !mine)
  }

  function AfterSignal(s: State, signal: Signal): State {
    match signal
    case Term => s.(running := false)
    case Usr1 => s.(byCommand := true)
    case Usr2 => s.(byCommand := false)
    case Hup | Other => s
    case Chld(pid, status) => if pid == 0 then s else Reaped(s, pid, status)
  }

  function AfterTick(s: State, fork: int): State {
    var ticked := s.(ticks := s.ticks + 1);
    if s.byCommand || s.bySchedule || s.worker != 0 then ticked
    else if fork < 0 then ticked.(worker := 0)
    else
      ticked.(worker := fork, timerArmed := true, timerExpired := false,
              actions := s.actions + 1, children := s.children + {fork})
  }

  /** Reading the timer returns at once or when it expires; a timer that is not armed does not. */
  predicate ReadReturns(s: State) {
    s.timerExpired || s.timerArmed
  }

  function AfterTimeout(s: State, killFails: bool): State {
    if !ReadReturns(s) then s.(stuck := true)
    else s.(timerArmed := false, timerExpired := false, exited := s.exited || killFails)
  }

  function AfterPump(s: State, pumping: Pumping): State {
    s.(bySchedule := pumping.suspended, exited := s.exited || pumping.exits)
  }

  /** pselect() finds the worker's timer expired, or not. */
  function Woken(s: State, w: Wake): State {
    s.(timerExpired := w.timeout)
  }

  function Signalled(s: State, w: Wake): State {
    if w.signal.Some? then AfterSignal(Woken(s, w), w.signal.value) else Woken(s, w)
  }

  function Ticked(s: State, w: Wake): State {
    if w.tick then AfterTick(Signalled(s, w), w.fork) else Signalled(s, w)
  }

  function TimedOut(s: State, w: Wake): State {
    if w.timeout then AfterTimeout(Ticked(s, w), w.killFails) else Ticked(s, w)
  }

  function After(s: State, w: Wake): State {
    var t := TimedOut(s, w);
    if w.pump.Some? && !t.exited && !t.stuck then AfterPump(t, w.pump.value) else t
  }

  /** The process id kill() is given, if the worker's timer was found expired and reading it returns. */
  function KillTarget(s: State, w: Wake): Option<int> {
    if w.timeout && ReadReturns(Ticked(s, w)) then Some(Ticked(s, w).worker) else None
  }

  // ---------- What the system guarantees ----------

  /**
   * waitpid() returns an unreaped child, nothing (0) or an error (-1); fork()
   * in the parent fails or returns the id of a process that is not already a
   * child; a timer is ready only if it was armed.
   */
  ghost predicate Possible(s: State, w: Wake) {
    && (w.signal.Some? && w.signal.value.Chld? ==>
          w.signal.value.pid in s.children || w.signal.value.pid == 0 || w.signal.value.pid == -1)
    && (w.tick ==> w.fork != 0 && w.fork !in Signalled(s, w).children)
    && (w.timeout ==> s.timerArmed)
  }

  /** The state after a sequence of wake-ups. */
  ghost function AfterRun(ws: seq<Wake>): State {
    if ws == [] then INITIAL else After(AfterRun(ws[..|ws| - 1]), ws[|ws| - 1])
  }

  /** Each wake-up is possible and finds the loop still running. */
  ghost predicate Run(ws: seq<Wake>) {
    ws == [] ||
    ( && Run(ws[..|ws| - 1])
      && Possible(AfterRun(ws[..|ws| - 1]), ws[|ws| - 1])
      && AfterRun(ws[..|ws| - 1]).running && !AfterRun(ws[..|ws| - 1]).exited && !AfterRun(ws[..|ws| - 1]).stuck )
  }

  // ---------- Safety over every run ----------

  function Recorded(s: State): int {
    if s.worker != 0 then 1 else 0
  }

  /** The counters are ordered; the worker recorded is the only child; the timer runs only for a worker. */
  ghost predicate Consistent(s: State) {
    && 0 <= s.success && s.success + Recorded(s) <= s.actions <= s.ticks
    && 0 <= s.worker && s.importer == 0
    && s.children == (if s.worker == 0 then {} else {s.worker})
    && (s.timerArmed ==> s.worker != 0) && (s.timerExpired ==> s.timerArmed)
  }

  /** One signal reaps no process but the recorded worker. */
  lemma SignalStep(s: State, signal: Signal)
    requires Consistent(s)
    requires signal.Chld? ==> signal.pid in s.children || signal.pid == 0 || signal.pid == -1
    ensures var t, reaps := AfterSignal(s, signal), signal.Chld? && signal.pid > 0;
            && Consistent(t) && t.ticks == s.ticks && t.actions == s.actions && t.bySchedule == s.bySchedule
            && t.success == s.success + (if reaps && signal.status == ExitCode(0) then 1 else 0)
            && (reaps ==> s.worker != 0) && t.worker == (if reaps then 0 else s.worker)
            && t.byCommand == (signal.Usr1? || (s.byCommand && !signal.Usr2?))
            && t.timerArmed == (s.timerArmed && !reaps) && t.timerExpired == (s.timerExpired && !reaps)
            && t.stuck == s.stuck
  {
    if signal.Chld? && signal.pid != 0 {
      assert signal.pid > 0 ==> signal.pid == s.worker;
      assert s.children - {signal.pid} == if signal.pid == s.worker then {} else s.children;
    }
  }

  predicate Reaps(w: Wake) {
    w.signal.Some? && w.signal.value.Chld? && w.signal.value.pid > 0
  }

  predicate ReapsSuccess(w: Wake) {
    Reaps(w) && w.signal.value.status == ExitCode(0)
  }

  /** The signal branch of a wake-up reaps no other process either. */
  lemma SignalFacts(s: State, w: Wake)
    requires Consistent(s) && Possible(s, w)
    ensures var t := Signalled(s, w);
            && Consistent(t) && t.ticks == s.ticks && t.actions == s.actions && t.bySchedule == s.bySchedule
            && t.success == s.success + (if ReapsSuccess(w) then 1 else 0)
            && t.worker == (if Reaps(w) then 0 else s.worker)
            && (Reaps(w) ==> s.worker != 0)
            && t.byCommand == (w.signal == Some(Usr1) || (s.byCommand && w.signal != Some(Usr2)))
            && t.timerArmed == (s.timerArmed && !Reaps(w)) && t.timerExpired == (w.timeout && !Reaps(w))
            && t.stuck == s.stuck
  {
    hide AfterSignal, AfterTick, AfterTimeout, AfterPump;
    if w.signal.Some? {
      SignalStep(Woken(s, w), w.signal.value);
    }
  }

  /** The tick branch starts at most one worker. */
  lemma TickFacts(t: State, fork: int)
    requires Consistent(t) && fork != 0 && fork !in t.children
    ensures var u := AfterTick(t, fork);
            var forks := fork > 0 && !t.byCommand && !t.bySchedule && t.worker == 0;
            && Consistent(u) && u.ticks == t.ticks + 1 && u.success == t.success
            && u.actions == t.actions + (if forks then 1 else 0)
            && u.worker == (if forks then fork else t.worker)
            && u.timerArmed == (t.timerArmed || forks) && u.timerExpired == t.timerExpired && u.stuck == t.stuck
  {
  }

  lemma PumpFacts(u: State, w: Wake)
    ensures w.pump.Some? ==>
      AfterPump(u, w.pump.value) == u.(bySchedule := w.pump.value.suspended, exited := u.exited || w.pump.value.exits)
  {
  }

  /** The remaining branches leave workers and counters alone. */
  lemma RestFacts(s: State, w: Wake)
    ensures var u, v := Ticked(s, w), After(s, w);
            && v.ticks == u.ticks && v.actions == u.actions && v.success == u.success && v.worker == u.worker
            && v.byCommand == u.byCommand && v.children == u.children
            && (v.bySchedule == u.bySchedule || (w.pump.Some? && v.bySchedule == w.pump.value.suspended))
            && v.stuck == (u.stuck || (w.timeout && !ReadReturns(u)))
            && (Consistent(u) ==> Consistent(v))
  {
    hide AfterSignal, AfterTick, Ticked, AfterPump;
    PumpFacts(TimedOut(s, w), w);
  }

  lemma StepFacts(s: State, w: Wake)
    requires Consistent(s) && Possible(s, w)
    ensures Consistent(After(s, w))
    ensures var t, u, v := Signalled(s, w), Ticked(s, w), After(s, w);
            var forks := w.tick && w.fork > 0 && !t.byCommand && !t.bySchedule && t.worker == 0;
            && v.ticks == s.ticks + (if w.tick then 1 else 0)
            && v.success == s.success + (if ReapsSuccess(w) then 1 else 0)
            && v.actions == s.actions + (if forks then 1 else 0)
            && v.worker == u.worker == (if forks then w.fork else t.worker) && v.children == u.children
            && u.timerArmed == (t.timerArmed || forks) && u.timerExpired == t.timerExpired
            && v.stuck == (s.stuck || (w.timeout && !ReadReturns(u)))
  {
    hide AfterSignal, AfterTick, Signalled, After;
    SignalFacts(s, w);
    if w.tick {
      TickFacts(Signalled(s, w), w.fork);
    }
    RestFacts(s, w);
  }

  lemma {:induction false} AlwaysConsistent(ws: seq<Wake>)
    requires Run(ws)
    ensures Consistent(AfterRun(ws))
    decreases |ws|
  {
    if ws != [] {
      AlwaysConsistent(ws[..|ws| - 1]);
      StepFacts(AfterRun(ws[..|ws| - 1]), ws[|ws| - 1]);
    }
  }

  /** How many wake-ups of a run satisfy a condition. */
  ghost function CountOf(ws: seq<Wake>, p: Wake -> bool): nat {
    if ws == [] then 0 else CountOf(ws[..|ws| - 1], p) + if p(ws[|ws| - 1]) then 1 else 0
  }

  /**
   * Nothing is lost: every worker ever started was reaped once or is the one
   * recorded, every reaped worker with exit code zero is a success, and every
   * tick is counted.
   */
  lemma {:induction false} WorkersAccountedFor(ws: seq<Wake>)
    requires Run(ws)
    ensures AfterRun(ws).actions == CountOf(ws, Reaps) + Recorded(AfterRun(ws))
    ensures AfterRun(ws).success == CountOf(ws, ReapsSuccess)
    ensures AfterRun(ws).ticks == CountOf(ws, (w: Wake) => w.tick)
    decreases |ws|
  {
    if ws != [] {
      var before := ws[..|ws| - 1];
      WorkersAccountedFor(before);
      AlwaysConsistent(before);
      SignalFacts(AfterRun(before), ws[|ws| - 1]);
      StepFacts(AfterRun(before), ws[|ws| - 1]);
    }
  }

  /** Did this wake-up start a worker? */
  predicate Forks(s: State, w: Wake) {
    After(s, w).actions != s.actions
  }

  /** A worker is started exactly when a tick finds no suspension and no worker, and fork() succeeds. */
  lemma ForksExactly(s: State, w: Wake)
    requires Consistent(s) && Possible(s, w)
    ensures Forks(s, w) <==>
            ( && w.tick && w.fork > 0 && !s.bySchedule
              && w.signal != Some(Usr1) && (!s.byCommand || w.signal == Some(Usr2))
              && (s.worker == 0 || Reaps(w)) )
  {
    hide AfterSignal, AfterTick, Signalled, Ticked, After;
    SignalFacts(s, w);
    StepFacts(s, w);
  }

  // ---------- What one wake-up does, by its inputs ----------

  lemma ReapingRuns(s: State, pid: int, status: Status)
    ensures var t := Reaped(s, pid, status);
            t.running == s.running && t.exited == s.exited && t.stuck == s.stuck && t.bySchedule == s.bySchedule
  {
  }

  lemma SignalRuns(s: State, signal: Signal)
    ensures var t := AfterSignal(s, signal);
            && (t.running <==> s.running && signal != Term) && t.exited == s.exited && t.stuck == s.stuck
            && t.bySchedule == s.bySchedule
  {
    hide Reaped;
    if signal.Chld? {
      ReapingRuns(s, signal.pid, signal.status);
    }
  }

  lemma SignalledRuns(s: State, w: Wake)
    ensures var t := Signalled(s, w);
            && (t.running <==> s.running && w.signal != Some(Term)) && t.exited == s.exited && t.stuck == s.stuck
            && t.bySchedule == s.bySchedule
  {
    hide AfterSignal;
    if w.signal.Some? {
      SignalRuns(Woken(s, w), w.signal.value);
    }
  }

  lemma TickRuns(s: State, w: Wake)
    ensures var t, u := Signalled(s, w), Ticked(s, w);
            u.running == t.running && u.exited == t.exited && u.stuck == t.stuck && u.bySchedule == t.bySchedule
  {
    hide Signalled;
  }

  lemma TimeoutRuns(s: State, w: Wake)
    ensures var u, v := Ticked(s, w), TimedOut(s, w);
            && v.running == u.running && v.bySchedule == u.bySchedule
            && v.stuck == (u.stuck || (w.timeout && !ReadReturns(u)))
            && v.exited == (u.exited || (w.timeout && ReadReturns(u) && w.killFails))
            && v.timerArmed == (u.timerArmed && !w.timeout) && v.timerExpired == (u.timerExpired && !w.timeout)
  {
    hide Ticked;
  }

  /** SIGTERM ends the loop, and nothing else does but an exit. */
  lemma RunsExactly(s: State, w: Wake)
    ensures After(s, w).running <==> s.running && w.signal != Some(Term)
  {
    hide Signalled, Ticked, TimedOut;
    SignalledRuns(s, w);
    TickRuns(s, w);
    TimeoutRuns(s, w);
  }

  /** A timeout is handled, and its timer can be read: its worker was not reaped, or a tick has started the next one. */
  predicate Kills(s: State, w: Wake) {
    && w.timeout
    && !( && Reaps(w)
          && !( && w.tick && w.fork > 0 && !s.bySchedule
                && w.signal != Some(Usr1) && (!s.byCommand || w.signal == Some(Usr2)) ) )
  }

  /**
   * The daemon exits exactly if kill() fails, or if the pump that is reached
   * ends it; the flag of the schedule is the one that a pump that is reached
   * leaves; and the worker's timer is armed exactly for a worker that has
   * neither been reaped nor been killed.
   */
  lemma ExitsExactly(s: State, w: Wake)
    requires Consistent(s) && Possible(s, w) && !s.exited && !s.stuck
    ensures var killFailed := Kills(s, w) && w.killFails;
            var pumps := w.pump.Some? && !killFailed && (w.timeout ==> Kills(s, w));
            && (After(s, w).exited <==> killFailed || (pumps && w.pump.value.exits))
            && After(s, w).bySchedule == (if pumps then w.pump.value.suspended else s.bySchedule)
    ensures w.timeout && Kills(s, w) ==> !After(s, w).timerArmed
    ensures !w.timeout ==> (After(s, w).timerArmed <==> (s.timerArmed && !Reaps(w)) || Forks(s, w))
    ensures !After(s, w).timerExpired
  {
    hide AfterSignal, AfterTick, Signalled, Ticked, TimedOut;
    SignalFacts(s, w);
    StepFacts(s, w);
    ForksExactly(s, w);
    SignalledRuns(s, w);
    TickRuns(s, w);
    TimeoutRuns(s, w);
  }

  /** In every run, only the last wake-up may bring SIGTERM, and the loop goes on exactly if it does not. */
  lemma {:induction false} RunsUntilTerm(ws: seq<Wake>)
    requires Run(ws)
    ensures forall i :: 0 <= i < |ws| - 1 ==> ws[i].signal != Some(Term)
    ensures AfterRun(ws).running <==> ws == [] || ws[|ws| - 1].signal != Some(Term)
    decreases |ws|
  {
    hide After;
    if ws != [] {
      var before := ws[..|ws| - 1];
      RunsUntilTerm(before);
      RunsExactly(AfterRun(before), ws[|ws| - 1]);
      assert forall i :: 0 <= i < |before| ==> before[i] == ws[i];
    }
  }

  // ---------- From one wake-up to the next ----------

  /** The state after more wake-ups, from any state. */
  ghost function AfterMore(s: State, ws: seq<Wake>): State
    decreases |ws|
  {
    if ws == [] then s else AfterMore(After(s, ws[0]), ws[1..])
  }

  lemma FlagsAfterReaping(s: State, pid: int, status: Status)
    ensures var t := Reaped(s, pid, status);
            t.actions == s.actions && t.bySchedule == s.bySchedule && t.byCommand == s.byCommand
  {
  }

  lemma FlagsAfterSignal(s: State, signal: Signal)
    ensures var t := AfterSignal(s, signal);
            && t.actions == s.actions && t.bySchedule == s.bySchedule
            && t.byCommand == (signal.Usr1? || (s.byCommand && !signal.Usr2?))
  {
    hide Reaped;
    if signal.Chld? {
      FlagsAfterReaping(s, signal.pid, signal.status);
    }
  }

  lemma SignalFlags(s: State, w: Wake)
    ensures var t := Signalled(s, w);
            && t.actions == s.actions && t.bySchedule == s.bySchedule
            && t.byCommand == (w.signal == Some(Usr1) || (s.byCommand && w.signal != Some(Usr2)))
  {
    hide AfterSignal;
    if w.signal.Some? {
      FlagsAfterSignal(Woken(s, w), w.signal.value);
    }
  }

  /** A tick of a suspended daemon only counts. */
  lemma SuspendedTick(s: State, w: Wake)
    requires Signalled(s, w).byCommand || Signalled(s, w).bySchedule
    ensures var t, u := Signalled(s, w), Ticked(s, w);
            u.actions == t.actions && u.byCommand == t.byCommand && u.bySchedule == t.bySchedule
  {
  }

  /** From a SIGUSR1 until the next SIGUSR2, no worker is started, whatever else happens. */
  lemma {:induction false} CommandSuspends(s: State, ws: seq<Wake>)
    requires s.byCommand || (ws != [] && ws[0].signal == Some(Usr1))
    requires forall i :: 0 <= i < |ws| ==> ws[i].signal != Some(Usr2)
    ensures AfterMore(s, ws).actions == s.actions
    ensures ws != [] ==> AfterMore(s, ws).byCommand
    decreases |ws|
  {
    hide Signalled, Ticked, After;
    if ws != [] {
      SignalFlags(s, ws[0]);
      SuspendedTick(s, ws[0]);
      RestFacts(s, ws[0]);
      CommandSuspends(After(s, ws[0]), ws[1..]);
    }
  }

  /** While no schedule wake-up lifts a scheduled suspension, no worker is started. */
  lemma {:induction false} ScheduleSuspends(s: State, ws: seq<Wake>)
    requires s.bySchedule
    requires forall i :: 0 <= i < |ws| ==> ws[i].pump.Some? ==> ws[i].pump.value.suspended
    ensures AfterMore(s, ws).actions == s.actions && AfterMore(s, ws).bySchedule
    decreases |ws|
  {
    hide Signalled, Ticked, After;
    if ws != [] {
      SignalFlags(s, ws[0]);
      SuspendedTick(s, ws[0]);
      RestFacts(s, ws[0]);
      ScheduleSuspends(After(s, ws[0]), ws[1..]);
    }
  }

  /** kill() is only ever given a worker that is still a child: the recorded one. */
  lemma KillsLiveWorker(s: State, w: Wake)
    requires Consistent(s) && Possible(s, w) && KillTarget(s, w).Some?
    ensures KillTarget(s, w).value == After(s, w).worker != 0
    ensures KillTarget(s, w).value in After(s, w).children
  {
    hide AfterSignal, AfterTick, Signalled, Ticked, After;
    SignalFacts(s, w);
    StepFacts(s, w);
  }

  /**
   * A timeout kills the worker it was armed for exactly when that worker is
   * not reaped in the same wake-up. If it is, and a tick of the same wake-up
   * starts the next worker, that one is killed when its own time is up.
   */
  lemma TimeoutKills(s: State, w: Wake)
    requires Consistent(s) && Possible(s, w) && w.timeout
    ensures !Reaps(w) ==> KillTarget(s, w) == Some(s.worker)
    ensures Reaps(w) && Forks(s, w) ==> KillTarget(s, w) == Some(w.fork)
    ensures KillTarget(s, w).None? <==> Reaps(w) && !Forks(s, w)
  {
    hide AfterSignal, AfterTick, Signalled, Ticked, After;
    SignalFacts(s, w);
    StepFacts(s, w);
  }

  /**
   * The loop hangs for ever exactly when a timeout is handled in the wake-up
   * that reaps its worker, and no tick, or none that may start the next one,
   * comes with it.
   */
  lemma HangsExactly(s: State, w: Wake)
    requires Consistent(s) && Possible(s, w) && !s.stuck
    ensures After(s, w).stuck <==>
            ( && w.timeout && Reaps(w)
              && !( && w.tick && w.fork > 0 && !s.bySchedule
                    && w.signal != Some(Usr1) && (!s.byCommand || w.signal == Some(Usr2)) ) )
  {
    hide AfterSignal, AfterTick, Signalled, Ticked, After;
    SignalFacts(s, w);
    StepFacts(s, w);
  }

  /** Such a wake-up is reachable: a worker exits just as its time runs out. */
  lemma TimeoutCanHang()
    ensures exists ws: seq<Wake> :: Run(ws) && AfterRun(ws).stuck
  {
    var start := Wake(None, true, 7, false, false, None);
    var exit := Wake(Some(Chld(7, ExitCode(0))), false, 0, true, false, None);
    assert [start][..0] == [] && Run([]) && AfterRun([]) == INITIAL;
    assert AfterRun([start]) == After(INITIAL, start) && Run([start]);
    assert [start, exit][..1] == [start] && Possible(AfterRun([start]), exit);
    assert AfterRun([start, exit]) == After(AfterRun([start]), exit);
    assert Run([start, exit]) && AfterRun([start, exit]).stuck;
  }

  // ---------- The loop itself ----------

  /** The static state of the loop. */
  class Loop {
    var ticks: int
    var actions: int
    var success: int
    var worker: int
    var importer: int
    /** What the system holds of the worker's timer. */
    var timerArmed: bool
    var timerExpired: bool
    var byCommand: bool
    var bySchedule: bool
    var running: bool
    var exited: bool
    /** Waiting for ever. */
    var stuck: bool
    /** Children the system holds until they are waited for. */
    ghost var children: set<int>

    ghost function View(): State
      reads this
    {
      State(ticks, actions, success, worker, importer, timerArmed, timerExpired, byCommand, bySchedule, running,
            exited, stuck, children)
    }

    constructor ()
      ensures View() == INITIAL
    {
      ticks, actions, success := 0, 0, 0;
      worker, importer, timerArmed, timerExpired := 0, 0, false, false;
      byCommand, bySchedule := false, false;
      running, exited, stuck := true, false, false;
      children := {};
    }

    /** timerfd_start_rel() and timerfd_disarm(): either clears the expirations. */
    method SetTimer(arm: bool)
      modifies `timerArmed, `timerExpired
      ensures timerArmed == arm && !timerExpired
    {
      timerArmed, timerExpired := arm, false;
    }

    /** timerfd_acknowledge() of the worker's timer: a read that waits. */
    method Acknowledge()
      requires !stuck
      modifies `timerExpired, `stuck
      ensures stuck == !ReadReturns(old(View())) && !timerExpired
    {
      if !timerExpired && !timerArmed {
        stuck := true;
      }
      timerExpired := false;
    }

    method HandleSigchld(pid: int, status: Status)
      modifies `success, `worker, `importer, `timerArmed, `timerExpired, `children
      ensures View() == AfterSignal(old(View()), Chld(pid, status))
    {
      if pid == 0 {
        return;
      }
      children := children - {pid};
      if pid == worker {
        SetTimer(false);
        if status.ExitCode? {
          if status.code == 0 {
            success := success + 1;
          }
        }
        worker := 0;
      } else if pid == importer {
        importer := 0;
      }
    }

    method HandleSignal(signal: Signal)
      modifies `success, `worker, `importer, `timerArmed, `timerExpired, `children, `byCommand, `running
      ensures View() == AfterSignal(old(View()), signal)
    {
      match signal {
        case Term =>
          running := false;
        case Usr1 =>
          if !byCommand {
            byCommand := true;
          }
        case Usr2 =>
          if byCommand {
            byCommand := false;
          }
        case Chld(pid, status) =>
          HandleSigchld(pid, status);
        case Hup | Other =>
      }
    }

    method HandleTick(fork: int)
      requires fork != 0
      modifies `ticks, `actions, `worker, `timerArmed, `timerExpired, `children
      ensures View() == AfterTick(old(View()), fork)
    {
      ticks := ticks + 1;
      if !(byCommand || bySchedule) {
        if worker == 0 {
          worker := fork;
          if worker < 0 {
            worker := 0;
          } else {
            SetTimer(true);
            actions := actions + 1;
            children := children + {fork};
          }
        }
      }
    }

    method HandleTimeout(killFails: bool) returns (target: Option<int>)
      requires !stuck
      modifies `timerArmed, `timerExpired, `exited, `stuck
      ensures View() == AfterTimeout(old(View()), killFails)
      ensures target == if ReadReturns(old(View())) then Some(old(worker)) else None
    {
      Acknowledge();
      if stuck {
        return None;
      }
      SetTimer(false);
      target := Some(worker);
      if killFails {
        exited := true;
      }
    }

    /** pselect() returns. */
    method Select(timeout: bool)
      modifies `timerExpired
      ensures View() == old(View()).(timerExpired := timeout)
    {
      timerExpired := timeout;
    }

    /** What is left of a schedule wake-up, unless the daemon has ended. */
    method HandleSchedule(pumping: Pumping)
      requires !exited
      modifies `bySchedule, `exited
      ensures View() == AfterPump(old(View()), pumping)
    {
      bySchedule, exited := pumping.suspended, pumping.exits;
    }

    /** One round of the loop. */
    method Round(w: Wake) returns (target: Option<int>)
      requires w.tick ==> w.fork != 0
      requires running && !exited && !stuck
      modifies this
      ensures View() == After(old(View()), w) && target == KillTarget(old(View()), w)
    {
      hide AfterSignal, AfterTick, AfterTimeout, AfterPump;
      target := None;
      Select(w.timeout);
      if w.signal.Some? {
        HandleSignal(w.signal.value);
      }
      if w.tick {
        HandleTick(w.fork);
      }
      if w.timeout {
        target := HandleTimeout(w.killFails);
        if exited || stuck {
          return;
        }
      }
      if w.pump.Some? {
        HandleSchedule(w.pump.value);
      }
    }
  }
}
