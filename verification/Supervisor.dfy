/**
 The buddy as a state machine: one step for each statement of the event loop that touches shared state,
 so that the SIGCHLD handler can run between any two of them unless the signal is blocked. The clock,
 the kernel's table of children and the controller are the environment.
 */
module Supervisor {
  import opened Protocol
  import opened Wire
  import Session
  import Audit = AuditLog
  import SinglePrecision

  const UINT32: nat := 0x1_0000_0000

  /** The settings of a buddy; all but the first are unsigned 32-bit values. */
  datatype Config = Config(
    ringSize: nat,
    userRatelimit: nat,
    randomize: bool,
    runawayRatelimit: nat,
    maxRestarts: nat,
    restartWindow: nat,
    boot: nat)

  predicate ValidConfig(cfg: Config) {
    && 1 <= cfg.ringSize
    && cfg.userRatelimit < UINT32
    && cfg.runawayRatelimit < UINT32
    && cfg.maxRestarts < UINT32
    && cfg.restartWindow < UINT32
  }

  /** The managed process, or one of the scripts run by the stop, reload and custom actions. */
  datatype Kind = Managed | Action

  /** Why buddy_start_proc was called; an automatic restart remembers whether the runaway flag was set. */
  datatype Cause = ByStart | ByRunOnce | Auto(flagged: bool)

  /** Where the event loop stands. */
  datatype PC =
    | Selecting
    | SettingDesired(cmd: Command)
    | SettingLast(cmd: Command)
    | Acting(cmd: Command)
    | ExecutingAction
    | TestingPid(cause: Cause)
    | Blocking(cause: Cause)
    | Counting(cause: Cause)
    | Forking(cause: Cause)
    | Assigning(cause: Cause, pid: int)
    | Stamping(cause: Cause)
    | Recording(cause: Cause)
    | Restoring(cause: Cause)
    | Returning(cause: Cause, ok: bool)
    | Flushing
    | CheckingFlags
    | CheckingUserDelay
    | CheckingRunaway
    | Exited

  /** History: one executed start. */
  datatype Launch = Launch(
    time: nat,
    cause: Cause,
    rapid: nat,      // the rapid-respawn counter with which it was let through
    refusals: nat,   // the starts refused before it
    commands: nat)   // the commands received before it

  /** respawn_timestamp, rapid_respawn_count, force_ratelimit and the static jitter. */
  datatype Respawn = Respawn(timestamp: nat, count: nat, force: bool, jitter: nat)

  /**
   proc_pid, chld_terminated, whether SIGCHLD is blocked, the mask that buddy_start_proc will restore, and
   the kernel's table of children not yet reaped.
   */
  datatype Process = Process(pid: int, terminated: bool, blocked: bool, savedMask: bool, children: map<int, Kind>)

  /** desired_state, last_command, buddy_shutdown, and all commands received so far. */
  datatype Orders = Orders(desired: RunState, last: Command, shutdown: bool, received: seq<Command>)

  /** The starts executed and the number of starts refused. */
  datatype History = History(launches: seq<Launch>, refusals: nat)

  datatype State = State(
    pc: PC,
    now: nat,
    respawn: Respawn,
    process: Process,
    orders: Orders,
    wire: Statics,
    history: History,
    trail: Audit.Trail)

  function Init(cfg: Config): State {
    State(Selecting, cfg.boot, Respawn(0, 0, false, 0), Process(0, false, false, false, map[]),
          Orders(Stopped, NoCommand, false, []), Statics(false, false, false), History([], 0), Audit.EMPTY)
  }

  /** What buddy_exec_action comes to: a script that cannot be executed, a failed fork, or a child. */
  datatype ForkOutcome = NotExecutable | ForkFailed | Forked(pid: int)

  /** The environment: the clock, the handler reaping one child, and SIGTERM or SIGINT. */
  datatype EnvStep =
    | Tick(seconds: nat)
    | Reap(pid: int, status: int, siginfo: int)
    | Terminate

  /** buddy_event_loop, buddy_handle_command, buddy_flush_ringbuffer and buddy_handle_flags. */
  datatype LoopStep =
    | Receive(cmd: Command)
    | Idle(readable: bool)
    | SetDesired
    | SetLast
    | Act
    | ExecAction(outcome: ForkOutcome)
    | Return
    | Transmit(net: seq<Exchange>)
    | CheckFlags
    | CheckUserDelay(extra: nat)
    | CheckRunaway

  /** buddy_start_proc. */
  datatype StartStep =
    | TestPid
    | BlockMask
    | CountRespawn
    | Fork(outcome: ForkOutcome)
    | AssignPid
    | Stamp
    | Record
    | RestoreMask

  datatype Step = Env(env: EnvStep) | Loop(loop: LoopStep) | Starting(start: StartStep)

  /** A fork yields a pid that no unreaped child has. */
  predicate Possible(s: State, outcome: ForkOutcome) {
    outcome.Forked? ==> outcome.pid > 0 && outcome.pid !in s.process.children
  }

  /** The pid of a new child, if there is one. */
  function NewPid(outcome: ForkOutcome): set<int> {
    if outcome.Forked? then {outcome.pid} else {}
  }

  predicate EnvEnabled(s: State, step: EnvStep) {
    step.Reap? ==> !s.process.blocked && step.pid in s.process.children
  }

  predicate LoopEnabled(cfg: Config, s: State, step: LoopStep) {
    match step
    case Receive(cmd) => s.pc.Selecting? && !cmd.NoCommand?
    case Idle(_) => s.pc.Selecting?
    case SetDesired => s.pc.SettingDesired?
    case SetLast => s.pc.SettingLast?
    case Act => s.pc.Acting?
    case ExecAction(outcome) => s.pc.ExecutingAction? && Possible(s, outcome)
    case Return => s.pc.Returning?
    case Transmit(_) => s.pc.Flushing?
    case CheckFlags => s.pc.CheckingFlags?
    case CheckUserDelay(extra) => s.pc.CheckingUserDelay? && extra <= MaxExtra(cfg.userRatelimit)
    case CheckRunaway => s.pc.CheckingRunaway?
  }

  predicate StartEnabled(s: State, step: StartStep) {
    match step
    case TestPid => s.pc.TestingPid?
    case BlockMask => s.pc.Blocking?
    case CountRespawn => s.pc.Counting?
    case Fork(outcome) => s.pc.Forking? && Possible(s, outcome)
    case AssignPid => s.pc.Assigning?
    case Stamp => s.pc.Stamping?
    case Record => s.pc.Recording?
    case RestoreMask => s.pc.Restoring?
  }

  predicate Enabled(cfg: Config, s: State, step: Step) {
    match step
    case Env(env) => EnvEnabled(s, env)
    case Loop(loop) => LoopEnabled(cfg, s, loop)
    case Starting(start) => StartEnabled(s, start)
  }

  /** The commands that buddy_handle_command knows; others change nothing. */
  predicate Known(cmd: Command) {
    match cmd
    case NoCommand => false
    case Ack => false
    case Custom(n) => n <= 31
    case Signal(n) => 1 <= n <= 32
    case _ => true
  }

  function Desired(cmd: Command, current: RunState): RunState {
    match cmd
    case Shutdown => Stopped
    case Start => Running
    case Stop => Stopped
    case RunOnce => RanOnce
    case _ => current
  }

  /** What happens once the command has been noted. */
  function Begin(s: State, cmd: Command): State {
    match cmd
    case Shutdown => s.(orders := s.orders.(shutdown := true), pc := Flushing)
    case Start => s.(pc := TestingPid(ByStart))
    case RunOnce => s.(pc := TestingPid(ByRunOnce))
    case Stop => s.(pc := if s.process.pid != 0 then ExecutingAction else Flushing)
    case Reload => s.(pc := if s.process.pid != 0 then ExecutingAction else Flushing)
    case Custom(n) => s.(pc := if n <= 31 then ExecutingAction else Flushing)
    case _ => s.(pc := Flushing)
  }

  /** The SIGCHLD handler for one reaped child, short of recording it. */
  function Reaped(s: State, pid: int): State {
    s.(process := s.process.(
         terminated := s.process.terminated || pid == s.process.pid,
         pid := if pid == s.process.pid then 0 else s.process.pid,
         children := s.process.children - {pid}))
  }

  /** The restart window and the rapid-respawn counter, which is an unsigned 32-bit value. */
  function Counted(cfg: Config, s: State): nat {
    if s.respawn.timestamp + cfg.restartWindow > s.now then (s.respawn.count + 1) % UINT32 else 0
  }

  function AfterCount(cfg: Config, s: State): State
    requires s.pc.Counting?
  {
    var count := Counted(cfg, s);
    if count > cfg.maxRestarts then
      s.(respawn := s.respawn.(count := count, force := true),
         history := s.history.(refusals := s.history.refusals + 1),
         pc := Returning(s.pc.cause, false))
    else
      s.(respawn := s.respawn.(count := count), pc := Forking(s.pc.cause))
  }

  function Spawned(s: State, pid: int, kind: Kind): Process {
    s.process.(children := s.process.children[pid := kind])
  }

  function AfterFork(s: State, outcome: ForkOutcome): State
    requires s.pc.Forking?
  {
    match outcome
    case NotExecutable => s.(pc := Assigning(s.pc.cause, 0))
    case ForkFailed => s.(pc := Assigning(s.pc.cause, -1))
    case Forked(pid) => s.(process := Spawned(s, pid, Managed), pc := Assigning(s.pc.cause, pid))
  }

  /** Another action's script. When it cannot be executed, the signal mask is left blocked. */
  function AfterAction(s: State, outcome: ForkOutcome): State {
    match outcome
    case NotExecutable => s.(process := s.process.(blocked := true), pc := Flushing)
    case ForkFailed => s.(pc := Flushing)
    case Forked(pid) => s.(process := Spawned(s, pid, Action), pc := Flushing)
  }

  function AfterReturn(s: State): State
    requires s.pc.Returning?
  {
    match s.pc.cause
    case ByStart => s.(pc := Flushing)
    case ByRunOnce => s.(orders := s.orders.(shutdown := true), pc := Flushing)
    case Auto(_) => s.(process := s.process.(terminated := s.process.terminated && !s.pc.ok), pc := Selecting)
  }

  function AfterFlags(cfg: Config, s: State): State {
    s.(pc := if s.orders.shutdown then Exited
             else if !(s.process.terminated && s.orders.desired.Running?) then Selecting
             else if cfg.userRatelimit > 0 then CheckingUserDelay
             else CheckingRunaway)
  }

  /**
   The most that the jitter can add to the limit: half of it in single precision, times a random number
   below one, with the fraction cut off.
   */
  function MaxExtra(limit: nat): nat {
    var half := SinglePrecision.Single(limit / 2);
    if half == 0 then 0 else half - 1
  }

  /** The jitter: kept from the last time unless it is randomised; an unsigned 32-bit sum. */
  function Jitter(cfg: Config, current: nat, extra: nat): nat {
    if cfg.randomize then (cfg.userRatelimit + extra) % UINT32 else current
  }

  function AfterUserDelay(cfg: Config, s: State, extra: nat): State {
    var jitter := Jitter(cfg, s.respawn.jitter, extra);
    s.(respawn := s.respawn.(jitter := jitter),
       pc := if s.respawn.timestamp + cfg.userRatelimit + jitter > s.now then Selecting else CheckingRunaway)
  }

  function AfterRunaway(cfg: Config, s: State): State {
    if s.respawn.force && s.respawn.timestamp + cfg.runawayRatelimit > s.now then
      s.(pc := Selecting)
    else
      s.(respawn := s.respawn.(force := false), pc := TestingPid(Auto(s.respawn.force)))
  }

  /** The static values with which a flush begins: it answers the latest command. */
  function Carried(s: State): Statics {
    var received := s.orders.received;
    Answering(s.wire, if received == [] then NoCommand else received[|received| - 1])
  }

  function EnvControl(s: State, step: EnvStep): State
    requires EnvEnabled(s, step)
  {
    match step
    case Tick(seconds) => s.(now := s.now + seconds)
    case Reap(pid, _, _) => Reaped(s, pid)
    case Terminate => s.(orders := s.orders.(shutdown := true))
  }

  function LoopControl(cfg: Config, s: State, step: LoopStep): State
    requires LoopEnabled(cfg, s, step)
  {
    match step
    case Receive(cmd) =>
      s.(orders := s.orders.(received := s.orders.received + [cmd]),
         wire := s.wire.(gotten := true),
         pc := SettingDesired(cmd))
    case Idle(readable) =>
      s.(wire := s.wire.(gotten := s.wire.gotten && !readable), pc := CheckingFlags)
    case SetDesired =>
      s.(orders := s.orders.(desired := Desired(s.pc.cmd, s.orders.desired)), pc := SettingLast(s.pc.cmd))
    case SetLast =>
      s.(orders := if Known(s.pc.cmd) then s.orders.(last := s.pc.cmd) else s.orders, pc := Acting(s.pc.cmd))
    case Act => Begin(s, s.pc.cmd)
    case ExecAction(outcome) => AfterAction(s, outcome)
    case Return => AfterReturn(s)
    case Transmit(net) =>
      s.(wire := Session.CarriedAfter(s.trail.ring, Carried(s), net), pc := CheckingFlags)
    case CheckFlags => AfterFlags(cfg, s)
    case CheckUserDelay(extra) => AfterUserDelay(cfg, s, extra)
    case CheckRunaway => AfterRunaway(cfg, s)
  }

  function StartControl(cfg: Config, s: State, step: StartStep): State
    requires StartEnabled(s, step)
  {
    match step
    case TestPid => s.(pc := if s.process.pid == 0 then Blocking(s.pc.cause) else Returning(s.pc.cause, true))
    case BlockMask =>
      s.(process := s.process.(savedMask := s.process.blocked, blocked := true), pc := Counting(s.pc.cause))
    case CountRespawn => AfterCount(cfg, s)
    case Fork(outcome) => AfterFork(s, outcome)
    case AssignPid => s.(process := s.process.(pid := s.pc.pid), pc := Stamping(s.pc.cause))
    case Stamp =>
      var launch := Launch(s.now, s.pc.cause, s.respawn.count, s.history.refusals, |s.orders.received|);
      s.(respawn := s.respawn.(timestamp := s.now),
         history := s.history.(launches := s.history.launches + [launch]),
         pc := Recording(s.pc.cause))
    case Record => s.(pc := Restoring(s.pc.cause))
    case RestoreMask => s.(process := s.process.(blocked := s.process.savedMask), pc := Returning(s.pc.cause, true))
  }

  /** One enabled step, as far as the control state goes. */
  function Control(cfg: Config, s: State, step: Step): State
    requires Enabled(cfg, s, step)
  {
    match step
    case Env(env) => EnvControl(s, env)
    case Loop(loop) => LoopControl(cfg, s, loop)
    case Starting(start) => StartControl(cfg, s, start)
  }

  /** A snapshot as buddy_record_state takes it. */
  function Snapshot(s: State): Info {
    Info(s.trail.created, s.process.pid, 0, s.orders.last, s.orders.desired, 0, 0, s.now)
  }

  /** What an enabled step does to the audit trail. */
  function Emits(s: State, step: Step): seq<Audit.Event> {
    match step
    case Env(Reap(pid, status, siginfo)) =>
      [Audit.Recorded(Snapshot(Reaped(s, pid)).(waitPid := pid, waitStatus := status, siginfo := siginfo))]
    case Starting(Record) => [Audit.Recorded(Snapshot(s))]
    case Loop(Transmit(net)) => [Audit.Flushed(Carried(s), net)]
    case _ => []
  }

  /** The machine: a step that is not enabled changes nothing. */
  function Next(cfg: Config, s: State, step: Step): State
    requires ValidConfig(cfg)
  {
    if !Enabled(cfg, s, step) then s
    else
      var events := Emits(s, step);
      Control(cfg, s, step).(trail := if events == [] then s.trail else Audit.Apply(s.trail, cfg.ringSize, events[0]))
  }

  /** What the steps outside buddy_start_proc leave alone. */
  lemma LoopFrame(cfg: Config, s: State, step: LoopStep)
    requires LoopEnabled(cfg, s, step)
    ensures var t := LoopControl(cfg, s, step);
      && t.now == s.now && t.history == s.history
      && t.respawn.timestamp == s.respawn.timestamp && t.respawn.count == s.respawn.count
      && (!step.CheckRunaway? ==> t.respawn.force == s.respawn.force)
      && (!step.ExecAction? && !step.Return? ==> t.process == s.process)
      && (!step.Receive? ==> t.orders.received == s.orders.received)
      && !Masked(s.pc) && !Masked(t.pc) && !s.pc.Blocking? && !t.pc.Blocking?
  {
  }

  /** The part of buddy_start_proc that runs with SIGCHLD blocked. */
  predicate Masked(pc: PC) {
    pc.Counting? || pc.Forking? || pc.Assigning? || pc.Stamping? || pc.Recording? || pc.Restoring?
  }

  /** A command is being handled. */
  predicate Handling(pc: PC) {
    || pc.SettingDesired? || pc.SettingLast? || pc.Acting? || pc.ExecutingAction?
    || ((pc.TestingPid? || pc.Blocking? || pc.Counting? || pc.Forking? || pc.Assigning? || pc.Stamping?
         || pc.Recording? || pc.Restoring? || pc.Returning?) && !pc.cause.Auto?)
  }

  /** Only the trail is left to the audit. */
  lemma NextIsControl(cfg: Config, s: State, step: Step)
    requires ValidConfig(cfg)
    ensures Next(cfg, s, step)
         == if Enabled(cfg, s, step) then Control(cfg, s, step).(trail := Next(cfg, s, step).trail) else s
  {
    hide Emits, Enabled, Control;
  }

  /** The state after any sequence of steps: every interleaving of the event loop and its environment. */
  function Exec(cfg: Config, steps: seq<Step>): State
    requires ValidConfig(cfg)
  {
    if steps == [] then Init(cfg) else Next(cfg, Exec(cfg, steps[..|steps| - 1]), steps[|steps| - 1])
  }

  /** One more step of a run. */
  lemma Extend(cfg: Config, steps: seq<Step>, step: Step) returns (longer: seq<Step>)
    requires ValidConfig(cfg)
    ensures longer == steps + [step] && Exec(cfg, longer) == Next(cfg, Exec(cfg, steps), step)
  {
    longer := steps + [step];
    assert longer[..|steps|] == steps;
  }

  // ---- the audit trail of a run ----

  function Events(cfg: Config, steps: seq<Step>): seq<Audit.Event>
    requires ValidConfig(cfg)
  {
    if steps == [] then [] else
      var before, step := Exec(cfg, steps[..|steps| - 1]), steps[|steps| - 1];
      Events(cfg, steps[..|steps| - 1]) + if Enabled(cfg, before, step) then Emits(before, step) else []
  }

  lemma OneEvent(s: State, step: Step)
    ensures |Emits(s, step)| <= 1
  {
  }

  /** The trail of every run is a run of AuditLog, whose theorems therefore hold of it. */
  lemma {:induction false} TrailIsRun(cfg: Config, steps: seq<Step>)
    requires ValidConfig(cfg)
    ensures Exec(cfg, steps).trail == Audit.Run(cfg.ringSize, Events(cfg, steps))
  {
    if steps != [] {
      var earlier, step := steps[..|steps| - 1], steps[|steps| - 1];
      var before := Exec(cfg, earlier);
      TrailIsRun(cfg, earlier);
      var emitted := if Enabled(cfg, before, step) then Emits(before, step) else [];
      var events := Events(cfg, earlier) + emitted;
      hide Control, Enabled, Emits;
      OneEvent(before, step);
      if emitted != [] {
        assert events[..|events| - 1] == Events(cfg, earlier) && events[|events| - 1] == emitted[0];
      } else {
        assert events == Events(cfg, earlier);
      }
    }
  }

  // ---- buddy_start_proc run through without interruption ----

  /** What buddy_exec_action returns. */
  function PidOf(outcome: ForkOutcome): int {
    match outcome
    case NotExecutable => 0
    case ForkFailed => -1
    case Forked(pid) => pid
  }

  /** Test proc_pid, block SIGCHLD and count the respawn. */
  function CountScript(cfg: Config, s: State): State
    requires ValidConfig(cfg)
  {
    Next(cfg, Next(cfg, Next(cfg, s, Starting(TestPid)), Starting(BlockMask)), Starting(CountRespawn))
  }

  lemma CountEffect(cfg: Config, s: State)
    requires ValidConfig(cfg) && s.pc.TestingPid? && s.process.pid == 0
    ensures var t, count := CountScript(cfg, s), Counted(cfg, s);
      && t.now == s.now && t.orders == s.orders && t.trail == s.trail && t.wire == s.wire
      && t.process == s.process.(savedMask := s.process.blocked, blocked := true)
      && t.respawn == s.respawn.(count := count, force := s.respawn.force || count > cfg.maxRestarts)
      && t.pc == if count > cfg.maxRestarts then Returning(s.pc.cause, false) else Forking(s.pc.cause)
  {
  }

  /** Fork, note the pid and the time, record, and restore the mask. */
  function LaunchScript(cfg: Config, s: State, outcome: ForkOutcome): State
    requires ValidConfig(cfg)
  {
    var forked := Next(cfg, Next(cfg, s, Starting(Fork(outcome))), Starting(AssignPid));
    Next(cfg, Next(cfg, Next(cfg, forked, Starting(Stamp)), Starting(Record)), Starting(RestoreMask))
  }

  lemma LaunchEffect(cfg: Config, s: State, outcome: ForkOutcome)
    requires ValidConfig(cfg) && s.pc.Forking? && Possible(s, outcome)
    ensures var t := LaunchScript(cfg, s, outcome);
      && t.pc == Returning(s.pc.cause, true)
      && t.now == s.now && t.orders == s.orders && t.wire == s.wire
      && t.respawn == s.respawn.(timestamp := s.now)
      && t.process.pid == PidOf(outcome) && t.process.terminated == s.process.terminated
      && t.process.blocked == t.process.savedMask == s.process.savedMask
      && t.process.children.Keys == s.process.children.Keys + NewPid(outcome)
      && t.trail == Audit.Record(s.trail, cfg.ringSize,
                                 Info(s.trail.created, PidOf(outcome), 0, s.orders.last, s.orders.desired, 0, 0, s.now))
  {
    hide Audit.Record;
  }

  // ---- a command and the flags, run through without interruption ----

  /** The desired state, the last command, and what the command begins. */
  function NoteScript(cfg: Config, s: State): State
    requires ValidConfig(cfg)
  {
    Next(cfg, Next(cfg, Next(cfg, s, Loop(SetDesired)), Loop(SetLast)), Loop(Act))
  }

  lemma NoteEffect(cfg: Config, s: State)
    requires ValidConfig(cfg) && s.pc.SettingDesired?
    ensures var t, cmd := NoteScript(cfg, s), s.pc.cmd;
      && t.now == s.now && t.respawn == s.respawn && t.process == s.process && t.trail == s.trail && t.wire == s.wire
      && t.orders.received == s.orders.received
      && t.orders.desired == Desired(cmd, s.orders.desired)
      && t.orders.last == (if Known(cmd) then cmd else s.orders.last)
      && t.orders.shutdown == (s.orders.shutdown || cmd.Shutdown?)
      && t.pc == if cmd.Start? then TestingPid(ByStart)
                 else if cmd.RunOnce? then TestingPid(ByRunOnce)
                 else if ((cmd.Stop? || cmd.Reload?) && s.process.pid != 0) || (cmd.Custom? && cmd.action <= 31) then
                   ExecutingAction
                 else
                   Flushing
  {
  }
}
