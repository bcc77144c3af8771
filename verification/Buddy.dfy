/**
 The functions of controller/buddy.c over its file-level variables. Each runs alongside the state machine
 of Supervisor: it performs one machine step for each statement that touches shared state, and the
 variables agree with the machine all the way. What Supervisor proves of every run therefore holds here.
 */
module Buddy {
  import opened Protocol
  import opened Wire
  import opened RingBuffer
  import opened Supervisor
  import Session
  import ProcessSafety
  import Directives

  /** What waitpid reports of one child. */
  datatype Reaping = Reaping(pid: int, status: int)

  function ReapStep(reaping: Reaping, siginfo: int): Step {
    Env(Reap(reaping.pid, reaping.status, siginfo))
  }

  function ReapSteps(reapings: seq<Reaping>, siginfo: int): seq<Step> {
    seq(|reapings|, i requires 0 <= i < |reapings| => ReapStep(reapings[i], siginfo))
  }

  class Buddy {
    const cfg: Config
    const ring: Ring
    const line: Line       // the static variables of write_ctrl, read_ctrl and the flush
    var respawnTimestamp: nat
    var rapidRespawnCount: nat
    var forceRatelimit: bool
    var jitter: nat
    var chldTerminated: bool
    var procPid: int
    var desiredState: RunState
    var lastCommand: Command
    var shutdown: bool
    var blocked: bool      // the signal mask, as far as SIGCHLD is concerned
    var savedMask: bool
    var now: nat           // what time(NULL) returns
    var created: nat       // history: the number of records created
    ghost var model: State
    ghost var trace: seq<Step>

    /** The machine has come to this state by the recorded steps. */
    ghost predicate Traced()
      reads this
    {
      ValidConfig(cfg) && model == Exec(cfg, trace)
    }

    ghost predicate VariablesAgree()
      reads this, line
    {
      && model.wire == line.Carried()
      && model.now == now
      && model.respawn == Respawn(respawnTimestamp, rapidRespawnCount, forceRatelimit, jitter)
      && model.process.pid == procPid && model.process.terminated == chldTerminated
      && model.process.blocked == blocked && model.process.savedMask == savedMask
      && model.orders.desired == desiredState && model.orders.last == lastCommand && model.orders.shutdown == shutdown
    }

    /** The ring stores this queue. */
    ghost predicate Stores(queue: seq<Info>)
      reads ring, ring.slots
    {
      ring.Valid() && ring.size == cfg.ringSize && ring.Contents() == queue
    }

    ghost predicate RingAgrees()
      reads this, ring, ring.slots
    {
      model.trail.created == created && Stores(model.trail.ring)
    }

    ghost predicate Agrees()
      reads this, line, ring, ring.slots
    {
      Traced() && VariablesAgree() && RingAgrees()
    }

    /** buddy_init, as far as it concerns the variables and the ring. */
    constructor (cfg: Config)
      requires ValidConfig(cfg)
      ensures Agrees() && model.pc.Selecting? && trace == [] && this.cfg == cfg
      ensures fresh(line) && fresh(ring) && fresh(ring.slots)
      ensures respawnTimestamp == rapidRespawnCount == jitter == procPid == created == 0 && now == cfg.boot
      ensures !forceRatelimit && !chldTerminated && !shutdown && !blocked
      ensures desiredState == Stopped && lastCommand == NoCommand
    {
      this.cfg := cfg;
      respawnTimestamp, rapidRespawnCount, forceRatelimit, jitter := 0, 0, false, 0;
      chldTerminated, procPid, desiredState, lastCommand, shutdown := false, 0, Stopped, NoCommand, false;
      blocked, savedMask, now, created := false, false, cfg.boot, 0;
      line := new Line();
      ring := new Ring(cfg.ringSize);
      model, trace := Init(cfg), [];
    }

    /** One step of the machine. */
    ghost method Perform(step: Step)
      requires Traced()
      modifies this`model, this`trace
      ensures Traced() && trace == old(trace) + [step] && model == Next(cfg, old(model), step)
    {
      assert (trace + [step])[..|trace|] == trace;
      trace := trace + [step];
      model := Next(cfg, model, step);
    }

    ghost method PerformCount()
      requires Traced()
      modifies this`model, this`trace
      ensures Traced() && model == CountScript(cfg, old(model))
      ensures trace == old(trace) + [Starting(TestPid), Starting(BlockMask), Starting(CountRespawn)]
    {
      hide Exec, Next;
      Perform(Starting(TestPid));
      Perform(Starting(BlockMask));
      Perform(Starting(CountRespawn));
    }

    ghost method PerformLaunch(outcome: ForkOutcome)
      requires Traced()
      modifies this`model, this`trace
      ensures Traced() && model == LaunchScript(cfg, old(model), outcome)
      ensures trace == old(trace) + [Starting(Fork(outcome)), Starting(AssignPid), Starting(Stamp), Starting(Record),
                                     Starting(RestoreMask)]
    {
      hide Exec, Next;
      Perform(Starting(Fork(outcome)));
      Perform(Starting(AssignPid));
      Perform(Starting(Stamp));
      Perform(Starting(Record));
      Perform(Starting(RestoreMask));
    }

    /** Time passes. */
    method Tick(seconds: nat)
      requires Agrees()
      modifies this`now, this`model, this`trace
      ensures Agrees() && trace == old(trace) + [Env(EnvStep.Tick(seconds))]
    {
      hide Exec, Stores;
      now := now + seconds;
      Perform(Env(EnvStep.Tick(seconds)));
    }

    function SelectStep(cmd: Command, readable: bool): Step {
      Loop(if cmd.NoCommand? then Idle(readable) else Receive(cmd))
    }

    /**
     The head of the event loop: a command from the controller, or none, because select has timed out or
     because nothing could be read from a socket that was ready.
     */
    method Select(cmd: Command, readable: bool)
      requires Agrees() && model.pc.Selecting? && (cmd != NoCommand ==> readable)
      modifies line, this`model, this`trace
      ensures Agrees() && model.pc == if cmd.NoCommand? then CheckingFlags else SettingDesired(cmd)
      ensures model.process == old(model.process) && trace == old(trace) + [SelectStep(cmd, readable)]
      ensures cmd != NoCommand ==> Answers(cmd)
    {
      hide Exec, Agrees;
      if cmd.NoCommand? {
        ReceiveNothing(readable);
      } else {
        ReceiveCommand(cmd);
      }
    }

    method ReceiveNothing(readable: bool)
      requires Agrees() && model.pc.Selecting?
      modifies line, this`model, this`trace
      ensures Agrees() && model.pc.CheckingFlags? && model.process == old(model.process)
      ensures trace == old(trace) + [Loop(Idle(readable))]
    {
      hide Exec, Stores;
      if readable {
        line.ReadCommand(NoCommand);
      }
      Perform(Loop(Idle(readable)));
    }

    method ReceiveCommand(cmd: Command)
      requires Agrees() && model.pc.Selecting? && cmd != NoCommand
      modifies line, this`model, this`trace
      ensures Agrees() && model.pc == SettingDesired(cmd) && model.process == old(model.process)
      ensures trace == old(trace) + [Loop(Receive(cmd))] && Answers(cmd)
    {
      hide Exec, Stores;
      line.ReadCommand(cmd);
      Perform(Loop(Receive(cmd)));
    }

    /** sa_sigaction_func for SIGTERM and SIGINT. */
    method HandleTerminate()
      requires Agrees()
      modifies this`shutdown, this`model, this`trace
      ensures Agrees() && shutdown && trace == old(trace) + [Env(Terminate)]
    {
      hide Exec, Stores;
      shutdown := true;
      Perform(Env(Terminate));
    }

    /** buddy_record_state at the cursor, without moving on. */
    method RecordState()
      requires ring.Valid()
      modifies this`created, ring`pending, ring.cursor`populated, ring.cursor`info, ring.cursor`remaining
      ensures ring.Staged() && created == old(created) + 1
      ensures ring.cursor == old(ring.cursor) && ring.nodes == old(ring.nodes) && ring.slots == old(ring.slots)
      ensures ring.cursor.info == Info(old(created), procPid, 0, lastCommand, desiredState, 0, 0, now)
      ensures ring.Older()
           == if |old(ring.Contents())| == ring.size then old(ring.Contents())[1..] else old(ring.Contents())
    {
      ring.RecordState(Info(created, procPid, 0, lastCommand, desiredState, 0, 0, now));
      created := created + 1;
    }

    /** Record the state and step over it, as buddy_start_proc does. */
    method RecordStart(ghost queue: seq<Info>)
      requires ValidConfig(cfg) && Stores(queue)
      modifies this`created, ring`pending, ring`cursor, ring`nodes, ring.slots
      ensures ring.slots == old(ring.slots) && created == old(created) + 1
      ensures Stores(Audit.Push(queue, cfg.ringSize,
                                Info(old(created), procPid, 0, lastCommand, desiredState, 0, 0, now)))
    {
      hide Cycle, PopulatedFrom, InfosFrom;
      RecordState();
      ring.Advance();
    }

    /** This is the latest record in the ring. */
    ghost predicate LatestRecord(info: Info)
      reads ring, ring.slots
    {
      ring.Valid() && ring.Contents() != [] && ring.Contents()[|ring.Contents()| - 1] == info
    }

    /** Record the state together with what waitpid and the signal have told, as the handler does. */
    method RecordReaped(reaping: Reaping, siginfo: int, ghost queue: seq<Info>)
      requires ValidConfig(cfg) && Stores(queue)
      modifies this`created, ring`pending, ring`cursor, ring`nodes, ring.slots
      ensures ring.slots == old(ring.slots) && created == old(created) + 1
      ensures Stores(Audit.Push(queue, cfg.ringSize,
        Info(old(created), procPid, reaping.pid, lastCommand, desiredState, siginfo, reaping.status, now)))
      ensures LatestRecord(
        Info(old(created), procPid, reaping.pid, lastCommand, desiredState, siginfo, reaping.status, now))
    {
      hide Cycle, PopulatedFrom, InfosFrom;
      RecordState();
      ring.Annotate(reaping.pid, reaping.status, siginfo);
      ring.Advance();
    }

    /** One round of the handler's loop, for a child that waitpid has reaped. */
    method ReapOne(reaping: Reaping, siginfo: int)
      requires Agrees() && !blocked && reaping.pid in model.process.children
      modifies this`chldTerminated, this`procPid, this`created, this`model, this`trace
      modifies ring`pending, ring`cursor, ring`nodes, ring.slots
      ensures Agrees() && ring.slots == old(ring.slots)
      ensures trace == old(trace) + [ReapStep(reaping, siginfo)]
      ensures model == Next(cfg, old(model), ReapStep(reaping, siginfo))
      ensures procPid == if reaping.pid == old(procPid) then 0 else old(procPid)
      ensures chldTerminated == (old(chldTerminated) || reaping.pid == old(procPid))
      ensures LatestRecord(
        Info(old(created), procPid, reaping.pid, lastCommand, desiredState, siginfo, reaping.status, now))
    {
      hide Exec, Stores, Audit.Push, LatestRecord;
      if reaping.pid == procPid {
        chldTerminated := true;
        procPid := 0;
      }
      RecordReaped(reaping, siginfo, model.trail.ring);
      Perform(ReapStep(reaping, siginfo));
    }

    /** sa_sigaction_func for SIGCHLD: reap every child that waitpid reports, one record each. */
    method HandleSigchld(reapings: seq<Reaping>, siginfo: int)
      requires Agrees() && !blocked
      requires forall i :: 0 <= i < |reapings| ==> reapings[i].pid in model.process.children
      requires forall i, j :: 0 <= i < j < |reapings| ==> reapings[i].pid != reapings[j].pid
      modifies this`chldTerminated, this`procPid, this`created, this`model, this`trace
      modifies ring`pending, ring`cursor, ring`nodes, ring.slots
      ensures Agrees() && ring.slots == old(ring.slots)
      ensures trace == old(trace) + ReapSteps(reapings, siginfo)
    {
      hide Exec, Next, Traced, RingAgrees;
      var i := 0;
      while i < |reapings|
        invariant 0 <= i <= |reapings|
        invariant Agrees() && !blocked && ring.slots == old(ring.slots)
        invariant trace == old(trace) + ReapSteps(reapings[..i], siginfo)
        invariant forall k :: i <= k < |reapings| ==> reapings[k].pid in model.process.children
      {
        ReapsOnlyOne(model, reapings[i], siginfo);
        ReapOne(reapings[i], siginfo);
        assert ReapSteps(reapings[..i + 1], siginfo)
            == ReapSteps(reapings[..i], siginfo) + [ReapStep(reapings[i], siginfo)];
        i := i + 1;
      }
      assert reapings[..|reapings|] == reapings;
    }

    lemma ReapsOnlyOne(s: State, reaping: Reaping, siginfo: int)
      requires Traced() && !s.process.blocked && reaping.pid in s.process.children
      ensures var t := Next(cfg, s, ReapStep(reaping, siginfo));
        t.process.children == s.process.children - {reaping.pid} && !t.process.blocked
    {
    }

    /** The steps of buddy_start_proc, according to how far it gets. */
    ghost function StartScript(monitored: bool, ok: bool, outcome: ForkOutcome): seq<Step> {
      if monitored then
        [Starting(TestPid)]
      else if !ok then
        [Starting(TestPid), Starting(BlockMask), Starting(CountRespawn)]
      else
        [Starting(TestPid), Starting(BlockMask), Starting(CountRespawn), Starting(Fork(outcome)),
         Starting(AssignPid), Starting(Stamp), Starting(Record), Starting(RestoreMask)]
    }

    /** What buddy_exec_action returns for the start script: a pid, 0, or -1. */
    method ForkStart(outcome: ForkOutcome) returns (pid: int)
      ensures pid == PidOf(outcome)
    {
      match outcome
      case NotExecutable => pid := 0;
      case ForkFailed => pid := -1;
      case Forked(child) => pid := child;
    }

    /** buddy_start_proc up to the decision: test proc_pid, block SIGCHLD, count the respawn. */
    method CountStart() returns (go: bool)
      requires Agrees() && model.pc.TestingPid? && procPid == 0
      modifies this`blocked, this`savedMask, this`rapidRespawnCount, this`forceRatelimit, this`model, this`trace
      ensures Agrees()
      ensures go == old(Granted())
      ensures model.pc == if go then Forking(old(model.pc.cause)) else Returning(old(model.pc.cause), false)
      ensures model.orders.received == old(model.orders.received)
      ensures trace == old(trace) + [Starting(TestPid), Starting(BlockMask), Starting(CountRespawn)]
      ensures model.process.children == old(model.process.children)
    {
      hide Exec, Next, Stores, CountScript, Counted;
      CountEffect(cfg, model);
      go := SetCounted(model);
      PerformCount();
    }

    /** The statements of that part. */
    method SetCounted(ghost s: State) returns (go: bool)
      requires ValidConfig(cfg) && s.now == now
      requires s.respawn.timestamp == respawnTimestamp && s.respawn.count == rapidRespawnCount
      modifies this`blocked, this`savedMask, this`rapidRespawnCount, this`forceRatelimit
      ensures blocked && savedMask == old(blocked) && rapidRespawnCount == Counted(cfg, s)
      ensures go == (rapidRespawnCount <= cfg.maxRestarts) && forceRatelimit == (old(forceRatelimit) || !go)
      ensures go == old(Granted())
    {
      savedMask := blocked;
      blocked := true;
      if respawnTimestamp + cfg.restartWindow > now {
        rapidRespawnCount := (rapidRespawnCount + 1) % UINT32;
      } else {
        rapidRespawnCount := 0;
      }
      go := rapidRespawnCount <= cfg.maxRestarts;
      if !go {
        forceRatelimit := true;
      }
    }

    /** The statements of buddy_start_proc from the fork on. */
    method SetLaunched(outcome: ForkOutcome, ghost queue: seq<Info>)
      requires ValidConfig(cfg) && Stores(queue)
      modifies this`procPid, this`respawnTimestamp, this`created, this`blocked
      modifies ring`pending, ring`cursor, ring`nodes, ring.slots
      ensures procPid == PidOf(outcome) && respawnTimestamp == now && blocked == savedMask
      ensures created == old(created) + 1
      ensures Stores(Audit.Push(queue, cfg.ringSize,
                                Info(old(created), PidOf(outcome), 0, lastCommand, desiredState, 0, 0, now)))
      ensures ring.slots == old(ring.slots)
    {
      hide Audit.Push, Stores;
      procPid := ForkStart(outcome);
      respawnTimestamp := now;
      RecordStart(queue);
      blocked := savedMask;
    }

    /** The rest of buddy_start_proc: fork, note the pid and the time, record, and restore the mask. */
    method Launch(outcome: ForkOutcome)
      requires Agrees() && model.pc.Forking? && Possible(model, outcome)
      modifies this`procPid, this`respawnTimestamp, this`created, this`blocked, this`model, this`trace
      modifies ring`pending, ring`cursor, ring`nodes, ring.slots
      ensures Agrees() && model.pc == Returning(old(model.pc.cause), true) && ring.slots == old(ring.slots)
      ensures model.orders.received == old(model.orders.received)
      ensures model.process.children.Keys == old(model.process.children.Keys) + NewPid(outcome)
      ensures trace == old(trace) + [Starting(Fork(outcome)), Starting(AssignPid), Starting(Stamp), Starting(Record),
                                     Starting(RestoreMask)]
    {
      hide Exec, Next, Audit.Push, Stores, LaunchScript;
      LaunchEffect(cfg, model, outcome);
      SetLaunched(outcome, model.trail.ring);
      PerformLaunch(outcome);
    }

    /** The counter lets a start through now. */
    predicate Granted()
      reads this
    {
      (if respawnTimestamp + cfg.restartWindow > now then (rapidRespawnCount + 1) % 0x1_0000_0000 else 0)
      <= cfg.maxRestarts
    }

    /** buddy_start_proc. */
    method StartProc(outcome: ForkOutcome) returns (ok: bool)
      requires Agrees() && model.pc.TestingPid? && Possible(model, outcome)
      modifies this`blocked, this`savedMask, this`rapidRespawnCount, this`forceRatelimit, this`procPid
      modifies this`respawnTimestamp, this`created, this`model, this`trace
      modifies ring`pending, ring`cursor, ring`nodes, ring.slots
      ensures Agrees() && model.pc == Returning(old(model.pc.cause), ok) && ring.slots == old(ring.slots)
      ensures model.orders.received == old(model.orders.received)
      ensures model.process.children.Keys <= old(model.process.children.Keys) + NewPid(outcome)
      ensures trace == old(trace) + StartScript(old(procPid) != 0, ok, outcome)
      ensures ok <==> old(procPid) != 0 || old(Granted())
    {
      hide Exec, Stores;
      if procPid == 0 {
        ok := CountStart();
        if !ok {
          return;
        }
        Launch(outcome);
      } else {
        Perform(Starting(TestPid));
      }
      ok := true;
    }

    ghost method PerformNote()
      requires Traced()
      modifies this`model, this`trace
      ensures Traced() && model == NoteScript(cfg, old(model))
      ensures trace == old(trace) + [Loop(SetDesired), Loop(SetLast), Loop(Act)]
    {
      hide Exec, Next;
      Perform(Loop(SetDesired));
      Perform(Loop(SetLast));
      Perform(Loop(Act));
    }

    /** The switch of buddy_handle_command as far as it sets variables. */
    method SwitchCommand(cmd: Command)
      modifies this`desiredState, this`lastCommand, this`shutdown
      ensures desiredState == Desired(cmd, old(desiredState))
      ensures lastCommand == if Known(cmd) then cmd else old(lastCommand)
      ensures shutdown == (old(shutdown) || cmd.Shutdown?)
    {
      match cmd {
        case Shutdown =>
          desiredState, lastCommand := Stopped, cmd;
          shutdown := true;
        case StatusReq =>
          lastCommand := cmd;
        case Start =>
          desiredState, lastCommand := Running, cmd;
        case Stop =>
          desiredState, lastCommand := Stopped, cmd;
        case Reload =>
          lastCommand := cmd;
        case RunOnce =>
          desiredState, lastCommand := RanOnce, cmd;
        case Custom(n) =>
          if n <= 31 {
            lastCommand := cmd;
          }
        case Signal(n) =>
          if 1 <= n <= 32 {
            lastCommand := cmd;
          }
        case _ =>
      }
    }

    method NoteCommand(cmd: Command)
      requires Agrees() && model.pc == SettingDesired(cmd)
      modifies this`desiredState, this`lastCommand, this`shutdown, this`model, this`trace
      ensures Agrees() && model.process == old(model.process)
      ensures shutdown == (old(shutdown) || cmd.Shutdown?)
      ensures model.orders.received == old(model.orders.received)
      ensures model.pc == if cmd.Start? then TestingPid(ByStart)
                          else if cmd.RunOnce? then TestingPid(ByRunOnce)
                          else if ((cmd.Stop? || cmd.Reload?) && procPid != 0) || (cmd.Custom? && cmd.action <= 31) then
                            ExecutingAction
                          else
                            Flushing
      ensures trace == old(trace) + [Loop(SetDesired), Loop(SetLast), Loop(Act)]
    {
      hide Exec, Next, Stores, NoteScript, Desired, Known;
      NoteEffect(cfg, model);
      SwitchCommand(cmd);
      PerformNote();
    }

    /** buddy_exec_action for the stop, reload and custom scripts: its early returns leave the signals blocked. */
    method ExecAction(outcome: ForkOutcome)
      requires Agrees() && model.pc.ExecutingAction? && Possible(model, outcome)
      modifies this`blocked, this`model, this`trace
      ensures Agrees() && model.pc.Flushing?
      ensures model.process.children.Keys == old(model.process.children.Keys) + NewPid(outcome)
      ensures model.orders.received == old(model.orders.received)
      ensures trace == old(trace) + [Loop(LoopStep.ExecAction(outcome))]
    {
      hide Exec, Stores;
      if outcome.NotExecutable? {
        blocked := true;
      }
      Perform(Loop(LoopStep.ExecAction(outcome)));
    }

    /** The steps of buddy_handle_command for a command, given proc_pid and how far a start gets. */
    ghost function CommandScript(cmd: Command, monitored: bool, ok: bool, outcome: ForkOutcome): seq<Step> {
      [Loop(SetDesired), Loop(SetLast), Loop(Act)]
      + if cmd.Start? || cmd.RunOnce? then
          StartScript(monitored, ok, outcome) + [Loop(Return)]
        else if ((cmd.Stop? || cmd.Reload?) && monitored) || (cmd.Custom? && cmd.action <= 31) then
          [Loop(LoopStep.ExecAction(outcome))]
        else
          []
    }

    /** buddy_handle_command. */
    method HandleCommand(cmd: Command, outcome: ForkOutcome) returns (ghost ok: bool)
      requires Agrees() && model.pc == SettingDesired(cmd) && Possible(model, outcome)
      modifies this`desiredState, this`lastCommand, this`shutdown, this`model, this`trace
      modifies this`blocked, this`savedMask, this`rapidRespawnCount, this`forceRatelimit, this`procPid
      modifies this`respawnTimestamp, this`created
      modifies ring`pending, ring`cursor, ring`nodes, ring.slots
      ensures Agrees() && model.pc.Flushing? && ring.slots == old(ring.slots)
      ensures model.process.children.Keys <= old(model.process.children.Keys) + NewPid(outcome)
      ensures model.orders.received == old(model.orders.received)
      ensures trace == old(trace) + CommandScript(cmd, old(procPid) != 0, ok, outcome)
      ensures shutdown == (old(shutdown) || cmd == Shutdown || cmd == RunOnce)
    {
      hide Exec, Next, Agrees, StartScript, Granted;
      ok := true;
      NoteCommand(cmd);
      if cmd.Start? || cmd.RunOnce? {
        var started := StartProc(outcome);
        ok := started;
        FinishStart(cmd.RunOnce?);
      } else if ((cmd.Stop? || cmd.Reload?) && procPid != 0) || (cmd.Custom? && cmd.action <= 31) {
        ExecAction(outcome);
      }
    }

    /** A run-once start shuts the buddy down. */
    method FinishStart(once: bool)
      requires Agrees() && model.pc.Returning? && model.pc.cause == if once then ByRunOnce else ByStart
      modifies this`shutdown, this`model, this`trace
      ensures Agrees() && model.pc.Flushing? && trace == old(trace) + [Loop(Return)]
      ensures shutdown == (old(shutdown) || once)
      ensures model.orders.received == old(model.orders.received)
      ensures model.process == old(model.process)
    {
      hide Exec, Stores;
      if once {
        shutdown := true;
      }
      Perform(Loop(Return));
    }

    /** This is the latest command. */
    ghost predicate Answers(command: Command)
      reads this
    {
      model.orders.received != [] && model.orders.received[|model.orders.received| - 1] == command
    }

    /** buddy_flush_ringbuffer, answering the controller; without a connection the network is empty. */
    method FlushRing(command: Command, net: seq<Exchange>) returns (sent: seq<Packet>)
      requires Agrees() && model.pc.Flushing? && Answers(command)
      modifies line, this`model, this`trace
      modifies ring`pending, ring`cursor, ring.slots
      ensures Agrees() && model.pc.CheckingFlags? && ring.slots == old(ring.slots)
      ensures model.process == old(model.process)
      ensures trace == old(trace) + [Loop(Transmit(net))]
      ensures model.trail.sessions == old(model.trail.sessions) + [sent]
    {
      hide Exec, Session.Delivered, Session.Retained, Session.CarriedAfter, Cycle, InfosFrom, PopulatedFrom;
      sent := ring.Flush(line, command, net);
      Perform(Loop(Transmit(net)));
    }

    /** The steps that buddy_handle_flags may take: no interruption, and only this jitter and this fork. */
    ghost predicate FlagSteps(steps: seq<Step>, extra: nat, outcome: ForkOutcome) {
      forall i :: 0 <= i < |steps| ==>
        match steps[i]
        case Env(_) => false
        case Loop(loop) => loop.CheckFlags? || loop == CheckUserDelay(extra) || loop.CheckRunaway? || loop.Return?
        case Starting(start) => start.Fork? ==> start.outcome == outcome
    }

    /** An automatic restart is due: the limits of the user and of a runaway process are over. */
    predicate Due(extra: nat)
      reads this
    {
      && !shutdown && chldTerminated && desiredState == Running
      && LimitOver(extra) && RunawayOver()
    }

    predicate LimitOver(extra: nat)
      reads this
    {
      cfg.userRatelimit == 0
      || now >= respawnTimestamp + cfg.userRatelimit
                + if cfg.randomize then (cfg.userRatelimit + extra) % 0x1_0000_0000 else jitter
    }

    predicate RunawayOver()
      reads this
    {
      !forceRatelimit || now >= respawnTimestamp + cfg.runawayRatelimit
    }

    /** buddy_handle_flags up to a restart; extra is the random part of the jitter. */
    method CheckLimits(extra: nat, ghost outcome: ForkOutcome)
      returns (exit: bool, restart: bool, ghost steps: seq<Step>)
      requires Agrees() && model.pc.CheckingFlags? && extra <= MaxExtra(cfg.userRatelimit)
      modifies this`jitter, this`forceRatelimit, this`model, this`trace
      ensures Agrees() && model.process == old(model.process)
      ensures trace == old(trace) + steps && FlagSteps(steps, extra, outcome)
      ensures if restart then !exit && model.pc.TestingPid? && model.pc.cause.Auto?
              else model.pc == if exit then Exited else Selecting
      ensures exit == shutdown && restart == old(Due(extra))
      ensures forceRatelimit == (old(forceRatelimit) && !restart)
    {
      hide Exec, Next, Agrees;
      restart, steps := false, [Loop(CheckFlags)];
      exit := shutdown;
      PerformFlags();
      if exit {
        return;
      }
      if chldTerminated && desiredState.Running? {
        if cfg.userRatelimit > 0 {
          var pass := CheckUserLimit(extra);
          steps := steps + [Loop(CheckUserDelay(extra))];
          if !pass {
            return;
          }
        }
        restart := CheckRunawayLimit();
        steps := steps + [Loop(CheckRunaway)];
      }
    }

    ghost method PerformFlags()
      requires Agrees() && model.pc.CheckingFlags?
      modifies this`model, this`trace
      ensures Agrees() && model.process == old(model.process) && trace == old(trace) + [Loop(CheckFlags)]
      ensures model.pc == if shutdown then Exited
                          else if !(chldTerminated && desiredState.Running?) then Selecting
                          else if cfg.userRatelimit > 0 then CheckingUserDelay
                          else CheckingRunaway
    {
      hide Exec, Stores;
      Perform(Loop(CheckFlags));
    }

    method CheckUserLimit(extra: nat) returns (pass: bool)
      requires Agrees() && model.pc.CheckingUserDelay? && extra <= MaxExtra(cfg.userRatelimit)
      modifies this`jitter, this`model, this`trace
      ensures Agrees() && model.process == old(model.process)
      ensures trace == old(trace) + [Loop(CheckUserDelay(extra))]
      ensures model.pc == if pass then CheckingRunaway else Selecting
      ensures cfg.userRatelimit > 0 ==> pass == old(LimitOver(extra))
    {
      hide Exec, Stores;
      if cfg.randomize {
        jitter := (cfg.userRatelimit + extra) % UINT32;
      }
      pass := respawnTimestamp + cfg.userRatelimit + jitter <= now;
      Perform(Loop(CheckUserDelay(extra)));
    }

    method CheckRunawayLimit() returns (restart: bool)
      requires Agrees() && model.pc.CheckingRunaway?
      modifies this`forceRatelimit, this`model, this`trace
      ensures Agrees() && model.process == old(model.process)
      ensures trace == old(trace) + [Loop(CheckRunaway)]
      ensures model.pc == if restart then TestingPid(Auto(old(forceRatelimit))) else Selecting
      ensures restart == old(RunawayOver()) && forceRatelimit == (old(forceRatelimit) && !restart)
    {
      hide Exec, Stores;
      if forceRatelimit && respawnTimestamp + cfg.runawayRatelimit > now {
        restart := false;
      } else {
        forceRatelimit := false;
        restart := true;
      }
      Perform(Loop(CheckRunaway));
    }

    /** buddy_handle_flags: true when the buddy should shut down. */
    method HandleFlags(extra: nat, outcome: ForkOutcome) returns (exit: bool, ghost steps: seq<Step>)
      requires Agrees() && model.pc.CheckingFlags? && extra <= MaxExtra(cfg.userRatelimit) && Possible(model, outcome)
      modifies this`jitter, this`model, this`trace, this`chldTerminated
      modifies this`blocked, this`savedMask, this`rapidRespawnCount, this`forceRatelimit, this`procPid
      modifies this`respawnTimestamp, this`created
      modifies ring`pending, ring`cursor, ring`nodes, ring.slots
      ensures Agrees() && ring.slots == old(ring.slots)
      ensures model.pc == if exit then Exited else Selecting
      ensures trace == old(trace) + steps && FlagSteps(steps, extra, outcome)
      ensures exit == shutdown
      ensures chldTerminated <==>
        old(chldTerminated) && !(old(Due(extra)) && (old(procPid) != 0 || old(Granted())))
    {
      hide Exec, Next, Agrees, StartScript, FlagSteps, Due;
      var restart;
      exit, restart, steps := CheckLimits(extra, outcome);
      if restart {
        ghost var monitored := procPid != 0;
        var ok := StartProc(outcome);
        FinishRestart(ok);
        ScriptIsFlagSteps(steps, monitored, ok, extra, outcome);
        steps := steps + StartScript(monitored, ok, outcome) + [Loop(Return)];
      }
    }

    lemma ScriptIsFlagSteps(steps: seq<Step>, monitored: bool, ok: bool, extra: nat, outcome: ForkOutcome)
      requires FlagSteps(steps, extra, outcome)
      ensures FlagSteps(steps + StartScript(monitored, ok, outcome) + [Loop(Return)], extra, outcome)
    {
    }

    method FinishRestart(ok: bool)
      requires Agrees() && model.pc.Returning? && model.pc.cause.Auto? && model.pc.ok == ok
      modifies this`chldTerminated, this`model, this`trace
      ensures Agrees() && model.pc.Selecting? && trace == old(trace) + [Loop(Return)]
      ensures chldTerminated == (old(chldTerminated) && !ok)
    {
      hide Exec, Stores;
      if ok {
        chldTerminated := false;
      }
      Perform(Loop(Return));
    }

    /** The steps of one round up to the flags. */
    ghost function AnswerSteps(cmd: Command, readable: bool, monitored: bool, ok: bool, first: ForkOutcome,
                               net: seq<Exchange>): seq<Step>
    {
      [SelectStep(cmd, readable)]
      + if cmd.NoCommand? then [] else CommandScript(cmd, monitored, ok, first) + [Loop(Transmit(net))]
    }

    /**
     One round of buddy_event_loop: wait for a command, handle it and answer it with a flush, then look at
     the flags. A round that only accepts a connection changes none of this state.
     */
    method Round(cmd: Command, readable: bool, first: ForkOutcome, net: seq<Exchange>, extra: nat, second: ForkOutcome)
      returns (exit: bool, sent: seq<Packet>, ghost ok: bool, ghost flags: seq<Step>)
      requires Agrees() && model.pc.Selecting? && extra <= MaxExtra(cfg.userRatelimit)
      requires cmd != NoCommand ==> readable
      requires Possible(model, first) && Possible(model, second) && NewPid(first) !! NewPid(second)
      modifies this`desiredState, this`lastCommand, this`shutdown, this`jitter, this`chldTerminated
      modifies this`blocked, this`savedMask, this`rapidRespawnCount, this`forceRatelimit, this`procPid
      modifies this`respawnTimestamp, this`created, this`model, this`trace
      modifies line, ring`pending, ring`cursor, ring`nodes, ring.slots
      ensures Agrees() && ring.slots == old(ring.slots)
      ensures model.pc == if exit then Exited else Selecting
      ensures trace == old(trace) + AnswerSteps(cmd, readable, old(procPid) != 0, ok, first, net) + flags
      ensures FlagSteps(flags, extra, second)
      ensures exit <==> old(shutdown) || cmd == Shutdown || cmd == RunOnce
    {
      hide Exec, Next, Agrees, CommandScript, FlagSteps, MaxExtra;
      Select(cmd, readable);
      sent, ok := [], true;
      if !cmd.NoCommand? {
        ok := HandleCommand(cmd, first);
        sent := FlushRing(cmd, net);
      }
      exit, flags := HandleFlags(extra, second);
    }

    /**
     What is proved of every run therefore holds of the variables: proc_pid never names a process that is
     gone and no other managed process is unreaped; the ring holds the latest records, and the records made
     are those that flushes have written or lost, those overwritten, and those in the ring; and between two
     rounds the desired state is to run exactly if the latest directive was START.
     */
    lemma Promises(p: int)
      requires Agrees()
      ensures procPid > 0 ==> ProcessSafety.IsManaged(model, procPid)
      ensures ProcessSafety.IsManaged(model, p) ==> p == procPid || (ProcessSafety.Unassigned(model, p) && blocked)
      ensures var queue := ring.Contents();
        && created == model.trail.settled + model.trail.lost + model.trail.overwritten + |queue|
        && |queue| <= cfg.ringSize
        && forall i :: 0 <= i < |queue| ==> queue[i].serial == created - |queue| + i
      ensures model.pc.Selecting? ==> (desiredState.Running? <==> Directives.LatestIsStart(model.orders.received))
    {
      hide Exec, Cycle, PopulatedFrom, InfosFrom, Audit.Run;
      ProcessSafety.AtMostOneManaged(cfg, trace, p, p);
      TrailIsRun(cfg, trace);
      Audit.RunConsistent(cfg.ringSize, Events(cfg, trace));
      Directives.DirectiveReachable(cfg, trace);
      Directives.DirectedExactly(model.orders.received, Running);
    }
  }
}
