/** The desired-state machine: when the buddy may restart its process of its own accord. */
module Directives {
  import opened Protocol
  import opened Supervisor
  import ShutdownLaw

  /** START, STOP, RUNONCE and SHUTDOWN. */
  predicate Directive(cmd: Command) {
    cmd == Start || cmd == Stop || cmd == RunOnce || cmd == Shutdown
  }

  /** The commands that buddy_handle_command knows, with the numbers that custom actions and signals can have. */
  predicate Recognised(cmd: Command) {
    || cmd == Shutdown || cmd == StatusReq || cmd == Start || cmd == Stop || cmd == Reload || cmd == RunOnce
    || (exists n: nat :: n <= 31 && cmd == Custom(n))
    || (exists n: nat :: 1 <= n <= 32 && cmd == Signal(n))
  }

  /** This is the latest of the commands of a kind. */
  ghost predicate Latest(commands: seq<Command>, kind: Command -> bool, which: Command) {
    kind(which) && exists i: nat :: LatestAt(commands, kind, which, i)
  }

  ghost predicate LatestAt(commands: seq<Command>, kind: Command -> bool, which: Command, i: nat) {
    i < |commands| && commands[i] == which && NoneOf(commands[i + 1..], kind)
  }

  ghost predicate LatestIsStart(commands: seq<Command>) {
    Latest(commands, Directive, Start)
  }

  ghost predicate NoneOf(commands: seq<Command>, kind: Command -> bool) {
    forall i :: 0 <= i < |commands| ==> !kind(commands[i])
  }

  lemma LatestAppend(earlier: seq<Command>, cmd: Command, kind: Command -> bool, which: Command)
    ensures Latest(earlier + [cmd], kind, which) <==>
      if kind(cmd) then cmd == which else Latest(earlier, kind, which)
  {
    var commands, last := earlier + [cmd], |earlier|;
    hide NoneOf;
    forall i: nat | i < last
      ensures LatestAt(commands, kind, which, i) <==> LatestAt(earlier, kind, which, i) && !kind(cmd)
    {
      assert commands[i + 1..] == earlier[i + 1..] + [cmd];
      NoneAppend(earlier[i + 1..], cmd, kind);
    }
    assert commands[last + 1..] == [];
    NoneOfNothing(kind);
    assert LatestAt(commands, kind, which, last) <==> cmd == which;
  }

  lemma NoneOfNothing(kind: Command -> bool)
    ensures NoneOf([], kind)
  {
  }

  lemma NoneAppend(earlier: seq<Command>, cmd: Command, kind: Command -> bool)
    ensures NoneOf(earlier + [cmd], kind) <==> NoneOf(earlier, kind) && !kind(cmd)
  {
    var commands := earlier + [cmd];
    assert commands[|earlier|] == cmd;
    assert forall i :: 0 <= i < |earlier| ==> commands[i] == earlier[i];
  }

  function Directed(commands: seq<Command>): RunState {
    if commands == [] then Stopped else Desired(commands[|commands| - 1], Directed(commands[..|commands| - 1]))
  }

  /** RUNNING after START, ran-once after RUNONCE, and stopped after STOP, SHUTDOWN, or no directive at all. */
  ghost predicate StateIs(commands: seq<Command>, state: RunState) {
    match state
    case Running => Latest(commands, Directive, Start)
    case RanOnce => Latest(commands, Directive, RunOnce)
    case Stopped =>
      Latest(commands, Directive, Stop) || Latest(commands, Directive, Shutdown) || NoneOf(commands, Directive)
    case Unknown => false
  }

  lemma {:induction false} DirectedExactly(commands: seq<Command>, state: RunState)
    ensures Directed(commands) == state <==> StateIs(commands, state)
  {
    if commands != [] {
      var last := |commands| - 1;
      var earlier, cmd := commands[..last], commands[last];
      DirectedExactly(earlier, state);
      assert commands == earlier + [cmd];
      LatestAppend(earlier, cmd, Directive, Start);
      LatestAppend(earlier, cmd, Directive, RunOnce);
      LatestAppend(earlier, cmd, Directive, Stop);
      LatestAppend(earlier, cmd, Directive, Shutdown);
      NoneAppend(earlier, cmd, Directive);
      hide Latest, NoneOf;
    }
  }

  /** An automatic restart is under way. */
  predicate Restarting(pc: PC) {
    || pc.CheckingUserDelay? || pc.CheckingRunaway?
    || ((pc.TestingPid? || pc.Blocking? || pc.Counting? || pc.Forking? || pc.Assigning? || pc.Stamping?)
        && pc.cause.Auto?)
  }

  ghost predicate DesiredInv(s: State) {
    && (if s.pc.SettingDesired? then
          s.orders.received != [] && s.pc.cmd == s.orders.received[|s.orders.received| - 1]
          && s.orders.desired == Directed(s.orders.received[..|s.orders.received| - 1])
        else
          s.orders.desired == Directed(s.orders.received))
    && (Restarting(s.pc) ==> s.orders.desired.Running?)
  }

  /** The launch was ordered by a command, or the orders at that time were to keep the process running. */
  ghost predicate Justified(launch: Launch, received: seq<Command>) {
    && launch.commands <= |received|
    && (launch.cause.Auto? ==> Directed(received[..launch.commands]).Running?)
  }

  ghost predicate DirectiveInv(s: State) {
    && DesiredInv(s)
    && forall i :: 0 <= i < |s.history.launches| ==> Justified(s.history.launches[i], s.orders.received)
  }

  lemma DesiredLoop(cfg: Config, s: State, step: LoopStep)
    requires LoopEnabled(cfg, s, step) && DesiredInv(s)
    ensures DesiredInv(LoopControl(cfg, s, step))
    ensures s.orders.received <= LoopControl(cfg, s, step).orders.received
  {
    hide Directed;
    if step.Receive? {
      assert (s.orders.received + [step.cmd])[..|s.orders.received|] == s.orders.received;
    } else if step.SetDesired? {
      DirectedLast(s.orders.received);
    }
  }

  lemma DirectedLast(commands: seq<Command>)
    requires commands != []
    ensures Directed(commands) == Desired(commands[|commands| - 1], Directed(commands[..|commands| - 1]))
  {
  }

  lemma DesiredStart(cfg: Config, s: State, step: StartStep)
    requires StartEnabled(s, step) && DesiredInv(s)
    ensures var t := StartControl(cfg, s, step);
      && DesiredInv(t) && t.orders == s.orders
      && (t.history.launches == s.history.launches
          || (|t.history.launches| > 0 && t.history.launches[..|t.history.launches| - 1] == s.history.launches
              && Justified(t.history.launches[|t.history.launches| - 1], s.orders.received)))
  {
    hide Directed;
    assert s.orders.received[..|s.orders.received|] == s.orders.received;
  }

  lemma StillJustified(launch: Launch, received: seq<Command>, later: seq<Command>)
    requires Justified(launch, received) && received <= later
    ensures Justified(launch, later)
  {
    assert later[..launch.commands] == received[..launch.commands];
  }

  lemma DirectiveStep(cfg: Config, s: State, step: Step)
    requires ValidConfig(cfg) && DirectiveInv(s)
    ensures DirectiveInv(Next(cfg, s, step))
  {
    NextIsControl(cfg, s, step);
    hide Next, LoopEnabled, StartEnabled, LoopControl, StartControl, Directed, Justified;
    if Enabled(cfg, s, step) {
      var t := Control(cfg, s, step);
      match step {
        case Env(_) =>
        case Loop(loop) =>
          LoopFrame(cfg, s, loop);
          DesiredLoop(cfg, s, loop);
          forall i | 0 <= i < |s.history.launches|
            ensures Justified(s.history.launches[i], t.orders.received)
          {
            StillJustified(s.history.launches[i], s.orders.received, t.orders.received);
          }
        case Starting(start) =>
          DesiredStart(cfg, s, start);
      }
    }
  }

  lemma {:induction false} DirectiveReachable(cfg: Config, steps: seq<Step>)
    requires ValidConfig(cfg)
    ensures DirectiveInv(Exec(cfg, steps))
  {
    hide Next, Directed;
    if steps == [] {
      DirectedNothing();
    } else {
      hide DirectiveInv;
      DirectiveReachable(cfg, steps[..|steps| - 1]);
      DirectiveStep(cfg, Exec(cfg, steps[..|steps| - 1]), steps[|steps| - 1]);
    }
  }

  lemma DirectedNothing()
    ensures Directed([]) == Stopped
  {
  }

  /** Every automatic start happens only if the latest of START, STOP, RUNONCE and SHUTDOWN was START. */
  lemma RestartOnlyWhenDirected(cfg: Config, steps: seq<Step>, i: nat)
    requires ValidConfig(cfg)
    requires i < |Exec(cfg, steps).history.launches| && Exec(cfg, steps).history.launches[i].cause.Auto?
    ensures var s := Exec(cfg, steps);
      && s.history.launches[i].commands <= |s.orders.received|
      && LatestIsStart(s.orders.received[..s.history.launches[i].commands])
  {
    hide Exec;
    DirectiveReachable(cfg, steps);
    var s := Exec(cfg, steps);
    DirectedExactly(s.orders.received[..s.history.launches[i].commands], Running);
  }

  /** In every run, once a command has been noted, the desired state is what the latest directive calls for. */
  lemma DesiredExactly(cfg: Config, steps: seq<Step>, state: RunState)
    requires ValidConfig(cfg) && !Exec(cfg, steps).pc.SettingDesired?
    ensures Exec(cfg, steps).orders.desired == state <==> StateIs(Exec(cfg, steps).orders.received, state)
  {
    hide Exec;
    DirectiveReachable(cfg, steps);
    DirectedExactly(Exec(cfg, steps).orders.received, state);
  }

  // ---- the last command ----

  function LastNoted(commands: seq<Command>): Command {
    if commands == [] then NoCommand
    else if Known(commands[|commands| - 1]) then commands[|commands| - 1]
    else LastNoted(commands[..|commands| - 1])
  }

  lemma KnownIsRecognised(cmd: Command)
    ensures Known(cmd) <==> Recognised(cmd)
  {
    match cmd
    case Custom(n) =>
    case Signal(n) =>
    case _ =>
  }

  lemma {:induction false} LastNotedExactly(commands: seq<Command>, which: Command)
    ensures LastNoted(commands) == which <==>
      Latest(commands, Recognised, which) || (which == NoCommand && NoneOf(commands, Recognised))
  {
    if commands != [] {
      var last := |commands| - 1;
      var earlier, cmd := commands[..last], commands[last];
      LastNotedExactly(earlier, which);
      assert commands == earlier + [cmd];
      KnownIsRecognised(cmd);
      LatestAppend(earlier, cmd, Recognised, which);
      NoneAppend(earlier, cmd, Recognised);
      hide Latest, NoneOf;
    }
  }

  predicate LastInv(s: State) {
    if s.pc.SettingDesired? || s.pc.SettingLast? then
      && s.orders.received != [] && s.pc.cmd == s.orders.received[|s.orders.received| - 1]
      && s.orders.last == LastNoted(s.orders.received[..|s.orders.received| - 1])
    else
      s.orders.last == LastNoted(s.orders.received)
  }

  lemma LastLoop(cfg: Config, s: State, step: LoopStep)
    requires LoopEnabled(cfg, s, step) && LastInv(s)
    ensures LastInv(LoopControl(cfg, s, step))
  {
    hide LastNoted;
    if step.Receive? {
      assert (s.orders.received + [step.cmd])[..|s.orders.received|] == s.orders.received;
    } else if step.SetLast? {
      LastNotedLast(s.orders.received);
    }
  }

  lemma LastNotedLast(commands: seq<Command>)
    requires commands != []
    ensures var last := |commands| - 1;
      LastNoted(commands) == if Known(commands[last]) then commands[last] else LastNoted(commands[..last])
  {
  }

  lemma LastStart(cfg: Config, s: State, step: StartStep)
    requires StartEnabled(s, step) && LastInv(s)
    ensures LastInv(StartControl(cfg, s, step))
  {
    hide LastNoted;
  }

  lemma LastStep(cfg: Config, s: State, step: Step)
    requires ValidConfig(cfg) && LastInv(s)
    ensures LastInv(Next(cfg, s, step))
  {
    NextIsControl(cfg, s, step);
    hide Next, LoopEnabled, StartEnabled, LoopControl, StartControl, LastNoted;
    if Enabled(cfg, s, step) {
      match step
      case Env(_) =>
      case Loop(loop) => LastLoop(cfg, s, loop);
      case Starting(start) => LastStart(cfg, s, start);
    }
  }

  lemma {:induction false} LastReachable(cfg: Config, steps: seq<Step>)
    requires ValidConfig(cfg)
    ensures LastInv(Exec(cfg, steps))
  {
    hide Next;
    if steps != [] {
      hide LastInv;
      LastReachable(cfg, steps[..|steps| - 1]);
      LastStep(cfg, Exec(cfg, steps[..|steps| - 1]), steps[|steps| - 1]);
    }
  }

  /** In every run, once a command has been noted, last_command is the latest one that the buddy knows. */
  lemma LastExactly(cfg: Config, steps: seq<Step>, which: Command)
    requires ValidConfig(cfg) && !Exec(cfg, steps).pc.SettingDesired? && !Exec(cfg, steps).pc.SettingLast?
    ensures var s := Exec(cfg, steps);
      s.orders.last == which <==>
        Latest(s.orders.received, Recognised, which) || (which == NoCommand && NoneOf(s.orders.received, Recognised))
  {
    hide Exec;
    LastReachable(cfg, steps);
    LastNotedExactly(Exec(cfg, steps).orders.received, which);
  }

  // ---- what a command begins ----

  /**
   A start is begun by START and RUNONCE only; an action by STOP and RELOAD with a process to act on, and by
   the 32 custom actions; everything else goes straight to the flush.
   */
  lemma BeginsExactly(cfg: Config, steps: seq<Step>)
    requires ValidConfig(cfg) && Exec(cfg, steps).pc.Acting?
    ensures var s, t := Exec(cfg, steps), Exec(cfg, steps + [Loop(Act)]);
      s.orders.received != [] &&
      var cmd := s.orders.received[|s.orders.received| - 1];
      && s.pc.cmd == cmd
      && (t.pc == TestingPid(ByStart) <==> cmd == Start)
      && (t.pc == TestingPid(ByRunOnce) <==> cmd == RunOnce)
      && (t.pc == ExecutingAction <==>
            ((cmd == Stop || cmd == Reload) && s.process.pid != 0) || exists n: nat :: n <= 31 && cmd == Custom(n))
      && (t.pc == Flushing || t.pc == ExecutingAction || t.pc == TestingPid(ByStart) || t.pc == TestingPid(ByRunOnce))
      && t.process == s.process && t.respawn == s.respawn
  {
    hide Exec;
    ShutdownLaw.ShutdownReachable(cfg, steps);
    var longer := Extend(cfg, steps, Loop(Act));
  }
}
