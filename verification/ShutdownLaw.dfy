/** When the buddy shuts down: SHUTDOWN, RUNONCE, or a signal, and nothing else. */
module ShutdownLaw {
  import opened Supervisor
  import Protocol

  /** One of these commands ends the buddy. */
  ghost predicate EndOrdered(commands: seq<Protocol.Command>) {
    exists i :: 0 <= i < |commands| && (commands[i] == Protocol.Shutdown || commands[i] == Protocol.RunOnce)
  }

  lemma EndOrderedAppend(commands: seq<Protocol.Command>, cmd: Protocol.Command)
    ensures EndOrdered(commands + [cmd]) <==>
      EndOrdered(commands) || cmd == Protocol.Shutdown || cmd == Protocol.RunOnce
  {
    var all := commands + [cmd];
    assert all[|commands|] == cmd;
    if EndOrdered(commands) {
      var i :| 0 <= i < |commands| && (commands[i] == Protocol.Shutdown || commands[i] == Protocol.RunOnce);
      assert all[i] == commands[i];
    }
  }

  /** SIGTERM or SIGINT has been received. */
  ghost predicate Signalled(steps: seq<Step>) {
    Env(Terminate) in steps
  }

  /** The commands that have been handled: all but the one in hand. */
  function Handled(s: State): (commands: seq<Protocol.Command>) {
    Before(s.orders.received, Handling(s.pc))
  }

  function Before(received: seq<Protocol.Command>, handling: bool): seq<Protocol.Command> {
    if handling && received != [] then received[..|received| - 1] else received
  }

  /** A command is received, or its handling goes on or ends. */
  lemma BeforeMoves(received: seq<Protocol.Command>, was: bool, now: bool, cmds: seq<Protocol.Command>)
    requires |cmds| <= 1 && (cmds != [] ==> !was && now) && (cmds == [] && now ==> was) && (was ==> received != [])
    ensures EndOrdered(Before(received + cmds, now)) <==>
      EndOrdered(Before(received, was))
      || (was && !now
          && (received[|received| - 1] == Protocol.Shutdown || received[|received| - 1] == Protocol.RunOnce))
  {
    assert (received + cmds)[..|received|] == received && received + [] == received;
    if was && !now {
      var last := |received| - 1;
      assert received == received[..last] + [received[last]];
      EndOrderedAppend(received[..last], received[last]);
    }
  }

  /** Which command it is, by where the loop stands. */
  predicate InHand(s: State) {
    Handling(s.pc) ==>
      && s.orders.received != []
      && var cmd := s.orders.received[|s.orders.received| - 1];
         && (s.pc.SettingDesired? || s.pc.SettingLast? || s.pc.Acting? ==> s.pc.cmd == cmd)
         && (s.pc.ExecutingAction? ==> cmd != Protocol.Shutdown && cmd != Protocol.RunOnce)
         && (!(s.pc.SettingDesired? || s.pc.SettingLast? || s.pc.Acting? || s.pc.ExecutingAction?) ==>
              cmd == if s.pc.cause.ByStart? then Protocol.Start else Protocol.RunOnce)
  }

  ghost predicate ShutdownInv(s: State, signalled: bool) {
    InHand(s) && (s.orders.shutdown <==> EndOrdered(Handled(s)) || signalled)
  }

  lemma InHandStart(cfg: Config, s: State, step: StartStep)
    requires StartEnabled(s, step) && InHand(s)
    ensures var t := StartControl(cfg, s, step);
      && InHand(t) && t.orders == s.orders && Handling(t.pc) == Handling(s.pc)
  {
  }

  lemma InHandLoop(cfg: Config, s: State, step: LoopStep)
    requires LoopEnabled(cfg, s, step) && InHand(s)
    ensures var t := LoopControl(cfg, s, step);
      && InHand(t)
      && t.orders.received == s.orders.received + (if step.Receive? then [step.cmd] else [])
      && (step.Receive? ==> !Handling(s.pc) && Handling(t.pc))
      && (!step.Receive? && Handling(t.pc) ==> Handling(s.pc))
      && var cmd := if s.orders.received == [] then Protocol.NoCommand else s.orders.received[|s.orders.received| - 1];
         var ends := Handling(s.pc) && !Handling(t.pc) && (cmd == Protocol.Shutdown || cmd == Protocol.RunOnce);
         t.orders.shutdown <==> s.orders.shutdown || ends
  {
  }

  lemma ShutdownLoop(cfg: Config, s: State, step: LoopStep, signalled: bool)
    requires LoopEnabled(cfg, s, step) && ShutdownInv(s, signalled)
    ensures ShutdownInv(LoopControl(cfg, s, step), signalled)
  {
    InHandLoop(cfg, s, step);
    if Handling(s.pc) {
      InHandNonEmpty(s);
    }
    BeforeMoves(s.orders.received, Handling(s.pc), Handling(LoopControl(cfg, s, step).pc),
                if step.Receive? then [step.cmd] else []);
    hide LoopEnabled, LoopControl, EndOrdered, InHand, Handling, Before;
  }

  lemma InHandNonEmpty(s: State)
    requires InHand(s) && Handling(s.pc)
    ensures s.orders.received != []
  {
  }

  lemma ShutdownStep(cfg: Config, s: State, step: Step, signalled: bool)
    requires ValidConfig(cfg) && ShutdownInv(s, signalled)
    ensures ShutdownInv(Next(cfg, s, step), signalled || step == Env(Terminate))
  {
    NextIsControl(cfg, s, step);
    hide Next, LoopEnabled, StartEnabled, LoopControl, StartControl, EndOrdered;
    if Enabled(cfg, s, step) {
      match step
      case Env(_) =>
      case Loop(loop) => ShutdownLoop(cfg, s, loop, signalled);
      case Starting(start) => InHandStart(cfg, s, start);
    }
  }

  lemma {:induction false} ShutdownReachable(cfg: Config, steps: seq<Step>)
    requires ValidConfig(cfg)
    ensures ShutdownInv(Exec(cfg, steps), Signalled(steps))
  {
    hide Next, InHand;
    if steps == [] {
      InHandInit(cfg);
    } else {
      var earlier, step := steps[..|steps| - 1], steps[|steps| - 1];
      ShutdownReachable(cfg, earlier);
      hide ShutdownInv;
      ShutdownStep(cfg, Exec(cfg, earlier), step, Signalled(earlier));
      assert steps == earlier + [step];
    }
  }

  lemma InHandInit(cfg: Config)
    ensures InHand(Init(cfg))
  {
  }

  /**
   In every run the buddy is to shut down if and only if a SHUTDOWN or RUNONCE has been handled, or SIGTERM or
   SIGINT been received.
   */
  lemma ShutdownExactly(cfg: Config, steps: seq<Step>)
    requires ValidConfig(cfg)
    ensures var s := Exec(cfg, steps);
      && (Handling(s.pc) ==> s.orders.received != [])
      && (s.orders.shutdown <==> EndOrdered(Handled(s)) || Env(Terminate) in steps)
  {
    hide Exec;
    ShutdownReachable(cfg, steps);
  }

  /** The next look at the flags is then the last one, and otherwise it is not. */
  lemma ExitExactly(cfg: Config, steps: seq<Step>)
    requires ValidConfig(cfg) && Exec(cfg, steps).pc.CheckingFlags?
    ensures Exec(cfg, steps + [Loop(CheckFlags)]).pc.Exited? <==>
      EndOrdered(Exec(cfg, steps).orders.received) || Env(Terminate) in steps
  {
    hide Exec;
    ShutdownReachable(cfg, steps);
    var longer := Extend(cfg, steps, Loop(CheckFlags));
  }

  /** Once ordered it stays ordered, whatever comes. */
  lemma {:induction false} EndStaysOrdered(cfg: Config, steps: seq<Step>, more: seq<Step>)
    requires ValidConfig(cfg) && Exec(cfg, steps).orders.shutdown
    ensures Exec(cfg, steps + more).orders.shutdown
  {
    if more == [] {
      assert steps + more == steps;
    } else {
      var all, last := steps + more, |more| - 1;
      assert all[..|all| - 1] == steps + more[..last];
      EndStaysOrdered(cfg, steps, more[..last]);
      NeverWithdrawn(cfg, Exec(cfg, steps + more[..last]), more[last]);
    }
  }

  lemma NeverWithdrawn(cfg: Config, s: State, step: Step)
    requires ValidConfig(cfg) && s.orders.shutdown
    ensures Next(cfg, s, step).orders.shutdown
  {
    NextIsControl(cfg, s, step);
    hide Next;
  }
}
