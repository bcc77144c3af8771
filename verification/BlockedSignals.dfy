/**
 What the early returns do to the signal mask. Once SIGCHLD stays blocked outside buddy_start_proc, every
 later start saves and restores the blocked mask, so that no child is ever reaped again.
 */
module BlockedSignals {
  import opened Supervisor
  import AuditCoverage
  import ProcessSafety

  /** SIGCHLD is blocked, and no pending restoration of the mask will change that. */
  predicate Shut(s: State) {
    s.process.blocked && (Masked(s.pc) ==> s.process.savedMask)
  }

  /** An action whose script cannot be executed. */
  predicate Unexecutable(step: Step) {
    step == Loop(ExecAction(NotExecutable))
  }

  /** One of the early returns has been taken: a start was refused, or an action's script not executed. */
  predicate Doomed(cfg: Config, steps: seq<Step>)
    requires ValidConfig(cfg)
  {
    Exec(cfg, steps).history.refusals > 0 || AuditCoverage.Count(cfg, steps, Unexecutable) > 0
  }

  // ---- exactly when ----

  /** With so many actions not executed so far. */
  predicate MaskInv(s: State, unexecuted: nat) {
    var doomed := s.history.refusals > 0 || unexecuted > 0;
    if Masked(s.pc) then s.process.blocked && (s.process.savedMask <==> doomed) else s.process.blocked <==> doomed
  }

  lemma MaskStart(cfg: Config, s: State, step: StartStep, unexecuted: nat)
    requires StartEnabled(s, step) && MaskInv(s, unexecuted)
    ensures MaskInv(StartControl(cfg, s, step), unexecuted)
  {
  }

  lemma MaskLoop(cfg: Config, s: State, step: LoopStep, unexecuted: nat)
    requires LoopEnabled(cfg, s, step) && MaskInv(s, unexecuted)
    ensures MaskInv(LoopControl(cfg, s, step), unexecuted + if Unexecutable(Loop(step)) then 1 else 0)
  {
    LoopFrame(cfg, s, step);
    if !step.ExecAction? && !step.Return? {
      hide LoopControl, LoopEnabled;
    }
  }

  lemma MaskStep(cfg: Config, s: State, step: Step, unexecuted: nat)
    requires ValidConfig(cfg) && Enabled(cfg, s, step) && MaskInv(s, unexecuted)
    ensures MaskInv(Next(cfg, s, step), unexecuted + if Unexecutable(step) then 1 else 0)
  {
    NextIsControl(cfg, s, step);
    hide Next, LoopEnabled, StartEnabled, LoopControl, StartControl;
    match step
    case Env(_) =>
    case Loop(loop) => MaskLoop(cfg, s, loop, unexecuted);
    case Starting(start) => MaskStart(cfg, s, start, unexecuted);
  }

  lemma {:induction false} MaskReachable(cfg: Config, steps: seq<Step>)
    requires ValidConfig(cfg)
    ensures MaskInv(Exec(cfg, steps), AuditCoverage.Count(cfg, steps, Unexecutable))
  {
    hide Next, Enabled, Unexecutable;
    if steps != [] {
      var earlier, step := steps[..|steps| - 1], steps[|steps| - 1];
      MaskReachable(cfg, earlier);
      if Enabled(cfg, Exec(cfg, earlier), step) {
        hide MaskInv;
        MaskStep(cfg, Exec(cfg, earlier), step, AuditCoverage.Count(cfg, earlier, Unexecutable));
      } else {
        NextIsControl(cfg, Exec(cfg, earlier), step);
      }
    }
  }

  /**
   SIGCHLD is blocked with no restoration to come if and only if a start has been refused or an action's
   script not executed.
   */
  lemma ShutExactly(cfg: Config, steps: seq<Step>)
    requires ValidConfig(cfg)
    ensures Shut(Exec(cfg, steps)) <==> Doomed(cfg, steps)
  {
    hide Exec;
    MaskReachable(cfg, steps);
  }

  /** Without either, every child can be reaped whenever the loop stands outside buddy_start_proc. */
  lemma OpenOtherwise(cfg: Config, steps: seq<Step>, pid: int, status: int, siginfo: int)
    requires ValidConfig(cfg) && !Masked(Exec(cfg, steps).pc)
    ensures Enabled(cfg, Exec(cfg, steps), Env(Reap(pid, status, siginfo)))
       <==> !Doomed(cfg, steps) && pid in Exec(cfg, steps).process.children
  {
    hide Exec;
    MaskReachable(cfg, steps);
  }

  // ---- for good ----

  lemma {:induction false} StaysDoomed(cfg: Config, steps: seq<Step>, more: seq<Step>)
    requires ValidConfig(cfg) && Doomed(cfg, steps)
    ensures Doomed(cfg, steps + more)
  {
    if more == [] {
      assert steps + more == steps;
    } else {
      var all, last := steps + more, |more| - 1;
      assert all[..|all| - 1] == steps + more[..last];
      StaysDoomed(cfg, steps, more[..last]);
      NeverFewer(cfg, Exec(cfg, steps + more[..last]), more[last]);
    }
  }

  lemma NeverFewer(cfg: Config, s: State, step: Step)
    requires ValidConfig(cfg)
    ensures Next(cfg, s, step).history.refusals >= s.history.refusals
  {
    NextIsControl(cfg, s, step);
    if Enabled(cfg, s, step) && step.Loop? {
      hide Next, LoopEnabled, LoopControl;
      LoopFrame(cfg, s, step.loop);
    } else {
      hide Next;
    }
  }

  /** From then on, in no continuation of the run is any child ever reaped. */
  lemma BlockedForGood(cfg: Config, steps: seq<Step>, more: seq<Step>, pid: int, status: int, siginfo: int)
    requires ValidConfig(cfg) && Doomed(cfg, steps)
    ensures !Enabled(cfg, Exec(cfg, steps + more), Env(Reap(pid, status, siginfo)))
  {
    hide Exec, Doomed;
    StaysDoomed(cfg, steps, more);
    ShutExactly(cfg, steps + more);
  }

  // ---- the last start ----

  /**
   A buddy that will not start its process again: proc_pid holds a process that cannot be reaped any more, or
   the -1 of a failed fork, which is no process at all.
   */
  ghost predicate Frozen(s: State, pid: int, launches: seq<Launch>) {
    && (Shut(s) || (pid < 0 && ProcessSafety.PidInv(s)))
    && s.process.pid == pid != 0 && s.history.launches == launches
    && !s.pc.Blocking? && (Masked(s.pc) ==> s.pc.Recording? || s.pc.Restoring?)
  }

  lemma FrozenStart(cfg: Config, s: State, step: StartStep, pid: int, launches: seq<Launch>)
    requires StartEnabled(s, step) && Frozen(s, pid, launches)
    ensures var t := StartControl(cfg, s, step);
      && (Shut(s) ==> Shut(t)) && t.process.pid == pid && t.history.launches == launches
      && !t.pc.Blocking? && (Masked(t.pc) ==> t.pc.Recording? || t.pc.Restoring?)
  {
    hide ProcessSafety.PidInv;
  }

  lemma FrozenLoop(cfg: Config, s: State, step: LoopStep, pid: int, launches: seq<Launch>)
    requires LoopEnabled(cfg, s, step) && Frozen(s, pid, launches)
    ensures var t := LoopControl(cfg, s, step);
      && (Shut(s) ==> Shut(t)) && t.process.pid == pid && t.history.launches == launches
      && !t.pc.Blocking? && !Masked(t.pc)
  {
    hide ProcessSafety.PidInv;
    LoopFrame(cfg, s, step);
    if !step.ExecAction? && !step.Return? {
      hide LoopControl, LoopEnabled;
    }
  }

  lemma FrozenStep(cfg: Config, s: State, step: Step, pid: int, launches: seq<Launch>)
    requires ValidConfig(cfg) && Frozen(s, pid, launches)
    ensures Frozen(Next(cfg, s, step), pid, launches)
  {
    if ProcessSafety.PidInv(s) {
      ProcessSafety.PidStep(cfg, s, step);
    }
    NextIsControl(cfg, s, step);
    hide Next, LoopEnabled, StartEnabled, LoopControl, StartControl;
    if Enabled(cfg, s, step) {
      match step
      case Env(_) =>
      case Loop(loop) => FrozenLoop(cfg, s, loop, pid, launches);
      case Starting(start) => FrozenStart(cfg, s, start, pid, launches);
    }
  }

  /** In such a state no start is ever executed again, and proc_pid never changes. */
  lemma {:induction false} LastStart(cfg: Config, steps: seq<Step>, more: seq<Step>)
    requires ValidConfig(cfg)
    requires var s := Exec(cfg, steps); Frozen(s, s.process.pid, s.history.launches)
    ensures var s, t := Exec(cfg, steps), Exec(cfg, steps + more);
      && Frozen(t, s.process.pid, s.history.launches)
      && t.process.pid == s.process.pid && t.history.launches == s.history.launches
  {
    if more == [] {
      assert steps + more == steps;
    } else {
      var s := Exec(cfg, steps);
      var all, last := steps + more, |more| - 1;
      assert all[..|all| - 1] == steps + more[..last];
      LastStart(cfg, steps, more[..last]);
      hide Next, Shut, ProcessSafety.PidInv;
      FrozenStep(cfg, Exec(cfg, steps + more[..last]), more[last], s.process.pid, s.history.launches);
    }
  }

  /**
   It is entered as soon as a start has been stamped with a nonzero proc_pid after one of the early returns,
   or with that of a failed fork at any time.
   */
  lemma FrozenByStart(cfg: Config, steps: seq<Step>)
    requires ValidConfig(cfg) && Exec(cfg, steps).pc.Recording?
    requires var pid := Exec(cfg, steps).process.pid; pid < 0 || (pid > 0 && Doomed(cfg, steps))
    ensures var s := Exec(cfg, steps); Frozen(s, s.process.pid, s.history.launches)
  {
    hide Exec, Doomed;
    ShutExactly(cfg, steps);
    ProcessSafety.PidReachable(cfg, steps);
  }
}
