/** At most one managed process, and never an unnoticed one: what the blocked SIGCHLD is for. */
module ProcessSafety {
  import opened Supervisor

  predicate IsManaged(s: State, pid: int) {
    pid in s.process.children && s.process.children[pid].Managed?
  }

  /** Between the fork and the assignment to proc_pid: this child exists, but is not yet monitored. */
  predicate Unassigned(s: State, pid: int) {
    s.pc.Assigning? && s.pc.pid == pid
  }

  ghost predicate PidInv(s: State) {
    && (forall p :: p in s.process.children ==> p > 0)
    && (forall p :: p in s.process.children && s.process.children[p].Managed? ==>
          p == s.process.pid || Unassigned(s, p))
    && (s.process.pid > 0 ==> IsManaged(s, s.process.pid))
    && (Masked(s.pc) ==> s.process.blocked)
    && (s.pc.Blocking? || s.pc.Counting? || s.pc.Forking? || s.pc.Assigning? ==> s.process.pid == 0)
    && (s.pc.Assigning? && s.pc.pid > 0 ==> IsManaged(s, s.pc.pid))
  }

  lemma PidStart(cfg: Config, s: State, step: StartStep)
    requires StartEnabled(s, step) && PidInv(s)
    ensures PidInv(StartControl(cfg, s, step))
  {
  }

  lemma PidExec(cfg: Config, s: State, step: LoopStep)
    requires LoopEnabled(cfg, s, step) && PidInv(s) && (step.ExecAction? || step.Return?)
    ensures PidInv(LoopControl(cfg, s, step))
  {
  }

  lemma PidLoop(cfg: Config, s: State, step: LoopStep)
    requires LoopEnabled(cfg, s, step) && PidInv(s)
    ensures PidInv(LoopControl(cfg, s, step))
  {
    hide LoopEnabled, LoopControl;
    LoopFrame(cfg, s, step);
    if step.ExecAction? || step.Return? {
      PidExec(cfg, s, step);
    }
  }

  lemma PidEnv(s: State, step: EnvStep)
    requires EnvEnabled(s, step) && PidInv(s)
    ensures PidInv(EnvControl(s, step))
  {
  }

  lemma PidStep(cfg: Config, s: State, step: Step)
    requires ValidConfig(cfg) && PidInv(s)
    ensures PidInv(Next(cfg, s, step))
  {
    NextIsControl(cfg, s, step);
    hide Next, EnvEnabled, LoopEnabled, StartEnabled, EnvControl, LoopControl, StartControl;
    if Enabled(cfg, s, step) {
      match step
      case Env(env) => PidEnv(s, env);
      case Loop(loop) => PidLoop(cfg, s, loop);
      case Starting(start) => PidStart(cfg, s, start);
    }
  }

  lemma {:induction false} PidReachable(cfg: Config, steps: seq<Step>)
    requires ValidConfig(cfg)
    ensures PidInv(Exec(cfg, steps))
  {
    hide Next, PidInv;
    if steps == [] {
      PidInit(cfg);
    } else {
      PidReachable(cfg, steps[..|steps| - 1]);
      PidStep(cfg, Exec(cfg, steps[..|steps| - 1]), steps[|steps| - 1]);
    }
  }

  lemma PidInit(cfg: Config)
    ensures PidInv(Init(cfg))
  {
  }

  /**
   Under every interleaving there is at most one unreaped managed process. Its pid is in proc_pid, except
   between the fork and the assignment, when the handler cannot run; and proc_pid never names a process
   that is gone.
   */
  lemma AtMostOneManaged(cfg: Config, steps: seq<Step>, p: int, q: int)
    requires ValidConfig(cfg)
    ensures var s := Exec(cfg, steps);
      && (IsManaged(s, p) && IsManaged(s, q) ==> p == q)
      && (IsManaged(s, p) ==> p == s.process.pid || (Unassigned(s, p) && s.process.blocked))
      && (s.process.pid > 0 ==> IsManaged(s, s.process.pid))
  {
    hide Exec;
    PidReachable(cfg, steps);
  }

  /**
   When the handler reaps the managed process it always notices: the flag is set and proc_pid is cleared.
   When it reaps any other child, it leaves both alone.
   */
  lemma ReapIsNoticed(cfg: Config, steps: seq<Step>, pid: int, status: int, siginfo: int)
    requires ValidConfig(cfg)
    requires Enabled(cfg, Exec(cfg, steps), Env(Reap(pid, status, siginfo)))
    ensures var s, t := Exec(cfg, steps), Exec(cfg, steps + [Env(Reap(pid, status, siginfo))]);
      && (IsManaged(s, pid) ==> t.process.terminated && t.process.pid == 0 && forall p :: !IsManaged(t, p))
      && (!IsManaged(s, pid) ==> t.process.terminated == s.process.terminated && t.process.pid == s.process.pid)
  {
    var step := Env(Reap(pid, status, siginfo));
    assert (steps + [step])[..|steps|] == steps;
    PidReachable(cfg, steps);
    hide Exec;
  }

  /**
   Without the mask it would go wrong: were the new child reaped before the assignment, the assignment would
   put into proc_pid the pid of a process that no longer exists, without the flag having been set for it.
   */
  lemma MaskIsNeeded(cfg: Config, steps: seq<Step>)
    requires ValidConfig(cfg)
    requires Exec(cfg, steps).pc.Assigning? && Exec(cfg, steps).pc.pid > 0
    ensures var s := Exec(cfg, steps);
      var t := Control(cfg, Reaped(s, s.pc.pid), Starting(AssignPid));
      && t.process.pid > 0 && t.process.pid !in t.process.children
      && t.process.terminated == s.process.terminated && !PidInv(t)
  {
    hide Exec;
    PidReachable(cfg, steps);
  }
}
