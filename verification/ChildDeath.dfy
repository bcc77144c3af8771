/** The flag chld_terminated: what sets it, and what clears it. */
module ChildDeath {
  import opened Supervisor
  import ProcessSafety

  /** Step k of the run reaps the managed process. */
  predicate ReapedAt(cfg: Config, steps: seq<Step>, k: nat)
    requires ValidConfig(cfg) && k < |steps|
  {
    var before, step := Exec(cfg, steps[..k]), steps[k];
    step.Env? && step.env.Reap? && Enabled(cfg, before, step) && ProcessSafety.IsManaged(before, step.env.pid)
  }

  /** Step k is the return, with the result true, of an automatic start. */
  predicate RestartedAt(cfg: Config, steps: seq<Step>, k: nat)
    requires ValidConfig(cfg) && k < |steps|
  {
    var before := Exec(cfg, steps[..k]);
    steps[k] == Loop(Return) && before.pc.Returning? && before.pc.cause.Auto? && before.pc.ok
  }

  /** The managed process has been reaped since the last automatic start that returned true. */
  ghost predicate DeadSince(cfg: Config, steps: seq<Step>)
    requires ValidConfig(cfg)
  {
    exists k: nat :: k < |steps| && ReapedAt(cfg, steps, k)
                  && forall j: nat :: k < j < |steps| ==> !RestartedAt(cfg, steps, j)
  }

  lemma SamePlace(cfg: Config, steps: seq<Step>, k: nat)
    requires ValidConfig(cfg) && k < |steps| - 1
    ensures var earlier := steps[..|steps| - 1];
      && (ReapedAt(cfg, earlier, k) <==> ReapedAt(cfg, steps, k))
      && (RestartedAt(cfg, earlier, k) <==> RestartedAt(cfg, steps, k))
  {
    hide Exec, Enabled;
    assert steps[..|steps| - 1][..k] == steps[..k];
  }

  lemma DeadAppend(cfg: Config, steps: seq<Step>)
    requires ValidConfig(cfg) && steps != []
    ensures var last := |steps| - 1;
      DeadSince(cfg, steps)
      <==> ReapedAt(cfg, steps, last) || (DeadSince(cfg, steps[..last]) && !RestartedAt(cfg, steps, last))
  {
    hide ReapedAt, RestartedAt;
    var last := |steps| - 1;
    var earlier := steps[..last];
    forall k: nat | k < last
      ensures ReapedAt(cfg, earlier, k) <==> ReapedAt(cfg, steps, k)
      ensures RestartedAt(cfg, earlier, k) <==> RestartedAt(cfg, steps, k)
    {
      SamePlace(cfg, steps, k);
    }
    if DeadSince(cfg, earlier) && !RestartedAt(cfg, steps, last) {
      var k: nat :| k < |earlier| && ReapedAt(cfg, earlier, k)
                  && forall j: nat :: k < j < |earlier| ==> !RestartedAt(cfg, earlier, j);
      assert ReapedAt(cfg, steps, k);
    }
    if DeadSince(cfg, steps) && !ReapedAt(cfg, steps, last) {
      var k: nat :| k < |steps| && ReapedAt(cfg, steps, k)
                  && forall j: nat :: k < j < |steps| ==> !RestartedAt(cfg, steps, j);
      assert ReapedAt(cfg, earlier, k);
    }
  }

  lemma FlagStep(cfg: Config, s: State, step: Step)
    requires ValidConfig(cfg) && Enabled(cfg, s, step) && ProcessSafety.PidInv(s)
    ensures var reaped := step.Env? && step.env.Reap? && ProcessSafety.IsManaged(s, step.env.pid);
      var restarted := step == Loop(Return) && s.pc.cause.Auto? && s.pc.ok;
      Next(cfg, s, step).process.terminated <==> reaped || (s.process.terminated && !restarted)
  {
    NextIsControl(cfg, s, step);
    hide Next;
    match step
    case Loop(loop) =>
      LoopFrame(cfg, s, loop);
    case _ =>
  }

  /** In every run the flag is set exactly if the managed process has died since the last successful restart. */
  lemma {:induction false} TerminatedExactly(cfg: Config, steps: seq<Step>)
    requires ValidConfig(cfg)
    ensures Exec(cfg, steps).process.terminated <==> DeadSince(cfg, steps)
  {
    if steps != [] {
      var earlier, step := steps[..|steps| - 1], steps[|steps| - 1];
      var before := Exec(cfg, earlier);
      TerminatedExactly(cfg, earlier);
      DeadAppend(cfg, steps);
      ProcessSafety.PidReachable(cfg, earlier);
      hide DeadSince, Next, ProcessSafety.PidInv, ProcessSafety.IsManaged;
      if Enabled(cfg, before, step) {
        FlagStep(cfg, before, step);
      } else {
        NextIsControl(cfg, before, step);
      }
    }
  }

  /** A start that the counter refuses leaves the flag as it was, so that it will be tried again. */
  lemma RefusedStaysDead(cfg: Config, steps: seq<Step>)
    requires ValidConfig(cfg) && Exec(cfg, steps).pc.Counting?
    ensures var s, t := Exec(cfg, steps), Exec(cfg, steps + [Starting(CountRespawn), Loop(Return)]);
      var count := if s.respawn.timestamp + cfg.restartWindow > s.now then (s.respawn.count + 1) % 0x1_0000_0000 else 0;
      count > cfg.maxRestarts ==>
        t.process.terminated == s.process.terminated && t.history.launches == s.history.launches && t.respawn.force
  {
    hide Exec;
    var counted := Extend(cfg, steps, Starting(CountRespawn));
    var returned := Extend(cfg, counted, Loop(Return));
    assert returned == steps + [Starting(CountRespawn), Loop(Return)];
  }

  /** An automatic start clears it if the process is monitored already, or has just been started. */
  lemma MonitoredIsAlive(cfg: Config, steps: seq<Step>)
    requires ValidConfig(cfg) && Exec(cfg, steps).pc.TestingPid? && Exec(cfg, steps).pc.cause.Auto?
    ensures Exec(cfg, steps).process.pid != 0 ==>
      !Exec(cfg, steps + [Starting(TestPid), Loop(Return)]).process.terminated
  {
    hide Exec;
    var tested := Extend(cfg, steps, Starting(TestPid));
    var returned := Extend(cfg, tested, Loop(Return));
    assert returned == steps + [Starting(TestPid), Loop(Return)];
  }

  lemma StartedIsAlive(cfg: Config, steps: seq<Step>)
    requires ValidConfig(cfg) && Exec(cfg, steps).pc.Restoring? && Exec(cfg, steps).pc.cause.Auto?
    ensures !Exec(cfg, steps + [Starting(RestoreMask), Loop(Return)]).process.terminated
  {
    hide Exec;
    var restored := Extend(cfg, steps, Starting(RestoreMask));
    var returned := Extend(cfg, restored, Loop(Return));
    assert returned == steps + [Starting(RestoreMask), Loop(Return)];
  }
}
