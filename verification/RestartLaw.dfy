/** Exactly when a look at the flags restarts the process. */
module RestartLaw {
  import opened Supervisor
  import Protocol
  import RespawnControl
  import ChildDeath
  import ShutdownLaw
  import Directives

  // ---- the runaway flag ----

  /** Step k refuses a start. */
  predicate RefusedAt(cfg: Config, steps: seq<Step>, k: nat)
    requires ValidConfig(cfg) && k < |steps|
  {
    var before := Exec(cfg, steps[..k]);
    Next(cfg, before, steps[k]).history.refusals > before.history.refusals
  }

  /** Step k is a test of the runaway limit that lets a restart pass. */
  predicate PassedAt(cfg: Config, steps: seq<Step>, k: nat)
    requires ValidConfig(cfg) && k < |steps|
  {
    var before := Exec(cfg, steps[..k]);
    steps[k] == Loop(CheckRunaway) && before.pc.CheckingRunaway? && Next(cfg, before, steps[k]).pc.TestingPid?
  }

  /** A start has been refused since a restart last passed that test. */
  ghost predicate FlaggedSince(cfg: Config, steps: seq<Step>)
    requires ValidConfig(cfg)
  {
    exists k: nat :: k < |steps| && RefusedAt(cfg, steps, k)
                  && forall j: nat :: k < j < |steps| ==> !PassedAt(cfg, steps, j)
  }

  lemma FlaggedAppend(cfg: Config, steps: seq<Step>)
    requires ValidConfig(cfg) && steps != []
    ensures var last := |steps| - 1;
      FlaggedSince(cfg, steps)
      <==> RefusedAt(cfg, steps, last) || (FlaggedSince(cfg, steps[..last]) && !PassedAt(cfg, steps, last))
  {
    hide Exec, Next;
    var last := |steps| - 1;
    var earlier := steps[..last];
    forall k: nat | k < last
      ensures RefusedAt(cfg, earlier, k) <==> RefusedAt(cfg, steps, k)
      ensures PassedAt(cfg, earlier, k) <==> PassedAt(cfg, steps, k)
    {
      assert earlier[..k] == steps[..k];
    }
    hide RefusedAt, PassedAt;
    if FlaggedSince(cfg, earlier) && !PassedAt(cfg, steps, last) {
      var k: nat :| k < |earlier| && RefusedAt(cfg, earlier, k)
                  && forall j: nat :: k < j < |earlier| ==> !PassedAt(cfg, earlier, j);
      assert RefusedAt(cfg, steps, k);
    }
    if FlaggedSince(cfg, steps) && !RefusedAt(cfg, steps, last) {
      var k: nat :| k < |steps| && RefusedAt(cfg, steps, k)
                  && forall j: nat :: k < j < |steps| ==> !PassedAt(cfg, steps, j);
      assert RefusedAt(cfg, earlier, k);
    }
  }

  lemma ForceStep(cfg: Config, s: State, step: Step)
    requires ValidConfig(cfg)
    ensures var t := Next(cfg, s, step);
      var passed := step == Loop(CheckRunaway) && s.pc.CheckingRunaway? && t.pc.TestingPid?;
      t.respawn.force <==> t.history.refusals > s.history.refusals || (s.respawn.force && !passed)
  {
    NextIsControl(cfg, s, step);
    if step.Loop? && Enabled(cfg, s, step) {
      LoopFrame(cfg, s, step.loop);
    }
    hide Next;
  }

  /** In every run the runaway flag is set exactly if that is so. */
  lemma {:induction false} ForceExactly(cfg: Config, steps: seq<Step>)
    requires ValidConfig(cfg)
    ensures Exec(cfg, steps).respawn.force <==> FlaggedSince(cfg, steps)
  {
    if steps != [] {
      var earlier, step := steps[..|steps| - 1], steps[|steps| - 1];
      ForceExactly(cfg, earlier);
      FlaggedAppend(cfg, steps);
      ForceStep(cfg, Exec(cfg, earlier), step);
      hide FlaggedSince, Next;
    }
  }

  /** In every run respawn_timestamp is the time of the last start executed, and zero before the first. */
  lemma {:induction false} StampExactly(cfg: Config, steps: seq<Step>)
    requires ValidConfig(cfg)
    ensures var s := Exec(cfg, steps);
      s.respawn.timestamp == if s.history.launches == [] then 0 else s.history.launches[|s.history.launches| - 1].time
  {
    if steps != [] {
      var earlier, step := steps[..|steps| - 1], steps[|steps| - 1];
      StampExactly(cfg, earlier);
      StampStep(cfg, Exec(cfg, earlier), step);
      hide Next;
    }
  }

  lemma StampStep(cfg: Config, s: State, step: Step)
    requires ValidConfig(cfg)
    ensures var t := Next(cfg, s, step);
      || (t.respawn.timestamp == s.respawn.timestamp && t.history.launches == s.history.launches)
      || (t.history.launches != [] && t.respawn.timestamp == t.history.launches[|t.history.launches| - 1].time == s.now)
  {
    NextIsControl(cfg, s, step);
    if step.Loop? && Enabled(cfg, s, step) {
      LoopFrame(cfg, s, step.loop);
    }
    hide Next;
  }

  /**
   The test of the counter: one more than before within the window, as an unsigned 32-bit value, and zero
   beyond it. A start is let through exactly up to the limit.
   */
  lemma CountedExactly(cfg: Config, steps: seq<Step>)
    requires ValidConfig(cfg) && Exec(cfg, steps).pc.Counting?
    ensures var s, t := Exec(cfg, steps), Exec(cfg, steps + [Starting(CountRespawn)]);
      var count := if s.now < s.respawn.timestamp + cfg.restartWindow then (s.respawn.count + 1) % 0x1_0000_0000 else 0;
      && t.respawn.count == count
      && (t.pc == Forking(s.pc.cause) <==> count <= cfg.maxRestarts)
      && (t.pc == Returning(s.pc.cause, false) <==> count > cfg.maxRestarts)
  {
    hide Exec;
    var longer := Extend(cfg, steps, Starting(CountRespawn));
  }

  // ---- a look at the flags ----

  /** The steps of buddy_handle_flags up to a restart; those that do not apply change nothing. */
  function Look(extra: nat): seq<Step> {
    [Loop(CheckFlags), Loop(CheckUserDelay(extra)), Loop(CheckRunaway)]
  }

  lemma LookEffect(cfg: Config, s: State, extra: nat)
    requires ValidConfig(cfg) && s.pc.CheckingFlags? && extra <= MaxExtra(cfg.userRatelimit)
    requires !cfg.randomize ==> s.respawn.jitter == 0
    ensures var t := Next(cfg, Next(cfg, Next(cfg, s, Look(extra)[0]), Look(extra)[1]), Look(extra)[2]);
      var jitter := if cfg.randomize then (cfg.userRatelimit + extra) % 0x1_0000_0000 else 0;
      && (t.pc.TestingPid? <==>
            && !s.orders.shutdown && s.process.terminated && s.orders.desired == Protocol.Running
            && (cfg.userRatelimit == 0 || s.now >= s.respawn.timestamp + cfg.userRatelimit + jitter)
            && (!s.respawn.force || s.now >= s.respawn.timestamp + cfg.runawayRatelimit))
      && (if t.pc.TestingPid? then t.pc == TestingPid(Auto(s.respawn.force)) && !t.respawn.force
          else t.pc == (if s.orders.shutdown then Exited else Selecting) && t.respawn.force == s.respawn.force)
  {
    hide MaxExtra;
  }

  lemma LookRuns(cfg: Config, steps: seq<Step>, extra: nat)
    requires ValidConfig(cfg)
    ensures Exec(cfg, steps + Look(extra))
         == Next(cfg, Next(cfg, Next(cfg, Exec(cfg, steps), Look(extra)[0]), Look(extra)[1]), Look(extra)[2])
  {
    hide Exec, Next;
    var flags := Extend(cfg, steps, Look(extra)[0]);
    var delay := Extend(cfg, flags, Look(extra)[1]);
    var runaway := Extend(cfg, delay, Look(extra)[2]);
    assert runaway == steps + Look(extra);
  }

  lemma NoJitter(cfg: Config, steps: seq<Step>)
    requires ValidConfig(cfg) && !cfg.randomize
    ensures Exec(cfg, steps).respawn.jitter == 0
  {
    RespawnControl.RespawnReachable(cfg, steps);
    hide Exec, RespawnControl.CountInv, RespawnControl.LaunchesInv;
  }

  /**
   In every run, a look at the flags goes on to restart the process if and only if nothing has ordered the end,
   the process has died since its last successful restart, the latest directive was START, the user's limit
   with its jitter is over since the last start, and so is the runaway limit if a start has been refused since
   a restart last passed it.
   */
  lemma RestartExactly(cfg: Config, steps: seq<Step>, extra: nat)
    requires ValidConfig(cfg) && Exec(cfg, steps).pc.CheckingFlags? && extra <= MaxExtra(cfg.userRatelimit)
    ensures var s, t := Exec(cfg, steps), Exec(cfg, steps + Look(extra));
      var jitter := if cfg.randomize then (cfg.userRatelimit + extra) % 0x1_0000_0000 else 0;
      && (t.pc.TestingPid? <==>
            && !(ShutdownLaw.EndOrdered(s.orders.received) || Env(Terminate) in steps)
            && ChildDeath.DeadSince(cfg, steps)
            && Directives.LatestIsStart(s.orders.received)
            && (cfg.userRatelimit == 0 || s.now >= s.respawn.timestamp + cfg.userRatelimit + jitter)
            && (FlaggedSince(cfg, steps) ==> s.now >= s.respawn.timestamp + cfg.runawayRatelimit))
      && (t.pc.TestingPid? ==> t.pc == TestingPid(Auto(FlaggedSince(cfg, steps))) && !t.respawn.force)
  {
    ForceExactly(cfg, steps);
    if !cfg.randomize {
      NoJitter(cfg, steps);
    }
    LookRuns(cfg, steps, extra);
    LookEffect(cfg, Exec(cfg, steps), extra);
    ShutdownLaw.ShutdownExactly(cfg, steps);
    ChildDeath.TerminatedExactly(cfg, steps);
    Directives.DesiredExactly(cfg, steps, Protocol.Running);
    hide Exec, Next, MaxExtra, ChildDeath.DeadSince, ShutdownLaw.EndOrdered, FlaggedSince;
  }
}
