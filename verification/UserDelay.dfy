/** How long the user delay can hold a restart back, and what rounding has to do with it. */
module UserDelay {
  import opened Supervisor
  import opened RespawnControl
  import opened SinglePrecision

  /** The delay is over. */
  predicate Passes(cfg: Config, s: State, extra: nat) {
    AfterUserDelay(cfg, s, extra).pc.CheckingRunaway?
  }

  predicate Asked(cfg: Config, s: State, extra: nat) {
    s.pc.CheckingUserDelay? && extra <= MaxExtra(cfg.userRatelimit)
  }

  lemma JitterBound(cfg: Config, extra: nat)
    requires ValidConfig(cfg) && extra <= MaxExtra(cfg.userRatelimit)
    ensures Jitter(cfg, 0, extra) <= cfg.userRatelimit + extra
    ensures !Overlong(cfg) ==> Jitter(cfg, 0, extra) <= cfg.userRatelimit + cfg.userRatelimit / 2
  {
    var half := cfg.userRatelimit / 2;
    SingleBound(half);
    hide Single;
    if extra > half && cfg.userRatelimit + half + 1 >= UINT32 {
      assert (cfg.userRatelimit + extra) % UINT32 == cfg.userRatelimit + extra - UINT32;
    }
  }

  /** The jitter can come to more than half the limit, and the sum still fits 32 bits. */
  predicate Overlong(cfg: Config) {
    var half := cfg.userRatelimit / 2;
    Single(half) > half + 1 && cfg.userRatelimit + half + 1 < UINT32
  }

  /**
   A restart is never let through before the limit is over, never held back beyond twice the limit plus
   the largest random part, and without jitter let through exactly when the limit is over.
   */
  lemma UserDelayBounded(cfg: Config, steps: seq<Step>, extra: nat)
    requires ValidConfig(cfg) && Asked(cfg, Exec(cfg, steps), extra)
    ensures var s := Exec(cfg, steps);
      && (Passes(cfg, s, extra) ==> s.now >= s.respawn.timestamp + cfg.userRatelimit)
      && (s.now >= s.respawn.timestamp + 2 * cfg.userRatelimit + MaxExtra(cfg.userRatelimit) ==> Passes(cfg, s, extra))
      && (!cfg.randomize ==> (Passes(cfg, s, extra) <==> s.now >= s.respawn.timestamp + cfg.userRatelimit))
  {
    RespawnReachable(cfg, steps);
    JitterBound(cfg, extra);
    hide Exec, MaxExtra, CountInv, LaunchesInv, Overlong;
  }

  /** The delay never blocks beyond twice the limit plus half of it, in any run. */
  ghost predicate DelayLaw(cfg: Config)
    requires ValidConfig(cfg)
  {
    forall steps, extra | Asked(cfg, Exec(cfg, steps), extra) :: Released(cfg, Exec(cfg, steps), extra)
  }

  predicate Released(cfg: Config, s: State, extra: nat) {
    s.now >= s.respawn.timestamp + 2 * cfg.userRatelimit + cfg.userRatelimit / 2 ==> Passes(cfg, s, extra)
  }

  lemma ReleasedInTime(cfg: Config, steps: seq<Step>, extra: nat)
    requires ValidConfig(cfg) && Asked(cfg, Exec(cfg, steps), extra)
    requires !cfg.randomize || !Overlong(cfg)
    ensures Released(cfg, Exec(cfg, steps), extra)
  {
    RespawnReachable(cfg, steps);
    JitterBound(cfg, extra);
    hide Exec, MaxExtra, CountInv, LaunchesInv, Overlong;
  }

  /** Nothing has happened but the passing of the restart window. */
  predicate Idling(cfg: Config, s: State, pc: PC) {
    && s.pc == pc && s.process == Process(0, false, false, false, map[]) && !s.orders.shutdown
    && s.respawn.timestamp == 0 && s.now >= cfg.restartWindow
  }

  lemma WindowOver(cfg: Config) returns (steps: seq<Step>)
    requires ValidConfig(cfg)
    ensures Idling(cfg, Exec(cfg, steps), Selecting)
  {
    assert Exec(cfg, []) == Init(cfg);
    hide Exec;
    steps := Extend(cfg, [], Env(Tick(cfg.restartWindow)));
  }

  /** A first START command. */
  lemma Ordered(cfg: Config) returns (steps: seq<Step>)
    requires ValidConfig(cfg)
    ensures Idling(cfg, Exec(cfg, steps), TestingPid(ByStart)) && Exec(cfg, steps).orders.desired.Running?
  {
    hide Exec;
    steps := WindowOver(cfg);
    steps := Extend(cfg, steps, Loop(Receive(Protocol.Start)));
    steps := Extend(cfg, steps, Loop(SetDesired));
    steps := Extend(cfg, steps, Loop(SetLast));
    steps := Extend(cfg, steps, Loop(Act));
  }

  /** Its execution, up to the time stamp. */
  lemma Started(cfg: Config) returns (steps: seq<Step>)
    requires ValidConfig(cfg)
    ensures var s := Exec(cfg, steps);
      && s.pc == Recording(ByStart) && s.process == Process(1, false, true, false, map[1 := Managed])
      && s.orders.desired.Running? && !s.orders.shutdown && s.respawn.timestamp == s.now
  {
    steps := Ordered(cfg);
    hide Exec;
    steps := Extend(cfg, steps, Starting(TestPid));
    steps := Extend(cfg, steps, Starting(BlockMask));
    steps := Extend(cfg, steps, Starting(CountRespawn));
    steps := Extend(cfg, steps, Starting(Fork(Forked(1))));
    steps := Extend(cfg, steps, Starting(AssignPid));
    steps := Extend(cfg, steps, Starting(Stamp));
  }

  /** The end of the command, and of the process. */
  lemma Reaped(cfg: Config) returns (steps: seq<Step>)
    requires ValidConfig(cfg)
    ensures var s := Exec(cfg, steps);
      && s.pc.Selecting? && s.process.terminated && s.orders.desired.Running? && !s.orders.shutdown
      && s.respawn.timestamp == s.now
  {
    steps := Started(cfg);
    hide Exec;
    steps := Extend(cfg, steps, Starting(Record));
    steps := Extend(cfg, steps, Starting(RestoreMask));
    steps := Extend(cfg, steps, Loop(Return));
    steps := Extend(cfg, steps, Loop(Transmit([])));
    steps := Extend(cfg, steps, Loop(CheckFlags));
    steps := Extend(cfg, steps, Env(Reap(1, 0, 0)));
  }

  /** The process has ended, and so much time has passed, when the delay is tested. */
  lemma Waiting(cfg: Config, seconds: nat) returns (steps: seq<Step>)
    requires ValidConfig(cfg) && cfg.userRatelimit > 0
    ensures var s := Exec(cfg, steps); s.pc.CheckingUserDelay? && s.now == s.respawn.timestamp + seconds
  {
    steps := Reaped(cfg);
    hide Exec;
    steps := Extend(cfg, steps, Env(Tick(seconds)));
    steps := Extend(cfg, steps, Loop(Idle(false)));
    steps := Extend(cfg, steps, Loop(CheckFlags));
  }

  /**
   Exactly when the bound holds: without jitter, or if half the limit, rounded to single precision, is not
   two or more above it, or if the sum would not fit 32 bits.
   */
  lemma DelayLawHolds(cfg: Config)
    requires ValidConfig(cfg)
    ensures DelayLaw(cfg) <==> !cfg.randomize || !Overlong(cfg)
  {
    if cfg.randomize && Overlong(cfg) {
      var half := cfg.userRatelimit / 2;
      SingleBound(half);
      hide Single;
      var steps := Waiting(cfg, 2 * cfg.userRatelimit + half);
      hide Exec;
      assert Asked(cfg, Exec(cfg, steps), half + 1) && !Released(cfg, Exec(cfg, steps), half + 1);
    } else {
      hide Exec, Overlong, Asked, Released;
      forall steps, extra | Asked(cfg, Exec(cfg, steps), extra)
        ensures Released(cfg, Exec(cfg, steps), extra)
      {
        ReleasedInTime(cfg, steps, extra);
      }
    }
  }

  /** The smallest limit for which the bound can be exceeded. */
  lemma SmallestOverlong(cfg: Config)
    ensures cfg.userRatelimit < 67_108_876 ==> !Overlong(cfg)
    ensures cfg.userRatelimit == 67_108_876 ==> Overlong(cfg)
  {
    FirstOvershoot(cfg.userRatelimit / 2);
  }
}
