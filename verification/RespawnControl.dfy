/** How fast a buddy may start its process: the restart window, the rate limits and the runaway flag. */
module RespawnControl {
  import opened Supervisor

  /** So many refusals in a row take the 32-bit counter round to zero. */
  function WrapCount(cfg: Config): int {
    UINT32 - 1 - cfg.maxRestarts
  }

  /**
   A start let through with this counter, after so many refusals, and executed at this time, in relation
   to the one before it: if it falls into the restart window, it counts as one more rapid respawn - unless
   the counter has wrapped round in between.
   */
  predicate Follows(cfg: Config, previous: Launch, count: nat, refusals: nat, time: nat) {
    && previous.time <= time
    && previous.refusals <= refusals
    && (time < previous.time + cfg.restartWindow ==>
          || (count == previous.rapid + 1 && refusals == previous.refusals)
          || refusals - previous.refusals >= WrapCount(cfg))
  }

  /** The delays that an automatic start has kept since the previous one. */
  predicate Delayed(cfg: Config, previous: Launch, cause: Cause, refusals: nat, time: nat) {
    cause.Auto? ==>
      && time >= previous.time + cfg.userRatelimit
      && (cause.flagged || refusals > previous.refusals ==> time >= previous.time + cfg.runawayRatelimit)
  }

  predicate Succeeds(cfg: Config, previous: Launch, launch: Launch) {
    && Follows(cfg, previous, launch.rapid, launch.refusals, launch.time)
    && Delayed(cfg, previous, launch.cause, launch.refusals, launch.time)
  }

  ghost predicate LaunchesInv(cfg: Config, launches: seq<Launch>) {
    && (forall i :: 0 <= i < |launches| ==> launches[i].rapid <= cfg.maxRestarts)
    && (forall i, j :: 0 <= i && j == i + 1 < |launches| ==> Succeeds(cfg, launches[i], launches[j]))
  }

  /** The start has passed the test of the counter, but has not been executed yet. */
  predicate LetThrough(pc: PC) {
    pc.Forking? || pc.Assigning? || pc.Stamping?
  }

  predicate Entered(pc: PC) {
    pc.TestingPid? || pc.Blocking? || pc.Counting? || LetThrough(pc)
  }

  ghost predicate CountInv(cfg: Config, s: State)
    requires s.history.launches != []
  {
    var last := s.history.launches[|s.history.launches| - 1];
    && s.respawn.timestamp == last.time <= s.now
    && last.refusals <= s.history.refusals
    && (if LetThrough(s.pc) then
          Follows(cfg, last, s.respawn.count, s.history.refusals, s.now)
        else
          && s.respawn.count == last.rapid + (s.history.refusals - last.refusals)
          && (s.history.refusals > last.refusals ==> last.rapid == cfg.maxRestarts))
    && (s.history.refusals > last.refusals ==> s.respawn.force || s.now >= last.time + cfg.runawayRatelimit)
  }

  ghost predicate DelayInv(cfg: Config, s: State) {
    && (s.pc.CheckingRunaway? ==> s.now >= s.respawn.timestamp + cfg.userRatelimit)
    && (Entered(s.pc) && s.pc.cause.Auto? ==>
          && !s.respawn.force
          && s.now >= s.respawn.timestamp + cfg.userRatelimit
          && (s.pc.cause.flagged ==> s.now >= s.respawn.timestamp + cfg.runawayRatelimit))
    && (!cfg.randomize ==> s.respawn.jitter == 0)
  }

  ghost predicate RespawnInv(cfg: Config, s: State) {
    && s.respawn.count < UINT32
    && s.respawn.timestamp <= s.now
    && (LetThrough(s.pc) ==> s.respawn.count <= cfg.maxRestarts)
    && (s.history.launches != [] ==> CountInv(cfg, s))
    && DelayInv(cfg, s)
  }

  lemma RespawnEnv(cfg: Config, s: State, step: EnvStep)
    requires EnvEnabled(s, step) && RespawnInv(cfg, s)
    ensures RespawnInv(cfg, EnvControl(s, step))
  {
  }

  // ---- steps of the event loop ----

  lemma DelayUser(cfg: Config, s: State, extra: nat)
    requires s.pc.CheckingUserDelay? && DelayInv(cfg, s)
    ensures DelayInv(cfg, AfterUserDelay(cfg, s, extra))
  {
  }

  lemma DelayRunaway(cfg: Config, s: State)
    requires s.pc.CheckingRunaway? && DelayInv(cfg, s)
    ensures DelayInv(cfg, AfterRunaway(cfg, s))
  {
  }

  lemma DelayFlags(cfg: Config, s: State)
    requires s.pc.CheckingFlags? && DelayInv(cfg, s) && s.respawn.timestamp <= s.now
    ensures DelayInv(cfg, AfterFlags(cfg, s))
  {
  }

  lemma DelayLoop(cfg: Config, s: State, step: LoopStep)
    requires LoopEnabled(cfg, s, step) && DelayInv(cfg, s) && s.respawn.timestamp <= s.now
    ensures DelayInv(cfg, LoopControl(cfg, s, step))
  {
    match step
    case CheckUserDelay(extra) =>
      hide AfterUserDelay, DelayInv;
      DelayUser(cfg, s, extra);
    case CheckRunaway =>
      hide AfterRunaway, DelayInv;
      DelayRunaway(cfg, s);
    case CheckFlags =>
      hide AfterFlags, DelayInv;
      DelayFlags(cfg, s);
    case _ =>
  }

  lemma CountRunaway(cfg: Config, s: State)
    requires s.pc.CheckingRunaway? && s.history.launches != [] && CountInv(cfg, s)
    ensures CountInv(cfg, AfterRunaway(cfg, s))
  {
  }

  lemma CountLoop(cfg: Config, s: State, step: LoopStep)
    requires LoopEnabled(cfg, s, step) && s.history.launches != [] && CountInv(cfg, s)
    ensures var t := LoopControl(cfg, s, step); t.history.launches != [] && CountInv(cfg, t)
  {
    LoopFrame(cfg, s, step);
    if step.CheckRunaway? {
      hide CountInv, AfterRunaway;
      CountRunaway(cfg, s);
    } else {
      hide LoopControl, LoopEnabled, Follows;
    }
  }

  lemma RespawnLoop(cfg: Config, s: State, step: LoopStep)
    requires LoopEnabled(cfg, s, step) && RespawnInv(cfg, s)
    ensures RespawnInv(cfg, LoopControl(cfg, s, step))
  {
    hide CountInv, DelayInv, LoopControl, LoopEnabled;
    LoopFrame(cfg, s, step);
    DelayLoop(cfg, s, step);
    if s.history.launches != [] {
      CountLoop(cfg, s, step);
    }
  }

  // ---- steps of buddy_start_proc ----

  /** What the steps other than CountRespawn and Stamp leave alone. */
  lemma StartFrame(cfg: Config, s: State, step: StartStep)
    requires StartEnabled(s, step) && !step.CountRespawn? && !step.Stamp?
    ensures var t := StartControl(cfg, s, step);
      && t.now == s.now && t.respawn == s.respawn && t.history == s.history
      && LetThrough(t.pc) == LetThrough(s.pc) && !t.pc.CheckingRunaway?
      && (Entered(t.pc) ==> Entered(s.pc) && t.pc.cause == s.pc.cause)
  {
  }

  lemma CountRefused(cfg: Config, s: State)
    requires ValidConfig(cfg) && s.pc.Counting? && RespawnInv(cfg, s) && Counted(cfg, s) > cfg.maxRestarts
    requires s.history.launches != [] && LaunchesInv(cfg, s.history.launches)
    ensures CountInv(cfg, AfterCount(cfg, s))
  {
  }

  lemma CountPassed(cfg: Config, s: State)
    requires ValidConfig(cfg) && s.pc.Counting? && RespawnInv(cfg, s) && Counted(cfg, s) <= cfg.maxRestarts
    requires s.history.launches != [] && LaunchesInv(cfg, s.history.launches)
    ensures CountInv(cfg, AfterCount(cfg, s))
  {
    hide DelayInv;
  }

  lemma DelayCount(cfg: Config, s: State)
    requires s.pc.Counting? && DelayInv(cfg, s)
    ensures DelayInv(cfg, AfterCount(cfg, s))
  {
    hide Counted;
  }

  lemma RespawnCount(cfg: Config, s: State)
    requires ValidConfig(cfg) && s.pc.Counting? && RespawnInv(cfg, s) && LaunchesInv(cfg, s.history.launches)
    ensures RespawnInv(cfg, AfterCount(cfg, s))
  {
    DelayCount(cfg, s);
    if s.history.launches != [] {
      if Counted(cfg, s) > cfg.maxRestarts {
        CountRefused(cfg, s);
      } else {
        CountPassed(cfg, s);
      }
    }
    hide CountInv, DelayInv, LaunchesInv;
  }

  lemma RespawnStamp(cfg: Config, s: State)
    requires s.pc.Stamping? && RespawnInv(cfg, s)
    ensures RespawnInv(cfg, StartControl(cfg, s, Stamp))
  {
    hide Follows;
  }

  lemma RespawnStart(cfg: Config, s: State, step: StartStep)
    requires ValidConfig(cfg) && StartEnabled(s, step) && RespawnInv(cfg, s) && LaunchesInv(cfg, s.history.launches)
    ensures RespawnInv(cfg, StartControl(cfg, s, step))
  {
    if step.CountRespawn? {
      hide RespawnInv, LaunchesInv, AfterCount;
      RespawnCount(cfg, s);
    } else if step.Stamp? {
      hide RespawnInv, LaunchesInv;
      RespawnStamp(cfg, s);
    } else {
      hide StartEnabled, StartControl, Follows, LaunchesInv, LetThrough, Entered;
      StartFrame(cfg, s, step);
    }
  }

  lemma LaunchAppended(cfg: Config, launches: seq<Launch>, launch: Launch)
    requires LaunchesInv(cfg, launches) && launch.rapid <= cfg.maxRestarts
    requires launches != [] ==> Succeeds(cfg, launches[|launches| - 1], launch)
    ensures LaunchesInv(cfg, launches + [launch])
  {
    hide Succeeds;
  }

  lemma LaunchStep(cfg: Config, s: State, step: StartStep)
    requires StartEnabled(s, step) && RespawnInv(cfg, s) && LaunchesInv(cfg, s.history.launches)
    ensures LaunchesInv(cfg, StartControl(cfg, s, step).history.launches)
  {
    if step.Stamp? {
      LaunchAllowed(cfg, s);
      hide RespawnInv, LaunchesInv, Succeeds;
      var launch := Launch(s.now, s.pc.cause, s.respawn.count, s.history.refusals, |s.orders.received|);
      LaunchAppended(cfg, s.history.launches, launch);
    } else {
      hide RespawnInv, LaunchesInv;
    }
  }

  lemma LaunchAllowed(cfg: Config, s: State)
    requires s.pc.Stamping? && RespawnInv(cfg, s)
    ensures s.respawn.count <= cfg.maxRestarts
    ensures var launches := s.history.launches;
      launches != [] ==>
        Succeeds(cfg, launches[|launches| - 1],
                 Launch(s.now, s.pc.cause, s.respawn.count, s.history.refusals, |s.orders.received|))
  {
    hide Follows;
  }

  lemma RespawnStep(cfg: Config, s: State, step: Step)
    requires ValidConfig(cfg) && RespawnInv(cfg, s) && LaunchesInv(cfg, s.history.launches)
    ensures RespawnInv(cfg, Next(cfg, s, step)) && LaunchesInv(cfg, Next(cfg, s, step).history.launches)
  {
    NextIsControl(cfg, s, step);
    hide Next, LoopEnabled, StartEnabled, LoopControl, StartControl, LaunchesInv, RespawnInv;
    if Enabled(cfg, s, step) {
      var t := Control(cfg, s, step);
      TrailApart(cfg, t, Next(cfg, s, step).trail);
      match step {
        case Env(env) =>
          RespawnEnv(cfg, s, env);
        case Loop(loop) =>
          LoopFrame(cfg, s, loop);
          RespawnLoop(cfg, s, loop);
        case Starting(start) =>
          RespawnStart(cfg, s, start);
          LaunchStep(cfg, s, start);
      }
    }
  }

  lemma TrailApart(cfg: Config, s: State, trail: Audit.Trail)
    ensures RespawnInv(cfg, s.(trail := trail)) == RespawnInv(cfg, s)
  {
    hide Follows;
  }

  lemma RespawnInit(cfg: Config)
    ensures RespawnInv(cfg, Init(cfg)) && LaunchesInv(cfg, [])
  {
  }

  lemma {:induction false} RespawnReachable(cfg: Config, steps: seq<Step>)
    requires ValidConfig(cfg)
    ensures RespawnInv(cfg, Exec(cfg, steps)) && LaunchesInv(cfg, Exec(cfg, steps).history.launches)
  {
    hide Next, RespawnInv, LaunchesInv;
    RespawnInit(cfg);
    if steps != [] {
      RespawnReachable(cfg, steps[..|steps| - 1]);
      RespawnStep(cfg, Exec(cfg, steps[..|steps| - 1]), steps[|steps| - 1]);
    }
  }

  // ---- the theorems ----

  lemma {:induction false} Refusals(cfg: Config, launches: seq<Launch>, i: nat, j: nat)
    requires LaunchesInv(cfg, launches) && i <= j < |launches|
    ensures launches[i].refusals <= launches[j].refusals && launches[i].time <= launches[j].time
    decreases j - i
  {
    if i < j {
      Refusals(cfg, launches, i + 1, j);
      assert Succeeds(cfg, launches[i], launches[i + 1]);
    }
  }

  /** Launch j follows its predecessor by at least the restart window. */
  ghost predicate GapBefore(cfg: Config, launches: seq<Launch>, j: nat)
    requires 1 <= j < |launches|
  {
    launches[j].time >= launches[j - 1].time + cfg.restartWindow
  }

  /** The counter wrapped round between two launches: it takes this many refusals. */
  predicate Wrapped(cfg: Config, first: Launch, last: Launch) {
    last.refusals - first.refusals >= WrapCount(cfg)
  }

  lemma {:induction false} RapidCounts(cfg: Config, launches: seq<Launch>, i: nat, j: nat)
    requires LaunchesInv(cfg, launches) && i <= j < |launches|
    requires !Wrapped(cfg, launches[i], launches[j])
    requires forall k: nat :: i < k <= j ==> !GapBefore(cfg, launches, k)
    ensures launches[j].rapid == launches[i].rapid + (j - i)
    decreases j - i
  {
    if i < j {
      Refusals(cfg, launches, i, i + 1);
      Refusals(cfg, launches, i + 1, j);
      assert Succeeds(cfg, launches[i], launches[i + 1]);
      assert !GapBefore(cfg, launches, i + 1);
      RapidCounts(cfg, launches, i + 1, j);
    }
  }

  /** Among max + 2 consecutive launches, some two adjacent ones are a restart window apart. */
  lemma Window(cfg: Config, launches: seq<Launch>, i: nat)
    requires LaunchesInv(cfg, launches) && i + cfg.maxRestarts + 1 < |launches|
    requires !Wrapped(cfg, launches[i], launches[i + cfg.maxRestarts + 1])
    ensures exists j: nat :: i < j <= i + cfg.maxRestarts + 1 && GapBefore(cfg, launches, j)
  {
    if forall k: nat :: i < k <= i + cfg.maxRestarts + 1 ==> !GapBefore(cfg, launches, k) {
      RapidCounts(cfg, launches, i, i + cfg.maxRestarts + 1);
      assert false;
    }
  }

  /**
   In every run, any user_max_restarts + 2 consecutive executed starts, whether by command or automatic,
   contain an adjacent gap of at least user_restart_window - unless so many attempts were refused between
   the first and the last of them that the 32-bit counter wrapped round.
   */
  lemma GapAmongStarts(cfg: Config, steps: seq<Step>, i: nat)
    requires ValidConfig(cfg)
    requires i + cfg.maxRestarts + 1 < |Exec(cfg, steps).history.launches|
    ensures var launches := Exec(cfg, steps).history.launches;
      || Wrapped(cfg, launches[i], launches[i + cfg.maxRestarts + 1])
      || exists j: nat :: i < j <= i + cfg.maxRestarts + 1 && GapBefore(cfg, launches, j)
  {
    RespawnReachable(cfg, steps);
    hide Exec;
    var launches := Exec(cfg, steps).history.launches;
    if !Wrapped(cfg, launches[i], launches[i + cfg.maxRestarts + 1]) {
      Window(cfg, launches, i);
    }
  }

  function Times(q: nat, x: nat): nat {
    if q == 0 then 0 else x + Times(q - 1, x)
  }

  lemma {:induction false} TimesIs(q: nat, x: nat)
    ensures Times(q, x) == q * x
  {
    if q > 0 {
      TimesIs(q - 1, x);
      assert q * x == (q - 1) * x + x;
    }
  }

  lemma {:induction false} LaunchesIn(cfg: Config, launches: seq<Launch>, a: nat, b: nat, q: nat)
    requires LaunchesInv(cfg, launches) && a <= b < |launches|
    requires launches[b].time < launches[a].time + Times(q + 1, cfg.restartWindow)
    requires !Wrapped(cfg, launches[a], launches[b])
    ensures b - a + 1 <= Times(q + 1, cfg.maxRestarts + 1)
    decreases b - a
  {
    hide LaunchesInv;
    var c := a + cfg.maxRestarts + 1;
    if c <= b {
      Refusals(cfg, launches, a, c);
      Refusals(cfg, launches, c, b);
      Window(cfg, launches, a);
      var j: nat :| a < j <= c && GapBefore(cfg, launches, j);
      Refusals(cfg, launches, a, j - 1);
      Refusals(cfg, launches, j, c);
      LaunchesIn(cfg, launches, c, b, q - 1);
    }
  }

  /** The most starts that an interval of this length can see. */
  function Most(length: nat, window: nat, batch: nat): nat
    requires 1 <= window
  {
    batch * (length / window + 1)
  }

  lemma QuotientBound(length: nat, window: nat, batch: nat) returns (q: nat)
    requires 1 <= window
    ensures length < Times(q + 1, window)
    ensures Times(q + 1, batch) == Most(length, window, batch)
  {
    q := length / window;
    TimesIs(q + 1, window);
    TimesIs(q + 1, batch);
    assert length < (q + 1) * window;
  }

  /** Every launch of a run has seen no more refusals than the run. */
  lemma RefusalsSoFar(cfg: Config, steps: seq<Step>, i: nat)
    requires ValidConfig(cfg) && i < |Exec(cfg, steps).history.launches|
    ensures Exec(cfg, steps).history.launches[i].refusals <= Exec(cfg, steps).history.refusals
  {
    RespawnReachable(cfg, steps);
    hide Exec, LaunchesInv;
    var launches := Exec(cfg, steps).history.launches;
    Refusals(cfg, launches, i, |launches| - 1);
  }

  /**
   Hence no interval of the given length sees more than (max + 1) * (length / window + 1) starts, in any
   run in which the counter does not wrap round within the interval.
   */
  lemma StartsInInterval(cfg: Config, steps: seq<Step>, a: nat, b: nat, length: nat)
    requires ValidConfig(cfg) && 1 <= cfg.restartWindow
    requires a <= b < |Exec(cfg, steps).history.launches|
    requires var launches := Exec(cfg, steps).history.launches;
      launches[b].time <= launches[a].time + length && !Wrapped(cfg, launches[a], launches[b])
    ensures b - a + 1 <= Most(length, cfg.restartWindow, cfg.maxRestarts + 1)
  {
    RespawnReachable(cfg, steps);
    hide *;
    var q := QuotientBound(length, cfg.restartWindow, cfg.maxRestarts + 1);
    LaunchesIn(cfg, Exec(cfg, steps).history.launches, a, b, q);
  }

  /**
   Every automatic start happens at least user_ratelimit after the start before it, and at least
   runaway_ratelimit after it if the runaway flag was set or a start was refused in between.
   */
  lemma RestartDelayed(cfg: Config, steps: seq<Step>, i: nat)
    requires ValidConfig(cfg)
    requires 1 <= i < |Exec(cfg, steps).history.launches| && Exec(cfg, steps).history.launches[i].cause.Auto?
    ensures var launches := Exec(cfg, steps).history.launches;
      && launches[i].time >= launches[i - 1].time + cfg.userRatelimit
      && (launches[i].cause.flagged || launches[i].refusals > launches[i - 1].refusals ==>
           launches[i].time >= launches[i - 1].time + cfg.runawayRatelimit)
  {
    RespawnReachable(cfg, steps);
    hide Exec;
    var launches := Exec(cfg, steps).history.launches;
    assert Succeeds(cfg, launches[i - 1], launches[i]);
  }
}
