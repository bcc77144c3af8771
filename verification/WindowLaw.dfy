/**
 Exactly when the restart window is kept: as long as fewer starts are refused than it takes the 32-bit
 counter to wrap round.
 */
module WindowLaw {
  import opened Protocol
  import opened Supervisor
  import opened RespawnControl

  /** Any max + 2 consecutive launches contain two neighbours a restart window apart. */
  ghost predicate Gapped(cfg: Config, launches: seq<Launch>) {
    forall i: nat | i + cfg.maxRestarts + 1 < |launches| :: GapAfter(cfg, launches, i)
  }

  ghost predicate GapAfter(cfg: Config, launches: seq<Launch>, i: nat)
    requires i + cfg.maxRestarts + 1 < |launches|
  {
    exists j: nat :: i < j <= i + cfg.maxRestarts + 1 && GapBefore(cfg, launches, j)
  }

  /** No interval of any length sees more launches than its share of restart windows allows. */
  ghost predicate Rationed(cfg: Config, launches: seq<Launch>)
    requires 1 <= cfg.restartWindow
  {
    forall a: nat, b: nat, length: nat | a <= b < |launches| :: InShare(cfg, launches, a, b, length)
  }

  predicate InShare(cfg: Config, launches: seq<Launch>, a: nat, b: nat, length: nat)
    requires 1 <= cfg.restartWindow && a <= b < |launches|
  {
    launches[b].time <= launches[a].time + length ==> b - a + 1 <= Most(length, cfg.restartWindow, cfg.maxRestarts + 1)
  }

  /** The window is kept in every run with so many refused starts at the most. */
  ghost predicate Law(cfg: Config, budget: nat)
    requires ValidConfig(cfg)
  {
    forall steps | Exec(cfg, steps).history.refusals <= budget :: Gapped(cfg, Exec(cfg, steps).history.launches)
  }

  ghost predicate IntervalLaw(cfg: Config, budget: nat)
    requires ValidConfig(cfg) && 1 <= cfg.restartWindow
  {
    forall steps | Exec(cfg, steps).history.refusals <= budget :: Rationed(cfg, Exec(cfg, steps).history.launches)
  }

  // ---- within the budget ----

  lemma KeptWithin(cfg: Config, steps: seq<Step>)
    requires ValidConfig(cfg) && (cfg.restartWindow == 0 || Exec(cfg, steps).history.refusals < WrapCount(cfg))
    ensures Gapped(cfg, Exec(cfg, steps).history.launches)
  {
    var launches := Exec(cfg, steps).history.launches;
    forall i: nat | i + cfg.maxRestarts + 1 < |launches|
      ensures GapAfter(cfg, launches, i)
    {
      if cfg.restartWindow == 0 {
        RespawnReachable(cfg, steps);
        Refusals(cfg, launches, i, i + 1);
        assert GapBefore(cfg, launches, i + 1);
      } else {
        RefusalsSoFar(cfg, steps, i + cfg.maxRestarts + 1);
        GapAmongStarts(cfg, steps, i);
      }
    }
  }

  lemma RationedWithin(cfg: Config, steps: seq<Step>)
    requires ValidConfig(cfg) && 1 <= cfg.restartWindow && Exec(cfg, steps).history.refusals < WrapCount(cfg)
    ensures Rationed(cfg, Exec(cfg, steps).history.launches)
  {
    hide Exec;
    var launches := Exec(cfg, steps).history.launches;
    forall a: nat, b: nat, length: nat | a <= b < |launches|
      ensures InShare(cfg, launches, a, b, length)
    {
      RefusalsSoFar(cfg, steps, b);
      if launches[b].time <= launches[a].time + length {
        StartsInInterval(cfg, steps, a, b, length);
      }
    }
  }

  // ---- beyond the budget: a run in which the counter wraps ----

  /** So many launches, all at this very time, and k refusals since. */
  predicate Stuck(cfg: Config, s: State, pc: PC, launched: nat, k: nat) {
    && s.pc == pc
    && s.process.pid == 0 && !s.process.terminated && !s.orders.shutdown
    && |s.history.launches| == launched && s.history.refusals == k
    && (launched == 0 ==> s.respawn.timestamp == 0 && s.now >= cfg.restartWindow)
    && (launched > 0 ==> s.respawn.timestamp == s.now)
    && (forall i :: 0 <= i < launched ==> s.history.launches[i].time == s.now)
  }

  /** The counter after so many launches and refusals, as far as it has not wrapped. */
  predicate Counts(s: State, launched: nat, k: nat) {
    launched > 0 ==> s.respawn.count == launched - 1 + k
  }

  /** A START command, up to the test of the counter. */
  lemma Order(cfg: Config, steps: seq<Step>, launched: nat, k: nat) returns (longer: seq<Step>)
    requires ValidConfig(cfg) && Stuck(cfg, Exec(cfg, steps), Selecting, launched, k)
    ensures Stuck(cfg, Exec(cfg, longer), Counting(ByStart), launched, k)
    ensures Exec(cfg, longer).respawn == Exec(cfg, steps).respawn
  {
    hide Exec;
    longer := Extend(cfg, steps, Loop(Receive(Start)));
    longer := Extend(cfg, longer, Loop(SetDesired));
    longer := Extend(cfg, longer, Loop(SetLast));
    longer := Extend(cfg, longer, Loop(Act));
    longer := Extend(cfg, longer, Starting(TestPid));
    longer := Extend(cfg, longer, Starting(BlockMask));
  }

  /** The end of the command, with an empty flush. */
  lemma Finish(cfg: Config, steps: seq<Step>, ok: bool, launched: nat, k: nat) returns (longer: seq<Step>)
    requires ValidConfig(cfg) && Stuck(cfg, Exec(cfg, steps), Returning(ByStart, ok), launched, k)
    ensures Stuck(cfg, Exec(cfg, longer), Selecting, launched, k)
    ensures Exec(cfg, longer).respawn == Exec(cfg, steps).respawn
  {
    hide Exec;
    longer := Extend(cfg, steps, Loop(Return));
    longer := Extend(cfg, longer, Loop(Transmit([])));
    longer := Extend(cfg, longer, Loop(CheckFlags));
  }

  /** A start that has been let through; its script cannot be executed, so that there is nothing to wait for. */
  lemma Launched(cfg: Config, steps: seq<Step>, launched: nat, k: nat) returns (longer: seq<Step>)
    requires ValidConfig(cfg) && Stuck(cfg, Exec(cfg, steps), Forking(ByStart), launched, k)
    ensures Stuck(cfg, Exec(cfg, longer), Recording(ByStart), launched + 1, k)
    ensures Exec(cfg, longer).respawn.count == Exec(cfg, steps).respawn.count
  {
    hide Exec;
    longer := Extend(cfg, steps, Starting(Fork(NotExecutable)));
    longer := Extend(cfg, longer, Starting(AssignPid));
    longer := Extend(cfg, longer, Starting(Stamp));
  }

  lemma Released(cfg: Config, steps: seq<Step>, launched: nat, k: nat) returns (longer: seq<Step>)
    requires ValidConfig(cfg) && Stuck(cfg, Exec(cfg, steps), Recording(ByStart), launched, k)
    ensures Stuck(cfg, Exec(cfg, longer), Returning(ByStart, true), launched, k)
    ensures Exec(cfg, longer).respawn == Exec(cfg, steps).respawn
  {
    hide Exec;
    longer := Extend(cfg, steps, Starting(Record));
    longer := Extend(cfg, longer, Starting(RestoreMask));
  }

  /** The test of the counter: let through, refused, or let through because it has wrapped. */
  lemma Tested(cfg: Config, steps: seq<Step>, launched: nat, k: nat) returns (longer: seq<Step>)
    requires ValidConfig(cfg) && 1 <= cfg.restartWindow && launched <= cfg.maxRestarts + 1 && k <= WrapCount(cfg)
    requires launched <= cfg.maxRestarts ==> k == 0
    requires Stuck(cfg, Exec(cfg, steps), Counting(ByStart), launched, k) && Counts(Exec(cfg, steps), launched, k)
    ensures var s, refused := Exec(cfg, longer), launched == cfg.maxRestarts + 1 && k < WrapCount(cfg);
      && (refused ==> Stuck(cfg, s, Returning(ByStart, false), launched, k + 1) && Counts(s, launched, k + 1))
      && (!refused ==> Stuck(cfg, s, Forking(ByStart), launched, k))
      && (launched <= cfg.maxRestarts ==> s.respawn.count == launched)
  {
    hide Exec;
    longer := Extend(cfg, steps, Starting(CountRespawn));
  }

  /** One launch after the other, until the counter stands at its limit. */
  lemma {:induction false} Fill(cfg: Config, launched: nat) returns (steps: seq<Step>)
    requires ValidConfig(cfg) && 1 <= cfg.restartWindow && launched <= cfg.maxRestarts + 1
    ensures Stuck(cfg, Exec(cfg, steps), Selecting, launched, 0) && Counts(Exec(cfg, steps), launched, 0)
  {
    if launched == 0 {
      assert Exec(cfg, []) == Init(cfg);
      hide Exec;
      steps := Extend(cfg, [], Env(Tick(cfg.restartWindow)));
    } else {
      hide Exec, Stuck;
      steps := Fill(cfg, launched - 1);
      steps := Order(cfg, steps, launched - 1, 0);
      steps := Tested(cfg, steps, launched - 1, 0);
      steps := Launched(cfg, steps, launched - 1, 0);
      steps := Released(cfg, steps, launched, 0);
      steps := Finish(cfg, steps, true, launched, 0);
    }
  }

  lemma {:induction false} Refuse(cfg: Config, k: nat) returns (steps: seq<Step>)
    requires ValidConfig(cfg) && 1 <= cfg.restartWindow && k <= WrapCount(cfg)
    ensures Stuck(cfg, Exec(cfg, steps), Selecting, cfg.maxRestarts + 1, k)
    ensures Counts(Exec(cfg, steps), cfg.maxRestarts + 1, k)
  {
    hide Exec, Stuck;
    if k == 0 {
      steps := Fill(cfg, cfg.maxRestarts + 1);
    } else {
      steps := Refuse(cfg, k - 1);
      steps := Order(cfg, steps, cfg.maxRestarts + 1, k - 1);
      steps := Tested(cfg, steps, cfg.maxRestarts + 1, k - 1);
      steps := Finish(cfg, steps, false, cfg.maxRestarts + 1, k);
    }
  }

  /**
   For every configuration with a restart window there is a run with max + 2 launches at the same time, the
   last of them after exactly as many refusals as it takes the counter to wrap.
   */
  lemma CounterWraps(cfg: Config) returns (steps: seq<Step>)
    requires ValidConfig(cfg) && 1 <= cfg.restartWindow
    ensures var s := Exec(cfg, steps);
      && |s.history.launches| == cfg.maxRestarts + 2
      && s.history.refusals == WrapCount(cfg)
      && forall i, j :: 0 <= i < j < |s.history.launches| ==> s.history.launches[i].time == s.history.launches[j].time
  {
    hide Exec;
    var launched, k := cfg.maxRestarts + 1, WrapCount(cfg);
    steps := Refuse(cfg, k);
    steps := Order(cfg, steps, launched, k);
    steps := Tested(cfg, steps, launched, k);
    steps := Launched(cfg, steps, launched, k);
  }

  /** The smallest case: two starts at the same second, although none may follow another within one. */
  lemma SmallestCase() returns (steps: seq<Step>)
    ensures var launches := Exec(Config(1, 0, false, 0, 0, 1, 1), steps).history.launches;
      |launches| == 2 && launches[0].time == launches[1].time
  {
    steps := CounterWraps(Config(1, 0, false, 0, 0, 1, 1));
  }

  // ---- the laws ----

  /**
   The law of the restart window. Any max + 2 consecutive starts, whether by command or automatic, contain
   an adjacent gap of at least the window, in every run with at most so many refused starts, if and only if
   the counter cannot wrap on that budget (or the window is empty).
   */
  lemma WindowLawHolds(cfg: Config, budget: nat)
    requires ValidConfig(cfg)
    ensures Law(cfg, budget) <==> cfg.restartWindow == 0 || budget < 0xFFFF_FFFF - cfg.maxRestarts
  {
    if cfg.restartWindow == 0 || budget < WrapCount(cfg) {
      forall steps | Exec(cfg, steps).history.refusals <= budget
        ensures Gapped(cfg, Exec(cfg, steps).history.launches)
      {
        KeptWithin(cfg, steps);
      }
    } else {
      var steps := CounterWraps(cfg);
      hide Exec;
      var launches := Exec(cfg, steps).history.launches;
      assert Gapped(cfg, launches) ==> GapAfter(cfg, launches, 0);
      assert !Gapped(cfg, launches);
    }
  }

  /** The same for the number of starts that an interval can see. */
  lemma IntervalLawHolds(cfg: Config, budget: nat)
    requires ValidConfig(cfg) && 1 <= cfg.restartWindow
    ensures IntervalLaw(cfg, budget) <==> budget < 0xFFFF_FFFF - cfg.maxRestarts
  {
    if budget < WrapCount(cfg) {
      hide Exec, Rationed;
      forall steps | Exec(cfg, steps).history.refusals <= budget
        ensures Rationed(cfg, Exec(cfg, steps).history.launches)
      {
        RationedWithin(cfg, steps);
      }
    } else {
      var steps := CounterWraps(cfg);
      hide Exec;
      var launches := Exec(cfg, steps).history.launches;
      assert Most(0, cfg.restartWindow, cfg.maxRestarts + 1) == cfg.maxRestarts + 1;
      assert launches[0].time == launches[|launches| - 1].time;
      assert !InShare(cfg, launches, 0, |launches| - 1, 0);
      assert !Rationed(cfg, launches);
    }
  }
}
