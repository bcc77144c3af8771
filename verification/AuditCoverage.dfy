/** What the audit trail covers: one record for each start and each child reaped, in order and with the truth. */
module AuditCoverage {
  import opened Supervisor
  import ProcessSafety

  predicate Forks(step: Step) {
    match step
    case Loop(ExecAction(outcome)) => outcome.Forked?
    case Starting(Fork(outcome)) => outcome.Forked?
    case _ => false
  }

  predicate Reaps(step: Step) {
    step.Env? && step.env.Reap?
  }

  /** How many of the steps that took effect satisfy the predicate. */
  function Count(cfg: Config, steps: seq<Step>, which: Step -> bool): nat
    requires ValidConfig(cfg)
  {
    if steps == [] then 0 else
      var earlier, step := steps[..|steps| - 1], steps[|steps| - 1];
      Count(cfg, earlier, which) + if which(step) && Enabled(cfg, Exec(cfg, earlier), step) then 1 else 0
  }

  /** Starts executed and recorded; the last one may still be about to be recorded. */
  function Recorded(s: State): int {
    |s.history.launches| - if s.pc.Recording? then 1 else 0
  }

  lemma ChildrenChange(children: map<int, Kind>, pid: int, kind: Kind)
    ensures pid !in children ==> |children[pid := kind]| == |children| + 1
    ensures pid in children ==> |children - {pid}| == |children| - 1
  {
    if pid in children {
      assert (children - {pid})[pid := children[pid]] == children;
      assert (children - {pid}).Keys == children.Keys - {pid};
    } else {
      assert children[pid := kind].Keys == children.Keys + {pid};
    }
  }

  lemma ChildrenStep(cfg: Config, s: State, step: Step)
    requires ValidConfig(cfg) && Enabled(cfg, s, step)
    ensures var before, after := s.process.children, Control(cfg, s, step).process.children;
      |after| == |before| + (if Forks(step) then 1 else 0) - (if Reaps(step) then 1 else 0)
  {
    match step
    case Env(Reap(pid, _, _)) => ChildrenChange(s.process.children, pid, Managed);
    case Loop(ExecAction(Forked(pid))) => ChildrenChange(s.process.children, pid, Action);
    case Starting(Fork(Forked(pid))) => ChildrenChange(s.process.children, pid, Managed);
    case _ =>
  }

  lemma RecordedStep(cfg: Config, s: State, step: Step)
    requires ValidConfig(cfg) && Enabled(cfg, s, step)
    ensures Recorded(Control(cfg, s, step)) - Recorded(s) == if step == Starting(Record) then 1 else 0
  {
  }

  lemma CreatedStep(cfg: Config, s: State, step: Step)
    requires ValidConfig(cfg) && Enabled(cfg, s, step)
    ensures Next(cfg, s, step).trail.created
         == s.trail.created + if Reaps(step) || step == Starting(Record) then 1 else 0
  {
    hide Control, Enabled, Audit.Push;
  }

  /**
   In every run the children not yet reaped are those forked less those reaped, and the records created
   are those of the starts and those of the children reaped: no child is reaped without a record, and
   nothing else is ever recorded.
   */
  lemma {:induction false} EveryChangeRecorded(cfg: Config, steps: seq<Step>)
    requires ValidConfig(cfg)
    ensures var s := Exec(cfg, steps);
      && |s.process.children| == Count(cfg, steps, Forks) - Count(cfg, steps, Reaps)
      && s.trail.created == Recorded(s) + Count(cfg, steps, Reaps)
  {
    if steps != [] {
      var earlier, step := steps[..|steps| - 1], steps[|steps| - 1];
      var before := Exec(cfg, earlier);
      EveryChangeRecorded(cfg, earlier);
      hide Next, Control, Enabled, Recorded;
      NextIsControl(cfg, before, step);
      if Enabled(cfg, before, step) {
        ChildrenStep(cfg, before, step);
        RecordedStep(cfg, before, step);
        CreatedStep(cfg, before, step);
        TrailIsNotRecorded(Control(cfg, before, step), Next(cfg, before, step).trail);
      }
    }
  }

  lemma TrailIsNotRecorded(s: State, trail: Audit.Trail)
    ensures Recorded(s.(trail := trail)) == Recorded(s)
  {
  }

  // ---- record by record ----

  /** Step k of the run took effect, and is one that there is a record of: a child reaped, or a start. */
  predicate Occasion(cfg: Config, steps: seq<Step>, k: nat)
    requires ValidConfig(cfg) && k < |steps|
  {
    Enabled(cfg, Exec(cfg, steps[..k]), steps[k]) && (Reaps(steps[k]) || steps[k] == Starting(Record))
  }

  /** All these steps, in their order. */
  function Occasions(cfg: Config, steps: seq<Step>): (places: seq<nat>)
    requires ValidConfig(cfg)
    ensures forall n :: 0 <= n < |places| ==> places[n] < |steps|
  {
    if steps == [] then [] else
      var last := |steps| - 1;
      Occasions(cfg, steps[..last]) + if Occasion(cfg, steps, last) then [last] else []
  }

  /** They are what the name says. */
  lemma {:induction false} OccasionsExactly(cfg: Config, steps: seq<Step>)
    requires ValidConfig(cfg)
    ensures var places := Occasions(cfg, steps);
      && (forall m, n :: 0 <= m < n < |places| ==> places[m] < places[n])
      && (forall k: nat :: k < |steps| ==> (k in places <==> Occasion(cfg, steps, k)))
  {
    if steps != [] {
      var last := |steps| - 1;
      var earlier := steps[..last];
      OccasionsExactly(cfg, earlier);
      hide Exec, Enabled;
      forall k: nat | k < last
        ensures Occasion(cfg, steps, k) <==> Occasion(cfg, earlier, k)
      {
        assert earlier[..k] == steps[..k] && earlier[k] == steps[k];
      }
    }
  }

  /**
   What the record of a step has to say, in terms of the state that the step leaves behind: proc_pid as the
   handler or the start has set it, the last command and the desired state, the time, and what waitpid has
   reported of a child.
   */
  function Telling(after: State, step: Step, n: nat): Protocol.Info {
    var waited := step.Env? && step.env.Reap?;
    Protocol.Info(
      n, after.process.pid, if waited then step.env.pid else 0, after.orders.last, after.orders.desired,
      if waited then step.env.siginfo else 0, if waited then step.env.status else 0, after.now)
  }

  /** The records that a run has to make. */
  function Tellings(cfg: Config, steps: seq<Step>): (infos: seq<Protocol.Info>)
    requires ValidConfig(cfg)
    ensures |infos| == |Occasions(cfg, steps)|
  {
    var places := Occasions(cfg, steps);
    seq(|places|, n requires 0 <= n < |places| => Telling(Exec(cfg, steps[..places[n] + 1]), steps[places[n]], n))
  }

  lemma EmitsTelling(cfg: Config, s: State, step: Step)
    requires ValidConfig(cfg) && Enabled(cfg, s, step)
    ensures Audit.Infos(Emits(s, step))
         == if Reaps(step) || step == Starting(Record) then [Telling(Next(cfg, s, step), step, s.trail.created)] else []
  {
    NextIsControl(cfg, s, step);
    hide Next;
  }

  lemma InfosAppend(events: seq<Audit.Event>, emitted: seq<Audit.Event>)
    requires |emitted| <= 1
    ensures Audit.Infos(events + emitted) == Audit.Infos(events) + Audit.Infos(emitted)
  {
    if emitted == [] {
      assert events + emitted == events;
    } else {
      assert (events + emitted)[..|events|] == events && emitted[..0] == [];
    }
  }

  lemma TellingAt(cfg: Config, steps: seq<Step>, n: nat)
    requires ValidConfig(cfg) && n < |Occasions(cfg, steps)|
    ensures var k := Occasions(cfg, steps)[n];
      Tellings(cfg, steps)[n] == Telling(Exec(cfg, steps[..k + 1]), steps[k], n)
  {
    hide Exec, Occasions, Telling;
  }

  lemma OccasionsAppend(cfg: Config, steps: seq<Step>)
    requires ValidConfig(cfg) && steps != []
    ensures var last := |steps| - 1;
      Occasions(cfg, steps) == Occasions(cfg, steps[..last]) + if Occasion(cfg, steps, last) then [last] else []
  {
    hide Exec, Occasion;
  }

  lemma TellingsAppend(cfg: Config, steps: seq<Step>)
    requires ValidConfig(cfg) && steps != []
    ensures var last := |steps| - 1;
      var earlier := Tellings(cfg, steps[..last]);
      Tellings(cfg, steps)
      == earlier + if Occasion(cfg, steps, last) then [Telling(Exec(cfg, steps), steps[last], |earlier|)] else []
  {
    hide Exec, Occasion, Occasions, Telling, Tellings;
    var last := |steps| - 1;
    var earlier := steps[..last];
    var told, all, places := Tellings(cfg, earlier), Tellings(cfg, steps), Occasions(cfg, earlier);
    OccasionsAppend(cfg, steps);
    forall n | 0 <= n < |told|
      ensures all[n] == told[n]
    {
      TellingAt(cfg, earlier, n);
      TellingAt(cfg, steps, n);
      assert earlier[..places[n] + 1] == steps[..places[n] + 1] && earlier[places[n]] == steps[places[n]];
    }
    if Occasion(cfg, steps, last) {
      TellingAt(cfg, steps, |told|);
      assert steps[..last + 1] == steps;
    }
  }

  /** In every run the records made are, in order and in every field, what there is to tell. */
  lemma {:induction false} RecordsTell(cfg: Config, steps: seq<Step>)
    requires ValidConfig(cfg)
    ensures Audit.Infos(Events(cfg, steps)) == Tellings(cfg, steps)
    ensures Exec(cfg, steps).trail.created == |Occasions(cfg, steps)|
  {
    if steps != [] {
      var earlier, step := steps[..|steps| - 1], steps[|steps| - 1];
      var before := Exec(cfg, earlier);
      RecordsTell(cfg, earlier);
      TellingsAppend(cfg, steps);
      hide Emits, Audit.Infos, Telling, Tellings, Enabled, Next;
      if Enabled(cfg, before, step) {
        EmitsTelling(cfg, before, step);
        CreatedStep(cfg, before, step);
        OneEvent(before, step);
        InfosAppend(Events(cfg, earlier), Emits(before, step));
      } else {
        NextIsControl(cfg, before, step);
        assert Events(cfg, steps) == Events(cfg, earlier);
      }
    }
  }

  /**
   What the controller reads is what happened: the record that it receives under serial number n tells, in
   every field, of the n-th start or reaped child of the run, as things stood right after that step.
   */
  lemma ReceivedIsTrue(cfg: Config, steps: seq<Step>, s: nat, i: nat)
    requires ValidConfig(cfg)
    requires s < |Exec(cfg, steps).trail.sessions| && i < |Exec(cfg, steps).trail.sessions[s]|
    ensures var info, places := Exec(cfg, steps).trail.sessions[s][i].info, Occasions(cfg, steps);
      && info.serial < |places|
      && var k := places[info.serial];
         info == Telling(Exec(cfg, steps[..k + 1]), steps[k], info.serial)
  {
    hide Exec, Telling;
    TrailIsRun(cfg, steps);
    RecordsTell(cfg, steps);
    TellingsNumbered(cfg, steps);
    Audit.RunUngarbled(cfg.ringSize, Events(cfg, steps));
    assert Audit.Original(Exec(cfg, steps).trail.sessions[s][i].info, Audit.Infos(Events(cfg, steps)));
  }

  /** So does every record still pending. */
  lemma PendingIsTrue(cfg: Config, steps: seq<Step>, i: nat)
    requires ValidConfig(cfg) && i < |Exec(cfg, steps).trail.ring|
    ensures var info, places := Exec(cfg, steps).trail.ring[i], Occasions(cfg, steps);
      && info.serial < |places|
      && var k := places[info.serial];
         info == Telling(Exec(cfg, steps[..k + 1]), steps[k], info.serial)
  {
    hide Exec, Telling;
    TrailIsRun(cfg, steps);
    RecordsTell(cfg, steps);
    TellingsNumbered(cfg, steps);
    Audit.RunUngarbled(cfg.ringSize, Events(cfg, steps));
    assert Audit.Original(Exec(cfg, steps).trail.ring[i], Audit.Infos(Events(cfg, steps)));
  }

  lemma TellingsNumbered(cfg: Config, steps: seq<Step>)
    requires ValidConfig(cfg)
    ensures forall n :: 0 <= n < |Tellings(cfg, steps)| ==> Tellings(cfg, steps)[n].serial == n
  {
    hide Exec, Occasions;
  }

  /** The record of the reaped managed process says that there is no process any more, whatever came before. */
  lemma DeadProcessRecord(cfg: Config, steps: seq<Step>, k: nat, n: nat)
    requires ValidConfig(cfg) && k < |steps| && Reaps(steps[k]) && Enabled(cfg, Exec(cfg, steps[..k]), steps[k])
    requires ProcessSafety.IsManaged(Exec(cfg, steps[..k]), steps[k].env.pid)
    ensures var info := Telling(Exec(cfg, steps[..k + 1]), steps[k], n);
      info.servicePid == 0 && info.waitPid == steps[k].env.pid && info.waitStatus == steps[k].env.status
  {
    hide Exec;
    var before, env := steps[..k], steps[k].env;
    assert steps[..k + 1] == before + [Env(Reap(env.pid, env.status, env.siginfo))];
    ProcessSafety.ReapIsNoticed(cfg, before, env.pid, env.status, env.siginfo);
  }

  /** The record of a start has the pid of the process started, or what a failed start has left. */
  lemma StartRecord(cfg: Config, steps: seq<Step>, outcome: ForkOutcome, n: nat)
    requires ValidConfig(cfg) && Exec(cfg, steps).pc.Forking? && Possible(Exec(cfg, steps), outcome)
    ensures var all := steps + [Starting(Fork(outcome)), Starting(AssignPid), Starting(Stamp), Starting(Record)];
      var info := Telling(Exec(cfg, all), Starting(Record), n);
      && all[..|all| - 1] == steps + [Starting(Fork(outcome)), Starting(AssignPid), Starting(Stamp)]
      && Enabled(cfg, Exec(cfg, all[..|all| - 1]), Starting(Record))
      && info.waitPid == 0
      && info.servicePid == match outcome case NotExecutable => 0 case ForkFailed => -1 case Forked(pid) => pid
  {
    hide Exec;
    var a := Extend(cfg, steps, Starting(Fork(outcome)));
    var b := Extend(cfg, a, Starting(AssignPid));
    var c := Extend(cfg, b, Starting(Stamp));
    var d := Extend(cfg, c, Starting(Record));
    var all := steps + [Starting(Fork(outcome)), Starting(AssignPid), Starting(Stamp), Starting(Record)];
    assert all == d && all[..|all| - 1] == c;
    assert c == steps + [Starting(Fork(outcome)), Starting(AssignPid), Starting(Stamp)];
  }
}
