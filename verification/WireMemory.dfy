/** What the static values carry from one flush to the next, in every run of the buddy. */
module WireMemory {
  import opened Wire
  import opened Supervisor
  import Protocol
  import Session

  function WritesOf(net: seq<Exchange>): (writes: seq<Write>)
    ensures |writes| == |net|
  {
    seq(|net|, i requires 0 <= i < |net| => net[i].write)
  }

  /** What this step writes. */
  function Calls(s: State, step: Step): seq<Write> {
    match step
    case Loop(Transmit(net)) => WritesOf(net[..Session.Made(s.trail.ring, Carried(s), net)])
    case _ => []
  }

  /** All calls of write_ctrl in a run, session after session. */
  function Writes(cfg: Config, steps: seq<Step>): seq<Write>
    requires ValidConfig(cfg)
  {
    if steps == [] then [] else
      var before, step := Exec(cfg, steps[..|steps| - 1]), steps[|steps| - 1];
      Writes(cfg, steps[..|steps| - 1]) + if Enabled(cfg, before, step) then Calls(before, step) else []
  }

  /** The last call that did not time out went well. */
  ghost predicate LastWentWell(writes: seq<Write>) {
    exists i :: 0 <= i < |writes| && writes[i].Written? && forall j :: i < j < |writes| ==> writes[j].WriteTimedOut?
  }

  function Remember(wrote: bool, writes: seq<Write>): bool {
    if writes == [] then wrote
    else
      var last := writes[|writes| - 1];
      last.Written? || (last.WriteTimedOut? && Remember(wrote, writes[..|writes| - 1]))
  }

  lemma {:induction false} RememberConcat(wrote: bool, a: seq<Write>, b: seq<Write>)
    ensures Remember(wrote, a + b) == Remember(Remember(wrote, a), b)
  {
    if b == [] {
      assert a + b == a;
    } else {
      assert (a + b)[..|a + b| - 1] == a + b[..|b| - 1];
      RememberConcat(wrote, a, b[..|b| - 1]);
    }
  }

  lemma {:induction false} RememberIsLast(writes: seq<Write>)
    ensures Remember(false, writes) <==> LastWentWell(writes)
  {
    if writes != [] {
      var last := |writes| - 1;
      var earlier := writes[..last];
      RememberIsLast(earlier);
      if writes[last].WriteTimedOut? {
        assert forall i :: 0 <= i < last ==> writes[i] == earlier[i];
        if LastWentWell(earlier) {
          var i :| 0 <= i < |earlier| && earlier[i].Written?
                   && forall j :: i < j < |earlier| ==> earlier[j].WriteTimedOut?;
          assert writes[i].Written?;
        }
        if LastWentWell(writes) {
          var i :| 0 <= i < |writes| && writes[i].Written? && forall j :: i < j < |writes| ==> writes[j].WriteTimedOut?;
          assert earlier[i].Written?;
        }
      }
    }
  }

  /** A session leaves the result of its own last call, or what was carried in. */
  lemma {:induction false} SessionRemembers(queue: seq<Protocol.Info>, st: Statics, net: seq<Exchange>)
    ensures var writes := WritesOf(net[..Session.Made(queue, st, net)]);
      Session.CarriedAfter(queue, st, net).wrote == Remember(st.wrote, writes)
  {
    var made := Session.Made(queue, st, net);
    if queue != [] && net != [] {
      var first := [net[0].write];
      assert made > 0 && first[..0] == [];
      assert Remember(st.wrote, first) == AfterWrite(st, net[0].write).wrote;
      if Believed(st, net[0]) {
        var rest := net[1..];
        SessionRemembers(queue[1..], GOOD, rest);
        assert Session.Made(queue[1..], GOOD, rest) == made - 1;
        RememberConcat(st.wrote, first, WritesOf(rest[..made - 1]));
        assert WritesOf(net[..made]) == first + WritesOf(rest[..made - 1]);
      } else {
        assert made == 1 && WritesOf(net[..1]) == first;
      }
    }
  }

  /** The static count of write_ctrl is positive exactly if the last write that did not time out went well. */
  lemma {:induction false} WroteExactly(cfg: Config, steps: seq<Step>)
    requires ValidConfig(cfg)
    ensures Exec(cfg, steps).wire.wrote == Remember(false, Writes(cfg, steps))
    ensures Exec(cfg, steps).wire.wrote <==> LastWentWell(Writes(cfg, steps))
  {
    RememberIsLast(Writes(cfg, steps));
    if steps != [] {
      var earlier, step := steps[..|steps| - 1], steps[|steps| - 1];
      var before := Exec(cfg, earlier);
      WroteExactly(cfg, earlier);
      WroteStep(cfg, before, step);
      hide Next, Enabled, Calls, Remember;
      if Enabled(cfg, before, step) {
        RememberConcat(false, Writes(cfg, earlier), Calls(before, step));
      } else {
        NextIsControl(cfg, before, step);
        assert Writes(cfg, steps) == Writes(cfg, earlier);
      }
    }
  }

  lemma WroteStep(cfg: Config, s: State, step: Step)
    requires ValidConfig(cfg)
    ensures Enabled(cfg, s, step) ==> Next(cfg, s, step).wire.wrote == Remember(s.wire.wrote, Calls(s, step))
  {
    NextIsControl(cfg, s, step);
    hide Next, Remember, WritesOf;
    assert Remember(s.wire.wrote, []) == s.wire.wrote by {
      RememberNothing(s.wire.wrote);
    }
    if Enabled(cfg, s, step) {
      match step
      case Loop(Transmit(net)) => SessionRemembers(s.trail.ring, Carried(s), net);
      case _ =>
    }
  }

  lemma RememberNothing(wrote: bool)
    ensures Remember(wrote, []) == wrote
  {
  }

  /** A command has been read before it is handled and answered. */
  predicate CommandRead(s: State) {
    Handling(s.pc) || s.pc.Flushing? ==> s.wire.gotten && s.orders.received != []
  }

  lemma CommandReadStep(cfg: Config, s: State, step: Step)
    requires ValidConfig(cfg) && CommandRead(s)
    ensures CommandRead(Next(cfg, s, step))
  {
    NextIsControl(cfg, s, step);
    hide Next;
  }

  lemma {:induction false} CommandReadReachable(cfg: Config, steps: seq<Step>)
    requires ValidConfig(cfg)
    ensures CommandRead(Exec(cfg, steps))
  {
    hide Next;
    if steps != [] {
      CommandReadReachable(cfg, steps[..|steps| - 1]);
      CommandReadStep(cfg, Exec(cfg, steps[..|steps| - 1]), steps[|steps| - 1]);
    }
  }

  /**
   When the first pending record is removed, in every flush of every run: its write has to go well, or to time
   out after the last write that did not time out went well; and an ACK has to be read, or the read to time
   out in a flush that answers an ACK. So no ACK of an earlier session removes anything.
   */
  lemma FirstRemovedExactly(cfg: Config, steps: seq<Step>, net: seq<Exchange>)
    requires ValidConfig(cfg)
    requires Exec(cfg, steps).pc.Flushing? && Exec(cfg, steps).trail.ring != []
    ensures var s, t := Exec(cfg, steps), Exec(cfg, steps + [Loop(Transmit(net))]);
      && s.orders.received != []
      && (|t.trail.ring| < |s.trail.ring| <==>
            && net != []
            && (net[0].write.Written? || (net[0].write.WriteTimedOut? && LastWentWell(Writes(cfg, steps))))
            && (net[0].read.AckRead?
                || (net[0].read.ReadTimedOut? && s.orders.received[|s.orders.received| - 1] == Protocol.Ack)))
      && (|t.trail.ring| == |s.trail.ring| ==> t.trail.ring == s.trail.ring)
  {
    var s := Exec(cfg, steps);
    CommandReadReachable(cfg, steps);
    WroteExactly(cfg, steps);
    TransmitEffect(cfg, steps, net);
    Session.RemovedInWords(s.trail.ring, Carried(s), net, 0);
    Session.RetainedIsSuffix(s.trail.ring, Carried(s), net);
    hide Exec, LastWentWell, Session.Retained, Writes;
  }

  lemma TransmitEffect(cfg: Config, steps: seq<Step>, net: seq<Exchange>)
    requires ValidConfig(cfg) && Exec(cfg, steps).pc.Flushing?
    ensures var s, t := Exec(cfg, steps), Exec(cfg, steps + [Loop(Transmit(net))]);
      t.trail.ring == Session.Retained(s.trail.ring, Carried(s), net)
  {
    var longer := Extend(cfg, steps, Loop(Transmit(net)));
    hide Exec, Session.Retained, Session.Delivered, Session.Lost;
  }
}
