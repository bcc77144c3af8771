/**
 The audit trail as a whole: a bounded queue that drops its oldest record, drained in sessions each of
 which may break, or be taken for better than it is, at any write or ACK.
 */
module AuditLog {
  import opened Protocol
  import opened Wire
  import opened Session

  /** Append to a queue of bounded capacity, dropping the oldest element when it is full. */
  function Push(queue: seq<Info>, capacity: nat, info: Info): (q: seq<Info>)
    requires 1 <= capacity
    ensures |queue| <= capacity ==> |q| <= capacity
  {
    (if |queue| >= capacity then queue[1..] else queue) + [info]
  }

  // ---- runs ----

  /**
   The trail and its history: how many records were created, overwritten, removed by a flush that wrote
   them, and lost by one that did not; the records still pending; and the packets received by the
   controller, session by session.
   */
  datatype Trail = Trail(
    created: nat,
    overwritten: nat,
    settled: nat,
    lost: nat,
    ring: seq<Info>,
    sessions: seq<seq<Packet>>)

  /** A flush begins with some static values carried in. */
  datatype Event = Recorded(info: Info) | Flushed(st: Statics, net: seq<Exchange>)

  const EMPTY := Trail(0, 0, 0, 0, [], [])

  function Record(trail: Trail, capacity: nat, info: Info): Trail
    requires 1 <= capacity
  {
    trail.(created := trail.created + 1,
           overwritten := trail.overwritten + if |trail.ring| >= capacity then 1 else 0,
           ring := Push(trail.ring, capacity, info.(serial := trail.created)))
  }

  function Flush(trail: Trail, st: Statics, net: seq<Exchange>): Trail
  {
    RetainedIsSuffix(trail.ring, st, net);
    var kept, lost := Retained(trail.ring, st, net), Lost(trail.ring, st, net);
    trail.(settled := trail.settled + (|trail.ring| - |kept| - lost),
           lost := trail.lost + lost,
           ring := kept,
           sessions := trail.sessions + [Delivered(trail.ring, st, net)])
  }

  function Apply(trail: Trail, capacity: nat, event: Event): Trail
    requires 1 <= capacity
  {
    match event
    case Recorded(info) => Record(trail, capacity, info)
    case Flushed(st, net) => Flush(trail, st, net)
  }

  function Run(capacity: nat, events: seq<Event>): Trail
    requires 1 <= capacity
  {
    if events == [] then EMPTY
    else Apply(Run(capacity, events[..|events| - 1]), capacity, events[|events| - 1])
  }

  // ---- what every run keeps ----

  /** The serial number of the oldest pending record, or of the next one. */
  function Base(trail: Trail): int {
    trail.created - |trail.ring|
  }

  /** The pending records are the most recently created ones, in the order of their creation. */
  ghost predicate Recent(trail: Trail, capacity: nat) {
    |trail.ring| <= capacity && Base(trail) >= 0 && Numbered(trail.ring, Base(trail))
  }

  /** Within a session the serial numbers rise, and none lies beyond the oldest pending record. */
  ghost predicate Past(session: seq<Packet>, trail: Trail) {
    && Rising(session)
    && forall i :: 0 <= i < |session| ==>
         session[i].info.serial <= Base(trail) && session[i].info.serial < trail.created
  }

  ghost predicate Ordered(sessions: seq<seq<Packet>>) {
    forall s, t :: 0 <= s < t < |sessions| && sessions[s] != [] && sessions[t] != [] ==>
      sessions[s][|sessions[s]| - 1].info.serial <= sessions[t][0].info.serial
  }

  ghost predicate Consistent(trail: Trail, capacity: nat) {
    && Recent(trail, capacity)
    && trail.created == trail.settled + trail.lost + trail.overwritten + |trail.ring|
    && (forall s :: 0 <= s < |trail.sessions| ==> Past(trail.sessions[s], trail))
    && Ordered(trail.sessions)
  }

  lemma RecordConsistent(trail: Trail, capacity: nat, info: Info)
    requires 1 <= capacity && Consistent(trail, capacity)
    ensures Consistent(Record(trail, capacity, info), capacity)
  {
    var after := Record(trail, capacity, info);
    forall s | 0 <= s < |after.sessions|
      ensures Past(after.sessions[s], after)
    {
      assert Past(trail.sessions[s], trail);
    }
  }

  /** A flush only adds a session and shortens the ring. */
  lemma StillPast(trail: Trail, st: Statics, net: seq<Exchange>, session: seq<Packet>)
    requires Past(session, trail)
    ensures Past(session, Flush(trail, st, net))
  {
    RetainedIsSuffix(trail.ring, st, net);
    hide Retained, Delivered, Lost;
  }

  lemma NewPast(trail: Trail, capacity: nat, st: Statics, net: seq<Exchange>)
    requires Recent(trail, capacity)
    ensures Past(Delivered(trail.ring, st, net), Flush(trail, st, net)) && Recent(Flush(trail, st, net), capacity)
  {
    RetainedIsSuffix(trail.ring, st, net);
    InOrder(trail.ring, st, net, Base(trail));
    hide Retained, Delivered, Lost;
    var sent := Delivered(trail.ring, st, net);
    forall i | 0 <= i < |sent|
      ensures sent[i].info.serial < trail.created
    {
      assert FromQueue(sent[i], trail.ring, Base(trail));
    }
  }

  /** The new session begins in the ring, and that is not before the end of any earlier one. */
  lemma StillOrdered(trail: Trail, capacity: nat, st: Statics, net: seq<Exchange>)
    requires Consistent(trail, capacity)
    ensures Ordered(Flush(trail, st, net).sessions)
  {
    InOrder(trail.ring, st, net, Base(trail));
    hide Retained, Delivered, Lost;
    var session := Delivered(trail.ring, st, net);
    var sessions: seq<seq<Packet>> := Flush(trail, st, net).sessions;
    forall s, t | 0 <= s < t < |sessions| && sessions[s] != [] && sessions[t] != []
      ensures sessions[s][|sessions[s]| - 1].info.serial <= sessions[t][0].info.serial
    {
      assert sessions[s] == trail.sessions[s] && Past(trail.sessions[s], trail);
      if t == |trail.sessions| {
        assert FromQueue(session[0], trail.ring, Base(trail));
      }
    }
  }

  lemma FlushConsistent(trail: Trail, capacity: nat, st: Statics, net: seq<Exchange>)
    requires Consistent(trail, capacity)
    ensures Consistent(Flush(trail, st, net), capacity)
  {
    var after := Flush(trail, st, net);
    RetainedIsSuffix(trail.ring, st, net);
    NewPast(trail, capacity, st, net);
    StillOrdered(trail, capacity, st, net);
    hide Retained, Delivered, Lost, Past, Ordered, Recent;
    forall s | 0 <= s < |after.sessions|
      ensures Past(after.sessions[s], after)
    {
      if s < |trail.sessions| {
        StillPast(trail, st, net, trail.sessions[s]);
      }
    }
  }

  lemma {:induction false} RunConsistent(capacity: nat, events: seq<Event>)
    requires 1 <= capacity
    ensures Consistent(Run(capacity, events), capacity)
  {
    if events != [] {
      var before := Run(capacity, events[..|events| - 1]);
      RunConsistent(capacity, events[..|events| - 1]);
      match events[|events| - 1]
      case Recorded(info) => RecordConsistent(before, capacity, info);
      case Flushed(st, net) => FlushConsistent(before, capacity, st, net);
    }
  }

  // ---- nothing is garbled on the way ----

  /** The records made in a run, in the order of their making. */
  function Infos(events: seq<Event>): seq<Info> {
    if events == [] then []
    else
      var last := events[|events| - 1];
      Infos(events[..|events| - 1]) + if last.Recorded? then [last.info] else []
  }

  /** This is the record that was made under its serial number. */
  predicate Original(info: Info, infos: seq<Info>) {
    info.serial < |infos| && info == infos[info.serial].(serial := info.serial)
  }

  ghost predicate Ungarbled(trail: Trail, infos: seq<Info>) {
    && trail.created == |infos|
    && (forall i :: 0 <= i < |trail.ring| ==> Original(trail.ring[i], infos))
    && (forall s, i :: 0 <= s < |trail.sessions| && 0 <= i < |trail.sessions[s]| ==>
          Original(trail.sessions[s][i].info, infos))
  }

  lemma RecordUngarbled(trail: Trail, capacity: nat, infos: seq<Info>, info: Info)
    requires 1 <= capacity && Ungarbled(trail, infos)
    ensures Ungarbled(Record(trail, capacity, info), infos + [info])
  {
    var after := Record(trail, capacity, info);
    forall i | 0 <= i < |after.ring|
      ensures Original(after.ring[i], infos + [info])
    {
      if i < |after.ring| - 1 {
        assert Original(trail.ring[if |trail.ring| < capacity then i else i + 1], infos);
      }
    }
    forall s, i | 0 <= s < |after.sessions| && 0 <= i < |after.sessions[s]|
      ensures Original(after.sessions[s][i].info, infos + [info])
    {
      assert Original(trail.sessions[s][i].info, infos);
    }
  }

  lemma FlushUngarbled(trail: Trail, capacity: nat, infos: seq<Info>, st: Statics, net: seq<Exchange>)
    requires Ungarbled(trail, infos) && Recent(trail, capacity)
    ensures Ungarbled(Flush(trail, st, net), infos)
  {
    var after := Flush(trail, st, net);
    RetainedIsSuffix(trail.ring, st, net);
    InOrder(trail.ring, st, net, Base(trail));
    var gone := |trail.ring| - |after.ring|;
    forall i | 0 <= i < |after.ring|
      ensures Original(after.ring[i], infos)
    {
      assert after.ring[i] == trail.ring[gone + i];
    }
    forall s, i | 0 <= s < |after.sessions| && 0 <= i < |after.sessions[s]|
      ensures Original(after.sessions[s][i].info, infos)
    {
      if s < |trail.sessions| {
        assert Original(trail.sessions[s][i].info, infos);
      } else {
        var packet := after.sessions[s][i];
        assert FromQueue(packet, trail.ring, Base(trail));
        assert Original(trail.ring[packet.info.serial - Base(trail)], infos);
      }
    }
  }

  /** Every record pending or received is, field by field, the one made under its serial number. */
  lemma {:induction false} RunUngarbled(capacity: nat, events: seq<Event>)
    requires 1 <= capacity
    ensures Ungarbled(Run(capacity, events), Infos(events))
  {
    if events != [] {
      var earlier := events[..|events| - 1];
      RunUngarbled(capacity, earlier);
      RunConsistent(capacity, earlier);
      hide Ungarbled;
      match events[|events| - 1]
      case Recorded(info) => RecordUngarbled(Run(capacity, earlier), capacity, Infos(earlier), info);
      case Flushed(st, net) =>
        FlushUngarbled(Run(capacity, earlier), capacity, Infos(earlier), st, net);
        assert Infos(events) == Infos(earlier);
    }
  }

  // ---- the theorems about runs ----

  /** The records created are those that flushes have written and removed, lost, overwritten, and pending. */
  lemma Conservation(capacity: nat, events: seq<Event>)
    requires 1 <= capacity
    ensures var trail := Run(capacity, events);
      && trail.created == trail.settled + trail.lost + trail.overwritten + |trail.ring|
      && |trail.ring| <= capacity
  {
    RunConsistent(capacity, events);
  }

  /** Position (s, i) of the controller's log comes before position (t, j). */
  predicate Before(s: nat, i: nat, t: nat, j: nat) {
    s < t || (s == t && i < j)
  }

  /** The serial numbers that the controller receives never decrease, over any number of sessions. */
  lemma NeverDecreases(capacity: nat, events: seq<Event>, s: nat, i: nat, t: nat, j: nat)
    requires 1 <= capacity
    requires var log := Run(capacity, events).sessions;
      s < |log| && i < |log[s]| && t < |log| && j < |log[t]| && Before(s, i, t, j)
    ensures var log := Run(capacity, events).sessions;
      log[s][i].info.serial <= log[t][j].info.serial
  {
    RunConsistent(capacity, events);
    var trail := Run(capacity, events);
    assert Past(trail.sessions[s], trail) && Past(trail.sessions[t], trail);
  }

  /** A record received again was the last of its session and is the first of the later one. */
  lemma RepeatedAtBoundary(capacity: nat, events: seq<Event>, s: nat, i: nat, t: nat, j: nat)
    requires 1 <= capacity
    requires var log := Run(capacity, events).sessions;
      s < |log| && i < |log[s]| && t < |log| && j < |log[t]| && Before(s, i, t, j)
      && log[s][i].info.serial == log[t][j].info.serial
    ensures var log := Run(capacity, events).sessions;
      s < t && i == |log[s]| - 1 && j == 0
      && forall u :: s < u < t && log[u] != [] ==> |log[u]| == 1 && log[u][0].info.serial == log[s][i].info.serial
  {
    RunConsistent(capacity, events);
    var trail := Run(capacity, events);
    var log := trail.sessions;
    assert Past(log[s], trail) && Past(log[t], trail);
    forall u | s < u < t && log[u] != []
      ensures |log[u]| == 1 && log[u][0].info.serial == log[s][i].info.serial
    {
      assert Past(log[u], trail);
    }
  }

  ghost predicate Received(trail: Trail, n: nat) {
    exists s, i :: 0 <= s < |trail.sessions| && 0 <= i < |trail.sessions[s]| && trail.sessions[s][i].info.serial == n
  }

  ghost predicate Pending(trail: Trail, n: nat) {
    exists i :: 0 <= i < |trail.ring| && trail.ring[i].serial == n
  }

  /** Event k of the run recorded something while the ring was full, with record n as its oldest. */
  ghost predicate OverwrittenAt(capacity: nat, events: seq<Event>, k: nat, n: nat)
    requires 1 <= capacity && k < |events|
  {
    var trail := Run(capacity, events[..k]);
    events[k].Recorded? && |trail.ring| == capacity && trail.ring[0].serial == n
  }

  lemma StillReceived(before: Trail, after: Trail, n: nat)
    requires before.sessions <= after.sessions
    ensures Received(before, n) ==> Received(after, n)
  {
    if Received(before, n) {
      var s, i :| 0 <= s < |before.sessions| && 0 <= i < |before.sessions[s]| && before.sessions[s][i].info.serial == n;
      assert after.sessions[s] == before.sessions[s];
    }
  }

  /** Recording loses a pending record only if the ring is full and the record is its oldest. */
  lemma KeptByRecording(trail: Trail, capacity: nat, info: Info, n: nat)
    requires 1 <= capacity && |trail.ring| <= capacity
    requires n == trail.created || (Pending(trail, n) && (|trail.ring| < capacity || trail.ring[0].serial != n))
    ensures Pending(Record(trail, capacity, info), n)
  {
    var after := Record(trail, capacity, info);
    if n == trail.created {
      assert after.ring[|after.ring| - 1].serial == n;
    } else {
      var i :| 0 <= i < |trail.ring| && trail.ring[i].serial == n;
      assert after.ring[if |trail.ring| < capacity then i else i - 1].serial == n;
    }
  }

  /** This flush removes record n although its write has timed out, in an exchange taken for a good one. */
  ghost predicate LostIn(queue: seq<Info>, st: Statics, net: seq<Exchange>, n: nat) {
    exists i :: 0 <= i < |queue| && queue[i].serial == n && i < |net|
             && net[i].write.WriteTimedOut? && BelievedUpTo(st, net, i)
  }

  /** Event k of the run is such a flush. */
  ghost predicate LostAt(capacity: nat, events: seq<Event>, k: nat, n: nat)
    requires 1 <= capacity && k < |events|
  {
    events[k].Flushed? && LostIn(Run(capacity, events[..k]).ring, events[k].st, events[k].net, n)
  }

  /** What a flush removes the controller has received, or it is lost in that way. */
  lemma RemovedByFlush(trail: Trail, st: Statics, net: seq<Exchange>, n: nat)
    requires Pending(trail, n)
    ensures var after := Flush(trail, st, net);
      Received(after, n) || Pending(after, n) || LostIn(trail.ring, st, net, n)
  {
    var after := Flush(trail, st, net);
    RetainedIsSuffix(trail.ring, st, net);
    var i :| 0 <= i < |trail.ring| && trail.ring[i].serial == n;
    RemovedExactly(trail.ring, st, net, i);
    var gone := |trail.ring| - |after.ring|;
    if i >= gone {
      assert after.ring[i - gone].serial == n;
    } else if net[i].write.Written? {
      WrittenIsDelivered(trail.ring, st, net, i);
      var sent := Delivered(trail.ring, st, net);
      var k :| 0 <= k < |sent| && sent[k] == Packet(trail.ring[i], |trail.ring| - 1 - i);
      assert after.sessions[|trail.sessions|][k].info.serial == n;
    }
  }

  /**
   A record that is neither received nor pending was overwritten while the ring was full, or lost by a write
   that timed out in an exchange taken for a good one.
   */
  lemma {:induction false} SkippedWasDropped(capacity: nat, events: seq<Event>, n: nat)
    requires 1 <= capacity
    requires n < Run(capacity, events).created
    requires !Received(Run(capacity, events), n) && !Pending(Run(capacity, events), n)
    ensures exists k: nat :: k < |events| && (OverwrittenAt(capacity, events, k, n) || LostAt(capacity, events, k, n))
  {
    hide Received, Pending, LostIn, Push, Retained, Delivered, Lost;
    var last := |events| - 1;
    var earlier := events[..last];
    var before, after := Run(capacity, earlier), Run(capacity, events);
    RunConsistent(capacity, earlier);
    StillReceived(before, after, n);
    if events[last].Flushed? && Pending(before, n) {
      RemovedByFlush(before, events[last].st, events[last].net, n);
      assert LostAt(capacity, events, last, n);
    } else if n == before.created || Pending(before, n) {
      if n == before.created || |before.ring| < capacity || before.ring[0].serial != n {
        KeptByRecording(before, capacity, events[last].info, n);
      }
      assert OverwrittenAt(capacity, events, last, n);
    } else {
      SkippedWasDropped(capacity, earlier, n);
      var k: nat :| k < |earlier| && (OverwrittenAt(capacity, earlier, k, n) || LostAt(capacity, earlier, k, n));
      assert earlier[..k] == events[..k];
      assert OverwrittenAt(capacity, events, k, n) || LostAt(capacity, events, k, n);
    }
  }

  /** All sessions of the run follow the protocol. */
  ghost predicate AllNoticed(capacity: nat, events: seq<Event>)
    requires 1 <= capacity
  {
    forall k: nat | k < |events| && events[k].Flushed? ::
      Noticed(|Run(capacity, events[..k]).ring|, events[k].st, events[k].net)
  }

  lemma {:induction false} NoticedLosesNothing(queue: seq<Info>, st: Statics, net: seq<Exchange>, i: nat)
    requires Noticed(|queue|, st, net) && i < |queue| && i < |net| && BelievedUpTo(st, net, i)
    ensures Genuine(net[i])
  {
    if i > 0 {
      BelievedShift(net, i);
      NoticedLosesNothing(queue[1..], GOOD, net[1..], i - 1);
    }
  }

  /** In a run whose sessions follow the protocol only overwriting loses records. */
  lemma SkippedWasOverwritten(capacity: nat, events: seq<Event>, n: nat)
    requires 1 <= capacity && AllNoticed(capacity, events)
    requires n < Run(capacity, events).created
    requires !Received(Run(capacity, events), n) && !Pending(Run(capacity, events), n)
    ensures exists k: nat :: k < |events| && OverwrittenAt(capacity, events, k, n)
  {
    SkippedWasDropped(capacity, events, n);
    hide Run, Received, Pending;
    var k: nat :| k < |events| && (OverwrittenAt(capacity, events, k, n) || LostAt(capacity, events, k, n));
    if LostAt(capacity, events, k, n) {
      var queue, st, net := Run(capacity, events[..k]).ring, events[k].st, events[k].net;
      var i :| 0 <= i < |queue| && queue[i].serial == n && i < |net|
               && net[i].write.WriteTimedOut? && BelievedUpTo(st, net, i);
      NoticedLosesNothing(queue, st, net, i);
    }
  }
}
