/**
 The flush as the protocol means it, in which every call reports its own outcome, and exactly how the code's
 static counts and static command make it differ.
 */
module CarriedValues {
  import opened Protocol
  import opened Wire
  import opened Session

  /** What an exchange comes to by its own calls: not written, written but not acknowledged, or acknowledged. */
  datatype Outcome = NotWritten | Unacked | Acked

  function OutcomeOf(e: Exchange): Outcome {
    if !e.write.Written? then NotWritten else if e.read.AckRead? then Acked else Unacked
  }

  function Outcomes(net: seq<Exchange>): seq<Outcome> {
    seq(|net|, i requires 0 <= i < |net| => OutcomeOf(net[i]))
  }

  /** What should be delivered. */
  function MeantDelivered(queue: seq<Info>, net: seq<Outcome>): seq<Packet>
  {
    if queue == [] || net == [] || net[0].NotWritten? then []
    else [Packet(queue[0], |queue| - 1)] + if net[0].Acked? then MeantDelivered(queue[1..], net[1..]) else []
  }

  /** What should stay. */
  function MeantRetained(queue: seq<Info>, net: seq<Outcome>): seq<Info>
  {
    if queue == [] || net == [] || !net[0].Acked? then queue else MeantRetained(queue[1..], net[1..])
  }

  /** The session is as it is meant. */
  predicate AsMeant(queue: seq<Info>, st: Statics, net: seq<Exchange>) {
    && Delivered(queue, st, net) == MeantDelivered(queue, Outcomes(net))
    && Retained(queue, st, net) == MeantRetained(queue, Outcomes(net))
  }

  /** It is, if and only if the first exchange that does not go through is not taken for one that did. */
  lemma {:induction false} AsMeantExactly(queue: seq<Info>, st: Statics, net: seq<Exchange>)
    ensures AsMeant(queue, st, net) <==> Noticed(|queue|, st, net)
  {
    if queue != [] && net != [] {
      var outcomes := Outcomes(net);
      assert outcomes[1..] == Outcomes(net[1..]);
      RetainedIsSuffix(queue[1..], GOOD, net[1..]);
      if Genuine(net[0]) {
        AsMeantExactly(queue[1..], GOOD, net[1..]);
        var first := [Packet(queue[0], |queue| - 1)];
        var sent, meant := Delivered(queue[1..], GOOD, net[1..]), MeantDelivered(queue[1..], outcomes[1..]);
        assert Delivered(queue, st, net) == first + sent && MeantDelivered(queue, outcomes) == first + meant;
        assert (first + sent)[1..] == sent && (first + meant)[1..] == meant;
      }
    }
  }

  // ---- exactly which records are lost ----

  predicate Shipped(sent: seq<Packet>, info: Info) {
    exists k :: 0 <= k < |sent| && sent[k].info == info
  }

  predicate AllDifferent(queue: seq<Info>) {
    forall i, j :: 0 <= i < j < |queue| ==> queue[i] != queue[j]
  }

  lemma {:induction false} OnlyQueued(queue: seq<Info>, st: Statics, net: seq<Exchange>, info: Info)
    requires info !in queue
    ensures info !in Retained(queue, st, net) && !Shipped(Delivered(queue, st, net), info)
  {
    if queue != [] && net != [] && Believed(st, net[0]) {
      OnlyQueued(queue[1..], GOOD, net[1..], info);
      ShippedConcat(queue, net[0], Delivered(queue[1..], GOOD, net[1..]), info);
    }
  }

  lemma ShippedConcat(queue: seq<Info>, e: Exchange, rest: seq<Packet>, info: Info)
    requires queue != []
    ensures Shipped(Sent(queue, e) + rest, info) <==> (e.write.Written? && queue[0] == info) || Shipped(rest, info)
  {
    var sent := Sent(queue, e) + rest;
    if e.write.Written? {
      assert sent[0].info == queue[0];
      assert forall k :: 0 <= k < |rest| ==> sent[k + 1] == rest[k];
      if Shipped(rest, info) {
        var k :| 0 <= k < |rest| && rest[k].info == info;
        assert sent[k + 1].info == info;
      }
    } else {
      assert sent == rest;
    }
  }

  /**
   Record i is lost - it leaves the ring, and never reaches the controller - if and only if its write times
   out, and all exchanges up to its own are taken for good ones. For all but the first of them this only
   asks that no write fails and that each read brings an ACK or times out.
   */
  lemma {:induction false} LostExactly(queue: seq<Info>, st: Statics, net: seq<Exchange>, i: nat)
    requires i < |queue| && AllDifferent(queue)
    ensures queue[i] !in Retained(queue, st, net) && !Shipped(Delivered(queue, st, net), queue[i])
       <==> i < |net| && net[i].write.WriteTimedOut? && BelievedUpTo(st, net, i)
  {
    if net != [] && Believed(st, net[0]) {
      ShippedConcat(queue, net[0], Delivered(queue[1..], GOOD, net[1..]), queue[i]);
      if i == 0 {
        OnlyQueued(queue[1..], GOOD, net[1..], queue[0]);
      } else {
        LostExactly(queue[1..], GOOD, net[1..], i - 1);
        if i < |net| {
          BelievedShift(net, i);
        }
      }
    }
  }

  /** After one good exchange, a pause of the connection loses the next record. */
  lemma PauseLoses(first: Info, second: Info, st: Statics)
    requires first != second
    ensures var queue := [first, second];
      var net := [Exchange(Written, AckRead), Exchange(WriteTimedOut, ReadTimedOut)];
      second !in Retained(queue, st, net) && !Shipped(Delivered(queue, st, net), second)
  {
    var queue, net := [first, second], [Exchange(Written, AckRead), Exchange(WriteTimedOut, ReadTimedOut)];
    assert BelievedUpTo(st, net, 1);
    LostExactly(queue, st, net, 1);
  }
}
