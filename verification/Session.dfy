/** One flush of the audit trail: what reaches the controller, what stays, and what is lost. */
module Session {
  import opened Protocol
  import opened Wire

  /** The packet of the oldest record, if it is written at all. */
  function Sent(queue: seq<Info>, e: Exchange): seq<Packet>
    requires queue != []
  {
    if e.write.Written? then [Packet(queue[0], |queue| - 1)] else []
  }

  /**
   The packets that reach the controller when the queue is flushed, one exchange for each record tried. A
   record whose exchange is taken for a good one is removed and the next one tried; beyond the last exchange
   the connection is broken.
   */
  function Delivered(queue: seq<Info>, st: Statics, net: seq<Exchange>): seq<Packet>
  {
    if queue == [] || net == [] then []
    else Sent(queue, net[0]) + if Believed(st, net[0]) then Delivered(queue[1..], GOOD, net[1..]) else []
  }

  /** The records that stay in the queue: all but the removed prefix. */
  function Retained(queue: seq<Info>, st: Statics, net: seq<Exchange>): seq<Info>
  {
    if queue == [] || net == [] || !Believed(st, net[0]) then queue else Retained(queue[1..], GOOD, net[1..])
  }

  /** How many records are removed without having been written. */
  function Lost(queue: seq<Info>, st: Statics, net: seq<Exchange>): nat
  {
    if queue == [] || net == [] || !Believed(st, net[0]) then 0
    else (if net[0].write.Written? then 0 else 1) + Lost(queue[1..], GOOD, net[1..])
  }

  /** The static values after the flush. */
  function CarriedAfter(queue: seq<Info>, st: Statics, net: seq<Exchange>): Statics
  {
    if queue == [] || net == [] then st
    else if Believed(st, net[0]) then CarriedAfter(queue[1..], GOOD, net[1..])
    else AfterExchange(st, net[0])
  }

  /** One exchange. */
  lemma Unfold(queue: seq<Info>, st: Statics, net: seq<Exchange>)
    ensures queue == [] || net == [] ==>
      Delivered(queue, st, net) == [] && Retained(queue, st, net) == queue && CarriedAfter(queue, st, net) == st
    ensures queue != [] && net != [] && Believed(st, net[0]) ==>
      && Delivered(queue, st, net) == Sent(queue, net[0]) + Delivered(queue[1..], GOOD, net[1..])
      && Retained(queue, st, net) == Retained(queue[1..], GOOD, net[1..])
      && CarriedAfter(queue, st, net) == CarriedAfter(queue[1..], GOOD, net[1..])
    ensures queue != [] && net != [] && !Believed(st, net[0]) ==>
      && Delivered(queue, st, net) == Sent(queue, net[0]) && Retained(queue, st, net) == queue
      && CarriedAfter(queue, st, net) == AfterExchange(st, net[0])
  {
  }

  // ---- any session ----

  lemma {:induction false} RetainedIsSuffix(queue: seq<Info>, st: Statics, net: seq<Exchange>)
    ensures |Retained(queue, st, net)| <= |queue|
    ensures Retained(queue, st, net) == queue[|queue| - |Retained(queue, st, net)|..]
    ensures Lost(queue, st, net) <= |queue| - |Retained(queue, st, net)|
  {
    if queue != [] && net != [] && Believed(st, net[0]) {
      var rest, kept := queue[1..], Retained(queue[1..], GOOD, net[1..]);
      RetainedIsSuffix(rest, GOOD, net[1..]);
      assert kept == rest[|rest| - |kept|..] == queue[|queue| - |kept|..];
    }
  }

  /** Exchanges 0 to i are all taken for good ones, the first with these values carried in. */
  predicate BelievedUpTo(st: Statics, net: seq<Exchange>, i: nat)
    requires i < |net|
  {
    Believed(st, net[0]) && forall j :: 1 <= j <= i ==> Believed(GOOD, net[j])
  }

  lemma BelievedShift(net: seq<Exchange>, i: nat)
    requires 1 <= i < |net|
    ensures BelievedUpTo(GOOD, net[1..], i - 1) <==> forall j :: 1 <= j <= i ==> Believed(GOOD, net[j])
  {
    assert forall j :: 1 <= j <= i ==> net[1..][j - 1] == net[j];
    if BelievedUpTo(GOOD, net[1..], i - 1) {
      forall j | 1 <= j <= i
        ensures Believed(GOOD, net[j])
      {
        assert Believed(GOOD, net[1..][j - 1]);
      }
    }
  }

  /** Record i is removed exactly if all exchanges up to its own are taken for good ones. */
  lemma {:induction false} RemovedExactly(queue: seq<Info>, st: Statics, net: seq<Exchange>, i: nat)
    requires i < |queue|
    ensures i < |queue| - |Retained(queue, st, net)| <==> i < |net| && BelievedUpTo(st, net, i)
  {
    RetainedIsSuffix(queue, st, net);
    if net != [] && Believed(st, net[0]) {
      if i == 0 {
        RetainedIsSuffix(queue[1..], GOOD, net[1..]);
      } else {
        RemovedExactly(queue[1..], GOOD, net[1..], i - 1);
        if i < |net| {
          BelievedShift(net, i);
        }
      }
    }
  }

  /**
   The same in terms of the calls. The first write may time out if the last one before the flush went well,
   and the first read if there is an ACK at hand; later ones may always do so.
   */
  lemma RemovedInWords(queue: seq<Info>, st: Statics, net: seq<Exchange>, i: nat)
    requires i < |queue|
    ensures i < |queue| - |Retained(queue, st, net)| <==>
      && i < |net|
      && (net[0].write.Written? || (net[0].write.WriteTimedOut? && st.wrote))
      && (net[0].read.AckRead? || (net[0].read.ReadTimedOut? && st.gotten && st.ack))
      && forall j :: 1 <= j <= i ==>
           (net[j].write.Written? || net[j].write.WriteTimedOut?) && (net[j].read.AckRead? || net[j].read.ReadTimedOut?)
  {
    RemovedExactly(queue, st, net, i);
    hide Retained;
    if i < |net| {
      assert forall j :: 1 <= j <= i ==> (Believed(GOOD, net[j]) <==>
        (net[j].write.Written? || net[j].write.WriteTimedOut?) && (net[j].read.AckRead? || net[j].read.ReadTimedOut?));
    }
  }

  /** A record that is removed and was written has reached the controller. */
  lemma {:induction false} WrittenIsDelivered(queue: seq<Info>, st: Statics, net: seq<Exchange>, i: nat)
    requires i < |queue| - |Retained(queue, st, net)| && i < |net| && net[i].write.Written?
    ensures exists k :: 0 <= k < |Delivered(queue, st, net)|
                     && Delivered(queue, st, net)[k] == Packet(queue[i], |queue| - 1 - i)
  {
    var rest := Delivered(queue[1..], GOOD, net[1..]);
    if i == 0 {
      assert Delivered(queue, st, net)[0] == Packet(queue[0], |queue| - 1);
    } else {
      WrittenIsDelivered(queue[1..], GOOD, net[1..], i - 1);
      var k :| 0 <= k < |rest| && rest[k] == Packet(queue[1..][i - 1], |queue| - 2 - (i - 1));
      assert Delivered(queue, st, net)[|Sent(queue, net[0])| + k] == rest[k];
    }
  }

  /** The records of the queue carry consecutive serial numbers. */
  ghost predicate Numbered(queue: seq<Info>, base: nat) {
    forall i :: 0 <= i < |queue| ==> queue[i].serial == base + i
  }

  /** A packet with the record of its serial number, and the count of those after it. */
  predicate FromQueue(packet: Packet, queue: seq<Info>, base: nat) {
    var i := packet.info.serial - base;
    0 <= i < |queue| && packet == Packet(queue[i], |queue| - 1 - i)
  }

  ghost predicate Rising(packets: seq<Packet>) {
    forall i, j :: 0 <= i < j < |packets| ==> packets[i].info.serial < packets[j].info.serial
  }

  lemma PrependRising(first: seq<Packet>, rest: seq<Packet>, base: nat)
    requires |first| <= 1 && Rising(rest)
    requires first != [] ==> first[0].info.serial == base
    requires forall i :: 0 <= i < |rest| ==> rest[i].info.serial > base
    ensures Rising(first + rest)
  {
  }

  lemma PrependFrom(first: seq<Packet>, rest: seq<Packet>, queue: seq<Info>, base: nat)
    requires queue != [] && queue[0].serial == base
    requires first == [] || first == [Packet(queue[0], |queue| - 1)]
    requires forall i :: 0 <= i < |rest| ==> FromQueue(rest[i], queue[1..], base + 1)
    ensures forall i :: 0 <= i < |first + rest| ==> FromQueue((first + rest)[i], queue, base)
  {
    forall i | 0 <= i < |first + rest|
      ensures FromQueue((first + rest)[i], queue, base)
    {
      if i >= |first| {
        assert FromQueue(rest[i - |first|], queue[1..], base + 1);
      }
    }
  }

  lemma {:induction false} ComesFromQueue(queue: seq<Info>, st: Statics, net: seq<Exchange>, base: nat)
    requires Numbered(queue, base)
    ensures forall i :: 0 <= i < |Delivered(queue, st, net)| ==> FromQueue(Delivered(queue, st, net)[i], queue, base)
  {
    Unfold(queue, st, net);
    hide Delivered, Retained, CarriedAfter, FromQueue, Believed;
    if queue != [] && net != [] {
      if Believed(st, net[0]) {
        ComesFromQueue(queue[1..], GOOD, net[1..], base + 1);
        PrependFrom(Sent(queue, net[0]), Delivered(queue[1..], GOOD, net[1..]), queue, base);
      } else {
        PrependFrom(Sent(queue, net[0]), [], queue, base);
        assert Sent(queue, net[0]) + [] == Sent(queue, net[0]);
      }
    }
  }

  lemma {:induction false} NotBeyond(queue: seq<Info>, st: Statics, net: seq<Exchange>, base: nat)
    requires Numbered(queue, base)
    ensures var sent, gone := Delivered(queue, st, net), |queue| - |Retained(queue, st, net)|;
      Rising(sent) && forall i :: 0 <= i < |sent| ==> base <= sent[i].info.serial <= base + gone
  {
    RetainedIsSuffix(queue, st, net);
    Unfold(queue, st, net);
    hide Delivered, Retained, CarriedAfter, Believed;
    if queue != [] && net != [] && Believed(st, net[0]) {
      NotBeyond(queue[1..], GOOD, net[1..], base + 1);
      RetainedIsSuffix(queue[1..], GOOD, net[1..]);
      PrependRising(Sent(queue, net[0]), Delivered(queue[1..], GOOD, net[1..]), base);
    }
  }

  /**
   In any session, whatever is delivered comes from the queue, in order, each record at most once, with the
   right count; and nothing beyond the oldest record that stays.
   */
  lemma {:induction false} InOrder(queue: seq<Info>, st: Statics, net: seq<Exchange>, base: nat)
    requires Numbered(queue, base)
    ensures var sent, gone := Delivered(queue, st, net), |queue| - |Retained(queue, st, net)|;
      && Rising(sent)
      && forall i :: 0 <= i < |sent| ==> FromQueue(sent[i], queue, base) && sent[i].info.serial <= base + gone
  {
    ComesFromQueue(queue, st, net, base);
    NotBeyond(queue, st, net, base);
    hide Delivered, Retained, FromQueue;
  }

  /** Unless the session begins with an ACK at hand, only an ACK that the first read brings removes anything. */
  lemma NoAckNoRemoval(queue: seq<Info>, st: Statics, net: seq<Exchange>)
    requires !st.ack && (net == [] || !net[0].read.AckRead?)
    ensures Retained(queue, st, net) == queue
  {
  }

  /** How many records are removed. */
  function Gone(queue: seq<Info>, st: Statics, net: seq<Exchange>): (n: nat)
    ensures n <= |queue| && n <= |net| && n == |queue| - |Retained(queue, st, net)|
  {
    RetainedIsSuffix(queue, st, net);
    RemovedTried(queue, st, net);
    |queue| - |Retained(queue, st, net)|
  }

  /** The exchanges that a session makes: those of the records removed, and the one that breaks it off. */
  function Made(queue: seq<Info>, st: Statics, net: seq<Exchange>): (n: nat)
    ensures n <= |net|
  {
    var gone := Gone(queue, st, net);
    if gone < |queue| && gone < |net| then gone + 1 else gone
  }

  lemma {:induction false} RemovedTried(queue: seq<Info>, st: Statics, net: seq<Exchange>)
    ensures |queue| - |Retained(queue, st, net)| <= |net|
  {
    if queue != [] && net != [] && Believed(st, net[0]) {
      RemovedTried(queue[1..], GOOD, net[1..]);
    }
  }

  /** How many of these writes timed out. */
  function TimedOut(net: seq<Exchange>): (n: nat)
    ensures n <= |net|
  {
    if net == [] then 0 else (if net[0].write.WriteTimedOut? then 1 else 0) + TimedOut(net[1..])
  }

  /** The records lost are those among the removed whose write timed out. */
  lemma {:induction false} LostCounts(queue: seq<Info>, st: Statics, net: seq<Exchange>)
    ensures Lost(queue, st, net) == TimedOut(net[..Gone(queue, st, net)])
  {
    if queue != [] && net != [] && Believed(st, net[0]) {
      LostCounts(queue[1..], GOOD, net[1..]);
      var gone := Gone(queue, st, net);
      assert Gone(queue[1..], GOOD, net[1..]) == gone - 1;
      assert net[..gone][1..] == net[1..][..gone - 1] && net[..gone][0] == net[0];
    }
  }

  // ---- sessions that follow the protocol ----

  /** The first exchange that does not go through is not taken for one that did. */
  predicate Noticed(pending: nat, st: Statics, net: seq<Exchange>) {
    pending > 0 && net != [] ==>
      if Genuine(net[0]) then Noticed(pending - 1, GOOD, net[1..]) else !Believed(st, net[0])
  }

  lemma PrependPacket(queue: seq<Info>, sent: seq<Packet>)
    requires queue != [] && |sent| <= |queue| - 1
    requires forall i :: 0 <= i < |sent| ==> sent[i] == Packet(queue[1..][i], |queue| - 2 - i)
    ensures var all := [Packet(queue[0], |queue| - 1)] + sent;
      forall i :: 0 <= i < |all| ==> all[i] == Packet(queue[i], |queue| - 1 - i)
  {
    var all := [Packet(queue[0], |queue| - 1)] + sent;
    forall i | 0 <= i < |all|
      ensures all[i] == Packet(queue[i], |queue| - 1 - i)
    {
      if i > 0 {
        assert all[i] == sent[i - 1];
      }
    }
  }

  /** What is delivered then is a prefix, numbered down. */
  lemma {:induction false} DeliveredIsPrefix(queue: seq<Info>, st: Statics, net: seq<Exchange>)
    requires Noticed(|queue|, st, net)
    ensures |Delivered(queue, st, net)| <= |queue|
    ensures forall i :: 0 <= i < |Delivered(queue, st, net)| ==>
      Delivered(queue, st, net)[i] == Packet(queue[i], |queue| - 1 - i)
  {
    if queue != [] && net != [] && Genuine(net[0]) {
      DeliveredIsPrefix(queue[1..], GOOD, net[1..]);
      PrependPacket(queue, Delivered(queue[1..], GOOD, net[1..]));
    }
  }

  lemma {:induction false} Lengths(queue: seq<Info>, st: Statics, net: seq<Exchange>)
    requires Noticed(|queue|, st, net)
    ensures var sent, gone := |Delivered(queue, st, net)|, |queue| - |Retained(queue, st, net)|;
      gone <= sent <= gone + 1
    ensures Lost(queue, st, net) == 0
  {
    if queue != [] && net != [] && Genuine(net[0]) {
      Lengths(queue[1..], GOOD, net[1..]);
    }
  }

  /**
   A session that follows the protocol delivers a prefix of the records, numbered down, removes exactly those
   that were acknowledged, and loses none; at most one is both delivered and kept.
   */
  lemma {:induction false} FlushEffect(queue: seq<Info>, st: Statics, net: seq<Exchange>)
    requires Noticed(|queue|, st, net)
    ensures var sent, kept := Delivered(queue, st, net), Retained(queue, st, net);
      && |kept| <= |queue| && kept == queue[|queue| - |kept|..]
      && |queue| - |kept| <= |sent| <= |queue|
      && |sent| <= |queue| - |kept| + 1
      && forall i :: 0 <= i < |sent| ==> sent[i] == Packet(queue[i], |queue| - 1 - i)
    ensures Lost(queue, st, net) == 0
  {
    RetainedIsSuffix(queue, st, net);
    DeliveredIsPrefix(queue, st, net);
    Lengths(queue, st, net);
    hide Retained, Delivered, Lost, Noticed;
  }

  /** In an unbroken session the controller gets every pending record, in order, counting down to zero. */
  lemma {:induction false} UnbrokenSession(queue: seq<Info>, st: Statics, net: seq<Exchange>)
    requires |queue| <= |net| && forall i :: 0 <= i < |queue| ==> Genuine(net[i])
    ensures Retained(queue, st, net) == []
    ensures Delivered(queue, st, net)
         == seq(|queue|, i requires 0 <= i < |queue| => Packet(queue[i], |queue| - 1 - i))
  {
    AllGenuine(queue, st, net);
    DeliveredIsPrefix(queue, st, net);
    Lengths(queue, st, net);
    hide Delivered, Retained;
  }

  lemma {:induction false} AllGenuine(queue: seq<Info>, st: Statics, net: seq<Exchange>)
    requires |queue| <= |net| && forall i :: 0 <= i < |queue| ==> Genuine(net[i])
    ensures Noticed(|queue|, st, net) && Retained(queue, st, net) == []
  {
    if queue != [] {
      AllGenuine(queue[1..], GOOD, net[1..]);
    }
  }
}
