/** The controller's end of the record/ACK protocol: buddy_readstate of controller/ctrl_buddy.c. */
module Controller {
  import opened Protocol
  import opened Wire
  import Session

  /**
   The packets that the controller takes from a stream: it stops after the first that says none remain, and
   after the first for which it cannot write the ACK, since select has then emptied the set of sockets that
   the next select looks at.
   */
  function Taken(stream: seq<Packet>, writable: seq<bool>): (taken: seq<Packet>)
    requires |stream| <= |writable|
  {
    if stream == [] then []
    else [stream[0]] + if stream[0].remaining == 0 || !writable[0] then [] else Taken(stream[1..], writable[1..])
  }

  lemma TakenStep(stream: seq<Packet>, writable: seq<bool>, i: nat)
    requires i < |stream| <= |writable|
    ensures Taken(stream[i..], writable[i..])
         == [stream[i]] +
            if stream[i].remaining == 0 || !writable[i] then [] else Taken(stream[i + 1..], writable[i + 1..])
  {
    assert stream[i..][1..] == stream[i + 1..] && writable[i..][1..] == writable[i + 1..];
  }

  lemma TakenEnd(stream: seq<Packet>, writable: seq<bool>)
    requires |stream| <= |writable|
    ensures Taken(stream[|stream|..], writable[|stream|..]) == []
  {
  }

  /** What the controller takes is the shortest prefix that gives it a reason to stop, or all there is. */
  lemma {:induction false} TakenIsPrefix(stream: seq<Packet>, writable: seq<bool>)
    requires |stream| <= |writable|
    ensures var n := |Taken(stream, writable)|;
      && Taken(stream, writable) <= stream
      && (forall i :: 0 <= i < n - 1 ==> stream[i].remaining != 0 && writable[i])
      && (n < |stream| ==> n > 0 && (stream[n - 1].remaining == 0 || !writable[n - 1]))
  {
    if stream != [] && stream[0].remaining != 0 && writable[0] {
      TakenIsPrefix(stream[1..], writable[1..]);
      var rest := Taken(stream[1..], writable[1..]);
      forall i | 0 <= i < |rest|
        ensures stream[i].remaining != 0 && writable[i]
      {
        if i > 0 {
          assert stream[1..][i - 1] == stream[i] && writable[1..][i - 1] == writable[i];
        }
      }
    }
  }

  /**
   buddy_readstate. The stream holds the packets that can be read before a read fails or select times
   out; ready tells whether the socket can be written to at all, writable[i] whether it takes the ACK for
   packet i. The result lists the packets read and, for each, whether an ACK was written; finished tells
   whether the loop was left because the last packet announced no more.
   */
  method ReadState(ready: bool, stream: seq<Packet>, writable: seq<bool>)
    returns (received: seq<Packet>, acks: seq<bool>, finished: bool)
    requires |stream| <= |writable|
    ensures received == if ready then Taken(stream, writable) else []
    ensures |received| <= |stream| && acks == writable[..|received|]
    ensures finished <==> received != [] && received[|received| - 1].remaining == 0
  {
    hide Taken;
    received, acks, finished := [], [], false;
    if !ready {
      return;
    }
    var i := 0;
    while i < |stream|
      invariant 0 <= i <= |stream| && received == stream[..i] && acks == writable[..i]
      invariant !finished && forall k :: 0 <= k < i ==> stream[k].remaining != 0
      invariant received + Taken(stream[i..], writable[i..]) == Taken(stream, writable)
    {
      var buf := stream[i];
      TakenStep(stream, writable, i);
      received := received + [buf];
      acks := acks + [writable[i]];
      i := i + 1;
      if buf.remaining == 0 {
        finished := true;
        return;
      }
      if !writable[i - 1] {
        return;
      }
    }
    TakenEnd(stream, writable);
  }

  lemma {:induction false} TakesAll(stream: seq<Packet>, writable: seq<bool>)
    requires |stream| <= |writable|
    requires forall i :: 0 <= i < |stream| - 1 ==> stream[i].remaining != 0 && writable[i]
    ensures Taken(stream, writable) == stream
  {
    if stream != [] {
      TakesAll(stream[1..], writable[1..]);
    }
  }

  /**
   The two ends agree. In any session that follows the protocol, in which no ACK is read that was not
   written, the controller takes every record that reaches it, so that it never leaves its loop while the
   buddy is still sending. It leaves on a count of zero exactly when it has seen the whole ring; then the
   ring is empty, unless the very last ACK was lost.
   */
  lemma {:induction false} SessionAgreement(queue: seq<Info>, st: Statics, net: seq<Exchange>, writable: seq<bool>)
    requires |writable| == |net| && forall i :: 0 <= i < |net| && Genuine(net[i]) ==> writable[i]
    requires Session.Noticed(|queue|, st, net)
    ensures var stream, kept := Session.Delivered(queue, st, net), Session.Retained(queue, st, net);
      && |stream| <= |net|
      && Taken(stream, writable) == stream
      && ((exists i :: 0 <= i < |stream| && stream[i].remaining == 0) <==> (queue != [] && |stream| == |queue|))
      && (queue != [] && |stream| == |queue| ==>
           kept == if Genuine(net[|queue| - 1]) then [] else [queue[|queue| - 1]])
      && (kept == [] && queue != [] ==> |stream| == |queue|)
  {
    var stream, kept := Session.Delivered(queue, st, net), Session.Retained(queue, st, net);
    Session.FlushEffect(queue, st, net);
    GenuineBefore(queue, st, net);
    if queue != [] && |stream| == |queue| {
      LastRound(queue, st, net);
    }
    hide Session.Delivered, Session.Retained, Session.Noticed, Taken;
    forall i | 0 <= i < |stream| - 1
      ensures stream[i].remaining != 0 && writable[i]
    {
      assert Genuine(net[i]);
    }
    TakesAll(stream, writable);
    if queue != [] && |stream| == |queue| {
      assert stream[|queue| - 1].remaining == 0;
    }
  }

  /** All records but the last one delivered were acknowledged. */
  lemma {:induction false} GenuineBefore(queue: seq<Info>, st: Statics, net: seq<Exchange>)
    requires Session.Noticed(|queue|, st, net)
    ensures |Session.Delivered(queue, st, net)| <= |net|
    ensures forall i :: 0 <= i < |Session.Delivered(queue, st, net)| - 1 ==> Genuine(net[i])
  {
    if queue != [] && net != [] && Genuine(net[0]) {
      GenuineBefore(queue[1..], GOOD, net[1..]);
      forall i | 0 <= i < |Session.Delivered(queue, st, net)| - 1
        ensures Genuine(net[i])
      {
        if i > 0 {
          assert Genuine(net[1..][i - 1]);
        }
      }
    }
  }

  lemma {:induction false} LastRound(queue: seq<Info>, st: Statics, net: seq<Exchange>)
    requires Session.Noticed(|queue|, st, net)
    requires queue != [] && |Session.Delivered(queue, st, net)| == |queue|
    ensures |net| >= |queue|
    ensures Session.Retained(queue, st, net) == if Genuine(net[|queue| - 1]) then [] else [queue[|queue| - 1]]
  {
    if |queue| > 1 {
      LastRound(queue[1..], GOOD, net[1..]);
    }
  }
}
