/** The ring of linked slots of controller/buddy.c, as a refinement of the bounded queue of AuditLog. */
module RingBuffer {
  import opened Protocol
  import opened Wire
  import Session

  const BLANK := Info(0, 0, 0, NoCommand, Unknown, 0, 0, 0)

  /** A slot of the ring: the record, and the links that clearing a slot leaves alone. */
  class Node {
    var populated: bool
    var info: Info
    var remaining: nat
    var slotN: nat
    var next: Node?
    ghost var live: bool  // not yet released

    constructor ()
      ensures !populated && info == BLANK && remaining == 0 && slotN == 0 && next == null && live
    {
      populated, info, remaining, slotN, next, live := false, BLANK, 0, 0, null, true;
    }

    method Successor() returns (n: Node?)
      requires live
      ensures n == next
    {
      n := next;
    }

    method Release()
      requires live
      modifies this`live
      ensures !live
    {
      live := false;
    }
  }

  function Wrap(k: nat, size: nat): nat {
    if k < size then k else k - size
  }

  ghost predicate Among(nodes: seq<Node>, slots: set<Node>) {
    forall i :: 0 <= i < |nodes| ==> nodes[i] in slots
  }

  /**
   The nodes form one cycle: each is linked to the one after it, and their slot numbers count round the
   ring. In particular they are pairwise distinct.
   */
  ghost predicate Cycle(nodes: seq<Node>, slots: set<Node>)
    requires |nodes| >= 1 && Among(nodes, slots)
    reads slots`next, slots`slotN
  {
    && nodes[0].slotN < |nodes|
    && (forall i :: 0 <= i < |nodes| ==> nodes[i].slotN == Wrap(nodes[0].slotN + i, |nodes|))
    && (forall i, j {:trigger nodes[i], nodes[j]} :: 0 <= i && j == i + 1 < |nodes| ==> nodes[i].next == nodes[j])
    && nodes[|nodes| - 1].next == nodes[0]
  }

  /** Exactly the slots from index k on are populated. */
  ghost predicate PopulatedFrom(nodes: seq<Node>, slots: set<Node>, k: int)
    requires Among(nodes, slots)
    reads slots`populated
  {
    forall i :: 0 <= i < |nodes| ==> (nodes[i].populated <==> i >= k)
  }

  /** The records of the slots from index k on. */
  ghost function InfosFrom(nodes: seq<Node>, slots: set<Node>, k: nat): (infos: seq<Info>)
    requires k <= |nodes| && Among(nodes, slots)
    reads slots`info
    ensures |infos| == |nodes| - k
    decreases |nodes| - k
  {
    if k == |nodes| then [] else [nodes[k].info] + InfosFrom(nodes, slots, k + 1)
  }

  lemma {:induction false} InfosAre(nodes: seq<Node>, slots: set<Node>, k: nat)
    requires k <= |nodes| && Among(nodes, slots)
    ensures forall i :: k <= i < |nodes| ==> InfosFrom(nodes, slots, k)[i - k] == nodes[i].info
    decreases |nodes| - k
  {
    if k < |nodes| {
      InfosAre(nodes, slots, k + 1);
    }
  }

  /** The cycle can be entered at any of its nodes. */
  lemma Rotate(nodes: seq<Node>, slots: set<Node>)
    requires |nodes| >= 1 && Among(nodes, slots) && Cycle(nodes, slots)
    ensures Among(nodes[1..] + [nodes[0]], slots) && Cycle(nodes[1..] + [nodes[0]], slots)
  {
  }

  lemma Distinct(nodes: seq<Node>, slots: set<Node>)
    requires |nodes| >= 1 && Among(nodes, slots) && Cycle(nodes, slots)
    ensures forall i, j :: 0 <= i < j < |nodes| ==> nodes[i] != nodes[j]
  {
  }

  lemma Link(nodes: seq<Node>, slots: set<Node>, k: nat)
    requires k < |nodes| && Among(nodes, slots) && Cycle(nodes, slots)
    ensures nodes[k].next == nodes[if k + 1 < |nodes| then k + 1 else 0]
  {
  }

  lemma Differs(nodes: seq<Node>, slots: set<Node>, k: nat)
    requires k < |nodes| && Among(nodes, slots) && Cycle(nodes, slots)
    ensures k + 1 < |nodes| ==> nodes[k + 1] != nodes[0]
  {
    Distinct(nodes, slots);
  }

  lemma Collect(nodes: seq<Node>, slots: set<Node>, k: nat, infos: seq<Info>)
    requires Among(nodes, slots) && k <= |nodes| && |infos| == |nodes| - k
    requires forall i :: k <= i < |nodes| ==> nodes[i].info == infos[i - k]
    ensures InfosFrom(nodes, slots, k) == infos
  {
    InfosAre(nodes, slots, k);
    forall j | 0 <= j < |infos|
      ensures InfosFrom(nodes, slots, k)[j] == infos[j]
    {
      var i := k + j;
      assert InfosFrom(nodes, slots, k)[i - k] == nodes[i].info;
    }
  }

  lemma Head(nodes: seq<Node>, slots: set<Node>, full: nat, k: nat)
    requires Among(nodes, slots) && k < |nodes| && full <= |nodes| && PopulatedFrom(nodes, slots, full)
    ensures nodes[k].populated <==> k >= full
    ensures InfosFrom(nodes, slots, k) == [nodes[k].info] + InfosFrom(nodes, slots, k + 1)
  {
  }

  /** The allocation loop of buddy_init_ringbuffer, which numbers a slot only when it has allocated the next. */
  method AllocateChain(size: nat) returns (first: Node, last: Node, ghost chain: seq<Node>, ghost slots: set<Node>)
    requires 1 <= size
    ensures |chain| == size && first == chain[0] && last == chain[size - 1]
    ensures fresh(slots) && Among(chain, slots)
    ensures forall i :: 0 <= i < size ==> chain[i].slotN == if i == size - 1 then 0 else i + 1
    ensures forall i, j {:trigger chain[i], chain[j]} :: 0 <= i && j == i + 1 < size ==> chain[i].next == chain[j]
    ensures forall i :: 0 <= i < size ==> !chain[i].populated && chain[i].live
  {
    first := new Node();
    last := first;
    chain, slots := [first], {first};
    var n := 1;
    while n < size
      invariant 1 <= n <= size && |chain| == n
      invariant fresh(slots) && Among(chain, slots)
      invariant chain[0] == first && chain[n - 1] == last
      invariant forall i :: 0 <= i < n ==> chain[i].slotN == if i == n - 1 then 0 else i + 1
      invariant forall i, j {:trigger chain[i], chain[j]} :: 0 <= i && j == i + 1 < n ==> chain[i].next == chain[j]
      invariant forall i :: 0 <= i < n ==> !chain[i].populated && chain[i].live
    {
      var slot := new Node();
      last.next := slot;
      last.slotN := n;
      last := slot;
      chain, slots := chain + [slot], slots + {slot};
      n := n + 1;
    }
  }

  /** A chain whose ends are linked is a cycle, which begins at the last node. */
  lemma Close(chain: seq<Node>, slots: set<Node>, size: nat)
    requires |chain| == size >= 1 && Among(chain, slots)
    requires forall i :: 0 <= i < size ==> chain[i].slotN == if i == size - 1 then 0 else i + 1
    requires forall i, j {:trigger chain[i], chain[j]} :: 0 <= i && j == i + 1 < size ==> chain[i].next == chain[j]
    requires chain[size - 1].next == chain[0]
    ensures var nodes := [chain[size - 1]] + chain[..size - 1];
      Among(nodes, slots) && Cycle(nodes, slots) && forall i :: 0 <= i < size ==> nodes[i].slotN == i
  {
    var nodes := [chain[size - 1]] + chain[..size - 1];
    assert forall i :: 1 <= i < size ==> nodes[i] == chain[i - 1];
  }

  /** What exchange k sends. */
  function First(queue: seq<Info>, net: seq<Exchange>, k: nat): seq<Packet>
    requires k < |queue| && k < |net|
  {
    if net[k].write.Written? then [Packet(queue[k], |queue| - k - 1)] else []
  }

  /** A flush has sent this much, come to record k, and now carries these static values. */
  ghost predicate OnTrack(queue: seq<Info>, st: Statics, net: seq<Exchange>, now: Statics, k: nat, sent: seq<Packet>)
  {
    && k <= |queue| && k <= |net|
    && Session.Delivered(queue, st, net) == sent + Session.Delivered(queue[k..], now, net[k..])
    && Session.Retained(queue, st, net) == Session.Retained(queue[k..], now, net[k..])
    && Session.CarriedAfter(queue, st, net) == Session.CarriedAfter(queue[k..], now, net[k..])
  }

  /** A flush has ended at record k. */
  ghost predicate Ended(queue: seq<Info>, st: Statics, net: seq<Exchange>, now: Statics, k: nat, sent: seq<Packet>)
  {
    && k <= |queue|
    && Session.Delivered(queue, st, net) == sent
    && Session.Retained(queue, st, net) == queue[k..]
    && Session.CarriedAfter(queue, st, net) == now
  }

  lemma Begin(queue: seq<Info>, st: Statics, net: seq<Exchange>)
    ensures OnTrack(queue, st, net, st, 0, []) && queue[0..] == queue
  {
    assert queue[0..] == queue && net[0..] == net;
  }

  lemma NoStaleAck(queue: seq<Info>, st: Statics, command: Command, net: seq<Exchange>)
    ensures command != Ack && (net == [] || !net[0].read.AckRead?) ==>
      Session.Retained(queue, Answering(st, command), net) == queue
  {
    if command != Ack && (net == [] || !net[0].read.AckRead?) {
      Session.NoAckNoRemoval(queue, Answering(st, command), net);
    }
  }

  /** Exchange k of a flush. */
  lemma UnfoldAt(queue: seq<Info>, net: seq<Exchange>, now: Statics, k: nat)
    requires k < |queue| && k < |net|
    ensures var q, e := queue[k..], net[k..];
      if Believed(now, net[k]) then
        && Session.Delivered(q, now, e) == First(queue, net, k) + Session.Delivered(queue[k + 1..], GOOD, net[k + 1..])
        && Session.Retained(q, now, e) == Session.Retained(queue[k + 1..], GOOD, net[k + 1..])
        && Session.CarriedAfter(q, now, e) == Session.CarriedAfter(queue[k + 1..], GOOD, net[k + 1..])
      else
        && Session.Delivered(q, now, e) == First(queue, net, k) && Session.Retained(q, now, e) == q
        && Session.CarriedAfter(q, now, e) == AfterExchange(now, net[k])
  {
    Session.Unfold(queue[k..], now, net[k..]);
    hide Session.Delivered, Session.Retained, Session.CarriedAfter, Believed;
    assert queue[k..][1..] == queue[k + 1..] && net[k..][1..] == net[k + 1..];
    assert queue[k..] != [] && net[k..] != [] && net[k..][0] == net[k];
    assert Session.Sent(queue[k..], net[k]) == First(queue, net, k);
  }

  lemma GoOn(queue: seq<Info>, st: Statics, net: seq<Exchange>, now: Statics, k: nat, sent: seq<Packet>)
    requires k < |queue| && k < |net| && OnTrack(queue, st, net, now, k, sent)
    ensures if Believed(now, net[k]) then
              OnTrack(queue, st, net, AfterExchange(now, net[k]), k + 1, sent + First(queue, net, k))
            else
              Ended(queue, st, net, AfterExchange(now, net[k]), k, sent + First(queue, net, k))
  {
    UnfoldAt(queue, net, now, k);
    BelievedIsGood(now, net[k]);
    hide Session.Delivered, Session.Retained, Session.CarriedAfter, First, Believed, AfterExchange;
    Associative(sent, First(queue, net, k), Session.Delivered(queue[k + 1..], GOOD, net[k + 1..]));
  }

  lemma Associative<T>(a: seq<T>, b: seq<T>, c: seq<T>)
    ensures a + (b + c) == a + b + c
  {
  }

  lemma BelievedIsGood(st: Statics, e: Exchange)
    ensures Believed(st, e) ==> AfterExchange(st, e) == GOOD
  {
  }

  lemma RunOut(queue: seq<Info>, st: Statics, net: seq<Exchange>, now: Statics, k: nat, sent: seq<Packet>)
    requires OnTrack(queue, st, net, now, k, sent) && (k == |queue| || k == |net|)
    ensures Ended(queue, st, net, now, k, sent)
  {
    Session.Unfold(queue[k..], now, net[k..]);
    hide Session.Delivered, Session.Retained, Session.CarriedAfter, Believed;
    assert queue[k..] == [] || net[k..] == [];
  }

  class Ring {
    var cursor: Node?     // info_ringbuffer
    var pending: nat      // ringbuffer_pending
    const size: nat       // ringbuffer_size
    ghost var nodes: seq<Node>  // the cycle of slots, beginning at the cursor
    ghost var slots: set<Node>  // the same slots as a set

    ghost predicate Shape()
      reads this, slots
    {
      1 <= size == |nodes| && Among(nodes, slots) && Cycle(nodes, slots) && cursor == nodes[0]
    }

    /** The populated slots are the last `pending` ones before the cursor. */
    ghost predicate Valid()
      reads this, slots
    {
      Shape() && pending <= size && PopulatedFrom(nodes, slots, size - pending)
    }

    /** The queue that the ring stores, oldest record first. */
    ghost function Contents(): (queue: seq<Info>)
      requires Valid()
      reads this, slots
      ensures |queue| == pending
    {
      InfosFrom(nodes, slots, size - pending)
    }

    /**
     buddy_init_ringbuffer: one cycle of `size` distinct empty slots. The slot numbers are a permutation
     of 0..size: each is the distance of its slot from the initial cursor.
     */
    constructor (size: nat)
      requires 1 <= size
      ensures Valid() && Contents() == [] && this.size == size
      ensures fresh(slots)
      ensures forall i :: 0 <= i < size ==> nodes[i].slotN == i && nodes[i].live
    {
      this.size := size;
      pending := 0;
      cursor := null;
      nodes, slots := [], {};
      new;
      hide Cycle;
      ghost var chain;
      var first, last;
      first, last, chain, slots := AllocateChain(size);
      last.next := first;
      Close(chain, slots, size);
      cursor := last;
      nodes := [last] + chain[..size - 1];
    }

    /** buddy_zero_info: clear the slot at the cursor. */
    method ZeroInfo()
      requires cursor != null
      modifies this`pending, cursor`populated, cursor`info, cursor`remaining
      ensures !cursor.populated && cursor.info == BLANK && cursor.remaining == 0
      ensures pending == if !old(cursor.populated) then old(pending)
                         else if old(pending) <= 1 then 0 else old(pending) - 1
    {
      if cursor.populated {
        pending := if pending <= 1 then 0 else pending - 1;
      }
      cursor.populated, cursor.info, cursor.remaining := false, BLANK, 0;
    }

    /** A record has been written at the cursor, but the cursor has not moved on yet. */
    ghost predicate Staged()
      reads this, slots
    {
      && Shape()
      && 1 <= pending <= size
      && cursor.populated
      && forall i :: 1 <= i < size ==> (nodes[i].populated <==> i >= size - pending + 1)
    }

    /** The records other than the staged one. */
    ghost function Older(): (queue: seq<Info>)
      requires Staged()
      reads this, slots
    {
      InfosFrom(nodes, slots, size - pending + 1)
    }

    /**
     buddy_record_state: overwrite the slot at the cursor. The pending count always is the number of
     populated slots, so that neither of its two clamps changes a result.
     */
    method RecordState(info: Info)
      requires Valid()
      modifies this`pending, cursor`populated, cursor`info, cursor`remaining
      ensures Staged() && cursor.info == info
      ensures nodes == old(nodes) && slots == old(slots) && cursor == old(cursor)
      ensures pending == if old(pending) == size then size else old(pending) + 1
      ensures Older() == if old(pending) == size then old(Contents())[1..] else old(Contents())
    {
      hide Cycle, InfosFrom;
      Distinct(nodes, slots);
      ghost var from := if pending == size then 1 else size - pending;
      InfosAre(nodes, slots, size - pending);
      ghost var older := if pending == size then Contents()[1..] else Contents();
      ZeroInfo();
      assert pending == if old(pending) == size then size - 1 else old(pending);
      var count: int := if pending >= size then size else pending + 1;
      pending := count;
      cursor.info := info;
      cursor.populated := true;
      Collect(nodes, slots, from, older);
    }

    /** The handler fills in what it has learnt from waitpid. */
    method Annotate(waitPid: int, waitStatus: int, siginfo: int)
      requires Staged()
      modifies cursor`info
      ensures Staged() && Older() == old(Older())
      ensures cursor.info == old(cursor.info).(waitPid := waitPid, waitStatus := waitStatus, siginfo := siginfo)
    {
      hide Cycle, InfosFrom;
      Distinct(nodes, slots);
      InfosAre(nodes, slots, size - pending + 1);
      ghost var older := Older();
      cursor.info := cursor.info.(siginfo := siginfo);
      cursor.info := cursor.info.(waitPid := waitPid);
      cursor.info := cursor.info.(waitStatus := waitStatus);
      Collect(nodes, slots, size - pending + 1, older);
    }

    /** Step over the staged record. */
    method Advance()
      requires Staged()
      modifies this`cursor, this`nodes
      ensures Valid() && pending == old(pending) && slots == old(slots)
      ensures nodes == old(nodes[1..] + [nodes[0]])
      ensures Contents() == old(Older()) + [old(cursor.info)]
    {
      hide Cycle, InfosFrom;
      Link(nodes, slots, 0);
      Rotate(nodes, slots);
      InfosAre(nodes, slots, size - pending + 1);
      ghost var queue := Older() + [cursor.info];
      cursor := cursor.next;
      nodes := nodes[1..] + [nodes[0]];
      Collect(nodes, slots, size - pending, queue);
    }

    /** buddy_zero_info on the oldest record, when the cursor has come to it at index k. */
    method ZeroOldest(ghost k: nat)
      requires k < size == |nodes| && Among(nodes, slots) && cursor == nodes[k]
      requires pending == size - k && PopulatedFrom(nodes, slots, k)
      requires Cycle(nodes, slots)
      modifies this`pending, cursor`populated, cursor`info, cursor`remaining
      ensures pending == old(pending) - 1 && PopulatedFrom(nodes, slots, k + 1)
      ensures InfosFrom(nodes, slots, k + 1) == old(InfosFrom(nodes, slots, k + 1))
    {
      hide Cycle;
      Distinct(nodes, slots);
      InfosAre(nodes, slots, k + 1);
      ghost var rest := InfosFrom(nodes, slots, k + 1);
      ZeroInfo();
      Collect(nodes, slots, k + 1, rest);
    }

    // ---- the flush ----

    /**
     The flush has come to slot k of a ring whose populated slots, from index `full` on, hold these records.
     After the last slot the cursor is back at the first.
     */
    ghost predicate At(k: nat, full: nat, rest: seq<Info>)
      reads this, slots
    {
      && 1 <= size == |nodes| && Among(nodes, slots) && Cycle(nodes, slots)
      && k <= full <= size && cursor == nodes[if k < size then k else 0]
      && pending == size - full && PopulatedFrom(nodes, slots, full)
      && InfosFrom(nodes, slots, full) == rest
    }

    lemma Enter()
      requires Valid()
      ensures At(0, size - pending, Contents()) && cursor == nodes[0]
    {
    }

    lemma AtSlot(k: nat, full: nat, rest: seq<Info>)
      requires At(k, full, rest) && k < size
      ensures |nodes| == size && cursor == nodes[k] && cursor in slots
      ensures cursor.next == nodes[if k + 1 < size then k + 1 else 0]
      ensures k <= full && (cursor.populated <==> k == full)
      ensures k == full ==> pending == |rest| > 0 && rest[0] == cursor.info
      ensures k + 1 < size ==> nodes[k + 1] != nodes[0]
    {
      Link(nodes, slots, k);
      Differs(nodes, slots, k);
      Head(nodes, slots, full, k);
      hide Cycle, PopulatedFrom;
    }

    /** Step over an empty slot. */
    method Skip(ghost k: nat, ghost full: nat, ghost rest: seq<Info>)
      requires At(k, full, rest) && k < full
      modifies this`cursor
      ensures At(k + 1, full, rest) && (cursor == nodes[0] <==> k + 1 == size)
    {
      hide Cycle, PopulatedFrom, InfosFrom;
      AtSlot(k, full, rest);
      cursor := cursor.next;
    }

    /** Back to where the flush has begun. */
    method Rewind(start: Node, ghost k: nat, ghost full: nat, ghost rest: seq<Info>)
      requires At(k, full, rest) && start == nodes[0]
      modifies this`cursor
      ensures Valid() && Contents() == rest && cursor == start
    {
      hide Cycle, PopulatedFrom, InfosFrom;
      cursor := start;
    }

    /** The calls for one record: write it, and read an ACK. The packet is what a write puts on the wire. */
    method Try(line: Line, e: Exchange) returns (ok: bool, sent: seq<Packet>)
      requires cursor != null && pending >= 1
      modifies line, cursor`remaining
      ensures cursor.remaining == pending - 1
      ensures ok == Believed(old(line.Carried()), e) && line.Carried() == AfterExchange(old(line.Carried()), e)
      ensures sent == if e.write.Written? then [Packet(cursor.info, pending - 1)] else []
    {
      ok := false;
      cursor.remaining := pending - 1;
      sent := if e.write.Written? then [Packet(cursor.info, cursor.remaining)] else [];
      var written := line.WriteCtrl(e.write);
      if written > 0 {
        var read := line.ReadCtrl(e.read);
        ok := read > 0 && line.ack == Ack;
      }
    }

    /** An acknowledged record: zero it, and move on. */
    method DropOldest(ghost k: nat, ghost rest: seq<Info>)
      requires At(k, k, rest) && k < size
      modifies this`pending, this`cursor, cursor`populated, cursor`info, cursor`remaining
      ensures rest != [] && At(k + 1, k + 1, rest[1..]) && (cursor == nodes[0] <==> k + 1 == size)
    {
      hide Cycle, PopulatedFrom;
      AtSlot(k, k, rest);
      ZeroOldest(k);
      cursor := cursor.next;
    }

    /** The body of the flush loop for a populated slot: remove the record and move on, if all seems well. */
    method TryOldest(line: Line, e: Exchange, ghost k: nat, ghost rest: seq<Info>) returns (ok: bool, sent: seq<Packet>)
      requires At(k, k, rest) && k < size
      modifies line, this`pending, this`cursor, cursor`populated, cursor`info, cursor`remaining
      ensures ok == Believed(old(line.Carried()), e) && line.Carried() == AfterExchange(old(line.Carried()), e)
      ensures rest != [] && sent == if e.write.Written? then [Packet(rest[0], |rest| - 1)] else []
      ensures ok ==> At(k + 1, k + 1, rest[1..]) && (cursor == nodes[0] <==> k + 1 == size)
      ensures !ok ==> At(k, k, rest)
    {
      hide Cycle, InfosFrom, PopulatedFrom, Believed, AfterExchange;
      AtSlot(k, k, rest);
      ok, sent := Try(line, e);
      if ok {
        DropOldest(k, rest);
      }
    }

    /** The same for record number `tried` of the queue that is being flushed. */
    method TryRecord(line: Line, net: seq<Exchange>, tried: nat, sent: seq<Packet>, ghost queue: seq<Info>,
                     ghost st: Statics, ghost k: nat)
      returns (ok: bool, all: seq<Packet>)
      requires tried <= |queue| && At(k, k, queue[tried..]) && k < size
      requires OnTrack(queue, st, net, line.Carried(), tried, sent)
      modifies line, this`pending, this`cursor, cursor`populated, cursor`info, cursor`remaining
      ensures ok ==>
        && tried < |queue| && At(k + 1, k + 1, queue[tried + 1..]) && (cursor == nodes[0] <==> k + 1 == size)
        && OnTrack(queue, st, net, line.Carried(), tried + 1, all)
      ensures !ok ==> At(k, k, queue[tried..]) && Ended(queue, st, net, line.Carried(), tried, all)
    {
      hide At, Believed, AfterExchange, Session.Delivered, Session.Retained, Session.CarriedAfter;
      ok, all := false, sent;
      if tried < |net| {
        var packets;
        ghost var now, rest := line.Carried(), queue[tried..];
        ok, packets := TryOldest(line, net[tried], k, rest);
        GoOn(queue, st, net, now, tried, sent);
        all := sent + packets;
        assert rest[1..] == queue[tried + 1..];
      } else {
        RunOut(queue, st, net, line.Carried(), tried, sent);
      }
    }

    /** The whole queue has been dealt with, or the flush has been broken off at this record. */
    ghost predicate Over(line: Line, start: Node, tried: nat, sent: seq<Packet>, queue: seq<Info>, st: Statics,
                         net: seq<Exchange>)
      reads this, slots, line
    {
      Valid() && cursor == start && tried <= |queue| && Contents() == queue[tried..]
      && Ended(queue, st, net, line.Carried(), tried, sent)
    }

    /** The flush has come to slot k, the cursor's. */
    ghost predicate Under(line: Line, start: Node, tried: nat, sent: seq<Packet>, queue: seq<Info>, st: Statics,
                          net: seq<Exchange>, k: nat, full: nat)
      reads this, slots, line
    {
      tried <= |queue| && k < size && At(k, full, queue[tried..]) && start == nodes[0]
      && OnTrack(queue, st, net, line.Carried(), tried, sent)
    }

    /** One turn of the loop, whose condition is the first result. */
    method Visit(line: Line, net: seq<Exchange>, start: Node, tried: nat, sent: seq<Packet>, ghost queue: seq<Info>,
                 ghost st: Statics, ghost k: nat, ghost full: nat)
      returns (more: bool, now: nat, all: seq<Packet>, ghost ahead: nat)
      requires Under(line, start, tried, sent, queue, st, net, k, full)
      modifies line, this`cursor, this`pending, cursor`populated, cursor`info, cursor`remaining
      ensures more ==> Under(line, start, now, all, queue, st, net, k + 1, ahead)
      ensures !more ==> Over(line, start, now, all, queue, st, net)
    {
      hide OnTrack, At, Ended, Valid, Contents;
      now, all, ahead := tried, sent, full;
      AtSlot(k, full, queue[tried..]);
      if cursor.populated {
        var ok;
        ok, all := TryRecord(line, net, tried, sent, queue, st, k);
        if !ok {
          Rewind(start, k, full, queue[tried..]);
          more := false;
          return;
        }
        now, ahead := tried + 1, full + 1;
      } else {
        Skip(k, full, queue[tried..]);
      }
      more := cursor != start;
      if !more {
        AtEnd(k + 1, ahead, queue[now..]);
        RunOut(queue, st, net, line.Carried(), now, all);
      }
    }

    /**
     buddy_flush_ringbuffer over a network with these exchanges, one for each populated slot that is tried;
     beyond the last of them the connection is broken. Both exits of the loop leave the cursor and the links
     as they were, and the prefix of the queue whose exchanges were taken for good ones is all that is gone.
     */
    method Flush(line: Line, command: Command, net: seq<Exchange>) returns (sent: seq<Packet>)
      requires Valid()
      modifies line, this`cursor, this`pending, slots`populated, slots`info, slots`remaining
      ensures Valid()
      ensures nodes == old(nodes) && slots == old(slots) && cursor == old(cursor)
      ensures var st := Answering(old(line.Carried()), command);
        && sent == Session.Delivered(old(Contents()), st, net)
        && Contents() == Session.Retained(old(Contents()), st, net)
        && line.Carried() == Session.CarriedAfter(old(Contents()), st, net)
      ensures command != Ack && (net == [] || !net[0].read.AckRead?) ==> Contents() == old(Contents())
    {
      Enter();
      ghost var queue := Contents();
      ghost var k: nat, full: nat := 0, size - pending;  // slots visited, first populated slot
      line.Answer(command);
      ghost var st := line.Carried();
      NoStaleAck(queue, old(line.Carried()), command, net);
      var start: Node, tried: nat, more := cursor, 0, true;
      sent := [];
      Begin(queue, st, net);
      hide OnTrack, At, Valid, Contents, Answering, Session.Delivered, Session.Retained, Session.CarriedAfter;
      while more
        invariant more ==> Under(line, start, tried, sent, queue, st, net, k, full)
        invariant !more ==> Over(line, start, tried, sent, queue, st, net)
        decreases more, size - k
      {
        AtSlot(k, full, queue[tried..]);
        more, tried, sent, full := Visit(line, net, start, tried, sent, queue, st, k, full);
        k := k + 1;
      }
    }

    lemma AtEnd(k: nat, full: nat, rest: seq<Info>)
      requires At(k, full, rest) && k >= size
      ensures rest == [] && Valid() && Contents() == rest && cursor == nodes[0]
    {
      hide Cycle;
    }

    /**
     buddy_free_ringbuffer: from any position of the cursor, release every slot exactly once, in the
     order of the cycle, never following the link of a slot already released.
     */
    method Free()
      requires Shape() && forall i :: 0 <= i < size ==> nodes[i].live
      modifies this`cursor, slots`live
      ensures cursor == null && nodes == old(nodes) && slots == old(slots)
      ensures forall i :: 0 <= i < size ==> !nodes[i].live
    {
      hide Cycle;
      Distinct(nodes, slots);
      var n := 0;
      while n < size
        invariant 0 <= n <= size
        invariant nodes == old(nodes) && slots == old(slots) && Cycle(nodes, slots)
        invariant cursor == if n < size then nodes[n] else nodes[0]
        invariant forall i :: 0 <= i < size ==> (nodes[i].live <==> i >= n)
      {
        Link(nodes, slots, n);
        var node := cursor.Successor();
        cursor.Release();
        cursor := node;
        n := n + 1;
      }
      cursor := null;
    }
  }
}
