/**
 * The audio packet queue (PacketQueue with packet_queue_init, packet_queue_put and
 * packet_queue_get): a singly linked FIFO of compressed packets with a first and a last
 * pointer, a packet counter and a byte counter. The mutex and condition variable are not
 * modelled: each locked section is one atomic method.
 */
module PacketQueues {

  /** A compressed packet (AVPacket); only its payload, and so its byte size, matters here. */
  datatype Packet = Packet(payload: seq<bv8>)
  {
    function Size(): nat { |payload| }
  }

  /** The sum of the byte sizes of the packets in `s`. */
  function TotalSize(s: seq<Packet>): nat
  {
    if s == [] then 0 else s[0].Size() + TotalSize(s[1..])
  }

  /** Appending a packet adds its size to the total: the byte counter of `put` stays exact. */
  lemma {:induction false} TotalSizeAppend(s: seq<Packet>, p: Packet)
    ensures TotalSize(s + [p]) == TotalSize(s) + p.Size()
  {
    if s != [] {
      assert (s + [p])[1..] == s[1..] + [p];
      TotalSizeAppend(s[1..], p);
    }
  }

  /**
   * The byte counter is zero whenever the queue is empty, but not conversely: a queue holding
   * one packet with an empty payload has one packet and zero bytes.
   */
  lemma EmptyQueueHasNoBytes(s: seq<Packet>)
    ensures s == [] ==> TotalSize(s) == 0
    ensures |[Packet([])]| == 1 && TotalSize([Packet([])]) == 0
  {
  }

  /**
   * What one call of packet_queue_get comes to. The C function returns -1 (Stopped), 0
   * (NoData) or 1 (Got, with the head packet written to the caller). WouldBlock stands for a
   * blocking call that found the queue empty and is now waiting on the condition variable:
   * when it wakes up it re-runs its loop from the top, which is the same as calling Get again.
   */
  datatype GetResult = Stopped | NoData | Got(pkt: Packet) | WouldBlock
  {
    /** The value packet_queue_get returns; a waiting call has not returned yet. */
    function Code(): (c: int)
      requires !WouldBlock?
      ensures -1 <= c <= 1
      ensures c == 1 <==> Got?
      ensures c < 0 <==> Stopped?
    {
      match this
      case Stopped => -1
      case NoData => 0
      case Got(_) => 1
    }
  }

  /** A list cell (AVPacketList). */
  class Node {
    var pkt: Packet
    var next: Node?

    constructor (pkt: Packet)
      ensures this.pkt == pkt && next == null
    {
      this.pkt := pkt;
      next := null;
    }
  }

  class PacketQueue {
    var first: Node?     // first_pkt
    var last: Node?      // last_pkt
    var nbPackets: int   // nb_packets
    var size: int        // size: the bytes queued

    // public view: the queued packets, head first
    ghost var contents: seq<Packet>
    // the list cells in order, and the objects the queue uses
    ghost var spine: seq<Node>
    ghost var Repr: set<object>

    ghost predicate Valid()
      reads this, Repr
    {
      this in Repr &&
      (forall n :: n in spine ==> n in Repr) &&
      |spine| == |contents| &&
      (forall i :: 0 <= i < |spine| ==> spine[i].pkt == contents[i]) &&
      (forall i :: 0 <= i < |spine| - 1 ==> spine[i].next == spine[i + 1]) &&
      (spine == [] ==> first == null && last == null) &&
      (spine != [] ==> first == spine[0] && last == spine[|spine| - 1] && last.next == null) &&
      nbPackets == |contents| &&
      size == TotalSize(contents)
    }

    /**
     * The queue invariant in terms of the C fields: the end pointers are null together, exactly
     * when nothing is queued, nb_packets counts the packets and size sums their bytes.
     */
    lemma ValidFields()
      requires Valid()
      ensures (first == null <==> last == null) && (first == null <==> contents == [])
      ensures nbPackets == |contents| && size == TotalSize(contents)
    {
    }

    /** packet_queue_init: an empty queue, every field zero. */
    constructor ()
      ensures Valid() && fresh(Repr)
      ensures contents == [] && nbPackets == 0 && size == 0
      ensures first == null && last == null
    {
      first, last := null, null;
      nbPackets, size := 0, 0;
      contents, spine := [], [];
      Repr := {this};
    }

    /**
     * packet_queue_put. `dupOk` and `allocOk` are the outcomes of duplicating the packet and of
     * allocating its list cell; either failure returns -1 before the queue is touched.
     */
    method Put(pkt: Packet, dupOk: bool, allocOk: bool) returns (ret: int)
      requires Valid()
      modifies Repr
      ensures Valid() && fresh(Repr - old(Repr))
      ensures ret == (if dupOk && allocOk then 0 else -1)
      ensures ret == 0 ==> contents == old(contents) + [pkt]
      ensures ret == 0 ==> nbPackets == old(nbPackets) + 1 && size == old(size) + pkt.Size()
      ensures ret == 0 ==> last != null && last.pkt == pkt && last.next == null
      ensures ret != 0 ==> Repr == old(Repr) && unchanged(old(Repr))
    {
      if !dupOk {
        return -1;
      }
      if !allocOk {
        return -1;
      }
      Append(pkt);
      ret := 0;
    }

    /** The locked part of packet_queue_put: link a fresh cell after last_pkt, update the counters. */
    method Append(pkt: Packet)
      requires Valid()
      modifies Repr
      ensures Valid() && fresh(Repr - old(Repr))
      ensures contents == old(contents) + [pkt]
      ensures nbPackets == old(nbPackets) + 1 && size == old(size) + pkt.Size()
      ensures last != null && last.pkt == pkt && last.next == null
    {
      // the last cell is the only one whose next is null
      forall i | 0 <= i < |spine| - 1
        ensures spine[i] != last
      {
        assert spine[i].next == spine[i + 1];
      }
      var cell := new Node(pkt);
      if last == null {
        first := cell;
      } else {
        last.next := cell;
      }
      last := cell;
      nbPackets := nbPackets + 1;
      size := size + cell.pkt.Size();
      TotalSizeAppend(contents, pkt);
      contents := contents + [pkt];
      spine := spine + [cell];
      Repr := Repr + {cell};
      assert forall i :: 0 <= i < |spine| - 1 ==> spine[i].next == spine[i + 1];
      assert forall i :: 0 <= i < |spine| ==> spine[i].pkt == contents[i];
    }

    /**
     * packet_queue_get with the global quit flag passed in. The flag is looked at before the
     * queue, so a set flag stops the call even when packets are queued.
     */
    method Get(block: bool, quit: bool) returns (r: GetResult)
      requires Valid()
      modifies this
      ensures Valid() && Repr == old(Repr)
      ensures r.Stopped? <==> quit
      ensures !quit && old(contents) != [] ==> r == Got(old(contents)[0])
      ensures !quit && old(contents) == [] ==> r == (if block then WouldBlock else NoData)
      // the C return value: -1 on quit, 1 with a packet, 0 for an empty non-blocking call
      ensures !r.WouldBlock? ==> r.Code() == (if quit then -1 else if old(contents) == [] then 0 else 1)
      ensures r.Got? ==> contents == old(contents)[1..]
      ensures r.Got? ==> nbPackets == old(nbPackets) - 1 && size == old(size) - r.pkt.Size()
      ensures r.Got? ==> (last == null <==> contents == [])
      ensures !r.Got? ==> unchanged(this)
    {
      if quit {
        return Stopped;
      }
      var head := first;
      if head != null {
        first := head.next;
        if first == null {
          last := null;
        }
        nbPackets := nbPackets - 1;
        size := size - head.pkt.Size();
        r := Got(head.pkt);
        contents := contents[1..];
        spine := spine[1..];
      } else if !block {
        r := NoData;
      } else {
        r := WouldBlock;
      }
    }
  }

  /** The producer putting every packet of `ps`, every duplication and allocation succeeding. */
  method PutAll(q: PacketQueue, ps: seq<Packet>)
    requires q.Valid()
    modifies q.Repr
    ensures q.Valid() && fresh(q.Repr - old(q.Repr))
    ensures q.contents == old(q.contents) + ps
  {
    ghost var start := q.contents;
    for i := 0 to |ps|
      invariant q.Valid() && fresh(q.Repr - old(q.Repr))
      invariant q.contents == start + ps[..i]
    {
      var ret := q.Put(ps[i], true, true);
      assert ps[..i + 1] == ps[..i] + [ps[i]];
    }
    assert ps[..|ps|] == ps;
  }

  /** The consumer taking `n` packets with blocking gets and the quit flag clear. */
  method TakeAll(q: PacketQueue, n: nat) returns (got: seq<Packet>)
    requires q.Valid() && n <= |q.contents|
    modifies q
    ensures q.Valid() && q.Repr == old(q.Repr)
    ensures got == old(q.contents)[..n] && q.contents == old(q.contents)[n..]
  {
    ghost var start := q.contents;
    got := [];
    for i := 0 to n
      invariant q.Valid() && q.Repr == old(q.Repr)
      invariant got == start[..i] && q.contents == start[i..]
    {
      var r := q.Get(true, false);
      assert start[i..][1..] == start[i + 1..];
      assert start[..i + 1] == start[..i] + [start[i]];
      got := got + [r.pkt];
    }
  }

  /**
   * The FIFO guarantee: put every packet of `ps` (all allocations succeeding), then take as many
   * packets with blocking gets and quit clear; the packets come back in the order they went in,
   * and the queue is left empty.
   */
  method FifoRoundTrip(ps: seq<Packet>) returns (got: seq<Packet>)
    ensures got == ps
  {
    var q := new PacketQueue();
    PutAll(q, ps);
    got := TakeAll(q, |ps|);
    assert got == ps[..|ps|];
  }
}
