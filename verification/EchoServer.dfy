/** The inbound side of the echo server: events become work items, in order, through the ring or
    the overflow queue, with the consumer running between any two of its steps. */
module EchoServer {
  import opened SeqArith
  import opened Connection
  import opened Rings

  const CHUNK: nat := 2048

  datatype ConnId = ConnId(slot: nat, generation: u32)
  datatype Kind = DataItem | PeerClosedItem | ResetItem
  datatype WorkItem = WorkItem(what: Kind, conn: ConnId, bytes: seq<u8>)

  /** A payload cut into items of at most 2048 bytes. */
  function Chunks(conn: ConnId, bytes: seq<u8>): seq<WorkItem>
    decreases |bytes|
  {
    if bytes == [] then []
    else
      var n := Min(|bytes|, CHUNK);
      [WorkItem(DataItem, conn, bytes[..n])] + Chunks(conn, bytes[n..])
  }

  /** handle: the work items an event becomes. */
  function ItemsOf(conn: ConnId, ev: Event): seq<WorkItem> {
    match ev
    case Data(bytes) => Chunks(conn, bytes)
    case PeerClosed => [WorkItem(PeerClosedItem, conn, [])]
    case Reset => [WorkItem(ResetItem, conn, [])]
    case _ => []
  }

  class Server {
    const ring: SpscRing<WorkItem>
    var overflow: seq<WorkItem>
    ghost var enqueued: seq<WorkItem>    // every item handle() ever produced

    /** What was ever pushed, then the overflow, are the items in the order enqueued. */
    ghost predicate Valid()
      reads this, ring, ring.items
    {
      && ring.Valid() && !ring.reserved && ring.filled == []
      && ring.pushed + overflow == enqueued
    }

    constructor(ring: SpscRing<WorkItem>)
      requires ring.Valid() && !ring.reserved && ring.filled == [] && ring.pushed == []
      ensures Valid() && this.ring == ring && overflow == [] && enqueued == []
    {
      this.ring, overflow, enqueued := ring, [], [];
    }

    /** reserve, copy and commit one item; false if the ring was full. */
    method TryPush(item: WorkItem) returns (ok: bool)
      requires ring.Valid() && ring.filled == []
      modifies ring, ring.items
      ensures ring.Valid() && !ring.reserved && ring.filled == []
      ensures ring.pushed == if ok then old(ring.pushed) + [item] else old(ring.pushed)
      ensures old(ring.popped) <= ring.popped
      ensures ring.fulls == old(ring.fulls) + (if ok then 0 else 1)
    {
      ring.ConsumerRuns();
      var slot := ring.Reserve();
      ok := slot.Slot?;
      if ok {
        ring.ConsumerRuns();
        ring.Fill(slot.index, item);
        ring.ConsumerRuns();
        ring.Commit();
      }
      ring.ConsumerRuns();
    }

    /** enqueue never waits: an item that finds the ring full, or others already waiting, waits
        itself in the overflow queue. */
    method Enqueue(item: WorkItem)
      requires Valid()
      modifies this, ring, ring.items
      ensures Valid() && enqueued == old(enqueued) + [item]
      ensures if old(overflow) == [] && ring.fulls == old(ring.fulls)
              then overflow == [] else overflow == old(overflow) + [item]
    {
      hide ring.Valid;
      enqueued := enqueued + [item];
      var ok := false;
      if overflow == [] {
        ok := TryPush(item);
      }
      if !ok {
        overflow := overflow + [item];
      }
      assert ring.pushed + overflow == enqueued;
    }

    /** drain_overflow: waiting items move to the ring in order, until one finds it full. */
    method DrainOverflow()
      requires Valid()
      modifies this, ring, ring.items
      ensures Valid() && enqueued == old(enqueued)
      ensures old(ring.pushed) <= ring.pushed && |overflow| <= |old(overflow)|
      ensures overflow == [] || ring.fulls > old(ring.fulls)
    {
      hide ring.Valid;
      var full := false;
      while overflow != [] && !full
        invariant Valid() && enqueued == old(enqueued)
        invariant old(ring.pushed) <= ring.pushed && |overflow| <= |old(overflow)|
        invariant ring.fulls >= old(ring.fulls) && (full ==> ring.fulls > old(ring.fulls))
        decreases |overflow|, !full
      {
        var ok := TryPush(overflow[0]);
        if ok {
          overflow := overflow[1..];
        } else {
          full := true;
        }
        assert ring.pushed + overflow == enqueued;
      }
    }

    /** handle. */
    method Handle(conn: ConnId, ev: Event)
      requires Valid()
      modifies this, ring, ring.items
      ensures Valid() && enqueued == old(enqueued) + ItemsOf(conn, ev)
    {
      match ev
      case Accepted =>
      case Data(bytes) => EnqueueChunks(conn, bytes);
      case PeerClosed => Enqueue(WorkItem(PeerClosedItem, conn, []));
      case Reset => Enqueue(WorkItem(ResetItem, conn, []));
      case CleanClose =>
    }

    method EnqueueChunks(conn: ConnId, bytes: seq<u8>)
      requires Valid()
      modifies this, ring, ring.items
      ensures Valid() && enqueued == old(enqueued) + Chunks(conn, bytes)
    {
      hide Valid, Chunks;
      var off := 0;
      ghost var done: seq<WorkItem> := [];
      assert bytes[0..] == bytes;
      while off < |bytes|
        invariant off <= |bytes| && Valid() && enqueued == old(enqueued) + done
        invariant done + Chunks(conn, bytes[off..]) == Chunks(conn, bytes)
      {
        var n := Min(|bytes| - off, CHUNK);
        ChunksStep(conn, bytes, off);
        var item := WorkItem(DataItem, conn, bytes[off..off + n]);
        Enqueue(item);
        done := done + [item];
        off := off + n;
      }
      ChunksEnd(conn, bytes);
    }
  }

  /** At every moment the items popped, those in the ring and those in the overflow queue, in this order,
      are the items ever enqueued, and the ring holds at most its capacity of them. */
  lemma Fifo(s: Server)
    requires s.Valid()
    ensures s.ring.popped <= |s.ring.pushed|
    ensures s.ring.pushed[..s.ring.popped] + s.ring.Contents() + s.overflow == s.enqueued
    ensures |s.ring.Contents()| <= s.ring.items.Length
  {
    assert s.ring.pushed == s.ring.pushed[..s.ring.popped] + s.ring.Contents();
  }

  lemma ChunksStep(conn: ConnId, bytes: seq<u8>, off: nat)
    requires off < |bytes|
    ensures var n := Min(|bytes| - off, CHUNK);
      Chunks(conn, bytes[off..])
      == [WorkItem(DataItem, conn, bytes[off..off + n])] + Chunks(conn, bytes[off + n..])
  {
    var n := Min(|bytes| - off, CHUNK);
    assert bytes[off..][..n] == bytes[off..off + n] && bytes[off..][n..] == bytes[off + n..];
  }

  lemma ChunksEnd(conn: ConnId, bytes: seq<u8>)
    ensures Chunks(conn, bytes[|bytes|..]) == []
  {
  }
}
