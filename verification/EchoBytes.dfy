/** The bytes of every run of the echo server: what the NIC took for a connection against what was
    delivered for it. */
module EchoBytes {
  import opened SeqArith
  import opened Connection
  import opened Lifecycle
  import opened Generations
  import opened EchoServer
  import opened EchoModel
  import opened EchoClose

  /** The payload of an incarnation's data items, in order. */
  function DataOf(items: seq<Item>, inc: Inc): seq<u8> {
    if items == [] then []
    else
      var last := items[|items| - 1];
      DataOf(items[..|items| - 1], inc) + (if last.inc == inc && last.IsData() then last.work.bytes else [])
  }

  lemma {:induction false} DataAppend(a: seq<Item>, b: seq<Item>, inc: Inc)
    ensures DataOf(a + b, inc) == DataOf(a, inc) + DataOf(b, inc)
  {
    if b == [] {
      assert a + b == a;
    } else {
      assert (a + b)[..|a + b| - 1] == a + b[..|b| - 1];
      DataAppend(a, b[..|b| - 1], inc);
    }
  }

  lemma DataOne(x: Item, inc: Inc)
    ensures DataOf([x], inc) == if x.inc == inc && x.IsData() then x.work.bytes else []
  {
    assert [x][..0] == [];
  }

  /** Chunking loses and reorders nothing. */
  lemma {:induction false} ChunksCarry(conn: ConnId, bytes: seq<u8>, owner: Inc, prev: nat, inc: Inc)
    ensures DataOf(TagItems(Chunks(conn, bytes), owner, prev), inc) == if owner == inc then bytes else []
    decreases |bytes|
  {
    hide TagItems, DataOf;
    if bytes == [] {
      NoItems(owner, prev, inc);
    } else {
      var n := Min(|bytes|, CHUNK);
      var head := Item(WorkItem(DataItem, conn, bytes[..n]), owner, prev);
      var rest := TagItems(Chunks(conn, bytes[n..]), owner, prev);
      TagCons(head.work, Chunks(conn, bytes[n..]), owner, prev);
      DataAppend([head], rest, inc);
      DataOne(head, inc);
      ChunksCarry(conn, bytes[n..], owner, prev, inc);
      assert bytes == bytes[..n] + bytes[n..];
    }
  }

  lemma TagCons(w: WorkItem, items: seq<WorkItem>, owner: Inc, prev: nat)
    ensures TagItems([w] + items, owner, prev) == [Item(w, owner, prev)] + TagItems(items, owner, prev)
  {
  }

  lemma ItemsCarry(conn: ConnId, ev: Event, owner: Inc, prev: nat, inc: Inc)
    ensures DataOf(TagItems(ItemsOf(conn, ev), owner, prev), inc)
         == if ev.Data? && owner == inc then ev.bytes else []
  {
    hide DataOf, Chunks;
    match ev
    case Data(bytes) => ChunksCarry(conn, bytes, owner, prev, inc);
    case PeerClosed => OneItem(WorkItem(PeerClosedItem, conn, []), owner, prev, inc);
    case Reset => OneItem(WorkItem(ResetItem, conn, []), owner, prev, inc);
    case _ => NoItems(owner, prev, inc);
  }

  lemma OneItem(w: WorkItem, owner: Inc, prev: nat, inc: Inc)
    requires !w.what.DataItem?
    ensures DataOf(TagItems([w], owner, prev), inc) == []
  {
    assert TagItems([w], owner, prev) == [Item(w, owner, prev)];
    DataOne(Item(w, owner, prev), inc);
  }

  lemma NoItems(owner: Inc, prev: nat, inc: Inc)
    ensures DataOf(TagItems([], owner, prev), inc) == []
  {
  }

  /** The front item's bytes so far, if it is data of this incarnation. */
  function Partial(s: World, inc: Inc): seq<u8>
    requires s.popped < |s.items| ==> s.sent <= |s.items[s.popped].work.bytes|
  {
    if s.popped < |s.items| && s.items[s.popped].inc == inc && s.items[s.popped].IsData()
    then s.items[s.popped].work.bytes[..s.sent] else []
  }

  /** What the outbound thread has got through of an incarnation's data: the popped items, and the
      sent part of the front one. */
  function Reached(s: World, inc: Inc): seq<u8>
    requires SentOk(s)
  {
    DataOf(s.items[..s.popped], inc) + Partial(s, inc)
  }

  predicate SentOk(s: World) {
    && s.popped <= s.pushed <= |s.items|
    && (s.popped < |s.items| ==> s.sent <= |s.items[s.popped].work.bytes|)
    && (s.FrontIsData() || (s.sent == 0 && s.look == NotAsked))
  }

  /** Not sendable, and never again: the slot's incarnation is over, closed, or a later one. */
  predicate Dead(s: World, inc: Inc) {
    && inc.slot < |s.slots|
    && var i := s.slots[inc.slot];
       inc.n < i.n || (inc.n == i.n && (i.terminated || i.finSent || i.released))
  }

  /** Whatever happens, what is not sendable stays so. */
  lemma DeadStays(s: World, a: Action, inc: Inc)
    requires Enabled(s, a) && Dead(s, inc)
    ensures Dead(Step(s, a), inc)
  {
    hide GenOf, ItemsOf, TagItems, Advance, Sendable;
  }

  ghost predicate Whole(s: World, inc: Inc)
    requires SentOk(s)
  {
    Get(s.taken, inc) == Reached(s, inc)
  }

  /** Per incarnation: delivered is what was enqueued; taken is a prefix of what the outbound thread
      has got through, and all of it while the connection is sendable, and also from a yes of
      sendable() until the send() that follows it. */
  ghost predicate BytesInv(s: World) {
    && SentOk(s)
    && (forall inc :: Get(s.delivered, inc) == DataOf(s.items, inc))
    && (forall inc :: Get(s.taken, inc) <= Reached(s, inc))
    && (forall inc :: Dead(s, inc) || Whole(s, inc))
    && (s.look == No ==> Dead(s, s.Front().inc)) && (s.look == Yes ==> Whole(s, s.Front().inc))
  }

  /** What the outbound thread finds at the slot of a data item is that item's own incarnation. */
  lemma OwnerIsCurrent(s: World)
    requires QueueInv(s) && s.FrontIsData()
    ensures var f := s.Front();
      && f.work.conn.slot == f.inc.slot < |s.slots| && s.slots[f.inc.slot].n == f.inc.n
      && (Sendable(s, f.work.conn) <==> !Dead(s, f.inc))
  {
    hide GenOf, SlotsInv, InTurn;
    assert ItemOk(s, s.Front()) && Waits(s, s.Front());
  }

  lemma BytesDeliver(s: World, slot: nat, ev: Event)
    requires BytesInv(s) && Enabled(s, Deliver(slot, ev))
    ensures BytesInv(Step(s, Deliver(slot, ev)))
  {
    hide DataOf, ItemsOf, TagItems, GenOf, Advance, Reached, Dead, SentOk;
    var s' := Step(s, Deliver(slot, ev));
    DeliverReached(s, slot, ev, Inc(0, 0));
    forall inc
      ensures Get(s'.delivered, inc) == DataOf(s'.items, inc)
      ensures Get(s'.taken, inc) <= Reached(s', inc)
      ensures Dead(s', inc) || Whole(s', inc)
    {
      DeliverData(s, slot, ev, inc);
      DeliverReached(s, slot, ev, inc);
      DeliverDead(s, slot, ev, inc);
      assert Dead(s, inc) || Whole(s, inc);
    }
    if s.look != NotAsked {
      LookHasFront(s);
      var front := s.Front().inc;
      DeliverReached(s, slot, ev, front);
      DeliverDead(s, slot, ev, front);
      assert s.look == No ==> Dead(s', front);
      assert s.look == Yes ==> Whole(s', front);
    }
  }

  lemma LookHasFront(s: World)
    requires SentOk(s) && s.look != NotAsked
    ensures s.FrontIsData()
  {
  }

  lemma DeliverData(s: World, slot: nat, ev: Event, inc: Inc)
    requires Enabled(s, Deliver(slot, ev)) && Get(s.delivered, inc) == DataOf(s.items, inc)
    ensures var s' := Step(s, Deliver(slot, ev)); Get(s'.delivered, inc) == DataOf(s'.items, inc)
  {
    hide DataOf, ItemsOf, TagItems, GenOf, Advance;
    var owner, prev := Inc(slot, s.slots[slot].n), s.slots[slot].prev;
    ItemsCarry(owner.Id(), ev, owner, prev, inc);
    DataAppend(s.items, TagItems(ItemsOf(owner.Id(), ev), owner, prev), inc);
  }

  lemma DeliverDead(s: World, slot: nat, ev: Event, inc: Inc)
    requires Enabled(s, Deliver(slot, ev))
    ensures Dead(Step(s, Deliver(slot, ev)), inc) == Dead(s, inc)
  {
    hide ItemsOf, TagItems, GenOf, Advance;
  }

  lemma DeliverReached(s: World, slot: nat, ev: Event, inc: Inc)
    requires SentOk(s) && Enabled(s, Deliver(slot, ev))
    ensures var s' := Step(s, Deliver(slot, ev)); SentOk(s') && Reached(s', inc) == Reached(s, inc)
    ensures s.HasFront() ==> Step(s, Deliver(slot, ev)).HasFront() && Step(s, Deliver(slot, ev)).Front() == s.Front()
  {
    hide DataOf, ItemsOf, TagItems, GenOf, Advance;
    var s' := Step(s, Deliver(slot, ev));
    assert s'.items[..s.popped] == s.items[..s.popped];
    if s.popped == |s.items| {
      assert s.sent == 0;
      assert Partial(s', inc) == [];
    }
  }

  lemma BytesPop(s: World, inc: Inc)
    requires s.HasFront()
    ensures DataOf(s.items[..s.popped + 1], inc)
         == DataOf(s.items[..s.popped], inc)
            + (if s.Front().inc == inc && s.Front().IsData() then s.Front().work.bytes else [])
  {
    assert s.items[..s.popped + 1][..s.popped] == s.items[..s.popped];
  }

  lemma SendReached(s: World, k: nat, inc: Inc)
    requires SentOk(s) && Enabled(s, SendSome(k))
    ensures var f, s' := s.Front(), Step(s, SendSome(k));
      && SentOk(s')
      && Reached(s', inc)
         == Reached(s, inc) + (if inc == f.inc then f.work.bytes[s.sent..s.sent + k] else [])
  {
    hide DataOf, GenOf;
    var f, s' := s.Front(), Step(s, SendSome(k));
    Extended(DataOf(s.items[..s.popped], inc), f.work.bytes, s.sent, k);
    assert s'.items == s.items && s'.popped == s.popped;
  }

  lemma Extended(d: seq<u8>, bytes: seq<u8>, sent: nat, k: nat)
    requires sent + k <= |bytes|
    ensures d + bytes[..sent] + bytes[sent..sent + k] == d + bytes[..sent + k]
    ensures d + [] + [] == d + []
  {
  }

  lemma BytesSend(s: World, k: nat)
    requires QueueInv(s) && BytesInv(s) && Enabled(s, SendSome(k))
    ensures BytesInv(Step(s, SendSome(k)))
  {
    hide DataOf, Reached, QueueInv, SentOk;
    var f, s' := s.Front(), Step(s, SendSome(k));
    OwnerIsCurrent(s);
    SendReached(s, k, f.inc);
    forall inc
      ensures Get(s'.taken, inc) <= Reached(s', inc)
      ensures Dead(s', inc) || Whole(s', inc)
    {
      SendReached(s, k, inc);
      assert Dead(s', inc) == Dead(s, inc);
      assert Reached(s, inc) + [] == Reached(s, inc);
    }
  }

  /** Popping an item: nothing is got through beyond it, and less than all of it only if it was data
      of a dead connection. */
  lemma PopReached(s: World, a: Action, inc: Inc)
    requires SentOk(s) && Enabled(s, a) && (a.FinishData? || a.CloseItem?)
    ensures var s' := Step(s, a);
      && SentOk(s') && Reached(s, inc) <= Reached(s', inc)
      && (Reached(s, inc) != Reached(s', inc) ==> s.look == No && inc == s.Front().inc)
  {
    hide DataOf, GenOf;
    BytesPop(s, inc);
    var f := s.Front();
    if f.inc == inc && f.IsData() {
      assert f.work.bytes == f.work.bytes[..s.sent] + f.work.bytes[s.sent..];
      assert Partial(Step(s, a), inc) == [];
    }
  }

  lemma BytesFinish(s: World, a: Action)
    requires BytesInv(s) && Enabled(s, a) && (a.FinishData? || a.CloseItem?)
    ensures BytesInv(Step(s, a))
  {
    hide DataOf, Reached, SentOk, Dead, CloseOnce;
    var s' := Step(s, a);
    PopKeeps(s, a);
    forall inc
      ensures Get(s'.taken, inc) <= Reached(s', inc)
      ensures Dead(s', inc) || Whole(s', inc)
    {
      PopReached(s, a, inc);
      if Dead(s, inc) {
        DeadStays(s, a, inc);
      }
    }
  }

  lemma PopKeeps(s: World, a: Action)
    requires SentOk(s) && Enabled(s, a) && (a.FinishData? || a.CloseItem?)
    ensures var s' := Step(s, a);
      && SentOk(s') && s'.items == s.items && s'.taken == s.taken && s'.delivered == s.delivered
      && s'.look == NotAsked
  {
  }

  lemma BytesCheck(s: World)
    requires QueueInv(s) && BytesInv(s) && Enabled(s, Check)
    ensures BytesInv(Step(s, Check))
  {
    hide DataOf, QueueInv, Sendable;
    OwnerIsCurrent(s);
    assert forall inc :: Reached(Step(s, Check), inc) == Reached(s, inc);
    assert forall inc :: Dead(Step(s, Check), inc) == Dead(s, inc);
  }

  /** The receiver's other steps, and the ring's. */
  lemma BytesOther(s: World, a: Action)
    requires BytesInv(s) && Enabled(s, a) && (a.Reopen? || a.Terminate? || a.Push?)
    ensures BytesInv(Step(s, a))
  {
    hide DataOf, Dead;
    var s' := Step(s, a);
    forall inc
      ensures SentOk(s') && Reached(s', inc) == Reached(s, inc)
      ensures Dead(s, inc) ==> Dead(s', inc)
    {
      if Dead(s, inc) {
        DeadStays(s, a, inc);
      }
    }
  }

  lemma BytesStep(s: World, a: Action)
    requires QueueInv(s) && BytesInv(s) && Enabled(s, a)
    ensures BytesInv(Step(s, a))
  {
    hide QueueInv, BytesInv, Step;
    match a
    case Deliver(slot, ev) => BytesDeliver(s, slot, ev);
    case SendSome(k) => BytesSend(s, k);
    case FinishData => BytesFinish(s, a);
    case CloseItem => BytesFinish(s, a);
    case Check => BytesCheck(s);
    case _ => BytesOther(s, a);
  }

  lemma Prefix(s: World, inc: Inc)
    requires SentOk(s)
    ensures Reached(s, inc) <= DataOf(s.items, inc)
  {
    hide DataOf;
    DataAppend(s.items[..s.popped], s.items[s.popped..], inc);
    assert s.items == s.items[..s.popped] + s.items[s.popped..];
    if s.popped < |s.items| {
      var f, rest := s.items[s.popped], s.items[s.popped + 1..];
      assert s.items[s.popped..] == [f] + rest;
      DataAppend([f], rest, inc);
      DataOne(f, inc);
    }
  }
}
