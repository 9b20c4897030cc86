/** Who is closed when, in every run of the echo server: the invariant of its queue and its slots. */
module EchoClose {
  import opened SeqArith
  import opened Connection
  import opened Lifecycle
  import opened Generations
  import opened EchoServer
  import opened EchoModel

  predicate SlotOk(i: SlotInfo) {
    && i.phase != Broken && i.last <= i.n && (i.last > 0 ==> i.prev < i.last) && i.prev <= i.last
    && (i.phase == NotYet ==> i.lastClosed == i.last && (i.last < i.n || i.n == 0))
    && (i.phase != NotYet ==> i.last == i.n > 0 && (i.lastClosed == i.prev || i.lastClosed == i.n))
    && (i.phase == Open ==> i.lastClosed == i.prev)
    && (i.phase != NotYet && i.prev > 0 && GenOf(i.prev) == GenOf(i.n) ==> i.lastClosed == i.prev)
    && (i.released <==> i.lastClosed == i.n > 0) && (i.finSent ==> i.released)
  }

  predicate ItemOk(s: World, x: Item) {
    && x.inc.slot < |s.slots| && x.work.conn == x.inc.Id()
    && var i := s.slots[x.inc.slot];
       && x.prev < x.inc.n <= i.last && (x.inc.n == i.last ==> x.prev == i.prev)
       && (x.Closing() && x.inc.n == i.n ==> i.phase == HalfClosed || i.phase == Over)
  }

  /** An item still in the queue is of the slot's last accepted incarnation or of its last closed one;
      a data item is of the incarnation that has the slot now, and that one is not closed. */
  predicate Waits(s: World, x: Item) {
    && x.inc.slot < |s.slots|
    && var i := s.slots[x.inc.slot];
       && (x.inc.n == i.last || x.inc.n == i.lastClosed) && i.lastClosed <= x.inc.n
       && (x.IsData() ==> x.inc.n == i.n && i.lastClosed < i.n)
  }

  /** Items of one slot are in the order of its incarnations, and closing items after data items. */
  predicate InTurn(x: Item, y: Item) {
    x.inc.slot == y.inc.slot ==> x.inc.n < y.inc.n || (x.inc.n == y.inc.n && (x.Closing() ==> y.Closing()))
  }

  predicate SlotsInv(s: World) {
    && |s.releasedGen| == |s.slots| && s.popped <= s.pushed <= |s.items|
    && forall k | 0 <= k < |s.slots| ::
         SlotOk(s.slots[k]) && s.releasedGen[k] == GenOf(s.slots[k].lastClosed)
  }

  predicate ItemsInv(s: World) {
    && (forall i | 0 <= i < |s.items| :: ItemOk(s, s.items[i]))
    && (forall i, j | 0 <= i < j < |s.items| :: InTurn(s.items[i], s.items[j]))
  }

  predicate QueueInv(s: World) {
    && SlotsInv(s) && ItemsInv(s)
    && forall i | s.popped <= i < |s.items| :: Waits(s, s.items[i])
  }

  /** Every call is of a connection whose slot it released; no id is closed twice; and of the closing
      items processed, exactly those of aliased incarnations led to no call. */
  predicate CallsInv(s: World) {
    && (forall i, j | 0 <= i < j < |s.calls| :: s.calls[i] != s.calls[j])
    && (forall c | c in s.calls :: c.slot < |s.slots| && 1 <= c.n <= s.slots[c.slot].lastClosed)
    && (forall k | 0 <= k < |s.slots| ::
          s.slots[k].lastClosed > 0 ==> Inc(k, s.slots[k].lastClosed) in s.calls)
  }

  predicate CloseInv(s: World) {
    && CallsInv(s) && s.popped <= |s.items|
    && (forall i | 0 <= i < |s.items| :: s.items[i].Aliased() ==> s.items[i].inc !in s.calls)
    && (forall i | 0 <= i < s.popped ::
          s.items[i].Closing() && !s.items[i].Aliased() ==> s.items[i].inc in s.calls)
  }

  lemma {:induction false} ChunksAreData(conn: ConnId, bytes: seq<u8>)
    ensures forall x | x in Chunks(conn, bytes) :: x.conn == conn && x.what.DataItem?
    decreases |bytes|
  {
    if bytes != [] {
      ChunksAreData(conn, bytes[Min(|bytes|, CHUNK)..]);
    }
  }

  /** Every item of an event carries the event's connection; a data event only has data items. */
  lemma ItemsBelong(conn: ConnId, ev: Event, inc: Inc, prev: nat)
    ensures forall x | x in TagItems(ItemsOf(conn, ev), inc, prev) ::
      && x.work.conn == conn && x.inc == inc && x.prev == prev
      && (x.Closing() <==> !ev.Data?) && (ev.Data? || ev.PeerClosed? || ev.Reset?)
  {
    hide GenOf;
    if ev.Data? {
      ChunksAreData(conn, ev.bytes);
    }
  }

  lemma ToldOk(i: SlotInfo, ev: Event)
    requires SlotOk(i) && i.n > 0 && Advance(i.phase, ev) != Broken
    ensures SlotOk(Told(i, ev)) && Told(i, ev).lastClosed == i.lastClosed && Told(i, ev).n == i.n
  {
  }

  /** Delivering an event leaves the items of before as they should be. */
  lemma DeliverOld(s: World, slot: nat, ev: Event, x: Item)
    requires SlotsInv(s) && slot < |s.slots| && s.slots[slot].n > 0
    requires Advance(s.slots[slot].phase, ev) != Broken && ItemOk(s, x)
    ensures var s' := Delivery(s, slot, ev);
      ItemOk(s', x) && (Waits(s, x) ==> Waits(s', x))
  {
    hide GenOf, ItemsOf, TagItems;
    assert SlotOk(s.slots[slot]);
  }

  /** And the new ones go behind them. */
  lemma DeliverNew(s: World, slot: nat, ev: Event, y: Item)
    requires QueueInv(s) && Enabled(s, Deliver(slot, ev))
    requires y in TagItems(ItemsOf(Inc(slot, s.slots[slot].n).Id(), ev), Inc(slot, s.slots[slot].n), s.slots[slot].prev)
    ensures var s' := Delivery(s, slot, ev); ItemOk(s', y) && Waits(s', y)
    ensures forall i | 0 <= i < |s.items| :: InTurn(s.items[i], y)
  {
    hide GenOf, ItemsOf, TagItems;
    var i := s.slots[slot];
    ItemsBelong(Inc(slot, i.n).Id(), ev, Inc(slot, i.n), i.prev);
    assert SlotOk(i);
    forall j | 0 <= j < |s.items|
      ensures InTurn(s.items[j], y)
    {
      assert ItemOk(s, s.items[j]);
    }
  }

  lemma NewTogether(s: World, slot: nat, ev: Event, x: Item, y: Item)
    requires slot < |s.slots|
    requires var inc := Inc(slot, s.slots[slot].n);
      var added := TagItems(ItemsOf(inc.Id(), ev), inc, s.slots[slot].prev); x in added && y in added
    ensures InTurn(x, y)
  {
    hide GenOf, ItemsOf, TagItems;
    var inc := Inc(slot, s.slots[slot].n);
    ItemsBelong(inc.Id(), ev, inc, s.slots[slot].prev);
  }

  lemma QueueDeliver(s: World, slot: nat, ev: Event)
    requires QueueInv(s) && Enabled(s, Deliver(slot, ev))
    ensures QueueInv(Step(s, Deliver(slot, ev)))
  {
    hide GenOf, ItemsOf, TagItems, ItemOk, Waits, InTurn, SlotOk, Advance, Told;
    var s' := Delivery(s, slot, ev);
    var inc := Inc(slot, s.slots[slot].n);
    var added := TagItems(ItemsOf(inc.Id(), ev), inc, s.slots[slot].prev);
    ToldOk(s.slots[slot], ev);
    forall i | 0 <= i < |s'.items|
      ensures ItemOk(s', s'.items[i]) && (s'.popped <= i ==> Waits(s', s'.items[i]))
    {
      if i < |s.items| {
        DeliverOld(s, slot, ev, s.items[i]);
      } else {
        assert s'.items[i] in added;
        DeliverNew(s, slot, ev, s'.items[i]);
      }
    }
    forall i, j | 0 <= i < j < |s'.items|
      ensures InTurn(s'.items[i], s'.items[j])
    {
      if j >= |s.items| {
        assert s'.items[j] in added;
        if i < |s.items| {
          DeliverNew(s, slot, ev, s'.items[j]);
        } else {
          assert s'.items[i] in added;
          NewTogether(s, slot, ev, s'.items[i], s'.items[j]);
        }
      }
    }
  }

  /** A slot can be re-opened only when no item of its data is left in the queue. */
  lemma ReopenItem(s: World, slot: nat, x: Item)
    requires SlotsInv(s) && Enabled(s, Reopen(slot)) && ItemOk(s, x)
    ensures var s' := Step(s, Reopen(slot)); ItemOk(s', x) && (Waits(s, x) ==> Waits(s', x))
  {
    hide GenOf;
    assert SlotOk(s.slots[slot]);
  }

  lemma QueueReopen(s: World, slot: nat)
    requires QueueInv(s) && Enabled(s, Reopen(slot))
    ensures QueueInv(Step(s, Reopen(slot)))
  {
    hide GenOf, ItemOk, Waits, InTurn;
    forall i | 0 <= i < |s.items|
      ensures var s' := Step(s, Reopen(slot));
        ItemOk(s', s.items[i]) && (s.popped <= i ==> Waits(s', s.items[i]))
    {
      ReopenItem(s, slot, s.items[i]);
    }
  }

  /** close_once finds out, by comparing generations alone, whether the item's incarnation is closed
      already, exactly when it is not aliased; and if it does call close(), that finds the slot. */
  lemma CloseTells(s: World)
    requires QueueInv(s) && Enabled(s, CloseItem)
    ensures var f := s.Front(); var i := s.slots[f.inc.slot];
      && f.work.conn == f.inc.Id() && f.inc.slot < |s.slots|
      && (f.inc.n != i.lastClosed ==>
            f.inc.n == i.n == i.last && i.lastClosed == i.prev == f.prev && Finds(s, f.work.conn))
      && (s.releasedGen[f.inc.slot] == f.work.conn.generation <==>
            f.inc.n == i.lastClosed || f.Aliased())
  {
    hide GenOf;
    var f := s.Front();
    assert ItemOk(s, f) && Waits(s, f) && SlotOk(s.slots[f.inc.slot]);
    GenZero(f.inc.n);
    GenZero(0);
  }

  lemma GenZero(n: nat)
    ensures GenOf(n) == 0 <==> n == 0
  {
  }

  lemma CloseItemOk(s: World, x: Item)
    requires QueueInv(s) && Enabled(s, CloseItem) && ItemOk(s, x)
    ensures var s' := Step(s, CloseItem);
      ItemOk(s', x) && (Waits(s, x) && InTurn(s.Front(), x) ==> Waits(s', x))
  {
    hide GenOf, QueueInv, Item.Aliased;
    CloseTells(s);
    ClosingFront(s);
  }

  lemma ClosingFront(s: World)
    requires QueueInv(s) && s.HasFront()
    ensures var f := s.Front();
      f.inc.slot < |s.slots| == |s.releasedGen| && SlotOk(s.slots[f.inc.slot]) && ItemOk(s, f)
  {
    hide SlotOk;
    assert ItemOk(s, s.Front());
  }

  lemma CloseSlot(s: World)
    requires QueueInv(s) && Enabled(s, CloseItem)
    ensures SlotsInv(Step(s, CloseItem))
  {
    hide GenOf, ItemsInv, Waits, Item.Aliased;
    CloseTells(s);
    ClosingFront(s);
  }

  lemma QueueClose(s: World)
    requires QueueInv(s) && Enabled(s, CloseItem)
    ensures QueueInv(Step(s, CloseItem))
  {
    hide GenOf, ItemOk, Waits, InTurn, SlotsInv, CloseOnce;
    CloseSlot(s);
    var s' := Step(s, CloseItem);
    CloseKeepsItems(s);
    forall i | 0 <= i < |s.items|
      ensures ItemOk(s', s.items[i]) && (s.popped < i ==> Waits(s', s.items[i]))
    {
      CloseItemOk(s, s.items[i]);
    }
  }

  lemma CloseKeepsItems(s: World)
    requires Enabled(s, CloseItem)
    ensures var s' := Step(s, CloseItem); s'.items == s.items && s'.popped == s.popped + 1
  {
  }

  /** The other actions move nothing an item's place depends on. */
  predicate Quiet(a: Action) {
    a.Push? || a.Terminate? || a.Check? || a.SendSome? || a.FinishData?
  }

  lemma QuietItem(s: World, a: Action, x: Item)
    requires Enabled(s, a) && Quiet(a) && ItemOk(s, x)
    ensures ItemOk(Step(s, a), x) && (Waits(s, x) ==> Waits(Step(s, a), x))
  {
    hide GenOf;
  }

  lemma QueueQuiet(s: World, a: Action)
    requires QueueInv(s) && Enabled(s, a) && Quiet(a)
    ensures QueueInv(Step(s, a))
  {
    hide GenOf, ItemOk, Waits, InTurn;
    forall i | 0 <= i < |s.items|
      ensures ItemOk(Step(s, a), s.items[i]) && (s.popped <= i ==> Waits(Step(s, a), s.items[i]))
    {
      QuietItem(s, a, s.items[i]);
    }
  }

  lemma QueueStep(s: World, a: Action)
    requires QueueInv(s) && Enabled(s, a)
    ensures QueueInv(Step(s, a))
  {
    hide QueueInv, Step;
    match a
    case Deliver(slot, ev) => QueueDeliver(s, slot, ev);
    case CloseItem => QueueClose(s);
    case Reopen(slot) => QueueReopen(s, slot);
    case _ => QueueQuiet(s, a);
  }

  lemma CallsClose(s: World)
    requires QueueInv(s) && CallsInv(s) && Enabled(s, CloseItem)
    ensures CallsInv(Step(s, CloseItem))
    ensures var f, s' := s.Front(), Step(s, CloseItem);
      s'.calls == s.calls + (if f.inc.n == s.slots[f.inc.slot].lastClosed || f.Aliased() then [] else [f.inc])
  {
    hide GenOf, ItemsInv, Waits, Item.Aliased, SlotOk, Finds;
    CloseTells(s);
    ClosingFront(s);
    ClosedBefore(s.slots[s.Front().inc.slot]);
  }

  lemma ClosedBefore(i: SlotInfo)
    requires SlotOk(i)
    ensures i.prev < i.last || i.last == 0
  {
  }

  /** Items of one incarnation agree on the one before it, while it is the last accepted. */
  lemma SamePrev(s: World, x: Item, y: Item)
    requires ItemOk(s, x) && ItemOk(s, y) && x.inc == y.inc && x.inc.n == s.slots[x.inc.slot].last
    ensures x.Aliased() == y.Aliased()
  {
    hide GenOf;
  }

  lemma CloseCloses(s: World)
    requires QueueInv(s) && CloseInv(s) && Enabled(s, CloseItem)
    ensures CloseInv(Step(s, CloseItem))
  {
    hide GenOf, SlotsInv, Waits, CallsInv, ItemOk, Item.Aliased, CloseOnce, InTurn;
    var f, s' := s.Front(), Step(s, CloseItem);
    CloseTells(s);
    CallsClose(s);
    CloseKeepsItems(s);
    CalledLast(s);
    forall i | 0 <= i < |s.items| && s.items[i].Aliased()
      ensures s.items[i].inc !in s'.calls
    {
      if s.items[i].inc == f.inc && f.inc.n != s.slots[f.inc.slot].lastClosed {
        SamePrev(s, s.items[i], f);
      }
    }
  }

  lemma CalledLast(s: World)
    requires QueueInv(s) && CallsInv(s) && s.HasFront()
    ensures var f := s.Front();
      f.inc.slot < |s.slots| && (f.inc.n == s.slots[f.inc.slot].lastClosed ==> f.inc in s.calls)
  {
    hide GenOf, SlotOk, Waits, InTurn;
    assert ItemOk(s, s.Front());
  }

  lemma CloseStep(s: World, a: Action)
    requires QueueInv(s) && CloseInv(s) && Enabled(s, a)
    ensures CloseInv(Step(s, a))
  {
    hide GenOf, ItemsOf, TagItems, SlotsInv, Waits, InTurn, CloseOnce, Item.Aliased, Sendable, Advance;
    match a
    case CloseItem => CloseCloses(s);
    case Deliver(slot, ev) => CloseDeliver(s, slot, ev);
    case FinishData => assert !s.Front().Closing();
    case _ =>
  }

  lemma CloseDeliver(s: World, slot: nat, ev: Event)
    requires QueueInv(s) && CloseInv(s) && Enabled(s, Deliver(slot, ev))
    ensures CloseInv(Step(s, Deliver(slot, ev)))
  {
    hide GenOf, ItemsOf, TagItems, Waits, InTurn, Advance, ItemsInv;
    var s' := Delivery(s, slot, ev);
    var i := s.slots[slot];
    var inc := Inc(slot, i.n);
    ItemsBelong(inc.Id(), ev, inc, i.prev);
    assert SlotOk(i);
    forall j | |s.items| <= j < |s'.items| && s'.items[j].Aliased()
      ensures s'.items[j].inc !in s'.calls
    {
      assert s'.items[j] in TagItems(ItemsOf(inc.Id(), ev), inc, i.prev);
      AliasedNotCalled(s, slot, ev);
    }
  }

  /** An aliased incarnation is never closed: its slot stays with it for good. */
  lemma AliasedNotCalled(s: World, slot: nat, ev: Event)
    requires SlotsInv(s) && CallsInv(s) && Enabled(s, Deliver(slot, ev)) && !ev.Accepted?
    requires s.slots[slot].prev > 0 && GenOf(s.slots[slot].prev) == GenOf(s.slots[slot].n)
    ensures Inc(slot, s.slots[slot].n) !in s.calls
  {
    hide GenOf;
    assert SlotOk(s.slots[slot]);
  }
}
