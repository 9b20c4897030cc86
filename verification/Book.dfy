/** The receiver's slot bookkeeping as a value: which list or table each slot index is in, and what
    one segment, one open, one flush and one finalize do to it. */
module Bookkeeping {
  import opened SeqArith
  import opened Connection
  import opened FlowTables

  /** free_slots, awaiting_release, ack_list, finalize_list, the slots and the flow table. */
  datatype Book = Book(
    slots: seq<Conn>, flows: map<u64, u32>,
    free: seq<nat>, awaiting: seq<nat>, acks: seq<nat>, fins: seq<nat>)

  predicate NoDup(s: seq<nat>) { forall i, j | 0 <= i < j < |s| :: s[i] != s[j] }

  predicate Below(s: seq<nat>, n: nat) { forall j | 0 <= j < |s| :: s[j] < n }

  function KeyOf(c: Conn): u64 { Key(c.addr.peerIp, c.addr.peerPort, c.addr.localPort) }

  /** Terminal, finalized, and waiting for the application's close(). */
  predicate Parked(c: Conn) { c.state == Closed && !c.finalizePending }

  /** Live or finalize-pending: the slots whose tuples the flow table holds. */
  predicate Tabled(c: Conn) { c.state != Free && !Parked(c) }

  /** What one slot's fields say of each other. */
  predicate SlotOk(c: Conn) {
    && (c.finalizePending ==> c.state == Closed)
    && (Tabled(c) ==> c.addr.peerIp != 0 && c.addr.sendMss > 0)
  }

  /** Which lists a slot index is on. */
  predicate Listed(b: Book, i: nat)
    requires i < |b.slots|
  {
    var c := b.slots[i];
    && (i in b.free <==> c.state == Free)
    && (i in b.awaiting <==> Parked(c))
    && (i in b.fins <==> c.finalizePending)
    && (c.ackPending ==> i in b.acks)
    && (i in b.acks ==> Tabled(c) && c.state != SynReceived && (c.ackPending || c.state == Closed))
  }

  predicate Flowing(b: Book) {
    && (forall i | 0 <= i < |b.slots| && Tabled(b.slots[i]) ::
          KeyOf(b.slots[i]) in b.flows && b.flows[KeyOf(b.slots[i])] == i)
    && (forall k | k in b.flows ::
          b.flows[k] < |b.slots| && Tabled(b.slots[b.flows[k]]) && KeyOf(b.slots[b.flows[k]]) == k)
  }

  predicate Inv(b: Book) {
    && NoDup(b.free) && NoDup(b.awaiting) && NoDup(b.acks) && NoDup(b.fins)
    && Below(b.free, |b.slots|) && Below(b.awaiting, |b.slots|)
    && Below(b.acks, |b.slots|) && Below(b.fins, |b.slots|)
    && (forall i | 0 <= i < |b.slots| :: SlotOk(b.slots[i]) && Listed(b, i))
    && Flowing(b)
  }

  /** The initial free list: n - 1 down to 0, so that slot 0 is handed out first. */
  function Countdown(n: nat): (r: seq<nat>)
    ensures |r| == n && forall i | 0 <= i < n :: r[i] == n - 1 - i
  {
    if n == 0 then [] else [n - 1] + Countdown(n - 1)
  }

  lemma InitInv(slots: seq<Conn>)
    requires forall i | 0 <= i < |slots| ::
      slots[i].state == Free && !slots[i].ackPending && !slots[i].finalizePending
    ensures Inv(Book(slots, map[], Countdown(|slots|), [], [], []))
  {
    var free := Countdown(|slots|);
    forall i | 0 <= i < |slots|
      ensures i in free
    {
      assert free[|slots| - 1 - i] == i;
    }
  }

  function Set(s: seq<nat>): set<nat> { set i | i in s }

  lemma {:induction false} NoDupSize(s: seq<nat>)
    requires NoDup(s)
    ensures |Set(s)| == |s|
  {
    if s != [] {
      var front := s[..|s| - 1];
      NoDupSize(front);
      assert Set(s) == Set(front) + {s[|s| - 1]};
    }
  }

  function Upto(n: nat): (r: set<nat>)
    ensures |r| == n && forall i: nat :: i in r <==> i < n
  {
    if n == 0 then {} else Upto(n - 1) + {n - 1}
  }

  /** The slots in the flow table, one per key. */
  function TableSlots(b: Book): set<nat> { set k | k in b.flows :: b.flows[k] as nat }

  lemma {:induction false} ValuesSize(b: Book, keys: set<u64>)
    requires Flowing(b) && keys <= b.flows.Keys
    ensures |set k | k in keys :: b.flows[k] as nat| == |keys|
    decreases |keys|
  {
    if keys != {} {
      var k :| k in keys;
      ValuesSize(b, keys - {k});
      assert (set x | x in keys :: b.flows[x] as nat)
          == (set x | x in keys - {k} :: b.flows[x] as nat) + {b.flows[k] as nat};
    }
  }

  /** Every slot index is in exactly one of the free list, the awaiting list and the flow table,
      and in it once: together they are all max_connections slots. */
  lemma Partition(b: Book)
    requires Inv(b)
    ensures Set(b.free) + Set(b.awaiting) + TableSlots(b) == Upto(|b.slots|)
    ensures Set(b.free) !! Set(b.awaiting) !! TableSlots(b)
    ensures |b.free| + |b.awaiting| + |b.flows| == |b.slots|
  {
    var f, w, t := Set(b.free), Set(b.awaiting), TableSlots(b);
    forall i | 0 <= i < |b.slots|
      ensures i in t <==> Tabled(b.slots[i])
      ensures i in f + w + t && (i in f ==> i !in w + t) && (i in w ==> i !in t)
    {
      assert Listed(b, i);
    }
    assert f + w + t == Upto(|b.slots|);
    NoDupSize(b.free);
    NoDupSize(b.awaiting);
    ValuesSize(b, b.flows.Keys);
    assert |f + w + t| == |f| + |w| + |t|;
  }

  // --- What one segment does to its slot.

  /** The shape of every outcome of process_segment on a slot that is in the table. */
  predicate Move(c: Conn, r: Outcome) {
    && r.c.addr == c.addr && r.c.generation == c.generation && |r.events| <= 3
    && (r.recycled ==> c.state == SynReceived && r.c == Release(c) && r.events == [])
    && (!r.recycled ==> Tabled(r.c) && (r.c.finalizePending ==> r.c.state == Closed))
    && (c.finalizePending ==> r.c.finalizePending)
    && (r.c.ackPending && !c.ackPending ==>
          c.state != Closed && r.c.state != SynReceived && r.reply == NoReply)
    && (c.ackPending && !r.c.ackPending ==> r.c.state == Closed || r.recycled)
    && (r.c.state == SynReceived ==> c.state == SynReceived)
    && (c.state == Closed ==> r.c == c)
  }

  /** process_ack and process_data on a synchronized slot. */
  predicate Moved(c: Conn, c': Conn) {
    && c'.addr == c.addr && c'.generation == c.generation
    && c'.state != Free && c'.state != SynReceived
    && (c'.state == Closed <==> c'.finalizePending) && (c.ackPending ==> c'.ackPending)
  }

  predicate Synchronized(c: Conn) {
    c.state != Free && c.state != SynReceived && c.state != Closed && !c.finalizePending
  }

  lemma AckMoved(c: Conn, seg: Segment, out: OutFlags, sndNxt: u32)
    requires Synchronized(c)
    ensures var a := ProcessAck(c, seg, out, sndNxt);
      Moved(c, a.c) && |a.events| <= 1 && (a.proceed ==> Synchronized(a.c) && a.events == [])
  {
    hide SeqGt, TakeAck;
  }

  lemma DataMoved(c: Conn, seg: Segment)
    requires Synchronized(c)
    ensures Moved(c, ProcessData(c, seg).c) && |ProcessData(c, seg).events| <= 2
  {
    hide SeqGt, Wrap, Trim;
  }

  lemma SegmentMoves(c: Conn, seg: Segment, rwnd: u16, out0: OutFlags, out: OutFlags, sndNxt: u32)
    requires Tabled(c) && SlotOk(c) && (c.state == SynReceived ==> !c.ackPending)
    ensures Move(c, ProcessSegment(c, seg, rwnd, out0, out, sndNxt))
  {
    hide ProcessAck, ProcessData, RstAcceptable, HasFlag, Wrap;
    var c0 := SyncOutFlags(c, out0);
    if c.state == SynReceived {
      DataMoved(Greeted(c, seg), seg);
    } else if c.state != Closed {
      var a := ProcessAck(c0, seg, out, sndNxt);
      AckMoved(c0, seg, out, sndNxt);
      if a.proceed {
        DataMoved(a.c, seg);
      }
    }
  }

  // --- What each operation does to the book.

  function WithSegment(b: Book, idx: nat, r: Outcome): Book
    requires idx < |b.slots|
  {
    var c := b.slots[idx];
    Book(b.slots[idx := r.c],
         if r.recycled then b.flows - {KeyOf(c)} else b.flows,
         if r.recycled then b.free + [idx] else b.free,
         b.awaiting,
         if !c.ackPending && r.c.ackPending then b.acks + [idx] else b.acks,
         if !c.finalizePending && r.c.finalizePending then b.fins + [idx] else b.fins)
  }

  lemma SegmentKeeps(b: Book, idx: nat, r: Outcome)
    requires Inv(b) && idx < |b.slots| && Tabled(b.slots[idx]) && Move(b.slots[idx], r)
    ensures Inv(WithSegment(b, idx, r))
  {
    hide Key, Listed, SlotOk, Flowing, Move, Tabled;
    SegmentFlows(b, idx, r);
    SegmentLists(b, idx, r);
    forall i | 0 <= i < |b.slots|
      ensures SlotOk(WithSegment(b, idx, r).slots[i]) && Listed(WithSegment(b, idx, r), i)
    {
      SegmentSlot(b, idx, r, i);
    }
  }

  lemma SegmentFlows(b: Book, idx: nat, r: Outcome)
    requires Flowing(b) && idx < |b.slots| && Tabled(b.slots[idx]) && Move(b.slots[idx], r)
    ensures Flowing(WithSegment(b, idx, r))
  {
    hide Key;
  }

  lemma SegmentLists(b: Book, idx: nat, r: Outcome)
    requires Inv(b) && idx < |b.slots| && Tabled(b.slots[idx]) && Move(b.slots[idx], r)
    ensures var b' := WithSegment(b, idx, r);
      && NoDup(b'.free) && NoDup(b'.acks) && NoDup(b'.fins) && b'.awaiting == b.awaiting
      && Below(b'.free, |b.slots|) && Below(b'.acks, |b.slots|) && Below(b'.fins, |b.slots|)
  {
    hide KeyOf, Flowing, SlotOk;
    assert Listed(b, idx);
  }

  lemma SegmentSlot(b: Book, idx: nat, r: Outcome, i: nat)
    requires Inv(b) && idx < |b.slots| && Tabled(b.slots[idx]) && Move(b.slots[idx], r) && i < |b.slots|
    ensures var b' := WithSegment(b, idx, r); SlotOk(b'.slots[i]) && Listed(b', i)
  {
    hide KeyOf, Flowing, NoDup, Below;
    assert SlotOk(b.slots[i]) && Listed(b, i) && Listed(b, idx) && SlotOk(b.slots[idx]);
  }

  function WithOpen(b: Book, c: Conn): Book
    requires b.free != [] && b.free[|b.free| - 1] < |b.slots| < NPOS
  {
    var idx := b.free[|b.free| - 1];
    b.(slots := b.slots[idx := c], free := b.free[..|b.free| - 1], flows := b.flows[KeyOf(c) := idx])
  }

  lemma OpenKeeps(b: Book, c: Conn)
    requires Inv(b) && b.free != [] && |b.slots| < NPOS && KeyOf(c) !in b.flows
    requires c.state == SynReceived && !c.ackPending && !c.finalizePending
    requires c.addr.peerIp != 0 && c.addr.sendMss > 0
    ensures Inv(WithOpen(b, c))
  {
    hide Key, Listed, SlotOk, Flowing;
    var idx := b.free[|b.free| - 1];
    DropLast(b.free, |b.slots|);
    OpenFlows(b, c);
    forall i | 0 <= i < |b.slots|
      ensures SlotOk(WithOpen(b, c).slots[i]) && Listed(WithOpen(b, c), i)
    {
      OpenSlot(b, c, i);
    }
  }

  /** Taking the last element off a list takes exactly it. */
  lemma DropLast(s: seq<nat>, n: nat)
    requires s != [] && NoDup(s) && Below(s, n)
    ensures var r := s[..|s| - 1];
      NoDup(r) && Below(r, n) && s[|s| - 1] < n && forall i :: i in r <==> i in s && i != s[|s| - 1]
  {
    assert s == s[..|s| - 1] + [s[|s| - 1]];
  }

  /** And so for the first. */
  lemma DropFirst(s: seq<nat>, n: nat)
    requires s != [] && NoDup(s) && Below(s, n)
    ensures NoDup(s[1..]) && Below(s[1..], n) && s[0] < n
    ensures forall i :: i in s[1..] <==> i in s && i != s[0]
  {
    assert s == [s[0]] + s[1..];
  }

  lemma OpenFlows(b: Book, c: Conn)
    requires Inv(b) && b.free != [] && |b.slots| < NPOS && KeyOf(c) !in b.flows && c.state == SynReceived
    ensures b.free[|b.free| - 1] < |b.slots| && Flowing(WithOpen(b, c))
  {
    hide Key, SlotOk, NoDup;
    var idx := b.free[|b.free| - 1];
    assert idx in b.free && Listed(b, idx);
  }

  lemma OpenSlot(b: Book, c: Conn, i: nat)
    requires Inv(b) && b.free != [] && |b.slots| < NPOS && i < |b.slots|
    requires c.state == SynReceived && !c.ackPending && !c.finalizePending
    requires c.addr.peerIp != 0 && c.addr.sendMss > 0
    ensures b.free[|b.free| - 1] < |b.slots|
    ensures SlotOk(WithOpen(b, c).slots[i]) && Listed(WithOpen(b, c), i)
  {
    hide KeyOf, Flowing, NoDup;
    DropLast(b.free, |b.slots|);
    assert SlotOk(b.slots[i]) && Listed(b, i);
  }

  /** Take the k-th awaiting slot back: its place goes to the last one, as the source does. */
  function WithReap(b: Book, k: nat): Book
    requires k < |b.awaiting| && Below(b.awaiting, |b.slots|)
  {
    var idx := b.awaiting[k];
    assert idx in b.awaiting;
    b.(slots := b.slots[idx := Release(b.slots[idx])], free := b.free + [idx],
       awaiting := Without(b.awaiting, k))
  }

  function Without(s: seq<nat>, k: nat): seq<nat>
    requires k < |s|
  {
    s[k := s[|s| - 1]][..|s| - 1]
  }

  lemma ReapKeeps(b: Book, k: nat)
    requires Inv(b) && k < |b.awaiting|
    ensures Inv(WithReap(b, k))
  {
    hide Key, Listed, SlotOk, Flowing, Without;
    var idx := b.awaiting[k];
    Removed(b.awaiting, k, |b.slots|);
    ReapFlows(b, k);
    ReapFree(b, k);
    forall i | 0 <= i < |b.slots|
      ensures SlotOk(WithReap(b, k).slots[i]) && Listed(WithReap(b, k), i)
    {
      ReapSlot(b, k, i);
    }
  }

  /** Removing an element by moving the last one into its place removes exactly it. */
  lemma Removed(s: seq<nat>, k: nat, n: nat)
    requires NoDup(s) && Below(s, n) && k < |s|
    ensures NoDup(Without(s, k)) && Below(Without(s, k), n)
    ensures forall i :: i in Without(s, k) <==> i in s && i != s[k]
  {
    var r, last := Without(s, k), |s| - 1;
    forall i | 0 <= i <= last && i != k
      ensures s[i] in r
    {
      assert r[if i == last then k else i] == s[i];
    }
    forall i | 0 <= i < |r|
      ensures r[i] in s && r[i] != s[k]
    {
      assert r[i] == s[if i == k then last else i];
    }
  }

  lemma ReapFlows(b: Book, k: nat)
    requires Inv(b) && k < |b.awaiting|
    ensures Flowing(WithReap(b, k))
  {
    hide Key, NoDup, SlotOk;
    assert b.awaiting[k] in b.awaiting && Listed(b, b.awaiting[k]);
  }

  lemma ReapFree(b: Book, k: nat)
    requires Inv(b) && k < |b.awaiting|
    ensures NoDup(b.free + [b.awaiting[k]]) && Below(b.free + [b.awaiting[k]], |b.slots|)
  {
    hide KeyOf, Flowing, SlotOk;
    assert b.awaiting[k] in b.awaiting && Listed(b, b.awaiting[k]);
  }

  lemma ReapSlot(b: Book, k: nat, i: nat)
    requires Inv(b) && k < |b.awaiting| && i < |b.slots|
    ensures SlotOk(WithReap(b, k).slots[i]) && Listed(WithReap(b, k), i)
  {
    hide KeyOf, Flowing, Without, NoDup;
    Removed(b.awaiting, k, |b.slots|);
    assert b.awaiting[k] in b.awaiting && Listed(b, b.awaiting[k]);
    assert SlotOk(b.slots[i]) && Listed(b, i);
  }

  function WithFlush(b: Book): Book
    requires b.acks != [] && Below(b.acks, |b.slots|)
  {
    var idx := b.acks[0];
    assert idx in b.acks;
    b.(slots := b.slots[idx := b.slots[idx].(ackPending := false)], acks := b.acks[1..])
  }

  lemma FlushKeeps(b: Book)
    requires Inv(b) && b.acks != []
    ensures Inv(WithFlush(b))
  {
    hide Key, Listed, SlotOk, Flowing;
    DropFirst(b.acks, |b.slots|);
    FlushFlows(b);
    forall i | 0 <= i < |b.slots|
      ensures SlotOk(WithFlush(b).slots[i]) && Listed(WithFlush(b), i)
    {
      FlushSlot(b, i);
    }
  }

  lemma FlushFlows(b: Book)
    requires Flowing(b) && b.acks != [] && Below(b.acks, |b.slots|)
    ensures Flowing(WithFlush(b))
  {
    hide Key;
  }

  lemma FlushSlot(b: Book, i: nat)
    requires Inv(b) && b.acks != [] && i < |b.slots|
    ensures SlotOk(WithFlush(b).slots[i]) && Listed(WithFlush(b), i)
  {
    hide KeyOf, Flowing, NoDup;
    DropFirst(b.acks, |b.slots|);
    assert b.acks[0] in b.acks && SlotOk(b.slots[i]) && Listed(b, i);
  }

  /** Finalize the first slot on the list; `released` is what the load of out_flags said. */
  function WithFinalize(b: Book, released: bool): Book
    requires b.fins != [] && Below(b.fins, |b.slots|)
  {
    var idx := b.fins[0];
    assert idx in b.fins;
    var c := b.slots[idx].(finalizePending := false);
    b.(slots := b.slots[idx := if released then Release(c) else c], flows := b.flows - {KeyOf(c)},
       free := if released then b.free + [idx] else b.free,
       awaiting := if released then b.awaiting else b.awaiting + [idx], fins := b.fins[1..])
  }

  lemma FinalizeKeeps(b: Book, released: bool)
    requires Inv(b) && b.fins != [] && b.acks == []
    ensures Inv(WithFinalize(b, released))
  {
    hide Key, Listed, SlotOk, Flowing;
    DropFirst(b.fins, |b.slots|);
    FinalizeFlows(b, released);
    FinalizeLists(b);
    forall i | 0 <= i < |b.slots|
      ensures SlotOk(WithFinalize(b, released).slots[i]) && Listed(WithFinalize(b, released), i)
    {
      FinalizeSlot(b, released, i);
    }
  }

  lemma FinalizeFlows(b: Book, released: bool)
    requires Inv(b) && b.fins != []
    ensures Flowing(WithFinalize(b, released))
  {
    hide Key, NoDup;
    assert b.fins[0] in b.fins && Listed(b, b.fins[0]) && SlotOk(b.slots[b.fins[0]]);
  }

  lemma FinalizeLists(b: Book)
    requires Inv(b) && b.fins != []
    ensures NoDup(b.free + [b.fins[0]]) && Below(b.free + [b.fins[0]], |b.slots|)
    ensures NoDup(b.awaiting + [b.fins[0]]) && Below(b.awaiting + [b.fins[0]], |b.slots|)
  {
    hide KeyOf, Flowing;
    assert b.fins[0] in b.fins && Listed(b, b.fins[0]) && SlotOk(b.slots[b.fins[0]]);
  }

  lemma FinalizeSlot(b: Book, released: bool, i: nat)
    requires Inv(b) && b.fins != [] && b.acks == [] && i < |b.slots|
    ensures SlotOk(WithFinalize(b, released).slots[i]) && Listed(WithFinalize(b, released), i)
  {
    hide KeyOf, Flowing, NoDup;
    DropFirst(b.fins, |b.slots|);
    assert b.fins[0] in b.fins && Listed(b, b.fins[0]) && SlotOk(b.slots[b.fins[0]]);
    assert SlotOk(b.slots[i]) && Listed(b, i);
  }
}
