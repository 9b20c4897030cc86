/** What one poll of the receiver does, as functions on its bookkeeping: the packets of a burst one
    after another, then the ACKs owed, then the slots finalized. */
module PollModel {
  import opened SeqArith
  import opened Connection
  import opened FlowTables
  import opened Bookkeeping
  import MssParser
  import Wire
  import Bytes

  const MAX_BURST: nat := 32
  const MAX_EVENTS: nat := 3 * MAX_BURST
  const MAX_CONTROL: nat := 2 * MAX_BURST

  datatype ConnEvent = ConnEvent(slot: nat, generation: u32, event: Event)

  /** A segment for the control queue. */
  datatype Control = ArpOut | RstOut(reply: Reply) | SynAckOut(slot: nat, seqNo: u32, ack: u32)
    | AckOut(slot: nat, seqNo: u32, ack: u32)

  /** A received packet once parsed: not ours, an ARP request answered, or a TCP segment. */
  datatype Input = Skip | Arp | Tcp(seg: Segment)

  /** What process makes of a contiguous frame that is not ARP. */
  function InputOf(frame: seq<u8>, localIp: u32, verify: bool): Input
    requires |frame| <= 0xFFFF
  {
    match Wire.Parse(frame, localIp, verify)
    case Seg(seg) => Tcp(seg)
    case _ => Skip
  }

  /** No frame gets through the parser with the peer address that would make an empty key. */
  lemma InputHasPeer(frame: seq<u8>, localIp: u32, verify: bool)
    requires |frame| <= 0xFFFF
    ensures InputOf(frame, localIp, verify).Tcp? ==> InputOf(frame, localIp, verify).seg.srcIp != 0
  {
    hide Bytes.Sum16, Bytes.Reduce;
  }

  function Tag(slot: nat, generation: u32, events: seq<Event>): (r: seq<ConnEvent>)
    ensures |r| == |events|
  {
    seq(|events|, i requires 0 <= i < |events| => ConnEvent(slot, generation, events[i]))
  }

  lemma TagAppend(slot: nat, generation: u32, a: seq<Event>, b: seq<Event>)
    ensures Tag(slot, generation, a + b) == Tag(slot, generation, a) + Tag(slot, generation, b)
  {
  }

  /** What the loads of out_flags (in sync_out_flags, then in process_ack) and snd_nxt, and the
      random generator, return while one packet is processed. */
  datatype Loads = Loads(out0: OutFlags, out: OutFlags, nxt: u32, iss: u32)

  datatype Arrival = Arrival(input: Input, loads: Loads)

  datatype Config = Config(mss: u16, rwnd: u16, listening: seq<u16>) {
    predicate Opens(seg: Segment) {
      seg.Syn() && !seg.Ack() && !seg.Rst() && seg.dstPort in listening
    }
  }

  // --- What one packet, and one burst, are to do.

  datatype Effect = Effect(b: Book, events: seq<ConnEvent>, replies: seq<Control>)

  /** The control segment a reply is, sent from a slot. */
  function Outgoing(idx: nat, c: Conn, reply: Reply): (r: seq<Control>)
    ensures |r| == if reply == NoReply then 0 else 1
  {
    match reply
    case NoReply => []
    case SynAck => [SynAckOut(idx, c.addr.iss, c.rcvNxt)]
    case RstWith(_, _, _) => [RstOut(reply)]
  }

  /** The reset a segment is answered with, if any. */
  function RstSegs(seg: Segment): seq<Control> {
    if seg.Rst() then [] else [RstOut(RstFor(seg))]
  }

  /** A SYN for a listening port, with the slot it takes. */
  function Opened(cfg: Config, b: Book, seg: Segment, iss: u32): Conn
    requires b.free != [] && b.free[|b.free| - 1] < |b.slots|
  {
    Connection.Open(b.slots[b.free[|b.free| - 1]], seg, MssParser.ParseMss(seg.options), cfg.mss, iss)
  }

  function Receive(cfg: Config, b: Book, x: Arrival): Effect {
    match x.input
    case Skip => Effect(b, [], [])
    case Arp => Effect(b, [], [ArpOut])
    case Tcp(seg) =>
      if SegKey(seg) in b.flows && b.flows[SegKey(seg)] < |b.slots| then
        var idx := b.flows[SegKey(seg)];
        var c := b.slots[idx];
        var r := Connection.ProcessSegment(c, seg, cfg.rwnd, x.loads.out0, x.loads.out, x.loads.nxt);
        Effect(WithSegment(b, idx, r), Tag(idx, c.generation, r.events), Outgoing(idx, r.c, r.reply))
      else if cfg.Opens(seg) && b.free != [] && b.free[|b.free| - 1] < |b.slots| < NPOS then
        var c := Opened(cfg, b, seg, x.loads.iss);
        Effect(WithOpen(b, c), [], [SynAckOut(b.free[|b.free| - 1], c.addr.iss, c.rcvNxt)])
      else
        Effect(b, [], RstSegs(seg))
  }

  function ReceiveAll(cfg: Config, b: Book, burst: seq<Arrival>): Effect {
    if burst == [] then Effect(b, [], [])
    else
      var e := ReceiveAll(cfg, b, burst[..|burst| - 1]);
      var r := Receive(cfg, e.b, burst[|burst| - 1]);
      Effect(r.b, e.events + r.events, e.replies + r.replies)
  }

  /** reap_released: exactly the parked slots whose close() was seen are free again. */
  predicate Reaped(b: Book, b': Book, released: seq<bool>)
    requires |released| == |b.slots|
  {
    && |b'.slots| == |b.slots| && b'.flows == b.flows && b'.acks == b.acks && b'.fins == b.fins
    && forall i | 0 <= i < |b.slots| ::
         b'.slots[i] == if Parked(b.slots[i]) && released[i] then Release(b.slots[i]) else b.slots[i]
  }

  /** The ACKs the slots on a list owe, in its order. */
  function AcksOf(slots: seq<Conn>, list: seq<nat>, nxts: seq<u32>): seq<Control>
    requires Below(list, |slots|) && |nxts| == |slots|
  {
    if list == [] then []
    else
      var idx := list[|list| - 1];
      AcksOf(slots, list[..|list| - 1], nxts)
      + (if slots[idx].ackPending then [AckOut(idx, nxts[idx], slots[idx].rcvNxt)] else [])
  }

  function Finalized(c: Conn, released: bool): Conn {
    if !c.finalizePending then c
    else if released then Release(c)
    else c.(finalizePending := false)
  }

  lemma RstIsReset(idx: nat, c: Conn, seg: Segment)
    ensures Outgoing(idx, c, RstFor(seg)) == RstSegs(seg)
  {
  }

  function SegKey(seg: Segment): u64 { Key(seg.srcIp, seg.srcPort, seg.dstPort) }

  lemma AwaitingFacts(b: Book, k: nat)
    requires Inv(b) && k < |b.awaiting|
    ensures Below(b.awaiting, |b.slots|) && Parked(b.slots[b.awaiting[k]])
  {
    assert b.awaiting[k] in b.awaiting;
    assert Listed(b, b.awaiting[k]);
  }

  lemma AcksNone(slots: seq<Conn>, list: seq<nat>, nxts: seq<u32>)
    requires list == [] && |nxts| == |slots|
    ensures Below(list, |slots|) && AcksOf(slots, list, nxts) == []
  {
  }

  lemma NotOwing(b: Book, i: nat)
    requires Inv(b) && i < |b.slots| && i !in b.acks
    ensures b.slots[i].(ackPending := false) == b.slots[i]
  {
    assert Listed(b, i);
  }

  lemma AcksSnoc(slots: seq<Conn>, list: seq<nat>, idx: nat, nxts: seq<u32>)
    requires Below(list, |slots|) && idx < |slots| == |nxts|
    ensures Below(list + [idx], |slots|)
    ensures AcksOf(slots, list + [idx], nxts) == AcksOf(slots, list, nxts)
      + (if slots[idx].ackPending then [AckOut(idx, nxts[idx], slots[idx].rcvNxt)] else [])
  {
    assert (list + [idx])[..|list|] == list;
  }

  lemma ReceiveNone(cfg: Config, b: Book, burst: seq<Arrival>)
    requires burst == []
    ensures ReceiveAll(cfg, b, burst) == Effect(b, [], [])
  {
  }

  lemma ReceiveSnoc(cfg: Config, b: Book, burst: seq<Arrival>, j: nat)
    requires j < |burst|
    ensures var e := ReceiveAll(cfg, b, burst[..j]); var r := Receive(cfg, e.b, burst[j]);
      ReceiveAll(cfg, b, burst[..j + 1]) == Effect(r.b, e.events + r.events, e.replies + r.replies)
  {
    assert burst[..j + 1][..j] == burst[..j];
  }

  lemma ParkedAwaits(b: Book, i: nat)
    requires Inv(b) && i < |b.slots| && Parked(b.slots[i])
    ensures i in b.awaiting
  {
    assert Listed(b, i);
  }

  lemma ListFacts(b: Book)
    requires Inv(b)
    ensures Below(b.acks, |b.slots|) && NoDup(b.acks) && Below(b.fins, |b.slots|) && NoDup(b.fins)
    ensures Below(b.awaiting, |b.slots|)
  {
  }

  lemma NotFinalized(b: Book, i: nat, released: bool)
    requires Inv(b) && i < |b.slots| && i !in b.fins
    ensures Finalized(b.slots[i], released) == b.slots[i]
  {
    assert Listed(b, i);
  }

  lemma FinalizeMoves(b: Book, released: bool)
    requires Inv(b) && b.fins != []
    ensures var b' := WithFinalize(b, released);
      |b'.free| + |b'.awaiting| == |b.free| + |b.awaiting| + 1
  {
  }

  lemma OpenedIss(cfg: Config, b: Book, seg: Segment, iss: u32)
    requires b.free != [] ==> b.free[|b.free| - 1] < |b.slots|
    ensures b.free != [] ==> Opened(cfg, b, seg, iss).addr.iss == iss
  {
  }

  lemma Conserved(b: Book)
    requires Inv(b)
    ensures |b.free| + |b.awaiting| + |b.flows| == |b.slots|
  {
    Partition(b);
  }

  lemma FinalizeFacts(b: Book)
    requires Inv(b) && b.fins != []
    ensures Below(b.fins, |b.slots|) && KeyOf(b.slots[b.fins[0]]) != 0
    ensures b.slots[b.fins[0]].finalizePending
  {
    assert b.fins[0] in b.fins;
    assert Listed(b, b.fins[0]);
    TabledOk(b, b.fins[0]);
  }

  /** What the invariant says of the free list, for the one about to open a slot. */
  lemma Facts(b: Book)
    requires Inv(b)
    ensures Below(b.free, |b.slots|) && (b.free != [] ==> |b.flows| < |b.slots|)
  {
    Partition(b);
  }

  lemma FlowFacts(b: Book, k: u64)
    requires Inv(b) && |b.slots| < NPOS
    ensures k in b.flows ==>
      b.flows[k] < |b.slots| && b.flows[k] != NPOS && Tabled(b.slots[b.flows[k]])
  {
  }

  lemma KeyIs(c: Conn, seg: Segment)
    requires c.addr.peerIp == seg.srcIp != 0 && c.addr.peerPort == seg.srcPort
    requires c.addr.localPort == seg.dstPort
    ensures KeyOf(c) == Key(seg.srcIp, seg.srcPort, seg.dstPort) != 0
  {
    KeyInjective(seg.srcIp, seg.srcPort, seg.dstPort, 0, 0, 0);
  }

  lemma HandshakeFirst(c: Conn, seg: Segment, rwnd: u16, out: OutFlags, nxt: u32)
    ensures c.state == SynReceived ==>
      ProcessSynced(c, seg, rwnd, out, nxt) == ProcessSynReceived(c, seg, rwnd)
  {
    hide ProcessSynReceived;
  }

  lemma TabledOk(b: Book, idx: nat)
    requires Inv(b) && idx < |b.slots| && Tabled(b.slots[idx])
    ensures SlotOk(b.slots[idx]) && (b.slots[idx].state == SynReceived ==> !b.slots[idx].ackPending)
    ensures KeyOf(b.slots[idx]) != 0
  {
    assert Listed(b, idx);
    var a := b.slots[idx].addr;
    KeyInjective(a.peerIp, a.peerPort, a.localPort, 0, 0, 0);
  }

  /** Neither process_ack nor process_data ever withdraws a pending ACK or finalization. */
  lemma AckEffects(c: Conn, seg: Segment, out: OutFlags, nxt: u32)
    ensures var a := Connection.ProcessAck(c, seg, out, nxt);
      && a.c.generation == c.generation && (c.ackPending ==> a.c.ackPending)
      && (c.finalizePending ==> a.c.finalizePending) && (a.proceed ==> a.events == [])
  {
    hide SeqGt, TakeAck;
  }

  lemma PayloadEffects(c: Conn, seg: Segment, end: u32)
    ensures var p := Connection.TakePayload(c, seg, end);
      p.c == c.(rcvNxt := p.c.rcvNxt, ackPending := true) && |p.events| <= 1
  {
    hide SeqGt, Trim, Wrap;
  }

  lemma DataEffects(c: Conn, seg: Segment)
    ensures var d := Connection.ProcessData(c, seg).c;
      && d.generation == c.generation && (c.ackPending ==> d.ackPending)
      && (c.finalizePending ==> d.finalizePending)
  {
    hide SeqGt, Wrap, Trim;
  }

  // --- What a burst can do at most, and what it keeps.

  lemma OpenKept(cfg: Config, b: Book, seg: Segment, iss: u32)
    requires Inv(b) && b.free != [] && |b.slots| < NPOS && seg.srcIp != 0 && SegKey(seg) !in b.flows
    requires cfg.mss > 0
    ensures b.free[|b.free| - 1] < |b.slots| && Inv(WithOpen(b, Opened(cfg, b, seg, iss)))
  {
    hide Inv, Listed, KeyOf, WithOpen, Wrap;
    Facts(b);
    var c := Opened(cfg, b, seg, iss);
    KeyIs(c, seg);
    OpenKeeps(b, c);
  }

  lemma SegmentKept(b: Book, idx: nat, seg: Segment, rwnd: u16, ld: Loads)
    requires Inv(b) && idx < |b.slots| && Tabled(b.slots[idx])
    ensures var r := Connection.ProcessSegment(b.slots[idx], seg, rwnd, ld.out0, ld.out, ld.nxt);
      var b' := WithSegment(b, idx, r);
      && Inv(b') && |r.events| <= 3 && |b'.fins| <= |b.fins| + 1
      && |Outgoing(idx, r.c, r.reply)| + |b'.acks| <= |b.acks| + 1
  {
    hide Inv, Listed, Connection.ProcessSegment;
    TabledOk(b, idx);
    SegmentMoves(b.slots[idx], seg, rwnd, ld.out0, ld.out, ld.nxt);
    SegmentKeeps(b, idx, Connection.ProcessSegment(b.slots[idx], seg, rwnd, ld.out0, ld.out, ld.nxt));
  }

  predicate HasPeer(x: Arrival) { x.input.Tcp? ==> x.input.seg.srcIp != 0 }

  /** One packet costs at most three events, one of an immediate control segment and a new entry on the
      ACK list, and one finalization; and it keeps the bookkeeping. */
  lemma ReceiveKeeps(cfg: Config, b: Book, x: Arrival)
    requires Inv(b) && |b.slots| < NPOS && HasPeer(x) && cfg.mss > 0
    ensures var e := Receive(cfg, b, x);
      && Inv(e.b) && |e.b.slots| == |b.slots| && |e.events| <= 3
      && |e.replies| + |e.b.acks| <= |b.acks| + 1 && |e.b.fins| <= |b.fins| + 1
  {
    hide Inv, Connection.ProcessSegment, HasFlag, Opened, RstFor;
    if x.input.Tcp? {
      var seg := x.input.seg;
      FlowFacts(b, SegKey(seg));
      if SegKey(seg) in b.flows {
        SegmentKept(b, b.flows[SegKey(seg)], seg, cfg.rwnd, x.loads);
      } else if b.free != [] {
        OpenKept(cfg, b, seg, x.loads.iss);
      }
    }
  }

  /** So over a burst of n packets: at most 3n events, n control segments and pending ACKs together, and
      n finalizations, from whatever state the burst starts in. */
  lemma {:induction false} BurstKeeps(cfg: Config, b: Book, burst: seq<Arrival>)
    requires Inv(b) && |b.slots| < NPOS && cfg.mss > 0 && forall x | x in burst :: HasPeer(x)
    ensures var e := ReceiveAll(cfg, b, burst);
      && Inv(e.b) && |e.b.slots| == |b.slots| && |e.events| <= 3 * |burst|
      && |e.replies| + |e.b.acks| <= |b.acks| + |burst| && |e.b.fins| <= |b.fins| + |burst|
  {
    hide Inv, Receive;
    if burst != [] {
      var front, last := burst[..|burst| - 1], burst[|burst| - 1];
      BurstKeeps(cfg, b, front);
      assert last in burst;
      ReceiveKeeps(cfg, ReceiveAll(cfg, b, front).b, last);
    }
  }

  /** flush_acks sends exactly one ACK, of rcv_nxt, for every slot that owes one, and no other. */
  lemma {:induction false} AcksExact(slots: seq<Conn>, list: seq<nat>, nxts: seq<u32>)
    requires Below(list, |slots|) && NoDup(list) && |nxts| == |slots|
    ensures var acks := AcksOf(slots, list, nxts);
      && (forall x | x in acks :: IsOwed(slots, list, nxts, x))
      && (forall i | i in list && slots[i].ackPending :: AckOut(i, nxts[i], slots[i].rcvNxt) in acks)
      && (forall i, j | 0 <= i < j < |acks| :: acks[i] != acks[j])
  {
    if list != [] {
      var front, idx := list[..|list| - 1], list[|list| - 1];
      var acks := AcksOf(slots, front, nxts);
      AcksExact(slots, front, nxts);
      assert list == front + [idx] && idx !in front;
      AcksSnoc(slots, front, idx, nxts);
      forall x | x in acks
        ensures IsOwed(slots, list, nxts, x) && x != AckOut(idx, nxts[idx], slots[idx].rcvNxt)
      {
        assert IsOwed(slots, front, nxts, x);
      }
    }
  }

  /** x is the ACK of a slot on the list that owes one. */
  predicate IsOwed(slots: seq<Conn>, list: seq<nat>, nxts: seq<u32>, x: Control)
    requires |nxts| == |slots|
  {
    && x.AckOut? && x.slot in list && x.slot < |slots| && slots[x.slot].ackPending
    && x == AckOut(x.slot, nxts[x.slot], slots[x.slot].rcvNxt)
  }

  // --- What is owed at the flush.

  lemma AckOwes(c: Conn, seg: Segment, out: OutFlags, nxt: u32)
    ensures var a := Connection.ProcessAck(c, seg, out, nxt);
      && a.c.rcvNxt == c.rcvNxt && a.c.irs == c.irs && a.c.generation == c.generation
      && Reset !in a.events && (c.ackPending ==> a.c.ackPending)
  {
    hide SeqGt, TakeAck;
  }

  lemma DataOwes(c: Conn, seg: Segment)
    ensures var d := Connection.ProcessData(c, seg);
      && d.c.irs == c.irs && d.c.generation == c.generation && Reset !in d.events
      && (d.c.rcvNxt != c.rcvNxt || c.ackPending ==> d.c.ackPending)
  {
    hide SeqGt, Wrap, Trim, HasFlag;
  }

  /** One segment: a slot whose rcv_nxt moves, or that owed an ACK, owes one after it, unless this
      very segment reset it. */
  lemma SegmentOwes(c: Conn, seg: Segment, rwnd: u16, ld: Loads)
    requires Tabled(c) && (c.state == SynReceived ==> !c.ackPending)
    ensures var r := Connection.ProcessSegment(c, seg, rwnd, ld.out0, ld.out, ld.nxt);
      && r.c.generation == c.generation && r.c.irs == c.irs
      && (r.c.ackPending || Reset in r.events || (r.c.rcvNxt == c.rcvNxt && !c.ackPending))
  {
    hide SeqGt, HasFlag, Wrap, Connection.ProcessAck, Connection.ProcessData, RstAcceptable, RstFor;
    var c0 := SyncOutFlags(c, ld.out0);
    var a := Connection.ProcessAck(c0, seg, ld.out, ld.nxt);
    DataOwes(Greeted(c0, seg), seg);
    AckOwes(c0, seg, ld.out, ld.nxt);
    DataOwes(a.c, seg);
  }

  predicate WasReset(e: Effect, i: nat, generation: u32) { ConnEvent(i, generation, Reset) in e.events }

  lemma TagHolds(slot: nat, generation: u32, events: seq<Event>, ev: Event)
    requires ev in events
    ensures ConnEvent(slot, generation, ev) in Tag(slot, generation, events)
  {
    var i :| 0 <= i < |events| && events[i] == ev;
    assert Tag(slot, generation, events)[i] == ConnEvent(slot, generation, ev);
  }

  /** The packet takes slot i off the free list. */
  predicate OpensSlot(cfg: Config, b: Book, x: Arrival, i: nat) {
    && x.input.Tcp? && SegKey(x.input.seg) !in b.flows && cfg.Opens(x.input.seg)
    && b.free != [] && i == b.free[|b.free| - 1]
  }

  /** The same of one packet and every slot; or the packet opened the slot. */
  predicate StillOwes(cfg: Config, b: Book, x: Arrival, i: nat)
    requires i < |b.slots| == |Receive(cfg, b, x).b.slots|
  {
    var e := Receive(cfg, b, x);
    var c, c' := b.slots[i], e.b.slots[i];
    if OpensSlot(cfg, b, x, i) then
      c'.generation == NextGeneration(c.generation) && c'.rcvNxt == Wrap(c'.irs + 1)
    else
      && c'.generation == c.generation && c'.irs == c.irs
      && (c'.ackPending || WasReset(e, i, c.generation) || (c'.rcvNxt == c.rcvNxt && !c.ackPending))
  }

  lemma ReceiveOwes(cfg: Config, b: Book, x: Arrival, i: nat)
    requires Inv(b) && |b.slots| < NPOS && HasPeer(x) && i < |b.slots|
    ensures |Receive(cfg, b, x).b.slots| == |b.slots| && StillOwes(cfg, b, x, i)
  {
    hide Inv, Connection.ProcessSegment, HasFlag, RstFor, Tag, Wrap, KeyOf;
    Facts(b);
    if x.input.Tcp? {
      var seg := x.input.seg;
      FlowFacts(b, SegKey(seg));
      if SegKey(seg) in b.flows {
        var idx := b.flows[SegKey(seg)];
        var c := b.slots[idx];
        var r := Connection.ProcessSegment(c, seg, cfg.rwnd, x.loads.out0, x.loads.out, x.loads.nxt);
        TabledOk(b, idx);
        SegmentOwes(c, seg, cfg.rwnd, x.loads);
        if Reset in r.events {
          TagHolds(idx, c.generation, r.events, Reset);
        }
      }
    }
  }

  /** The generation after k openings. */
  function GenAfter(g: u32, k: nat): u32 {
    if k == 0 then g else NextGeneration(GenAfter(g, k - 1))
  }

  lemma {:induction false} GenerationMoves(g: u32, k: nat)
    requires k < MOD - 1
    ensures GenAfter(g, k) == if g + k < MOD then g + k else g + k - (MOD - 1)
    ensures k > 0 ==> GenAfter(g, k) != g
  {
    if k > 0 {
      GenerationMoves(g, k - 1);
    }
  }

  /** Where slot i's rcv_nxt stood when the burst, or its own connection within it, began. */
  function BeganAt(b: Book, e: Effect, i: nat, isNew: bool): u32
    requires i < |b.slots| && i < |e.b.slots|
  {
    if isNew then Wrap(e.b.slots[i].irs + 1) else b.slots[i].rcvNxt
  }

  /** Over a whole burst: a slot owes an ACK at its end if its rcv_nxt moved since the slot was opened or
      the burst began, whatever came after, unless it was reset. */
  lemma {:induction false} BurstOwes(cfg: Config, b: Book, burst: seq<Arrival>, i: nat) returns (opens: nat)
    requires Inv(b) && |b.slots| < NPOS && i < |b.slots| && cfg.mss > 0
    requires forall x | x in burst :: HasPeer(x)
    ensures var e := ReceiveAll(cfg, b, burst);
      && |e.b.slots| == |b.slots| && opens <= |burst|
      && e.b.slots[i].generation == GenAfter(b.slots[i].generation, opens)
      && (e.b.slots[i].ackPending || WasReset(e, i, e.b.slots[i].generation)
          || e.b.slots[i].rcvNxt == BeganAt(b, e, i, opens > 0))
  {
    hide Inv, Receive, OpensSlot, Wrap, NextGeneration;
    opens := 0;
    if burst != [] {
      var front, last := burst[..|burst| - 1], burst[|burst| - 1];
      var before := BurstOwes(cfg, b, front, i);
      BurstKeeps(cfg, b, front);
      assert last in burst;
      var e := ReceiveAll(cfg, b, front);
      ReceiveOwes(cfg, e.b, last, i);
      opens := if OpensSlot(cfg, e.b, last, i) then before + 1 else before;
    }
  }

  /** What poll does for slot i at its flush: if the slot's rcv_nxt has moved since the poll began or, for
      a connection opened in it, since its SYN, then an ACK of it is attempted, from the slot as the
      burst left it and so before the slot can be finalized, unless the connection was reset. */
  predicate Acked(b: Book, e: Effect, acks: seq<Control>, nxts: seq<u32>, i: nat)
    requires i < |b.slots| == |e.b.slots| == |nxts|
  {
    var c := e.b.slots[i];
    || c.rcvNxt == BeganAt(b, e, i, c.generation != b.slots[i].generation)
    || WasReset(e, i, c.generation)
    || AckOut(i, nxts[i], c.rcvNxt) in acks
  }

  lemma FlushesAll(cfg: Config, b: Book, burst: seq<Arrival>, nxts: seq<u32>, i: nat)
    requires Inv(b) && |b.slots| < NPOS && i < |b.slots| && cfg.mss > 0
    requires forall x | x in burst :: HasPeer(x)
    requires |burst| <= MAX_BURST && |nxts| == |b.slots|
    ensures var e := ReceiveAll(cfg, b, burst);
      && |e.b.slots| == |b.slots| && Below(e.b.acks, |e.b.slots|)
      && Acked(b, e, AcksOf(e.b.slots, e.b.acks, nxts), nxts, i)
  {
    hide Inv, ReceiveAll, AcksOf, Wrap, GenAfter;
    var e := ReceiveAll(cfg, b, burst);
    var opens := BurstOwes(cfg, b, burst, i);
    BurstKeeps(cfg, b, burst);
    GenerationMoves(b.slots[i].generation, opens);
    GenerationMoves(b.slots[i].generation, 0);
    ListFacts(e.b);
    if e.b.slots[i].ackPending {
      OwingListed(e.b, i);
      AcksExact(e.b.slots, e.b.acks, nxts);
    }
  }

  lemma OwingListed(b: Book, i: nat)
    requires Inv(b) && i < |b.slots| && b.slots[i].ackPending
    ensures i in b.acks
  {
    assert Listed(b, i);
  }
}
