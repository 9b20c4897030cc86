/** tcp_receiver::impl and poll: the inbound thread's state and what one burst does to it. The
    outbound thread's fields are only ever loaded; what each load returns is a parameter, so what
    is proved here holds whatever that thread does meanwhile. */
module Receivers {
  import opened SeqArith
  import opened Connection
  import opened FlowTables
  import opened Bookkeeping
  import opened PollModel
  import MssParser
  import Probing

  /** Whether the pool had a buffer for a segment. */
  method PoolHas() returns (ok: bool) {
    ok := *;
  }

  class Receiver {
    const slots: array<Conn>
    const flows: FlowTable
    const cfg: Config
    var freeSlots: seq<nat>
    var awaiting: seq<nat>
    var ackList: seq<nat>
    var finalizeList: seq<nat>
    var control: seq<Control>
    var events: seq<ConnEvent>
    var dropped: nat                  // stats.control_tx_dropped
    var transmitted: seq<Control>     // what the NIC took from the control queue
    ghost var attempted: seq<Control> // what queue_control was ever given
    ghost var lost: seq<Control>      // of that, what was dropped

    ghost function Snapshot(): Book
      reads this, slots, flows
    {
      Book(slots[..], flows.m, freeSlots, awaiting, ackList, finalizeList)
    }

    ghost predicate Valid()
      reads this, slots, flows, flows.entries
    {
      && slots.Length < NPOS && flows.capacity == slots.Length && flows.Valid() && cfg.mss > 0
      && Inv(Snapshot()) && Accounted()
    }

    /** Every control segment ever attempted is transmitted, waiting, or counted as dropped. */
    ghost predicate Accounted()
      reads this`control, this`dropped, this`transmitted, this`attempted, this`lost
    {
      && dropped == |lost|
      && multiset(attempted) == multiset(transmitted) + multiset(control) + multiset(lost)
    }

    /** No packet of this poll costs more than three events, one control segment or pending ACK,
        and one finalization, so no fixed buffer or reserved vector can overflow. */
    ghost predicate Within(seen: nat)
      reads this
    {
      && seen <= MAX_BURST && |events| <= 3 * seen
      && |ackList| + |control| <= seen && |finalizeList| <= seen
    }

    /** What a step on one slot does besides replacing the slot. */
    twostate predicate SlotStep(idx: nat, c': Conn, evs: seq<Event>)
      requires idx < slots.Length
      reads this, slots
    {
      var c := old(slots[idx]);
      && slots[..] == old(slots[..])[idx := c']
      && events == old(events) + Tag(idx, c.generation, evs)
      && ackList == old(ackList) + (if !c.ackPending && c'.ackPending then [idx] else [])
      && finalizeList == old(finalizeList) + (if !c.finalizePending && c'.finalizePending then [idx] else [])
    }

    /** All slots free, slot 0 handed out first. `home` and `size` are the flow table's. */
    constructor(n: u16, size: nat, home: u64 -> nat, cfg: Config, blank: Conn)
      requires n > 0 && cfg.mss > 0 && n * 2 <= size && Probing.IsHash(home, size)
      requires blank.state == Free && !blank.ackPending && !blank.finalizePending
      ensures Valid() && Settled() && this.cfg == cfg && fresh(slots) && fresh(flows) && fresh(flows.entries)
      ensures |freeSlots| == slots.Length == n && flows.m == map[] && freeSlots[n - 1] == 0
    {
      slots := new Conn[n](_ => blank);
      flows := new FlowTable(n, size, home);
      this.cfg := cfg;
      freeSlots := Countdown(n);
      awaiting, ackList, finalizeList, control, events := [], [], [], [], [];
      dropped, transmitted, attempted, lost := 0, [], [], [];
      new;
      InitInv(slots[..]);
    }

    method PushEvent(idx: nat, ev: Event)
      requires idx < slots.Length && |events| < MAX_EVENTS
      modifies this`events
      ensures events == old(events) + Tag(idx, slots[idx].generation, [ev])
    {
      events := events + [ConnEvent(idx, slots[idx].generation, ev)];
      assert Tag(idx, slots[idx].generation, [ev]) == [ConnEvent(idx, slots[idx].generation, ev)];
    }

    method QueueAck(idx: nat)
      requires idx < slots.Length
      modifies this`ackList, slots
      ensures SlotStep(idx, old(slots[idx]).(ackPending := true), [])
    {
      if !slots[idx].ackPending {
        slots[idx] := slots[idx].(ackPending := true);
        ackList := ackList + [idx];
      }
    }

    method Terminate(idx: nat, why: Event)
      requires idx < slots.Length && |events| < MAX_EVENTS
      modifies this`events, this`finalizeList, slots
      ensures SlotStep(idx, Connection.Terminate(old(slots[idx]), why), [why])
    {
      slots[idx] := slots[idx].(state := Closed, pub := slots[idx].pub.(terminated := true));
      if why == Reset {
        slots[idx] := slots[idx].(ackPending := false);
      }
      PushEvent(idx, why);
      if !slots[idx].finalizePending {
        slots[idx] := slots[idx].(finalizePending := true);
        finalizeList := finalizeList + [idx];
      }
    }

    method QueueControl(pkt: Control)
      requires Accounted()
      modifies this`control, this`dropped, this`attempted, this`lost
      ensures Accounted() && Queued([pkt])
    {
      var ok := PoolHas();
      attempted := attempted + [pkt];
      if !ok || |control| == MAX_CONTROL {
        dropped := dropped + 1;
        lost := lost + [pkt];
      } else {
        control := control + [pkt];
      }
    }

    /** At most one control segment was attempted: queued, or counted as dropped. */
    twostate predicate Queued(pkts: seq<Control>)
      reads this
    {
      && attempted == old(attempted) + pkts
      && ((control == old(control) + pkts && dropped == old(dropped))
          || (control == old(control) && dropped == old(dropped) + |pkts|))
    }

    /** process_ack; `out` and `sndNxt` are what its two loads return. */
    method ProcessAck(idx: nat, seg: Segment, out: OutFlags, sndNxt: u32) returns (proceed: bool)
      requires idx < slots.Length && |events| < MAX_EVENTS
      modifies this`events, this`ackList, this`finalizeList, slots
      ensures var a := Connection.ProcessAck(old(slots[idx]), seg, out, sndNxt);
        SlotStep(idx, a.c, a.events) && proceed == a.proceed
    {
      hide SeqGt, TakeAck;
      var c := slots[idx];
      if SeqGt(seg.ack, sndNxt) {
        QueueAck(idx);
        return false;
      }
      slots[idx] := AdvanceUna(c, seg);
      if out.finSent && seg.ack == sndNxt {
        if slots[idx].state == FinWait1 {
          slots[idx] := slots[idx].(state := FinWait2);
        } else if slots[idx].state == Closing || slots[idx].state == LastAck {
          Terminate(idx, CleanClose);
          return false;
        }
      }
      proceed := true;
    }

    /** The FIN part of process_data. */
    method TakeFin(idx: nat, ghost evs: seq<Event>)
      requires idx < slots.Length && |events| < MAX_EVENTS
      modifies this`events, this`finalizeList, slots
      ensures var d := Connection.ProcessFin(old(slots[idx]), evs);
        && |d.events| >= |evs| && SlotStep(idx, d.c, d.events[|evs|..]) && d.events[..|evs|] == evs
        && d.c.ackPending == old(slots[idx]).ackPending
    {
      slots[idx] := slots[idx].(rcvNxt := Wrap(slots[idx].rcvNxt + 1));
      match slots[idx].state
      case Established =>
        slots[idx] := slots[idx].(state := CloseWait);
        PushEvent(idx, PeerClosed);
      case FinWait1 => slots[idx] := slots[idx].(state := Closing);
      case FinWait2 => Terminate(idx, CleanClose);
      case _ =>
    }

    /** process_data. */
    method ProcessData(idx: nat, seg: Segment)
      requires idx < slots.Length && |events| + 2 <= MAX_EVENTS
      modifies this`events, this`ackList, this`finalizeList, slots
      ensures var d := Connection.ProcessData(old(slots[idx]), seg);
        SlotStep(idx, d.c, d.events)
    {
      hide SeqGt, HasFlag, Connection.TakeInOrder;
      var c := slots[idx];
      if !CanReceive(c.state) {
        if |seg.payload| > 0 || seg.Fin() {
          QueueAck(idx);
        }
      } else if |seg.payload| > 0 || seg.Fin() {
        if SeqGt(seg.seqNo, c.rcvNxt) {
          QueueAck(idx);
        } else {
          TakeInOrder(idx, seg);
        }
      }
    }

    /** The payload part of process_data past the gap test: trim, deliver, owe an ACK. */
    method TakePayload(idx: nat, seg: Segment, end: u32)
      requires idx < slots.Length && |events| < MAX_EVENTS
      modifies this`events, this`ackList, slots
      ensures var p := Connection.TakePayload(old(slots[idx]), seg, end);
        SlotStep(idx, p.c, p.events)
    {
      hide SeqGt, Wrap, Trim;
      var c := slots[idx];
      if SeqGt(end, c.rcvNxt) {
        var skip := Wrap(c.rcvNxt - seg.seqNo);
        PushEvent(idx, Data(Trim(seg.payload, skip)));
        slots[idx] := slots[idx].(rcvNxt := end);
      }
      QueueAck(idx);
    }

    /** process_data past the gap test. */
    method TakeInOrder(idx: nat, seg: Segment)
      requires idx < slots.Length && |events| + 2 <= MAX_EVENTS
      modifies this`events, this`ackList, this`finalizeList, slots
      ensures var d := Connection.TakeInOrder(old(slots[idx]), seg);
        SlotStep(idx, d.c, d.events)
    {
      hide Wrap, HasFlag, Connection.TakePayload, ProcessFin, Tag;
      ghost var c := slots[idx];
      var end := Wrap(seg.seqNo + |seg.payload|);
      ghost var p := Connection.TakePayload(c, seg, end);
      PayloadEffects(c, seg, end);
      TakePayload(idx, seg, end);
      if seg.Fin() && end == slots[idx].rcvNxt {
        ghost var d := ProcessFin(p.c, p.events);
        TakeFin(idx, p.events);
        TagAppend(idx, c.generation, p.events, d.events[|p.events|..]);
        assert d.events == p.events + d.events[|p.events|..];
      }
      slots[idx] := slots[idx].(pub := slots[idx].pub.(rcvNxt := slots[idx].rcvNxt));
    }

    /** process_segment on a slot past its handshake, after sync_out_flags. */
    method SynchronizedSegment(idx: nat, seg: Segment, out: OutFlags, nxt: u32) returns (ghost r: Outcome)
      requires idx < slots.Length && |events| + 3 <= MAX_EVENTS && slots[idx].state != SynReceived
      modifies this`events, this`ackList, this`finalizeList, slots
      ensures r == ProcessSynced(old(slots[idx]), seg, cfg.rwnd, out, nxt)
      ensures r.reply == NoReply && !r.recycled && SlotStep(idx, r.c, r.events)
    {
      hide Connection.ProcessAck, Connection.ProcessData, RstAcceptable, HasFlag;
      ghost var c := slots[idx];
      r := Outcome(c, [], NoReply, false);
      if slots[idx].state == Free || slots[idx].state == Closed {
        return;
      }
      if seg.Rst() {
        if RstAcceptable(slots[idx], seg, cfg.rwnd) {
          r := Outcome(Connection.Terminate(c, Reset), [Reset], NoReply, false);
          Terminate(idx, Reset);
        }
        return;
      }
      if seg.Syn() {
        r := Outcome(c.(ackPending := true), [], NoReply, false);
        QueueAck(idx);
        return;
      }
      if !seg.Ack() {
        return;
      }
      var proceed := ProcessAck(idx, seg, out, nxt);
      ghost var a := Connection.ProcessAck(c, seg, out, nxt);
      r := Outcome(a.c, a.events, NoReply, false);
      AckEffects(c, seg, out, nxt);
      if proceed {
        ghost var d := Connection.ProcessData(a.c, seg);
        DataEffects(a.c, seg);
        TagAppend(idx, c.generation, a.events, d.events);
        r := Outcome(d.c, a.events + d.events, NoReply, false);
        ProcessData(idx, seg);
      }
    }

    /** send_rst_for. */
    method SendRst(seg: Segment)
      requires Accounted()
      modifies this`control, this`dropped, this`attempted, this`lost
      ensures Accounted() && Queued(RstSegs(seg))
    {
      hide Accounted, RstFor, HasFlag;
      if seg.Rst() {
        return;
      }
      QueueControl(RstOut(RstFor(seg)));
    }

    /** The handshake's final ACK, with whatever it carries. */
    method AcceptSegment(idx: nat, seg: Segment)
      requires idx < slots.Length && |events| + 3 <= MAX_EVENTS
      modifies this`events, this`ackList, this`finalizeList, slots
      ensures var d := Connection.ProcessData(Greeted(old(slots[idx]), seg), seg);
        SlotStep(idx, d.c, [Accepted] + d.events)
    {
      hide Connection.ProcessData;
      ghost var c := slots[idx];
      slots[idx] := Greeted(slots[idx], seg);
      PushEvent(idx, Accepted);
      ghost var d := Connection.ProcessData(Greeted(c, seg), seg);
      TagAppend(idx, c.generation, [Accepted], d.events);
      ProcessData(idx, seg);
    }

    /** A connection reset before it was accepted: out of the table, and free at once. */
    method Recycle(idx: nat)
      requires idx < slots.Length && flows.Valid() && KeyOf(slots[idx]) != 0
      modifies this`freeSlots, slots, flows, flows.entries
      ensures flows.Valid() && flows.m == old(flows.m) - {KeyOf(old(slots[idx]))}
      ensures slots[..] == old(slots[..])[idx := Release(old(slots[idx]))]
      ensures freeSlots == old(freeSlots) + [idx]
    {
      hide KeyOf, flows.Valid;
      flows.Erase(KeyOf(slots[idx]));
      slots[idx] := Release(slots[idx]);
      freeSlots := freeSlots + [idx];
    }

    /** process_segment on a slot in syn_received. */
    method HandshakeSegment(idx: nat, seg: Segment) returns (ghost r: Outcome)
      requires idx < slots.Length && |events| + 3 <= MAX_EVENTS && flows.Valid() && Accounted()
      requires slots[idx].state == SynReceived && KeyOf(slots[idx]) != 0
      modifies this`events, this`ackList, this`finalizeList, this`control, this`dropped, this`attempted,
        this`lost, this`freeSlots, slots, flows, flows.entries
      ensures flows.Valid() && Accounted() && r == ProcessSynReceived(old(slots[idx]), seg, cfg.rwnd)
      ensures SlotStep(idx, r.c, r.events) && Queued(Outgoing(idx, r.c, r.reply))
      ensures freeSlots == old(freeSlots) + (if r.recycled then [idx] else [])
      ensures flows.m == if r.recycled then old(flows.m) - {KeyOf(old(slots[idx]))} else old(flows.m)
    {
      hide Connection.ProcessData, RstAcceptable, HasFlag, Wrap, RstFor, RstSegs, KeyOf, flows.Valid, Greeted,
        Accounted, Tag;
      var c := slots[idx];
      r := ProcessSynReceived(c, seg, cfg.rwnd);
      if seg.Rst() {
        if RstAcceptable(c, seg, cfg.rwnd) {
          Recycle(idx);
        }
      } else if seg.Syn() {
        if !seg.Ack() && seg.seqNo == c.irs {
          QueueControl(SynAckOut(idx, c.addr.iss, c.rcvNxt));
        }
      } else if seg.Ack() {
        if seg.ack != Wrap(c.addr.iss + 1) {
          RstIsReset(idx, c, seg);
          SendRst(seg);
        } else {
          AcceptSegment(idx, seg);
        }
      }
    }

    /** process_segment on whatever slot. */
    method Dispatch(idx: nat, seg: Segment, ld: Loads) returns (ghost r: Outcome)
      requires idx < slots.Length && |events| + 3 <= MAX_EVENTS && flows.Valid() && Accounted()
      requires KeyOf(slots[idx]) != 0
      modifies this`events, this`ackList, this`finalizeList, this`control, this`dropped, this`attempted,
        this`lost, this`freeSlots, slots, flows, flows.entries
      ensures flows.Valid() && Accounted()
      ensures r == Connection.ProcessSegment(old(slots[idx]), seg, cfg.rwnd, ld.out0, ld.out, ld.nxt)
      ensures SlotStep(idx, r.c, r.events) && Queued(Outgoing(idx, r.c, r.reply))
      ensures freeSlots == old(freeSlots) + (if r.recycled then [idx] else [])
      ensures flows.m == if r.recycled then old(flows.m) - {KeyOf(old(slots[idx]))} else old(flows.m)
    {
      hide ProcessSynced, ProcessSynReceived, HasFlag, Key, flows.Valid, Accounted;
      ghost var c := slots[idx];
      slots[idx] := SyncOutFlags(slots[idx], ld.out0);
      if slots[idx].state == SynReceived {
        r := HandshakeSegment(idx, seg);
      } else {
        r := SynchronizedSegment(idx, seg, ld.out, ld.nxt);
      }
      HandshakeFirst(SyncOutFlags(c, ld.out0), seg, cfg.rwnd, ld.out, ld.nxt);
    }

    /** process_segment: the book changes exactly as the segment's outcome says. */
    method ProcessSegment(idx: nat, seg: Segment, ld: Loads, ghost seen: nat) returns (ghost r: Outcome)
      requires Valid() && idx < slots.Length && Tabled(slots[idx]) && Within(seen) && seen < MAX_BURST
      modifies this, slots, flows, flows.entries
      ensures Valid() && Within(seen + 1)
      ensures r == Connection.ProcessSegment(old(slots[idx]), seg, cfg.rwnd, ld.out0, ld.out, ld.nxt)
      ensures Snapshot() == WithSegment(old(Snapshot()), idx, r)
      ensures events == old(events) + Tag(idx, old(slots[idx]).generation, r.events)
      ensures Queued(Outgoing(idx, r.c, r.reply)) && transmitted == old(transmitted)
    {
      hide Connection.ProcessSegment, Inv, KeyOf, Listed, flows.Valid, Accounted;
      ghost var b := Snapshot();
      TabledOk(b, idx);
      SegmentKept(b, idx, seg, cfg.rwnd, ld);
      r := Dispatch(idx, seg, ld);
      assert Snapshot() == WithSegment(b, idx, r);
    }

    /** open: a SYN for a listening port takes the last free slot, or is refused with a RST. */
    method Open(seg: Segment, iss: u32, ghost seen: nat)
      requires Valid() && Within(seen) && seen < MAX_BURST && seg.srcIp != 0
      requires SegKey(seg) !in flows.m
      modifies this, slots, flows, flows.entries
      ensures Valid() && Within(seen + 1) && events == old(events) && transmitted == old(transmitted)
      ensures old(freeSlots) == [] ==>
        Snapshot() == old(Snapshot()) && Queued(RstSegs(seg))
      ensures old(freeSlots) != [] ==>
        var b, idx := old(Snapshot()), old(freeSlots)[|old(freeSlots)| - 1];
        && idx < slots.Length && slots[idx] == Opened(cfg, b, seg, iss) && slots[idx].addr.sendMss > 0
        && Snapshot() == WithOpen(b, slots[idx])
        && Queued([SynAckOut(idx, iss, slots[idx].rcvNxt)])
    {
      hide Inv, KeyOf, Listed, flows.Valid, RstFor, Wrap, Accounted;
      ghost var b := Snapshot();
      Facts(b);
      if freeSlots == [] {
        SendRst(seg);
        return;
      }
      var idx := freeSlots[|freeSlots| - 1];
      freeSlots := freeSlots[..|freeSlots| - 1];
      var peerMss := MssParser.ParseMssOption(seg.options);
      ghost var c := Opened(cfg, b, seg, iss);
      OpenKept(cfg, b, seg, iss);
      slots[idx] := Connection.Open(slots[idx], seg, peerMss, cfg.mss, iss);
      KeyIs(c, seg);
      assert |flows.m| < flows.capacity && SegKey(seg) != 0;
      flows.Insert(SegKey(seg), idx);
      QueueControl(SynAckOut(idx, iss, slots[idx].rcvNxt));
      assert Snapshot() == WithOpen(b, c);
    }

    /** One parsed packet: a segment of a known connection goes to its slot, a bare SYN for a
        listening port opens one if any is free, and nothing else touches the book. */
    method Process(x: Arrival, ghost seen: nat)
      requires Valid() && Within(seen) && seen < MAX_BURST && HasPeer(x)
      modifies this, slots, flows, flows.entries
      ensures Valid() && Within(seen + 1) && transmitted == old(transmitted)
      ensures var e := Receive(cfg, old(Snapshot()), x);
        Snapshot() == e.b && events == old(events) + e.events && Queued(e.replies)
    {
      hide Inv, Listed, flows.Valid, RstFor, HasFlag, Accounted, Connection.ProcessSegment, WithSegment,
        Opened, WithOpen;
      Facts(Snapshot());
      match x.input
      case Skip =>
      case Arp => QueueControl(ArpOut);
      case Tcp(seg) =>
        KeyInjective(seg.srcIp, seg.srcPort, seg.dstPort, 0, 0, 0);
        var idx := flows.Find(SegKey(seg));
        FlowFacts(Snapshot(), SegKey(seg));
        if idx != NPOS {
          ghost var r := ProcessSegment(idx, seg, x.loads, seen);
        } else if cfg.Opens(seg) {
          OpenedIss(cfg, Snapshot(), seg, x.loads.iss);
          Open(seg, x.loads.iss, seen);
        } else {
          SendRst(seg);
        }
    }

    /** reap_released, given what its load of each slot's out_flags says. */
    method ReapReleased(released: seq<bool>)
      requires Valid() && |released| == slots.Length
      modifies this`freeSlots, this`awaiting, slots
      ensures Valid() && Reaped(old(Snapshot()), Snapshot(), released)
      ensures old(freeSlots) <= freeSlots
    {
      hide Inv, Listed, flows.Valid, Accounted;
      ListFacts(Snapshot());
      var k := 0;
      while k < |awaiting|
        invariant Valid() && k <= |awaiting| && Below(awaiting, slots.Length)
        invariant old(freeSlots) <= freeSlots
        invariant forall i | 0 <= i < slots.Length ::
          || slots[i] == old(slots[i])
          || (Parked(old(slots[i])) && released[i] && slots[i] == Release(old(slots[i])))
        invariant forall j | 0 <= j < k :: !released[awaiting[j]]
        decreases |awaiting| - k
      {
        var idx := awaiting[k];
        if released[idx] {
          ghost var b := Snapshot();
          AwaitingFacts(b, k);
          ReapKeeps(b, k);
          slots[idx] := Release(slots[idx]);
          freeSlots := freeSlots + [idx];
          awaiting := awaiting[k := awaiting[|awaiting| - 1]][..|awaiting| - 1];
          assert Snapshot() == WithReap(b, k);
        } else {
          k := k + 1;
        }
      }
      forall i | 0 <= i < slots.Length && Parked(slots[i])
        ensures !released[i]
      {
        ParkedAwaits(Snapshot(), i);
      }
    }

    /** One turn of flush_acks' loop, `rest` being the turns still to come. */
    method FlushOne(idx: nat, nxt: u32, ghost rest: seq<nat>)
      requires idx < slots.Length && Accounted() && Inv(Snapshot().(acks := [idx] + rest))
      modifies this`control, this`dropped, this`attempted, this`lost, slots
      ensures Accounted() && Inv(Snapshot().(acks := rest))
      ensures slots[..] == old(slots[..])[idx := old(slots[idx]).(ackPending := false)]
      ensures |control| <= |old(control)| + 1
      ensures attempted == old(attempted)
        + (if old(slots[idx]).ackPending then [AckOut(idx, nxt, old(slots[idx]).rcvNxt)] else [])
    {
      hide Inv, Listed, Accounted;
      ghost var b := Snapshot().(acks := [idx] + rest);
      ListFacts(b);
      FlushKeeps(b);
      if slots[idx].ackPending {
        slots[idx] := slots[idx].(ackPending := false);
        QueueControl(AckOut(idx, nxt, slots[idx].rcvNxt));
      }
      assert slots[..] == b.slots[idx := b.slots[idx].(ackPending := false)];
      assert Snapshot().(acks := rest) == WithFlush(b);
    }

    /** flush_acks: one pure ACK of rcv_nxt for each slot on the list that still owes one, and none
        owed afterwards. `nxts` is what the load of each slot's snd_nxt returns. */
    method FlushAcks(nxts: seq<u32>)
      requires Valid() && |ackList| + |control| <= MAX_BURST && |nxts| == slots.Length
      modifies this`control, this`dropped, this`attempted, this`lost, this`ackList, slots
      ensures Valid() && ackList == [] && |control| <= MAX_BURST
      ensures forall i | 0 <= i < slots.Length :: slots[i] == old(slots[i]).(ackPending := false)
      ensures Below(old(ackList), |old(slots[..])|)
      ensures attempted == old(attempted) + AcksOf(old(slots[..]), old(ackList), nxts)
    {
      hide Inv, Listed, flows.Valid, Accounted, AcksOf;
      ghost var list, was := ackList, slots[..];
      ghost var b0 := Snapshot();
      ListFacts(b0);
      AcksNone(was, list[..0], nxts);
      var j := 0;
      assert ackList[0..] == ackList;
      while j < |ackList|
        invariant j <= |ackList| && ackList == list
        invariant Inv(Snapshot().(acks := ackList[j..])) && Accounted()
        invariant |control| <= |old(control)| + j
        invariant forall i | 0 <= i < slots.Length ::
          slots[i] == if i in list[..j] then was[i].(ackPending := false) else was[i]
        invariant attempted == old(attempted) + AcksOf(was, list[..j], nxts)
      {
        var idx := ackList[j];
        assert ackList[j..] == [idx] + ackList[j + 1..];
        assert idx !in list[..j] && list[..j + 1] == list[..j] + [idx];
        AcksSnoc(was, list[..j], idx, nxts);
        FlushOne(idx, nxts[idx], ackList[j + 1..]);
        j := j + 1;
      }
      assert ackList[j..] == [] && list[..j] == list;
      ackList := [];
      forall i | 0 <= i < slots.Length && i !in list
        ensures was[i].(ackPending := false) == was[i]
      {
        NotOwing(b0, i);
      }
    }

    /** flush_control: the NIC takes any prefix; the rest is counted as dropped. */
    method FlushControl()
      requires Valid()
      modifies this`control, this`dropped, this`transmitted, this`lost
      ensures Valid() && control == []
      ensures exists sent | 0 <= sent <= |old(control)| ::
        && transmitted == old(transmitted) + old(control)[..sent]
        && dropped == old(dropped) + (|old(control)| - sent)
    {
      hide Inv, flows.Valid;
      var sent :| 0 <= sent <= |control|;
      assert control == control[..sent] + control[sent..];
      dropped := dropped + (|control| - sent);
      transmitted := transmitted + control[..sent];
      lost := lost + control[sent..];
      control := [];
    }

    /** One turn of finalize's loop, `rest` being the turns still to come. */
    method FinalizeOne(idx: nat, released: bool, ghost rest: seq<nat>)
      requires idx < slots.Length && flows.Valid() && ackList == []
      requires Inv(Snapshot().(fins := [idx] + rest))
      modifies this`freeSlots, this`awaiting, slots, flows, flows.entries
      ensures flows.Valid() && Inv(Snapshot().(fins := rest))
      ensures Snapshot().(fins := rest) == WithFinalize(old(Snapshot()).(fins := [idx] + rest), released)
      ensures slots[..] == old(slots[..])[idx := Finalized(old(slots[idx]), released)]
    {
      hide Inv, Listed, flows.Valid, Key;
      ghost var b := Snapshot().(fins := [idx] + rest);
      FinalizeFacts(b);
      FinalizeKeeps(b, released);
      slots[idx] := slots[idx].(finalizePending := false);
      flows.Erase(KeyOf(slots[idx]));
      if released {
        slots[idx] := Release(slots[idx]);
        freeSlots := freeSlots + [idx];
      } else {
        awaiting := awaiting + [idx];
      }
      assert Snapshot().(fins := rest) == WithFinalize(b, released);
    }

    /** finalize, given what its load of each slot's out_flags says: each of this poll's terminal
        slots is free if its close() has been seen and awaits it otherwise. */
    method Finalize(released: seq<bool>)
      requires Valid() && ackList == [] && |released| == slots.Length
      modifies this`freeSlots, this`awaiting, this`finalizeList, slots, flows, flows.entries
      ensures Valid() && finalizeList == []
      ensures forall i | 0 <= i < slots.Length :: slots[i] == Finalized(old(slots[i]), released[i])
      ensures |flows.m| == |old(flows.m)| - |old(finalizeList)|
      ensures |freeSlots| + |awaiting| == old(|freeSlots| + |awaiting| + |finalizeList|)
    {
      hide Inv, Listed, flows.Valid, WithFinalize, Finalized, Accounted;
      ghost var list, was := finalizeList, slots[..];
      ghost var b0 := Snapshot();
      ListFacts(b0);
      var j := 0;
      assert finalizeList[0..] == finalizeList;
      while j < |finalizeList|
        invariant j <= |finalizeList| && finalizeList == list && flows.Valid()
        invariant Inv(Snapshot().(fins := finalizeList[j..]))
        invariant |freeSlots| + |awaiting| == |b0.free| + |b0.awaiting| + j
        invariant forall i | 0 <= i < slots.Length ::
          slots[i] == if i in list[..j] then Finalized(was[i], released[i]) else was[i]
      {
        var idx := finalizeList[j];
        assert finalizeList[j..] == [idx] + finalizeList[j + 1..];
        assert idx !in list[..j] && list[..j + 1] == list[..j] + [idx];
        FinalizeMoves(Snapshot().(fins := finalizeList[j..]), released[idx]);
        FinalizeOne(idx, released[idx], finalizeList[j + 1..]);
        j := j + 1;
      }
      assert finalizeList[j..] == [] && list[..j] == list;
      finalizeList := [];
      forall i | 0 <= i < slots.Length && i !in list
        ensures Finalized(was[i], released[i]) == was[i]
      {
        NotFinalized(b0, i, released[i]);
      }
      Conserved(b0);
      Conserved(Snapshot());
    }

    /** The packets of a burst, in order. */
    method ProcessBurst(burst: seq<Arrival>)
      requires Valid() && Within(0) && |burst| <= MAX_BURST
      requires forall x | x in burst :: HasPeer(x)
      modifies this, slots, flows, flows.entries
      ensures Valid() && Within(|burst|) && transmitted == old(transmitted)
      ensures var e := ReceiveAll(cfg, old(Snapshot()), burst);
        Snapshot() == e.b && events == old(events) + e.events && attempted == old(attempted) + e.replies
    {
      hide Inv, Listed, flows.Valid, KeyOf, Receive, ReceiveAll, Accounted;
      ghost var b := Snapshot();
      ReceiveNone(cfg, b, burst[..0]);
      for j := 0 to |burst|
        invariant Valid() && Within(j) && transmitted == old(transmitted)
        invariant var e := ReceiveAll(cfg, b, burst[..j]);
          Snapshot() == e.b && events == old(events) + e.events && attempted == old(attempted) + e.replies
      {
        ReceiveSnoc(cfg, b, burst, j);
        Process(burst[j], j);
      }
      assert burst[..|burst|] == burst;
    }

    /** poll: one burst of at most 32 packets. The book `reaped` is what reap_released leaves, `e` what
        the packets then do to it; after that exactly the ACKs owed are attempted, once each, from
        slots still in place, and every terminal slot is finalized. Nothing is left pending. */
    method Poll(burst: seq<Arrival>, released: seq<bool>, nxts: seq<u32>, released': seq<bool>)
      returns (ghost reaped: Book, ghost e: Effect)
      requires Valid() && Settled() && |burst| <= MAX_BURST
      requires |released| == |nxts| == |released'| == slots.Length
      requires forall x | x in burst :: HasPeer(x)
      modifies this, slots, flows, flows.entries
      ensures Valid() && Settled()
      ensures Reaped(old(Snapshot()), reaped, released) && e == ReceiveAll(cfg, reaped, burst)
      ensures events == e.events && |events| <= 3 * |burst| <= MAX_EVENTS
      ensures Inv(e.b) && |e.b.slots| == slots.Length && Below(e.b.acks, |e.b.slots|)
      ensures attempted == old(attempted) + e.replies + AcksOf(e.b.slots, e.b.acks, nxts)
      ensures |reaped.slots| == slots.Length && forall i | 0 <= i < slots.Length ::
        Acked(reaped, e, AcksOf(e.b.slots, e.b.acks, nxts), nxts, i)
      ensures forall i | 0 <= i < slots.Length ::
        slots[i] == Finalized(e.b.slots[i].(ackPending := false), released'[i])
      ensures dropped + |transmitted| == |attempted| && old(transmitted) <= transmitted
    {
      hide Inv, Listed, flows.Valid, KeyOf, ReceiveAll, Finalized, Accounted, Reaped, AcksOf, Acked,
        BeganAt, WasReset;
      events := [];
      ReapReleased(released);
      reaped := Snapshot();
      ProcessBurst(burst);
      e := ReceiveAll(cfg, reaped, burst);
      ListFacts(e.b);
      forall i | 0 <= i < slots.Length
        ensures Acked(reaped, e, AcksOf(e.b.slots, e.b.acks, nxts), nxts, i)
      {
        FlushesAll(cfg, reaped, burst, nxts, i);
      }
      Flush(nxts, released');
    }

    /** The end of a poll: the ACKs owed, the control queue, and then the terminal slots. */
    method Flush(nxts: seq<u32>, released: seq<bool>)
      requires Valid() && |ackList| + |control| <= MAX_BURST && |nxts| == |released| == slots.Length
      modifies this`control, this`dropped, this`transmitted, this`attempted, this`lost, this`ackList,
        this`freeSlots, this`awaiting, this`finalizeList, slots, flows, flows.entries
      ensures Valid() && Settled() && Below(old(ackList), |old(slots[..])|)
      ensures attempted == old(attempted) + AcksOf(old(slots[..]), old(ackList), nxts)
      ensures forall i | 0 <= i < slots.Length ::
        slots[i] == Finalized(old(slots[i]).(ackPending := false), released[i])
      ensures dropped + |transmitted| == |attempted| && old(transmitted) <= transmitted
    {
      hide Inv, flows.Valid, Finalized, Accounted, AcksOf;
      FlushAcks(nxts);
      FlushControl();
      Finalize(released);
      Account(this);
    }

    /** Nothing left over from a poll. */
    predicate Settled()
      reads this
    {
      ackList == [] && finalizeList == [] && control == []
    }
  }

  lemma Account(r: Receiver)
    requires r.Accounted() && r.control == []
    ensures r.dropped + |r.transmitted| == |r.attempted|
  {
    assert |multiset(r.attempted)| == |multiset(r.transmitted)| + |multiset(r.lost)|;
  }
}
