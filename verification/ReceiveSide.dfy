/** Receiving half of the protocol invariant: what the application is told, and what is
    acknowledged, is exactly the in-order prefix of the peer's stream. */
module ReceiveSide {
  import opened SeqArith
  import opened Connection
  import opened Protocol
  import SendLoop

  /** All payload handed to the application, in order. */
  function Delivered(events: seq<Event>): seq<u8> {
    if events == [] then []
    else
      var last := events[|events| - 1];
      Delivered(events[..|events| - 1]) + (if last.Data? then last.bytes else [])
  }

  lemma {:induction false} DeliveredAppend(a: seq<Event>, b: seq<Event>)
    ensures Delivered(a + b) == Delivered(a) + Delivered(b)
  {
    if b == [] {
      assert a + b == a;
    } else {
      var b' := b[..|b| - 1];
      assert (a + b)[..|a + b| - 1] == a + b';
      DeliveredAppend(a, b');
    }
  }

  lemma DeliveredOne(a: seq<Event>)
    requires |a| <= 1
    ensures Delivered(a) == if a != [] && a[0].Data? then a[0].bytes else []
  {
  }

  /** How far rcv_nxt can be in each state: the peer's FIN is counted only once it is past. */
  predicate RcvFits(e: Env, st: TcpState, rcv: int) {
    && e.First() <= rcv <= e.End() + 1
    && (st == SynReceived ==> rcv == e.First())
    && (CanReceive(st) ==> rcv <= e.End())
    && (st == CloseWait || st == LastAck || st == Closing ==> rcv == e.End() + 1)
  }

  /** The part of the stream between two receive positions. */
  function Slice(e: Env, from: int, upTo: int): seq<u8>
    requires e.First() <= from <= upTo <= e.End() + 1
  {
    e.stream[Min(from, e.End()) - e.First() .. Min(upTo, e.End()) - e.First()]
  }

  lemma SliceJoin(e: Env, rcv: int, rcv': int)
    requires e.First() <= rcv <= rcv' <= e.End() + 1
    ensures Slice(e, e.First(), rcv) + Slice(e, rcv, rcv') == Slice(e, e.First(), rcv')
  {
    Join(e.stream, 0, Min(rcv, e.End()) - e.First(), Min(rcv', e.End()) - e.First());
  }

  lemma NothingYet(e: Env)
    ensures Delivered([]) == [] == Slice(e, e.First(), e.First())
  {
  }

  lemma Join(s: seq<u8>, i: nat, j: nat, k: nat)
    requires i <= j <= k <= |s|
    ensures s[i..j] + s[j..k] == s[i..k]
  {
  }

  predicate PeerData(e: Env, rcv: int, p: PeerSeg) {
    p.seg.Plain() && p.Occupies() ==>
      CutFromStream(e, p) && -HALF < p.seqPos - rcv && p.EndPos() - rcv <= HALF
  }

  /** The position a slot's rcv_nxt stands for after a change to it. */
  function NewRcv(c: Conn, r: Conn, rcv: int): int { rcv + Wrap(r.rcvNxt - c.rcvNxt) }

  /** What it is for a slot update to receive exactly the stream between two positions. */
  predicate Receives(e: Env, c: Conn, rcv: int, r: Conn, events: seq<Event>)
    requires e.First() <= rcv <= e.End() + 1
  {
    var rcv' := NewRcv(c, r, rcv);
    && r.rcvNxt == r.pub.rcvNxt == Wrap(rcv') && rcv <= rcv' && RcvFits(e, r.state, rcv')
    && Delivered(events) == Slice(e, rcv, rcv')
  }

  /** The wrapped forward distance is the true one. */
  lemma Forward(rcv: int, n: int)
    requires 0 <= n < MOD
    ensures Wrap(Wrap(rcv + n) - Wrap(rcv)) == n
  {
    WrapSub(rcv + n, rcv);
  }

  /** The wire arithmetic of process_data, in positions: the gap test, the trim, the end. */
  lemma TrimExact(e: Env, c: Conn, p: PeerSeg, rcv: int)
    requires c.rcvNxt == Wrap(rcv) && CutFromStream(e, p)
    requires -HALF < p.seqPos - rcv && p.EndPos() - rcv <= HALF
    ensures SeqGt(p.seg.seqNo, c.rcvNxt) <==> p.seqPos > rcv
    ensures Wrap(p.seg.seqNo + |p.seg.payload|) == Wrap(p.EndPos())
    ensures SeqGt(Wrap(p.EndPos()), c.rcvNxt) <==> p.EndPos() > rcv
    ensures p.seqPos <= rcv ==> Wrap(c.rcvNxt - p.seg.seqNo) == rcv - p.seqPos
    ensures Wrap(p.EndPos()) == c.rcvNxt <==> p.EndPos() == rcv
  {
    hide Wrap, SeqLt, HasFlag;
    SeqLtDecides(rcv, p.seqPos);
    SeqLtDecides(rcv, p.EndPos());
    WrapAdd(p.seqPos, |p.seg.payload|);
    WrapInjective(p.EndPos(), rcv);
    WrapSub(rcv, p.seqPos);
    if p.seqPos <= rcv {
      WrapSmall(rcv - p.seqPos);
    }
  }

  /** process_data delivers exactly the bytes between the old and the new rcv_nxt, once, with
      the trimmed front strictly inside the payload, and counts the FIN exactly at the end. */
  lemma DataReceives(e: Env, c: Conn, p: PeerSeg, rcv: int)
    requires c.rcvNxt == Wrap(rcv) && c.pub.rcvNxt == c.rcvNxt && RcvFits(e, c.state, rcv)
    requires p.seg.Plain() && PeerData(e, rcv, p)
    ensures var r := ProcessData(c, p.seg); Receives(e, c, rcv, r.c, r.events)
    ensures CanReceive(c.state) && p.Occupies() && p.seqPos <= rcv < p.EndPos() ==>
      0 <= Wrap(c.rcvNxt - p.seg.seqNo) < |p.seg.payload|
  {
    hide SeqGt, HasFlag;
    if CanReceive(c.state) && p.Occupies() {
      TrimExact(e, c, p, rcv);
      if p.seqPos <= rcv {
        DataTaken(e, c, p, rcv);
      }
    }
  }

  /** Whether a segment brings the peer's FIN in order. */
  predicate TakesFin(p: PeerSeg, rcv: int) { p.seg.Fin() && p.EndPos() >= rcv }

  /** The state and the event an in-order FIN leads to. */
  function FinState(st: TcpState): TcpState {
    if st == Established then CloseWait else if st == FinWait1 then Closing else Closed
  }
  function FinEvents(st: TcpState): seq<Event> {
    if st == Established then [PeerClosed] else if st == FinWait1 then [] else [CleanClose]
  }

  function Taken(p: PeerSeg, rcv: int): int {
    Max(rcv, p.EndPos()) + (if TakesFin(p, rcv) then 1 else 0)
  }

  /** process_data past the gap test, in positions. */
  lemma DataShape(e: Env, c: Conn, p: PeerSeg, rcv: int)
    requires c.rcvNxt == Wrap(rcv) && RcvFits(e, c.state, rcv) && CanReceive(c.state)
    requires p.seg.Plain() && p.Occupies() && PeerData(e, rcv, p) && p.seqPos <= rcv
    ensures var r := ProcessData(c, p.seg);
      && r.c.rcvNxt == r.c.pub.rcvNxt == Wrap(Taken(p, rcv))
      && r.c.state == (if TakesFin(p, rcv) then FinState(c.state) else c.state)
      && r.events == (if p.EndPos() > rcv then [Data(p.seg.payload[rcv - p.seqPos..])] else [])
                     + (if TakesFin(p, rcv) then FinEvents(c.state) else [])
  {
    hide SeqGt, HasFlag, Wrap;
    TrimExact(e, c, p, rcv);
    WrapAdd(Max(rcv, p.EndPos()), 1);
  }

  /** The events of DataShape carry exactly the stream between the two positions. */
  lemma ShapeDelivers(e: Env, st: TcpState, p: PeerSeg, rcv: int)
    requires RcvFits(e, st, rcv) && CanReceive(st) && CutFromStream(e, p) && p.seqPos <= rcv
    ensures RcvFits(e, if TakesFin(p, rcv) then FinState(st) else st, Taken(p, rcv))
    ensures Delivered((if p.EndPos() > rcv then [Data(p.seg.payload[rcv - p.seqPos..])] else [])
                      + (if TakesFin(p, rcv) then FinEvents(st) else []))
         == Slice(e, rcv, Taken(p, rcv))
  {
    hide HasFlag, Wrap, Delivered;
    var head := if p.EndPos() > rcv then [Data(p.seg.payload[rcv - p.seqPos..])] else [];
    var tail := if TakesFin(p, rcv) then FinEvents(st) else [];
    DeliveredAppend(head, tail);
    DeliveredOne(tail);
    DeliveredOne(head);
    if p.EndPos() > rcv {
      assert p.seg.payload[rcv - p.seqPos..] == Slice(e, rcv, p.EndPos());
    }
  }

  lemma DataTaken(e: Env, c: Conn, p: PeerSeg, rcv: int)
    requires c.rcvNxt == Wrap(rcv) && RcvFits(e, c.state, rcv) && CanReceive(c.state)
    requires p.seg.Plain() && p.Occupies() && PeerData(e, rcv, p) && p.seqPos <= rcv
    ensures var r := ProcessData(c, p.seg); var rcv' := Taken(p, rcv);
      && r.c.rcvNxt == r.c.pub.rcvNxt == Wrap(rcv') && NewRcv(c, r.c, rcv) == rcv'
      && RcvFits(e, r.c.state, rcv') && Delivered(r.events) == Slice(e, rcv, rcv')
  {
    hide HasFlag, Wrap, ProcessData, RcvFits, Delivered, FinState, FinEvents;
    ShapeDelivers(e, c.state, p, rcv);
    DataShape(e, c, p, rcv);
    Forward(rcv, Taken(p, rcv) - rcv);
  }

  /** process_ack receives nothing. */
  lemma AckReceives(e: Env, c: Conn, seg: Segment, out: OutFlags, sndNxt: u32, rcv: int)
    requires c.rcvNxt == Wrap(rcv) && c.pub.rcvNxt == c.rcvNxt && RcvFits(e, c.state, rcv)
    ensures var a := ProcessAck(c, seg, out, sndNxt);
      && a.c.rcvNxt == c.rcvNxt && Receives(e, c, rcv, a.c, a.events)
      && RcvFits(e, a.c.state, rcv) && (a.proceed ==> a.events == [])
  {
    hide SeqGt, TakeAck;
  }

  lemma Unmoved(e: Env, c: Conn, r: Conn, rcv: int)
    requires c.rcvNxt == Wrap(rcv) && RcvFits(e, r.state, rcv)
    requires r.rcvNxt == r.pub.rcvNxt == c.rcvNxt
    ensures Receives(e, c, rcv, r, []) && Receives(e, c, rcv, r, [Reset])
  {
  }

  lemma SynReceivedReceives(e: Env, c: Conn, p: PeerSeg, rwnd: u16, rcv: int)
    requires c.rcvNxt == Wrap(rcv) && c.pub.rcvNxt == c.rcvNxt && RcvFits(e, c.state, rcv)
    requires c.state == SynReceived && PeerData(e, rcv, p)
    ensures var r := ProcessSynReceived(c, p.seg, rwnd); Receives(e, c, rcv, r.c, r.events)
  {
    hide Wrap, ProcessData, RstAcceptable, HasFlag, RstFor, PeerData, RcvFits, Slice, Delivered, Greeted;
    hide Receives;
    var seg := p.seg;
    if seg.Plain() && seg.ack == Wrap(c.addr.iss + 1) {
      GreetedReceives(e, c, p, rcv);
    } else {
      HandshakeFits(e, c, rcv);
      Unmoved(e, c, c, rcv);
      Unmoved(e, c, Release(c), rcv);
    }
  }

  lemma HandshakeFits(e: Env, c: Conn, rcv: int)
    requires RcvFits(e, c.state, rcv) && c.state == SynReceived
    ensures RcvFits(e, Release(c).state, rcv) && RcvFits(e, Established, rcv)
  {
  }

  /** The handshake's final ACK, with whatever it carries. */
  lemma GreetedReceives(e: Env, c: Conn, p: PeerSeg, rcv: int)
    requires c.rcvNxt == Wrap(rcv) && c.pub.rcvNxt == c.rcvNxt && RcvFits(e, c.state, rcv)
    requires c.state == SynReceived && PeerData(e, rcv, p) && p.seg.Plain()
    ensures var d := ProcessData(Greeted(c, p.seg), p.seg);
      Receives(e, c, rcv, d.c, [Accepted] + d.events)
  {
    hide Wrap, ProcessData, HasFlag, PeerData, RcvFits, Slice, Delivered;
    HandshakeFits(e, c, rcv);
    DataReceives(e, Greeted(c, p.seg), p, rcv);
    DeliveredAppend([Accepted], ProcessData(Greeted(c, p.seg), p.seg).events);
    DeliveredOne([Accepted]);
  }

  /** process_segment as a whole receives exactly the stream between the two positions. */
  lemma ProcessedReceives(e: Env, c: Conn, p: PeerSeg, out: OutFlags, sndNxt: u32, rcv: int)
    requires c.rcvNxt == Wrap(rcv) && c.pub.rcvNxt == c.rcvNxt && RcvFits(e, c.state, rcv)
    requires PeerData(e, rcv, p)
    ensures var r := ProcessSynced(c, p.seg, e.rwnd, out, sndNxt);
      Receives(e, c, rcv, r.c, r.events)
  {
    hide PeerData, Wrap, ProcessAck, ProcessData, ProcessSynReceived, RstAcceptable, HasFlag, Delivered, Slice;
    var seg := p.seg;
    Unmoved(e, c, c, rcv);
    Unmoved(e, c, Terminate(c, Reset), rcv);
    if c.state == SynReceived {
      SynReceivedReceives(e, c, p, e.rwnd, rcv);
    } else if seg.Plain() {
      var a := ProcessAck(c, seg, out, sndNxt);
      AckReceives(e, c, seg, out, sndNxt, rcv);
      if a.proceed {
        DataReceives(e, a.c, p, rcv);
        assert a.events + ProcessData(a.c, seg).events == ProcessData(a.c, seg).events;
      }
    }
  }

  predicate InPcOk(e: Env, s: World) {
    match s.inb
    case InIdle => s.pub.rcv == s.rcv
    case InSynced(p) => s.pub.rcv == s.rcv && PeerData(e, s.rcv, p)
    case InFlags(p, _) => s.pub.rcv == s.rcv && PeerData(e, s.rcv, p)
    case InStoreWindow(t) => t.rcvNxt == s.c.rcvNxt
    case InStoreTerminated(t) => t.rcvNxt == s.c.rcvNxt
    case InStoreRcvNxt(t) => t.rcvNxt == s.c.rcvNxt
  }

  predicate ReceiveInv(e: Env, s: World) {
    && s.c.rcvNxt == Wrap(s.rcv) && s.c.pub.rcvNxt == Wrap(s.pub.rcv)
    && e.First() <= s.pub.rcv <= s.rcv && RcvFits(e, s.c.state, s.rcv)
    && Delivered(s.events) == Slice(e, e.First(), s.rcv)
    && InPcOk(e, s)
  }

  lemma ReceiveLoadNxt(e: Env, s: World)
    requires ReceiveInv(e, s) && s.inb.InFlags?
    ensures ReceiveInv(e, Step(e, s, LoadNxt))
  {
    hide Wrap, ProcessSynced, HasFlag, Delivered, Slice, PeerData;
    var r := Processed(e, s);
    ProcessedReceives(e, s.c, s.inb.p, s.inb.out, s.c.out.sndNxt, s.rcv);
    DeliveredAppend(s.events, r.events);
    SliceJoin(e, s.rcv, NewRcv(s.c, r.c, s.rcv));
  }

  lemma ReceiveStepInbound(e: Env, s: World, a: Action)
    requires ReceiveInv(e, s) && Enabled(e, s, a) && !a.OfOutbound()
    ensures ReceiveInv(e, Step(e, s, a))
  {
    hide Wrap, ProcessSynced, HasFlag, Delivered, CutFromStream, Slice;
    if a.LoadNxt? {
      ReceiveLoadNxt(e, s);
    }
  }

  lemma LoopFrame(s: World, act: SendLoop.Act)
    requires s.outb.OutSend? && SendLoop.Enabled(s.outb.limit, s.outb.pc, act)
    ensures InboundKept(s, SendStepOf(s, act))
  {
    hide Wrap;
  }

  /** What the outbound thread never touches. */
  predicate InboundKept(s: World, s': World) {
    && s'.c == s.c.(out := s'.c.out) && s'.inb == s.inb && s'.events == s.events
    && s'.rcv == s.rcv && s'.una == s.una && s'.pub == s.pub && s'.acks.ctl == s.acks.ctl
  }

  /** The outbound thread changes nothing the inbound thread owns. */
  lemma OutboundFrame(e: Env, s: World, a: Action)
    requires Enabled(e, s, a) && a.OfOutbound()
    ensures InboundKept(s, Step(e, s, a))
  {
    hide Wrap, WindowSpace, SendStepOf;
    if a.SendAct? {
      LoopFrame(s, a.act);
    }
  }

  lemma ReceiveStep(e: Env, s: World, a: Action)
    requires ReceiveInv(e, s) && Enabled(e, s, a)
    ensures ReceiveInv(e, Step(e, s, a))
  {
    hide Wrap, HasFlag, Delivered, CutFromStream, Step;
    if a.OfOutbound() {
      OutboundFrame(e, s, a);
    } else {
      ReceiveStepInbound(e, s, a);
    }
  }

  predicate AckOk(rcv: int, wire: u32, pos: int) { wire == Wrap(pos) && pos <= rcv }

  predicate AllAckOk(rcv: int, acks: seq<AckSent>) {
    forall i | 0 <= i < |acks| :: AckOk(rcv, acks[i].wire, acks[i].pos)
  }

  /** Every acknowledgment number sent or about to be sent is of something received in order,
      and the control queue's never go backwards. */
  predicate AckInv(s: World) {
    && AllAckOk(s.rcv, s.acks.ctl) && AllAckOk(s.rcv, s.acks.data)
    && (forall i, j | 0 <= i < j < |s.acks.ctl| :: s.acks.ctl[i].pos <= s.acks.ctl[j].pos)
    && (s.outb.OutSend? || s.outb.OutFinBuilt? ==> AckOk(s.rcv, s.outb.ack, s.outb.ackPos))
  }

  lemma AckStepOutbound(e: Env, s: World, a: Action)
    requires ReceiveInv(e, s) && AckInv(s) && Enabled(e, s, a) && a.OfOutbound()
    ensures AckInv(Step(e, s, a))
  {
    hide Wrap, WindowSpace, Delivered, RcvFits, InPcOk;
  }

  lemma AckStepInbound(e: Env, s: World, a: Action)
    requires ReceiveInv(e, s) && AckInv(s) && Enabled(e, s, a) && !a.OfOutbound()
    ensures AckInv(Step(e, s, a))
  {
    hide Wrap, ProcessSynced, HasFlag, Delivered, CutFromStream, RcvFits, InPcOk;
    WrapSmall(0);
  }
}
