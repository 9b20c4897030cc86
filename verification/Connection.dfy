/** One connection slot and the inbound thread's treatment of one segment for it
    (src/tcp_connection.h and the per-connection half of tcp_receiver::impl in
    src/tcp_stack.cpp). Fields another thread may change between two reads are passed in as
    the values the atomic loads returned. */
module Connection {
  import opened SeqArith

  datatype TcpState =
    Free | SynReceived | Established | CloseWait | LastAck | FinWait1 | FinWait2 | Closing | Closed

  const FIN: u8 := 1
  const SYN: u8 := 2
  const RST: u8 := 4
  const PSH: u8 := 8
  const ACK: u8 := 16

  /** Bit test on a flags byte; f is one of the single-bit constants above. */
  predicate HasFlag(flags: u8, f: u8)
    requires f > 0
  {
    (flags / f) % 2 == 1
  }

  /** An Ethernet address as a 48-bit number. */
  type Mac = x: int | 0 <= x < 0x1_0000_0000_0000

  datatype Segment = Segment(
    srcMac: Mac, srcIp: u32, srcPort: u16, dstPort: u16, seqNo: u32, ack: u32,
    flags: u8, window: u16, payload: seq<u8>, options: seq<u8>)
  {
    predicate Fin() { HasFlag(flags, FIN) }
    predicate Syn() { HasFlag(flags, SYN) }
    predicate Rst() { HasFlag(flags, RST) }
    predicate Ack() { HasFlag(flags, ACK) }
    /** An ACK-bearing segment that is neither a reset nor a SYN. */
    predicate Plain() { Ack() && !Rst() && !Syn() }
  }

  // The fields of tcp_connection, grouped by who writes them and when.

  /** Written by inbound before the `accepted` event, immutable afterwards. */
  datatype Addr = Addr(
    peerIp: u32, peerPort: u16, localPort: u16, peerMac: Mac, sendMss: u16, iss: u32)

  /** Inbound's send-side variables: SND.UNA, SND.WND, SND.WL1 and SND.WL2 of RFC 793. */
  datatype SendVars = SendVars(una: u32, wnd: u16, wl1: u32, wl2: u32)

  /** Written by inbound, read by outbound. */
  datatype Published = Published(rcvNxt: u32, sendWindow: u64, terminated: bool)

  datatype OutFlags = OutFlags(finSent: bool, released: bool)

  /** Written by outbound, read by inbound. */
  datatype Outbound = Outbound(sndNxt: u32, flags: OutFlags)

  datatype Conn = Conn(
    addr: Addr, state: TcpState, irs: u32, rcvNxt: u32, snd: SendVars,
    ackPending: bool, finalizePending: bool, generation: u32, pub: Published, out: Outbound)

  datatype Event = Accepted | Data(bytes: seq<u8>) | PeerClosed | CleanClose | Reset

  datatype Reply = NoReply | SynAck | RstWith(seqNo: u32, ack: u32, flags: u8)

  /** What one segment does: the new slot, the events in order, an immediate control segment,
      and whether the slot goes straight back to the free list. */
  datatype Outcome = Outcome(c: Conn, events: seq<Event>, reply: Reply, recycled: bool)

  /** send_rst_for: section 3.4 of RFC 793, "Reset Generation". */
  function RstFor(seg: Segment): Reply {
    if seg.Rst() then NoReply
    else if seg.Ack() then RstWith(seg.ack, 0, RST)
    else
      var occupied := |seg.payload| + (if seg.Syn() then 1 else 0) + (if seg.Fin() then 1 else 0);
      RstWith(0, Wrap(seg.seqNo + occupied), RST + ACK)
  }

  function NextGeneration(gen: u32): u32 {
    if gen + 1 == MOD then 1 else gen + 1
  }

  function Min(a: int, b: int): int { if a < b then a else b }

  /** open, given the peer's MSS, the stack's own, and a random initial sequence number. */
  function Open(c: Conn, seg: Segment, peerMss: u16, mss: u16, iss: u32): Conn {
    Conn(Addr(seg.srcIp, seg.srcPort, seg.dstPort, seg.srcMac, Min(peerMss, mss), iss),
         SynReceived, seg.seqNo, Wrap(seg.seqNo + 1), SendVars(iss, seg.window, seg.seqNo, 0),
         false, false, NextGeneration(c.generation),
         Published(Wrap(seg.seqNo + 1), PackWindow(iss, seg.window), false),
         Outbound(Wrap(iss + 1), OutFlags(false, false)))
  }

  /** release_slot, minus the push onto the free list. */
  function Release(c: Conn): Conn {
    c.(state := Free, ackPending := false, finalizePending := false)
  }

  function SyncOutFlags(c: Conn, out: OutFlags): Conn {
    if !out.finSent then c
    else if c.state == Established then c.(state := FinWait1)
    else if c.state == CloseWait then c.(state := LastAck)
    else c
  }

  predicate RstAcceptable(c: Conn, seg: Segment, rwnd: u16) {
    SeqGeq(seg.seqNo, c.rcvNxt) && SeqLt(seg.seqNo, Wrap(c.rcvNxt + rwnd))
  }

  function Terminate(c: Conn, why: Event): Conn {
    c.(state := Closed, pub := c.pub.(terminated := true), finalizePending := true,
       ackPending := why != Reset && c.ackPending)
  }

  function PublishWindow(c: Conn): Conn {
    c.(pub := c.pub.(sendWindow := PackWindow(c.snd.una, c.snd.wnd)))
  }

  /** Whether a segment is at least as new as the last one that set the send window. */
  predicate WindowNewer(v: SendVars, seg: Segment) {
    SeqLt(v.wl1, seg.seqNo) || (v.wl1 == seg.seqNo && SeqLeq(v.wl2, seg.ack))
  }

  /** The send-side variables after an ACK that is not beyond snd_nxt. */
  function TakeAck(v: SendVars, seg: Segment): SendVars {
    var una := if SeqGt(seg.ack, v.una) then seg.ack else v.una;
    if SeqGeq(seg.ack, una) && WindowNewer(v, seg)
    then SendVars(una, seg.window, seg.seqNo, seg.ack)
    else v.(una := una)
  }

  /** The snd_una and window part of process_ack. */
  function AdvanceUna(c: Conn, seg: Segment): Conn {
    var v := TakeAck(c.snd, seg);
    var c1 := c.(snd := v);
    if v.una != c.snd.una || v.wnd != c.snd.wnd then PublishWindow(c1) else c1
  }

  /** process_ack; `proceed` is its return value. */
  datatype AckOutcome = AckOutcome(c: Conn, events: seq<Event>, proceed: bool)

  function ProcessAck(c: Conn, seg: Segment, out: OutFlags, sndNxt: u32): AckOutcome {
    if SeqGt(seg.ack, sndNxt) then AckOutcome(c.(ackPending := true), [], false)
    else
      var c1 := AdvanceUna(c, seg);
      if out.finSent && seg.ack == sndNxt && c1.state == FinWait1 then
        AckOutcome(c1.(state := FinWait2), [], true)
      else if out.finSent && seg.ack == sndNxt && (c1.state == Closing || c1.state == LastAck) then
        AckOutcome(Terminate(c1, CleanClose), [CleanClose], false)
      else
        AckOutcome(c1, [], true)
  }

  predicate CanReceive(st: TcpState) { st == Established || st == FinWait1 || st == FinWait2 }

  datatype DataOutcome = DataOutcome(c: Conn, events: seq<Event>)

  /** The FIN part of process_data, once the FIN is the next thing expected. */
  function ProcessFin(c: Conn, events: seq<Event>): DataOutcome {
    var c1 := c.(rcvNxt := Wrap(c.rcvNxt + 1));
    match c.state
    case Established => DataOutcome(c1.(state := CloseWait), events + [PeerClosed])
    case FinWait1 => DataOutcome(c1.(state := Closing), events)
    case FinWait2 => DataOutcome(Terminate(c1, CleanClose), events + [CleanClose])
    case _ => DataOutcome(c1, events)
  }

  /** The payload part of process_data: deliver what lies past rcv_nxt, owe an ACK. */
  function TakePayload(c: Conn, seg: Segment, end: u32): DataOutcome {
    var isNew := SeqGt(end, c.rcvNxt);
    DataOutcome(c.(rcvNxt := if isNew then end else c.rcvNxt, ackPending := true),
                if isNew then [Data(Trim(seg.payload, Wrap(c.rcvNxt - seg.seqNo)))] else [])
  }

  /** process_data past the gap test. */
  function TakeInOrder(c: Conn, seg: Segment): DataOutcome {
    var end := Wrap(seg.seqNo + |seg.payload|);
    var p := TakePayload(c, seg, end);
    var r := if seg.Fin() && end == p.c.rcvNxt then ProcessFin(p.c, p.events) else p;
    r.(c := r.c.(pub := r.c.pub.(rcvNxt := r.c.rcvNxt)))
  }

  /** process_data. */
  function ProcessData(c: Conn, seg: Segment): DataOutcome {
    if !CanReceive(c.state) then
      DataOutcome(if |seg.payload| > 0 || seg.Fin() then c.(ackPending := true) else c, [])
    else if |seg.payload| == 0 && !seg.Fin() then DataOutcome(c, [])
    else if SeqGt(seg.seqNo, c.rcvNxt) then DataOutcome(c.(ackPending := true), [])
    else TakeInOrder(c, seg)
  }

  /** The payload after its first `skip` bytes; total, so that ProcessData is defined for every
      segment. */
  function Trim(payload: seq<u8>, skip: nat): seq<u8> {
    if skip <= |payload| then payload[skip..] else []
  }

  /** The slot once the handshake's final ACK has been taken. */
  function Greeted(c: Conn, seg: Segment): Conn {
    PublishWindow(c.(snd := SendVars(seg.ack, seg.window, seg.seqNo, seg.ack), state := Established))
  }

  /** The handshake half of process_segment. */
  function ProcessSynReceived(c: Conn, seg: Segment, rwnd: u16): Outcome {
    if seg.Rst() then
      if RstAcceptable(c, seg, rwnd) then Outcome(Release(c), [], NoReply, true)
      else Outcome(c, [], NoReply, false)
    else if seg.Syn() then
      Outcome(c, [], if !seg.Ack() && seg.seqNo == c.irs then SynAck else NoReply, false)
    else if !seg.Ack() then Outcome(c, [], NoReply, false)
    else if seg.ack != Wrap(c.addr.iss + 1) then Outcome(c, [], RstFor(seg), false)
    else
      var d := ProcessData(Greeted(c, seg), seg);
      Outcome(d.c, [Accepted] + d.events, NoReply, false)
  }

  /** process_segment after its sync_out_flags; `out` and `sndNxt` are process_ack's two loads. */
  function ProcessSynced(c: Conn, seg: Segment, rwnd: u16, out: OutFlags, sndNxt: u32): Outcome {
    if c.state == Free || c.state == Closed then Outcome(c, [], NoReply, false)
    else if c.state == SynReceived then ProcessSynReceived(c, seg, rwnd)
    else if seg.Rst() then
      if RstAcceptable(c, seg, rwnd) then Outcome(Terminate(c, Reset), [Reset], NoReply, false)
      else Outcome(c, [], NoReply, false)
    else if seg.Syn() then Outcome(c.(ackPending := true), [], NoReply, false)
    else if !seg.Ack() then Outcome(c, [], NoReply, false)
    else
      var a := ProcessAck(c, seg, out, sndNxt);
      if !a.proceed then Outcome(a.c, a.events, NoReply, false)
      else
        var d := ProcessData(a.c, seg);
        Outcome(d.c, a.events + d.events, NoReply, false)
  }

  /** process_segment: `out0` is sync_out_flags' load. */
  function ProcessSegment(c: Conn, seg: Segment, rwnd: u16, out0: OutFlags, out: OutFlags,
                          sndNxt: u32): Outcome
  {
    ProcessSynced(SyncOutFlags(c, out0), seg, rwnd, out, sndNxt)
  }
}
