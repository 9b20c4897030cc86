/** The control flow of tcp_sender::send's transmit loop as its atomic effects: what it
    publishes in snd_nxt and what the NIC takes. Offsets count from the call's base. */
module SendLoop {
  datatype Pc =
    | Top(done: nat)                 // at the loop head, `done` bytes taken so far
    | Offered(done: nat, off: nat)   // base + off published, segments up to off handed over
    | Refused(done: nat)             // the NIC stopped at `done`; snd_nxt not yet pulled back
    | Returned(done: nat)

  datatype Act = Publish(off: nat) | Take(upTo: nat) | PullBack | Return

  predicate Enabled(limit: nat, pc: Pc, act: Act) {
    match act
    case Publish(off) => pc.Top? && pc.done < off <= limit
    case Take(upTo) => pc.Offered? && pc.done <= upTo <= pc.off
    case PullBack => pc.Refused?
    case Return => pc.Top?
  }

  function Next(limit: nat, pc: Pc, act: Act): Pc
    requires Enabled(limit, pc, act)
  {
    match act
    case Publish(off) => Offered(pc.done, off)
    case Take(upTo) => if upTo == pc.off then Top(upTo) else Refused(upTo)
    case PullBack => Returned(pc.done)
    case Return => Returned(pc.done)
  }
}

/** One connection incarnation, from open() on, as a transition system over every interleaving
    of the inbound thread, the outbound thread and the peer. Each atomic load or store and each
    hand-over to a NIC queue is one step; memory is sequentially consistent. Wire fields carry
    32-bit values exactly as the code computes them; beside them the state keeps the unbounded
    positions they stand for, advanced by the wire value's own (wrapped) forward distance. */
module Protocol {
  import opened SeqArith
  import opened Connection
  import SendLoop

  /** What stays fixed: the two initial positions, everything the peer will ever say before its
      FIN, and our advertised window. */
  datatype Env = Env(iss: int, irs: int, stream: seq<u8>, rwnd: u16) {
    function First(): int { irs + 1 }
    function End(): int { irs + 1 + |stream| }
  }

  datatype PeerSeg = PeerSeg(seg: Segment, seqPos: int, ackPos: int) {
    function EndPos(): int { seqPos + |seg.payload| }
    predicate Occupies() { |seg.payload| > 0 || seg.Fin() }
  }

  datatype InPc =
    | InIdle
    | InSynced(p: PeerSeg)                  // sync_out_flags done
    | InFlags(p: PeerSeg, out: OutFlags)    // process_ack has loaded out_flags
    | InStoreWindow(target: Published)           // local work done; three stores to go
    | InStoreTerminated(target: Published)
    | InStoreRcvNxt(target: Published)

  datatype OutPc =
    | OutIdle
    | OutChecked(len: nat)                                   // send(): sendable() was true
    // window loaded, limit > 0; `edge` is the right edge una + wnd of the loaded pair
    | OutWindow(base: u32, basePos: int, limit: nat, edge: int)
    | OutSend(base: u32, basePos: int, limit: nat, edge: int, ack: u32, ackPos: int, pc: SendLoop.Pc)
    | OutClosing                                             // close(): terminated was not set
    | OutFinCounted                                          // snd_nxt counts the FIN
    | OutFinFlagged                                          // out_fin_sent stored
    | OutFinBuilt(ack: u32, ackPos: int)                     // FIN built, offered until taken
    | OutLeaving                                             // only the released store is left
    | OutReleased

  /** An acknowledgment number put on a TX queue, and the position it stands for. */
  datatype AckSent = AckSent(wire: u32, pos: int)

  /** Positions the outbound thread can load, and the highest right edge ever published. */
  datatype PubPos = PubPos(una: int, wnd: u16, rcv: int, edge: int)

  /** The acknowledgments put on the control and on the data queue, oldest first. */
  datatype Acks = Acks(ctl: seq<AckSent>, data: seq<AckSent>)

  datatype World = World(
    c: Conn, inb: InPc, outb: OutPc, handed: bool, events: seq<Event>,
    una: int, nxt: int, rcv: int,   // positions of snd_una, snd_nxt and rcv_nxt_local
    tx: int,                        // end of what a NIC has taken from us
    pub: PubPos, acks: Acks)
  {
    predicate FinCounted() { outb.OutFinCounted? || c.out.flags.finSent }
  }

  datatype Action =
    // inbound thread
    | Arrive(p: PeerSeg) | LoadFlags | LoadNxt | StoreWindow | StoreTerminated | StoreRcvNxt
    | FlushAck | SynAckOut | HandOff
    // outbound thread
    | SendCheck(len: nat) | SendLoadWindow | SendLoadAck | SendAct(act: SendLoop.Act)
    | CloseBegin | CloseCount | CloseFlag | CloseBuild | CloseOffer(taken: bool) | CloseGiveUp
    | CloseRelease
  {
    predicate OfOutbound() {
      SendCheck? || SendLoadWindow? || SendLoadAck? || SendAct? || CloseBegin? || CloseCount?
      || CloseFlag? || CloseBuild? || CloseOffer? || CloseGiveUp? || CloseRelease?
    }
  }

  /** The peer acknowledges only what reached it, cuts every data segment from one stream, and
      keeps to half the sequence space. Resets and SYNs are unconstrained. */
  predicate FromPeer(e: Env, s: World, p: PeerSeg) {
    p.seg.Plain() ==>
      && p.seg.ack == Wrap(p.ackPos)
      && s.una + 0x1_0000 - HALF < p.ackPos <= s.tx
      && (p.Occupies() ==> CutFromStream(e, p))
      && (p.Occupies() ==> -HALF < p.seqPos - s.rcv && p.EndPos() - s.rcv <= HALF)
  }

  predicate CutFromStream(e: Env, p: PeerSeg) {
    && p.seg.seqNo == Wrap(p.seqPos)
    && e.First() <= p.seqPos && p.EndPos() <= e.End()
    && p.seg.payload == e.stream[p.seqPos - e.First() .. p.EndPos() - e.First()]
    && (p.seg.Fin() ==> p.EndPos() == e.End())
  }

  predicate Enabled(e: Env, s: World, a: Action) {
    match a
    case Arrive(p) => s.inb.InIdle? && FromPeer(e, s, p)
    case LoadFlags => s.inb.InSynced?
    case LoadNxt => s.inb.InFlags?
    case StoreWindow => s.inb.InStoreWindow?
    case StoreTerminated => s.inb.InStoreTerminated?
    case StoreRcvNxt => s.inb.InStoreRcvNxt?
    case FlushAck => s.inb.InIdle? && s.c.ackPending
    case SynAckOut => s.inb.InIdle? && s.c.state == SynReceived
    case HandOff => s.inb.InIdle? && s.events != []
    case SendCheck(len) => s.outb.OutIdle? && s.handed && !s.c.pub.terminated
    case SendLoadWindow => s.outb.OutChecked?
    case SendLoadAck => s.outb.OutWindow?
    case SendAct(act) => s.outb.OutSend? && SendLoop.Enabled(s.outb.limit, s.outb.pc, act)
    case CloseBegin => s.outb.OutIdle? && s.handed
    case CloseCount => s.outb.OutClosing?
    case CloseFlag => s.outb.OutFinCounted?
    case CloseBuild => s.outb.OutFinFlagged?
    case CloseOffer(taken) => s.outb.OutFinBuilt?
    case CloseGiveUp => s.outb.OutFinFlagged? || s.outb.OutFinBuilt?
    case CloseRelease => s.outb.OutLeaving?
  }

  /** The outcome process_segment computes at its last load. */
  function Processed(e: Env, s: World): Outcome
    requires s.inb.InFlags?
  {
    ProcessSynced(s.c, s.inb.p.seg, e.rwnd, s.inb.out, s.c.out.sndNxt)
  }

  function Max(a: int, b: int): int { if a < b then b else a }

  function SetNxt(c: Conn, nxt: u32): Conn { c.(out := c.out.(sndNxt := nxt)) }

  function Step(e: Env, s: World, a: Action): World
    requires Enabled(e, s, a)
  {
    match a
    case Arrive(p) => s.(c := SyncOutFlags(s.c, s.c.out.flags), inb := InSynced(p))
    case LoadFlags => s.(inb := InFlags(s.inb.p, s.c.out.flags))
    case LoadNxt =>
      var r := Processed(e, s);
      s.(c := r.c.(pub := s.c.pub), inb := InStoreWindow(r.c.pub), events := s.events + r.events,
         una := s.una + Wrap(r.c.snd.una - s.c.snd.una),
         rcv := s.rcv + Wrap(r.c.rcvNxt - s.c.rcvNxt))
    case StoreWindow =>
      s.(c := s.c.(pub := s.c.pub.(sendWindow := s.inb.target.sendWindow)),
         inb := InStoreTerminated(s.inb.target),
         pub := s.pub.(una := s.una, wnd := s.c.snd.wnd,
                       edge := Max(s.pub.edge, s.una + s.c.snd.wnd)))
    case StoreTerminated =>
      s.(c := s.c.(pub := s.c.pub.(terminated := s.inb.target.terminated)),
         inb := InStoreRcvNxt(s.inb.target))
    case StoreRcvNxt =>
      s.(c := s.c.(pub := s.c.pub.(rcvNxt := s.inb.target.rcvNxt)), inb := InIdle,
         pub := s.pub.(rcv := s.rcv))
    case FlushAck =>
      s.(c := s.c.(ackPending := false),
         acks := s.acks.(ctl := s.acks.ctl + [AckSent(s.c.rcvNxt, s.rcv)]))
    case SynAckOut =>
      s.(tx := Max(s.tx, e.iss + 1), acks := s.acks.(ctl := s.acks.ctl + [AckSent(s.c.rcvNxt, s.rcv)]))
    case HandOff => s.(handed := true)
    case SendCheck(len) => s.(outb := OutChecked(len))
    case SendLoadWindow =>
      var limit := Min(s.outb.len, WindowSpace(s.c.pub.sendWindow, s.c.out.sndNxt));
      s.(outb := if limit == 0 then OutIdle 
                 else OutWindow(s.c.out.sndNxt, s.nxt, limit, s.pub.una + s.pub.wnd))
    case SendLoadAck =>
      s.(outb := OutSend(s.outb.base, s.outb.basePos, s.outb.limit, s.outb.edge, s.c.pub.rcvNxt,
                         s.pub.rcv, SendLoop.Top(0)))
    case SendAct(act) => SendStepOf(s, act)
    case CloseBegin => s.(outb := if s.c.pub.terminated then OutLeaving else OutClosing)
    case CloseCount =>
      s.(outb := OutFinCounted, c := SetNxt(s.c, Wrap(s.c.out.sndNxt + 1)), nxt := s.nxt + 1)
    case CloseFlag =>
      s.(outb := OutFinFlagged, c := s.c.(out := s.c.out.(flags := s.c.out.flags.(finSent := true))))
    case CloseBuild => s.(outb := OutFinBuilt(s.c.pub.rcvNxt, s.pub.rcv))
    case CloseOffer(taken) =>
      if !taken then s
      else s.(outb := OutLeaving, tx := s.nxt,
              acks := s.acks.(data := s.acks.data + [AckSent(s.outb.ack, s.outb.ackPos)]))
    case CloseGiveUp => s.(outb := OutLeaving)
    case CloseRelease =>
      s.(outb := OutReleased, c := s.c.(out := s.c.out.(flags := s.c.out.flags.(released := true))))
  }

  /** One action of send()'s transmit loop. */
  function SendStepOf(s: World, act: SendLoop.Act): World
    requires s.outb.OutSend? && SendLoop.Enabled(s.outb.limit, s.outb.pc, act)
  {
    var o := s.outb;
    var pc := SendLoop.Next(o.limit, o.pc, act);
    match act
    case Publish(off) =>
      s.(outb := o.(pc := pc), c := SetNxt(s.c, Wrap(o.base + off)), nxt := o.basePos + off)
    case Take(upTo) =>
      s.(outb := o.(pc := pc), tx := o.basePos + upTo,
         acks := s.acks.(data := s.acks.data + [AckSent(o.ack, o.ackPos)]))
    case PullBack =>
      s.(outb := OutIdle, c := SetNxt(s.c, Wrap(o.base + pc.done)), nxt := o.basePos + pc.done)
    case Return => s.(outb := OutIdle)
  }

  /** The state open() leaves behind. */
  function Start(e: Env, c: Conn, syn: Segment, peerMss: u16, mss: u16): World
    requires syn.seqNo == Wrap(e.irs)
  {
    World(Open(c, syn, peerMss, mss, Wrap(e.iss)), InIdle, OutIdle, false, [],
          e.iss, e.iss + 1, e.irs + 1, e.iss,
          PubPos(e.iss, syn.window, e.irs + 1, e.iss + syn.window), Acks([], []))
  }

  predicate Run(e: Env, s: World, acts: seq<Action>)
    decreases |acts|
  {
    acts == [] || (Enabled(e, s, acts[0]) && Run(e, Step(e, s, acts[0]), acts[1..]))
  }

  function After(e: Env, s: World, acts: seq<Action>): World
    requires Run(e, s, acts)
    decreases |acts|
  {
    if acts == [] then s else After(e, Step(e, s, acts[0]), acts[1..])
  }
}
