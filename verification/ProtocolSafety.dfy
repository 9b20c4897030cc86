/** The two-thread protocol over whole runs: every interleaving of the inbound thread, the
    outbound thread and the peer, from open() on. */
module ProtocolSafety {
  import opened SeqArith
  import opened Connection
  import opened Protocol
  import SendSide
  import ReceiveSide
  import Lifecycle
  import SendLoop

  predicate Inv(e: Env, s: World) {
    && SendSide.SendInv(e, s)
    && ReceiveSide.ReceiveInv(e, s) && ReceiveSide.AckInv(s)
    && Lifecycle.LifeInv(s)
  }

  lemma StartInv(e: Env, c: Conn, syn: Segment, peerMss: u16, mss: u16)
    requires syn.seqNo == Wrap(e.irs)
    ensures Inv(e, Start(e, c, syn, peerMss, mss))
  {
    hide Wrap, PackWindow, Inv, SendSide.SendInv, ReceiveSide.ReceiveInv, ReceiveSide.AckInv, Lifecycle.LifeInv;
    StartSends(e, c, syn, peerMss, mss);
    StartReceives(e, c, syn, peerMss, mss);
    StartLives(e, c, syn, peerMss, mss);
    Combined(e, Start(e, c, syn, peerMss, mss));
  }

  lemma Combined(e: Env, s: World)
    requires SendSide.SendInv(e, s) && ReceiveSide.ReceiveInv(e, s) && ReceiveSide.AckInv(s)
    requires Lifecycle.LifeInv(s)
    ensures Inv(e, s)
  {
    hide SendSide.SendInv, ReceiveSide.ReceiveInv, ReceiveSide.AckInv, Lifecycle.LifeInv;
  }

  lemma StartSends(e: Env, c: Conn, syn: Segment, peerMss: u16, mss: u16)
    requires syn.seqNo == Wrap(e.irs)
    ensures SendSide.SendInv(e, Start(e, c, syn, peerMss, mss))
  {
    hide Wrap, PackWindow;
    WrapAdd(e.iss, 1);
  }

  lemma StartReceives(e: Env, c: Conn, syn: Segment, peerMss: u16, mss: u16)
    requires syn.seqNo == Wrap(e.irs)
    ensures ReceiveSide.ReceiveInv(e, Start(e, c, syn, peerMss, mss))
  {
    hide Wrap, PackWindow, ReceiveSide.Slice, ReceiveSide.Delivered;
    WrapAdd(e.irs, 1);
    ReceiveSide.NothingYet(e);
  }

  lemma StartLives(e: Env, c: Conn, syn: Segment, peerMss: u16, mss: u16)
    requires syn.seqNo == Wrap(e.irs)
    ensures var s := Start(e, c, syn, peerMss, mss); ReceiveSide.AckInv(s) && Lifecycle.LifeInv(s)
  {
    hide Wrap, PackWindow;
  }

  lemma StepInv(e: Env, s: World, a: Action)
    requires Inv(e, s) && Enabled(e, s, a)
    ensures Inv(e, Step(e, s, a))
  {
    hide Step, SendSide.SendInv, ReceiveSide.ReceiveInv, ReceiveSide.AckInv, Lifecycle.LifeInv;
    ReceiveSide.ReceiveStep(e, s, a);
    if a.OfOutbound() {
      SendSide.SendStepOutbound(e, s, a);
      ReceiveSide.AckStepOutbound(e, s, a);
      Lifecycle.LifeStepOutbound(e, s, a);
    } else {
      SendSide.SendStepInbound(e, s, a);
      ReceiveSide.AckStepInbound(e, s, a);
      Lifecycle.LifeStepInbound(e, s, a);
    }
  }

  lemma {:induction false} RunInv(e: Env, s: World, acts: seq<Action>)
    requires Inv(e, s) && Run(e, s, acts)
    ensures Inv(e, After(e, s, acts))
    decreases |acts|
  {
    hide Inv;
    if acts != [] {
      StepInv(e, s, acts[0]);
      RunInv(e, Step(e, s, acts[0]), acts[1..]);
    }
  }

  /** What never goes back: what the peer has acknowledged, what a NIC has taken, what was
      received, the published pair's una, and the events already reported. */
  predicate Forward(s: World, s': World) {
    && s.una <= s'.una && s.tx <= s'.tx && s.rcv <= s'.rcv && s.pub.una <= s'.pub.una
    && s.pub.rcv <= s'.pub.rcv && s.events <= s'.events && s.acks.ctl <= s'.acks.ctl
    && (s.c.out.flags.finSent ==> s'.c.out.flags.finSent && s'.nxt == s.nxt)
  }

  lemma StepForward(e: Env, s: World, a: Action)
    requires Inv(e, s) && Enabled(e, s, a)
    ensures Forward(s, Step(e, s, a))
  {
    hide Step, Enabled, Forward, SendSide.SendInv, ReceiveSide.ReceiveInv, ReceiveSide.AckInv,
      Lifecycle.LifeInv;
    match a
    case SendAct(act) => LoopForward(e, s, act);
    case _ =>
      if a.OfOutbound() {
        OutboundForward(e, s, a);
      } else {
        InboundForward(e, s, a);
      }
  }

  lemma LoopForward(e: Env, s: World, act: SendLoop.Act)
    requires SendSide.SendInv(e, s) && Enabled(e, s, SendAct(act))
    ensures Forward(s, Step(e, s, SendAct(act)))
  {
    hide Wrap, SendSide.InPcOk, SendSide.HandshakeOk;
  }

  lemma OutboundForward(e: Env, s: World, a: Action)
    requires SendSide.SendInv(e, s) && Enabled(e, s, a) && a.OfOutbound() && !a.SendAct?
    ensures Forward(s, Step(e, s, a))
  {
    hide Wrap, WindowSpace, SendStepOf, SendSide.InPcOk, SendSide.HandshakeOk;
  }

  lemma InboundForward(e: Env, s: World, a: Action)
    requires SendSide.SendInv(e, s) && ReceiveSide.ReceiveInv(e, s)
    requires Enabled(e, s, a) && !a.OfOutbound()
    ensures Forward(s, Step(e, s, a))
  {
    hide Wrap, ProcessSynced, HasFlag, ReceiveSide.Delivered, ReceiveSide.RcvFits, ReceiveSide.Slice,
      SendSide.OutPcOk, SendSide.HandshakeOk, FromPeer;
    if a.LoadNxt? {
      SendSide.ProcessedFramed(s.c, s.inb.p.seg, e.rwnd, s.inb.out, s.c.out.sndNxt);
    }
  }

  lemma {:induction false} RunForward(e: Env, s: World, acts: seq<Action>)
    requires Inv(e, s) && Run(e, s, acts)
    ensures Forward(s, After(e, s, acts))
    decreases |acts|
  {
    hide Inv;
    if acts != [] {
      var s1 := Step(e, s, acts[0]);
      StepInv(e, s, acts[0]);
      StepForward(e, s, acts[0]);
      RunForward(e, s1, acts[1..]);
    }
  }

  /** The sending side of every reachable state: acknowledged <= transmitted <= published; at most
      65535 bytes (65536 with the FIN) unacknowledged; nothing published or transmitted past the
      right edge of the pair the send() in progress loaded, nor past every edge ever published; and
      no acknowledgment ever takes process_ack's "never sent" branch. */
  lemma SendingSafe(e: Env, c: Conn, syn: Segment, peerMss: u16, mss: u16, acts: seq<Action>)
    requires syn.seqNo == Wrap(e.irs) && Run(e, Start(e, c, syn, peerMss, mss), acts)
    ensures var s := After(e, Start(e, c, syn, peerMss, mss), acts);
      && e.iss <= s.una <= s.tx <= s.nxt
      && s.c.snd.una == Wrap(s.una) && s.c.out.sndNxt == Wrap(s.nxt)
      && s.nxt - s.una <= (if s.FinCounted() then 65536 else 65535)
      && s.tx <= Max(e.iss + 1, s.pub.edge) + (if s.FinCounted() then 1 else 0)
      && (s.outb.OutWindow? || s.outb.OutSend? ==>
            s.outb.basePos <= s.tx <= s.nxt <= s.outb.basePos + s.outb.limit <= s.outb.edge)
      && WindowSpace(s.c.pub.sendWindow, s.c.out.sndNxt)
         == Max(0, s.pub.wnd - (s.nxt - s.pub.una))
      && (s.inb.InFlags? && s.inb.p.seg.Plain() ==> !SeqGt(s.inb.p.seg.ack, s.c.out.sndNxt))
  {
    hide WindowSpace, Wrap, HasFlag, ReceiveSide.ReceiveInv, Lifecycle.LifeInv, ReceiveSide.AckInv;
    var s0 := Start(e, c, syn, peerMss, mss);
    StartInv(e, c, syn, peerMss, mss);
    RunInv(e, s0, acts);
    var s := After(e, s0, acts);
    WindowSpaceExact(s.pub.una, s.pub.wnd, s.nxt);
    if s.inb.InFlags? && s.inb.p.seg.Plain() {
      SendSide.NeverBeyondSndNxt(e, s);
    }
  }

  /** The receiving side of every reachable state: the data events spell exactly the peer's stream
      up to rcv_nxt; the events follow the grammar, `closed` only after our FIN was published; the
      published rcv_nxt never runs ahead and agrees when inbound is idle; and every
      acknowledgment on either queue is of something received in order. */
  lemma ReceivingSafe(e: Env, c: Conn, syn: Segment, peerMss: u16, mss: u16, acts: seq<Action>)
    requires syn.seqNo == Wrap(e.irs) && Run(e, Start(e, c, syn, peerMss, mss), acts)
    ensures var s := After(e, Start(e, c, syn, peerMss, mss), acts);
      && e.First() <= s.rcv <= e.End() + 1
      && ReceiveSide.Delivered(s.events) == e.stream[..Min(s.rcv, e.End()) - e.First()]
      && Lifecycle.InOrder(s.events) && (CleanClose in s.events ==> s.c.out.flags.finSent)
      && s.c.pub.rcvNxt == Wrap(s.pub.rcv) && s.pub.rcv <= s.rcv
      && (s.inb.InIdle? ==> s.c.pub.rcvNxt == s.c.rcvNxt)
      && (forall a | a in s.acks.ctl + s.acks.data :: a.wire == Wrap(a.pos) && a.pos <= s.rcv)
      && (forall i, j | 0 <= i < j < |s.acks.ctl| :: s.acks.ctl[i].pos <= s.acks.ctl[j].pos)
  {
    hide Wrap, HasFlag, SendSide.SendInv, ReceiveSide.Delivered, Lifecycle.PhaseOf,
      Lifecycle.InOrder;
    var s0 := Start(e, c, syn, peerMss, mss);
    StartInv(e, c, syn, peerMss, mss);
    RunInv(e, s0, acts);
    Lifecycle.GrammarIff(After(e, s0, acts).events);
  }

  /** In every reachable state at process_ack's last load, the FIN counts as acknowledged exactly
      when the segment covers it; and no RST, SYN or ACK-less segment ever moves fin_wait_1 to
      fin_wait_2 or reports a clean close. */
  lemma FinSafe(e: Env, c: Conn, syn: Segment, peerMss: u16, mss: u16, acts: seq<Action>)
    requires syn.seqNo == Wrap(e.irs) && Run(e, Start(e, c, syn, peerMss, mss), acts)
    ensures var s := After(e, Start(e, c, syn, peerMss, mss), acts);
      s.inb.InFlags? && s.inb.p.seg.Plain() ==>
        var a := ProcessAck(s.c, s.inb.p.seg, s.inb.out, s.c.out.sndNxt);
        && (s.c.state == FinWait1 ==> (a.c.state == FinWait2 <==> Lifecycle.CoversFin(s, s.inb.p)))
        && (s.c.state == Closing || s.c.state == LastAck ==>
              (a.c.state == Closed <==> Lifecycle.CoversFin(s, s.inb.p)))
        && (s.c.state == Established || s.c.state == CloseWait ==>
              !Lifecycle.CoversFin(s, s.inb.p) && a.c.state == s.c.state)
    ensures var s := After(e, Start(e, c, syn, peerMss, mss), acts);
      s.inb.InFlags? && !s.inb.p.seg.Plain() ==>
        var r := Processed(e, s);
        && !Lifecycle.CoversFin(s, s.inb.p) && CleanClose !in r.events
        && (r.c.state == s.c.state || r.c.state == Free || (r.c.state == Closed && r.events == [Reset]))
  {
    hide Wrap, HasFlag, ProcessAck, ProcessSynced, SendSide.SendInv, ReceiveSide.ReceiveInv, ReceiveSide.AckInv;
    var s0 := Start(e, c, syn, peerMss, mss);
    StartInv(e, c, syn, peerMss, mss);
    RunInv(e, s0, acts);
    var s := After(e, s0, acts);
    if s.inb.InFlags? {
      if s.inb.p.seg.Plain() {
        Lifecycle.FinAcknowledgedExactly(e, s);
      } else {
        Lifecycle.OthersCloseNothing(s.c, s.inb.p.seg, e.rwnd, s.inb.out, s.c.out.sndNxt);
      }
    }
  }
}
