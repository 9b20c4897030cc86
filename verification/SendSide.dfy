/** Sending half of the protocol invariant: acknowledged <= transmitted <= published, the
    in-flight bound, and the published window pair, in every interleaving. */
module SendSide {
  import opened SeqArith
  import opened Connection
  import opened Protocol
  import SendLoop

  const MAX_WND: int := 0xFFFF

  /** An acknowledgment of a peer that has only seen transmitted bytes. */
  predicate PeerAck(s: World, p: PeerSeg) {
    p.seg.Plain() ==> p.seg.ack == Wrap(p.ackPos) && s.una + 0x1_0000 - HALF < p.ackPos <= s.tx
  }

  predicate InPcOk(s: World) {
    match s.inb
    case InSynced(p) => PeerAck(s, p) && Mirrored(s)
    case InFlags(p, _) => PeerAck(s, p) && Mirrored(s)
    case InStoreWindow(t) => t.sendWindow == PackWindow(s.c.snd.una, s.c.snd.wnd)
    case _ => Mirrored(s)
  }

  /** The published pair is the inbound thread's own. */
  predicate Mirrored(s: World) { s.pub.una == s.una && s.pub.wnd == s.c.snd.wnd }

  /** Where snd_nxt and the wire stand at each point of send() and close(). */
  predicate OutPcOk(s: World) {
    match s.outb
    case OutWindow(base, basePos, limit, edge) =>
      s.nxt == s.tx == basePos && SendOk(s, base, basePos, limit, edge)
    case OutSend(base, basePos, limit, edge, _, _, pc) =>
      SendOk(s, base, basePos, limit, edge) && LoopOk(s, basePos, limit, pc)
    case OutFinCounted => s.nxt == s.tx + 1
    case OutFinFlagged => s.nxt == s.tx + 1
    case OutFinBuilt(_, _) => s.nxt == s.tx + 1
    case OutLeaving => s.tx <= s.nxt <= s.tx + 1
    case OutReleased => s.tx <= s.nxt <= s.tx + 1
    case _ => s.handed ==> s.nxt == s.tx
  }

  predicate SendOk(s: World, base: u32, basePos: int, limit: nat, edge: int) {
    && base == Wrap(basePos)
    && basePos + limit <= edge <= s.pub.edge && edge <= s.pub.una + MAX_WND
  }

  predicate LoopOk(s: World, basePos: int, limit: nat, pc: SendLoop.Pc) {
    match pc
    case Top(done) => s.nxt == s.tx == basePos + done && done <= limit
    case Offered(done, off) =>
      done < off <= limit && s.tx == basePos + done && s.nxt == basePos + off
    case Refused(done) => s.tx == basePos + done && s.tx <= s.nxt <= basePos + limit
    case Returned(_) => false
  }

  /** What the outbound thread's flags and position say of each other. */
  predicate FlagsOk(s: World) {
    && (s.outb.OutIdle? || s.handed)
    && (s.c.out.flags.finSent ==>
          s.outb.OutFinFlagged? || s.outb.OutFinBuilt? || s.outb.OutLeaving? || s.outb.OutReleased?)
    && (s.outb.OutFinFlagged? || s.outb.OutFinBuilt? ==> s.c.out.flags.finSent)
  }

  predicate HandshakeOk(e: Env, s: World) {
    && (s.handed ==> s.events != [])
    && (s.events != [] <==> s.c.state != Free && s.c.state != SynReceived)
    && (s.c.state == SynReceived ==> s.una == e.iss)
    && (!s.handed ==> s.nxt == e.iss + 1)
    && (s.events != [] ==> e.iss < s.una)
  }

  predicate SendInv(e: Env, s: World) {
    && s.c.addr.iss == Wrap(e.iss) && s.c.snd.una == Wrap(s.una) && s.c.out.sndNxt == Wrap(s.nxt)
    && e.iss <= s.pub.una <= s.una <= s.tx <= s.nxt && e.iss < s.nxt
    && s.nxt <= s.pub.una + MAX_WND + (if s.FinCounted() then 1 else 0)
    && s.nxt <= Max(e.iss + 1, s.pub.edge) + (if s.FinCounted() then 1 else 0)
    && s.c.pub.sendWindow == PackWindow(Wrap(s.pub.una), s.pub.wnd)
    && s.pub.una + s.pub.wnd <= s.pub.edge
    && InPcOk(s) && OutPcOk(s) && FlagsOk(s) && HandshakeOk(e, s)
  }

  /** snd_una's advance on the wire is the true maximum of the old value and the acknowledgment. */
  lemma TakeAckExact(v: SendVars, seg: Segment, una: int, ackPos: int)
    requires v.una == Wrap(una) && seg.ack == Wrap(ackPos)
    requires una + 0x1_0000 - HALF < ackPos <= una + 0x1_0000
    ensures TakeAck(v, seg).una == Wrap(Max(una, ackPos))
    ensures una + Wrap(TakeAck(v, seg).una - v.una) == Max(una, ackPos)
  {
    SeqLtDecides(una, ackPos);
    WrapSub(Max(una, ackPos), una);
  }

  /** With such a peer an acknowledgment is never beyond the snd_nxt the inbound thread loads. */
  lemma NeverBeyondSndNxt(e: Env, s: World)
    requires SendInv(e, s) && s.inb.InFlags? && s.inb.p.seg.Plain()
    ensures !SeqGt(s.inb.p.seg.ack, s.c.out.sndNxt)
  {
    SeqLtDecides(s.nxt, s.inb.p.ackPos);
  }

  /** What process_segment never touches, and that the pair it leaves to publish is its own. */
  predicate Framed(c: Conn, r: Conn) {
    && r.out == c.out && r.addr == c.addr && r.generation == c.generation
    && (c.pub.sendWindow == PackWindow(c.snd.una, c.snd.wnd) ==>
          r.pub.sendWindow == PackWindow(r.snd.una, r.snd.wnd))
  }

  lemma AckFramed(c: Conn, seg: Segment, out: OutFlags, sndNxt: u32)
    ensures Framed(c, ProcessAck(c, seg, out, sndNxt).c)
    ensures ProcessAck(c, seg, out, sndNxt).c.snd
         == if SeqGt(seg.ack, sndNxt) then c.snd else TakeAck(c.snd, seg)
    ensures c.state != Free && c.state != SynReceived ==>
      var st := ProcessAck(c, seg, out, sndNxt).c.state; st != Free && st != SynReceived
  {
    hide SeqGt, TakeAck;
  }

  lemma DataFramed(c: Conn, seg: Segment)
    ensures Framed(c, ProcessData(c, seg).c) && ProcessData(c, seg).c.snd == c.snd
    ensures c.state != Free && c.state != SynReceived ==>
      var st := ProcessData(c, seg).c.state; st != Free && st != SynReceived
  {
    hide SeqGt, Wrap, Trim;
  }

  lemma ProcessedFramed(c: Conn, seg: Segment, rwnd: u16, out: OutFlags, sndNxt: u32)
    ensures Framed(c, ProcessSynced(c, seg, rwnd, out, sndNxt).c)
  {
    hide SeqGt, ProcessAck, ProcessData;
    var a := ProcessAck(c, seg, out, sndNxt);
    AckFramed(c, seg, out, sndNxt);
    DataFramed(a.c, seg);
    DataFramed(Greeted(c, seg), seg);
  }

  /** Whom process_segment lets move snd_una, and to where. */
  lemma ProcessedUna(c: Conn, seg: Segment, rwnd: u16, out: OutFlags, sndNxt: u32)
    ensures var r := ProcessSynced(c, seg, rwnd, out, sndNxt);
      && r.c.snd.una == (if c.state == Free || c.state == Closed || !seg.Plain() then c.snd.una
                         else if c.state == SynReceived then
                           (if seg.ack == Wrap(c.addr.iss + 1) then seg.ack else c.snd.una)
                         else if SeqGt(seg.ack, sndNxt) then c.snd.una
                         else TakeAck(c.snd, seg).una)
      && (c.state == SynReceived ==>
            (r.events == [] <==> r.c.state == Free || r.c.state == SynReceived))
      && (c.state == SynReceived ==>
            (r.events == [] <==> !(seg.Plain() && seg.ack == Wrap(c.addr.iss + 1))))
      && (c.state == Free ==> r.c.state == Free && r.events == [])
      && (c.state != Free && c.state != SynReceived ==> r.c.state != Free && r.c.state != SynReceived)
  {
    hide SeqGt, ProcessAck, ProcessData, TakeAck, HasFlag;
    var a := ProcessAck(c, seg, out, sndNxt);
    AckFramed(c, seg, out, sndNxt);
    DataFramed(a.c, seg);
    DataFramed(Greeted(c, seg), seg);
  }

  /** Where snd_una goes: forward, to a position it stands for, and off the initial one exactly when
      the connection is first reported. */
  lemma UnaMoves(e: Env, s: World)
    requires SendInv(e, s) && s.inb.InFlags?
    ensures var r := Processed(e, s); var una := s.una + Wrap(r.c.snd.una - s.c.snd.una);
      && r.c.snd.una == Wrap(una) && s.una <= una <= s.tx
      && (s.c.state == SynReceived ==> una == if r.events == [] then e.iss else e.iss + 1)
  {
    hide ProcessSynced, SeqGt, TakeAck, HasFlag, Wrap, OutPcOk, FlagsOk;
    var p, c := s.inb.p, s.c;
    var r := Processed(e, s);
    ProcessedUna(c, p.seg, e.rwnd, s.inb.out, c.out.sndNxt);
    WrapSmall(0);
    if p.seg.Plain() {
      NeverBeyondSndNxt(e, s);
      TakeAckExact(c.snd, p.seg, s.una, p.ackPos);
      WrapAdd(e.iss, 1);
      if c.state == SynReceived {
        WrapInjective(p.ackPos, e.iss + 1);
        WrapSub(e.iss + 1, e.iss);
        WrapSmall(1);
      }
    }
  }

  lemma SendLoadNxt(e: Env, s: World)
    requires SendInv(e, s) && s.inb.InFlags?
    ensures SendInv(e, Step(e, s, LoadNxt))
  {
    hide ProcessSynced, SeqGt, TakeAck, HasFlag, Wrap, PackWindow;
    ProcessedFramed(s.c, s.inb.p.seg, e.rwnd, s.inb.out, s.c.out.sndNxt);
    ProcessedUna(s.c, s.inb.p.seg, e.rwnd, s.inb.out, s.c.out.sndNxt);
    UnaMoves(e, s);
  }

  lemma SendLoadsWindow(e: Env, s: World)
    requires SendInv(e, s) && s.outb.OutChecked?
    ensures SendInv(e, Step(e, s, SendLoadWindow))
    ensures WindowSpace(s.c.pub.sendWindow, s.c.out.sndNxt) == Max(0, s.pub.wnd - (s.nxt - s.pub.una))
  {
    WindowSpaceExact(s.pub.una, s.pub.wnd, s.nxt);
  }

  lemma SendLoopStep(e: Env, s: World, act: SendLoop.Act)
    requires SendInv(e, s) && s.outb.OutSend? && SendLoop.Enabled(s.outb.limit, s.outb.pc, act)
    ensures SendInv(e, SendStepOf(s, act))
  {
    hide Wrap;
    var o := s.outb;
    match act
    case Publish(off) => WrapAdd(o.basePos, off);
    case PullBack => WrapAdd(o.basePos, o.pc.done);
    case _ =>
  }

  lemma SendStepOutbound(e: Env, s: World, a: Action)
    requires SendInv(e, s) && Enabled(e, s, a) && a.OfOutbound()
    ensures SendInv(e, Step(e, s, a))
  {
    hide Step, SendInv;
    match a
    case SendLoadWindow => SendLoadsWindow(e, s);
    case SendAct(act) => SendActs(e, s, act);
    case SendCheck(_) => SendBegins(e, s, a);
    case SendLoadAck => SendBegins(e, s, a);
    case _ => CloseSteps(e, s, a);
  }

  lemma SendActs(e: Env, s: World, act: SendLoop.Act)
    requires SendInv(e, s) && Enabled(e, s, SendAct(act))
    ensures SendInv(e, Step(e, s, SendAct(act)))
  {
    hide SendInv, SendStepOf;
    SendLoopStep(e, s, act);
  }

  lemma SendBegins(e: Env, s: World, a: Action)
    requires SendInv(e, s) && Enabled(e, s, a) && (a.SendCheck? || a.SendLoadAck?)
    ensures SendInv(e, Step(e, s, a))
  {
    hide Wrap, WindowSpace, SendStepOf;
  }

  lemma CloseSteps(e: Env, s: World, a: Action)
    requires SendInv(e, s) && Enabled(e, s, a)
    requires a.CloseBegin? || a.CloseCount? || a.CloseFlag? || a.CloseBuild? || a.CloseOffer?
      || a.CloseGiveUp? || a.CloseRelease?
    ensures SendInv(e, Step(e, s, a))
  {
    hide Wrap, WindowSpace, SendStepOf;
    WrapAdd(s.nxt, 1);
  }

  lemma SendStepInbound(e: Env, s: World, a: Action)
    requires SendInv(e, s) && Enabled(e, s, a) && !a.OfOutbound()
    ensures SendInv(e, Step(e, s, a))
  {
    hide Wrap, ProcessSynced, HasFlag;
    if a.LoadNxt? {
      SendLoadNxt(e, s);
    }
  }
}
