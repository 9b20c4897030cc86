/** The life of one incarnation: the order of its events, and when our FIN counts as
    acknowledged. */
module Lifecycle {
  import opened SeqArith
  import opened Connection
  import opened Protocol
  import SendSide
  import ReceiveSide
  import SendLoop

  // --- The event grammar: accepted data* peer_closed? (closed | reset), and its prefixes.

  datatype Phase = NotYet | Open | HalfClosed | Over | Broken

  function Advance(ph: Phase, ev: Event): Phase {
    match (ph, ev)
    case (NotYet, Accepted) => Open
    case (Open, Data(_)) => Open
    case (Open, PeerClosed) => HalfClosed
    case (Open, CleanClose) => Over
    case (Open, Reset) => Over
    case (HalfClosed, CleanClose) => Over
    case (HalfClosed, Reset) => Over
    case _ => Broken
  }

  function AdvanceAll(ph: Phase, events: seq<Event>): Phase {
    if events == [] then ph
    else Advance(AdvanceAll(ph, events[..|events| - 1]), events[|events| - 1])
  }

  function PhaseOf(events: seq<Event>): Phase { AdvanceAll(NotYet, events) }

  predicate Terminal(ev: Event) { ev.CleanClose? || ev.Reset? }

  /** The same grammar by positions: `accepted` exactly first, a terminal event only last, and
      after peer_closed only a terminal one. */
  predicate InOrder(events: seq<Event>) {
    && (forall i | 0 <= i < |events| :: events[i].Accepted? <==> i == 0)
    && (forall i | 0 <= i < |events| :: Terminal(events[i]) ==> i == |events| - 1)
    && (forall i, j | 0 <= i < j < |events| :: events[i].PeerClosed? ==> Terminal(events[j]))
  }

  lemma {:induction false} GrammarIff(events: seq<Event>)
    ensures PhaseOf(events) != Broken <==> InOrder(events)
    ensures InOrder(events) && events != [] ==>
      && (PhaseOf(events) == Over <==> Terminal(events[|events| - 1]))
      && (PhaseOf(events) == HalfClosed <==> events[|events| - 1].PeerClosed?)
  {
    if events != [] {
      var front, last := events[..|events| - 1], events[|events| - 1];
      GrammarIff(front);
      assert forall i | 0 <= i < |front| :: front[i] == events[i];
      if InOrder(events) {
        assert InOrder(front);
        if |front| > 0 {
          assert !events[|front|].Accepted? && !Terminal(events[|front| - 1]);
          assert events[|front| - 1].PeerClosed? ==> Terminal(events[|front|]);
        }
      }
      if PhaseOf(events) != Broken && |front| > 0 {
        assert PhaseOf(front) != Over && !Terminal(front[|front| - 1]);
      }
    }
  }

  /** The phase each connection state stands for. */
  function StatePhase(st: TcpState): Phase {
    match st
    case Free => NotYet
    case SynReceived => NotYet
    case CloseWait => HalfClosed
    case LastAck => HalfClosed
    case Closed => Over
    case _ => Open
  }

  lemma {:induction false} AdvanceAppend(ph: Phase, a: seq<Event>, b: seq<Event>)
    ensures AdvanceAll(ph, a + b) == AdvanceAll(AdvanceAll(ph, a), b)
  {
    if b == [] {
      assert a + b == a;
    } else {
      assert (a + b)[..|a + b| - 1] == a + b[..|b| - 1];
      AdvanceAppend(ph, a, b[..|b| - 1]);
    }
  }

  lemma AdvanceOne(ph: Phase, ev: Event)
    ensures AdvanceAll(ph, []) == ph && AdvanceAll(ph, [ev]) == Advance(ph, ev)
  {
    assert [ev][..0] == [];
  }

  predicate SawFin(st: TcpState) {
    st == FinWait1 || st == FinWait2 || st == Closing || st == LastAck
  }

  /** A legal move of one segment: the events walk the grammar from the old state's phase to the
      new one's, and a clean close or a closing state comes only from a closing state. */
  predicate LegalMove(st: TcpState, st': TcpState, events: seq<Event>) {
    && AdvanceAll(StatePhase(st), events) == StatePhase(st')
    && (SawFin(st') || CleanClose in events ==> SawFin(st))
  }

  lemma AckMoves(c: Conn, seg: Segment, out: OutFlags, sndNxt: u32)
    ensures var a := ProcessAck(c, seg, out, sndNxt);
      LegalMove(c.state, a.c.state, a.events) && (a.proceed ==> a.events == [])
  {
    hide SeqGt, TakeAck, AdvanceAll;
    AdvanceOne(StatePhase(c.state), CleanClose);
  }

  lemma PayloadMoves(c: Conn, seg: Segment, end: u32)
    requires CanReceive(c.state)
    ensures var p := TakePayload(c, seg, end);
      p.c.state == c.state && LegalMove(c.state, c.state, p.events) && CleanClose !in p.events
  {
    hide SeqGt, Wrap, Trim, AdvanceAll;
    AdvanceOne(StatePhase(c.state), Data(Trim(seg.payload, Wrap(c.rcvNxt - seg.seqNo))));
  }

  lemma FinMoves(c: Conn, events: seq<Event>, st: TcpState)
    requires CanReceive(st) && c.state == st && LegalMove(st, st, events) && CleanClose !in events
    ensures var d := ProcessFin(c, events); LegalMove(st, d.c.state, d.events)
  {
    hide Wrap, AdvanceAll;
    AdvanceAppend(StatePhase(st), events, [PeerClosed]);
    AdvanceAppend(StatePhase(st), events, [CleanClose]);
    AdvanceOne(StatePhase(st), PeerClosed);
    AdvanceOne(StatePhase(st), CleanClose);
  }

  lemma DataMoves(c: Conn, seg: Segment)
    ensures var d := ProcessData(c, seg); LegalMove(c.state, d.c.state, d.events)
  {
    hide SeqGt, Wrap, HasFlag, TakePayload, ProcessFin, StatePhase, AdvanceAll;
    AdvanceOne(StatePhase(c.state), Accepted);
    if CanReceive(c.state) {
      var end := Wrap(seg.seqNo + |seg.payload|);
      var p := TakePayload(c, seg, end);
      PayloadMoves(c, seg, end);
      FinMoves(p.c, p.events, c.state);
    }
  }

  lemma ProcessedMoves(c: Conn, seg: Segment, rwnd: u16, out: OutFlags, sndNxt: u32)
    ensures var r := ProcessSynced(c, seg, rwnd, out, sndNxt);
      LegalMove(c.state, r.c.state, r.events)
  {
    hide SeqGt, Wrap, ProcessAck, ProcessData, RstAcceptable, HasFlag, RstFor, AdvanceAll;
    AdvanceOne(StatePhase(c.state), Reset);
    if c.state == SynReceived {
      AdvanceOne(NotYet, Accepted);
      DataMoves(Greeted(c, seg), seg);
      AdvanceAppend(NotYet, [Accepted], ProcessData(Greeted(c, seg), seg).events);
    } else {
      var a := ProcessAck(c, seg, out, sndNxt);
      AckMoves(c, seg, out, sndNxt);
      DataMoves(a.c, seg);
      assert a.proceed ==> a.events + ProcessData(a.c, seg).events == ProcessData(a.c, seg).events;
    }
  }

  /** A segment that is a reset, a SYN or without an ACK leaves the state alone, recycles a slot in
      its handshake, or resets the connection. */
  lemma OthersCloseNothing(c: Conn, seg: Segment, rwnd: u16, out: OutFlags, sndNxt: u32)
    requires !seg.Plain()
    ensures var r := ProcessSynced(c, seg, rwnd, out, sndNxt);
      && CleanClose !in r.events
      && (r.c.state == c.state || r.c.state == Free || (r.c.state == Closed && r.events == [Reset]))
  {
    hide SeqGt, Wrap, HasFlag, ProcessAck, ProcessData, RstAcceptable, RstFor;
  }

  // --- The FIN.

  /** The segment acknowledges everything we will ever send, our FIN included. */
  predicate CoversFin(s: World, p: PeerSeg) {
    p.seg.Plain() && s.FinCounted() && p.ackPos == s.nxt
  }

  /** A segment that covers our FIN is only ever being processed in a state that knows of it. */
  predicate FinKnown(s: World, p: PeerSeg) {
    CoversFin(s, p) ==> s.c.out.flags.finSent && s.c.state != Established && s.c.state != CloseWait
  }

  predicate InPcOk(s: World) {
    match s.inb
    case InSynced(p) => FinKnown(s, p)
    case InFlags(p, out) =>
      FinKnown(s, p) && (out.finSent ==> s.c.out.flags.finSent) && (CoversFin(s, p) ==> out.finSent)
    case _ => true
  }

  predicate LifeInv(s: World) {
    && PhaseOf(s.events) == StatePhase(s.c.state)
    && (SawFin(s.c.state) || CleanClose in s.events ==> s.c.out.flags.finSent)
    && InPcOk(s)
  }

  lemma LifeStepInbound(e: Env, s: World, a: Action)
    requires SendSide.SendInv(e, s) && LifeInv(s) && Enabled(e, s, a) && !a.OfOutbound()
    ensures LifeInv(Step(e, s, a))
  {
    hide Wrap, ProcessSynced, HasFlag, PhaseOf;
    if a.LoadNxt? {
      var r := Processed(e, s);
      ProcessedMoves(s.c, s.inb.p.seg, e.rwnd, s.inb.out, s.c.out.sndNxt);
      SendSide.ProcessedFramed(s.c, s.inb.p.seg, e.rwnd, s.inb.out, s.c.out.sndNxt);
      PhaseAppend(s.events, r.events);
    }
  }

  lemma PhaseAppend(a: seq<Event>, b: seq<Event>)
    ensures PhaseOf(a + b) == AdvanceAll(PhaseOf(a), b)
  {
    AdvanceAppend(NotYet, a, b);
  }

  lemma LifeStepOutbound(e: Env, s: World, a: Action)
    requires SendSide.SendInv(e, s) && LifeInv(s) && Enabled(e, s, a) && a.OfOutbound()
    ensures LifeInv(Step(e, s, a))
  {
    hide Wrap, HasFlag, PhaseOf, WindowSpace, SendStepOf, SendSide.HandshakeOk, SendSide.LoopOk, SendSide.SendOk,
      FromPeer;
    if a.SendAct? {
      LoopLives(e, s, a.act);
    } else {
      ReceiveSide.OutboundFrame(e, s, a);
    }
  }

  lemma LoopLives(e: Env, s: World, act: SendLoop.Act)
    requires SendSide.SendInv(e, s) && LifeInv(s) && Enabled(e, s, SendAct(act))
    ensures LifeInv(SendStepOf(s, act))
  {
    hide Wrap, HasFlag, PhaseOf;
  }

  /** At process_ack's last load, with a peer that acknowledges only what was transmitted: the
      FIN-acknowledged test is true exactly when the segment covers our FIN, whatever close() did
      since sync_out_flags; and exactly then do fin_wait_1 and closing/last_ack move on. */
  lemma FinAcknowledgedExactly(e: Env, s: World)
    requires SendSide.SendInv(e, s) && LifeInv(s) && s.inb.InFlags? && s.inb.p.seg.Plain()
    ensures var seg, out := s.inb.p.seg, s.inb.out;
      && ((out.finSent && seg.ack == s.c.out.sndNxt) <==> CoversFin(s, s.inb.p))
      && var a := ProcessAck(s.c, seg, out, s.c.out.sndNxt);
         && (s.c.state == FinWait1 ==> (a.c.state == FinWait2 <==> CoversFin(s, s.inb.p)))
         && (s.c.state == Closing || s.c.state == LastAck ==>
               (a.c.state == Closed <==> CoversFin(s, s.inb.p)))
         && (s.c.state == Established || s.c.state == CloseWait || s.c.state == FinWait2 ==>
               a.c.state == s.c.state)
  {
    hide Wrap, TakeAck, HasFlag;
    SendSide.NeverBeyondSndNxt(e, s);
    WrapInjective(s.inb.p.ackPos, s.nxt);
  }
}
