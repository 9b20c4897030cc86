/** The outbound thread by itself, in the 32-bit values it loads and stores: one step for each load,
    store and hand-over of tcp_sender::send and close. The two-thread protocol's outbound steps are
    exactly these, whatever the inbound thread does in between; Sender.dfy's methods may touch the
    shared fields and the queue only by taking them. */
module OutThread {
  import opened SeqArith
  import opened Connection
  import P = Protocol
  import SendLoop
  import SendSide
  import ProtocolSafety

  datatype Pc =
    | Idle
    | Checked(len: nat)
    | Window(base: u32, limit: nat)
    | Sending(base: u32, limit: nat, ack: u32, pc: SendLoop.Pc)
    | Closing | FinCounted | FinFlagged | FinBuilt(ack: u32) | Leaving | Gone

  /** Where the thread stands, the two fields it writes, and the acknowledgment number of each
      hand-over to the data queue. */
  datatype Own = Own(pc: Pc, sndNxt: u32, flags: OutFlags, acks: seq<u32>)

  /** A step, with what its load returned. */
  datatype Act =
    | Check(len: nat) | LoadWindow(w: u64) | LoadAck(ack: u32) | InLoop(act: SendLoop.Act)
    | Begin(terminated: bool) | Count | Flag | Build(ack: u32) | Offer(taken: bool) | GiveUp | Release

  predicate Enabled(o: Own, a: Act) {
    match a
    case Check(_) => o.pc.Idle?
    case LoadWindow(_) => o.pc.Checked?
    case LoadAck(_) => o.pc.Window?
    case InLoop(act) => o.pc.Sending? && SendLoop.Enabled(o.pc.limit, o.pc.pc, act)
    case Begin(_) => o.pc.Idle?
    case Count => o.pc.Closing?
    case Flag => o.pc.FinCounted?
    case Build(_) => o.pc.FinFlagged?
    case Offer(_) => o.pc.FinBuilt?
    case GiveUp => o.pc.FinFlagged? || o.pc.FinBuilt?
    case Release => o.pc.Leaving?
  }

  function Next(o: Own, a: Act): Own
    requires Enabled(o, a)
  {
    match a
    case Check(len) => o.(pc := Checked(len))
    case LoadWindow(w) =>
      var limit := Min(o.pc.len, WindowSpace(w, o.sndNxt));
      o.(pc := if limit == 0 then Idle else Window(o.sndNxt, limit))
    case LoadAck(ack) => o.(pc := Sending(o.pc.base, o.pc.limit, ack, SendLoop.Top(0)))
    case InLoop(act) =>
      (var pc := SendLoop.Next(o.pc.limit, o.pc.pc, act);
       match act
       case Publish(off) => o.(pc := o.pc.(pc := pc), sndNxt := Wrap(o.pc.base + off))
       case Take(_) => o.(pc := o.pc.(pc := pc), acks := o.acks + [o.pc.ack])
       case PullBack => o.(pc := Idle, sndNxt := Wrap(o.pc.base + pc.done))
       case Return => o.(pc := Idle))
    case Begin(terminated) => o.(pc := if terminated || o.flags.finSent then Leaving else Pc.Closing)
    case Count => o.(pc := FinCounted, sndNxt := Wrap(o.sndNxt + 1))
    case Flag => o.(pc := FinFlagged, flags := o.flags.(finSent := true))
    case Build(ack) => o.(pc := FinBuilt(ack))
    case Offer(taken) => if taken then o.(pc := Leaving, acks := o.acks + [o.pc.ack]) else o
    case GiveUp => o.(pc := Leaving)
    case Release => o.(pc := Gone, flags := o.flags.(released := true))
  }

  /** A path of steps from one state to another. */
  predicate Leads(o: Own, path: seq<Act>, o': Own)
    decreases |path|
  {
    if path == [] then o == o'
    else Enabled(o, path[0]) && Leads(Next(o, path[0]), path[1..], o')
  }

  lemma {:induction false} LeadsSnoc(o: Own, path: seq<Act>, o': Own, a: Act)
    requires Leads(o, path, o') && Enabled(o', a)
    ensures Leads(o, path + [a], Next(o', a))
    decreases |path|
  {
    hide Enabled, Next;
    if path == [] {
      assert (path + [a])[1..] == [];
    } else {
      assert (path + [a])[1..] == path[1..] + [a];
      LeadsSnoc(Next(o, path[0]), path[1..], o', a);
    }
  }

  lemma {:induction false} LeadsOnce(o: Own, path: seq<Act>, o': Own, o'': Own)
    requires Leads(o, path, o') && Leads(o, path, o'')
    ensures o' == o''
    decreases |path|
  {
    hide Enabled, Next;
    if path != [] {
      LeadsOnce(Next(o, path[0]), path[1..], o', o'');
    }
  }

  lemma {:induction false} LeadsInit(o: Own, path: seq<Act>, a: Act, o'': Own) returns (o': Own)
    requires Leads(o, path + [a], o'')
    ensures Leads(o, path, o') && Enabled(o', a) && Next(o', a) == o''
    decreases |path|
  {
    hide Enabled, Next;
    if path == [] {
      assert (path + [a])[0] == a && (path + [a])[1..] == [];
      o' := o;
    } else {
      assert (path + [a])[0] == path[0] && (path + [a])[1..] == path[1..] + [a];
      o' := LeadsInit(Next(o, path[0]), path[1..], a, o'');
    }
  }

  // --- The protocol's outbound half.

  function PcOf(o: P.OutPc): Pc {
    match o
    case OutIdle => Idle
    case OutChecked(len) => Checked(len)
    case OutWindow(base, _, limit, _) => Window(base, limit)
    case OutSend(base, _, limit, _, ack, _, pc) => Sending(base, limit, ack, pc)
    case OutClosing => Pc.Closing
    case OutFinCounted => FinCounted
    case OutFinFlagged => FinFlagged
    case OutFinBuilt(ack, _) => FinBuilt(ack)
    case OutLeaving => Leaving
    case OutReleased => Gone
  }

  function Wires(acks: seq<P.AckSent>): seq<u32> {
    seq(|acks|, i requires 0 <= i < |acks| => acks[i].wire)
  }

  function Proj(s: P.World): Own {
    Own(PcOf(s.outb), s.c.out.sndNxt, s.c.out.flags, Wires(s.acks.data))
  }

  /** An outbound action of the protocol as a step, and back. */
  function ActOf(s: P.World, a: P.Action): Act
    requires a.OfOutbound()
  {
    match a
    case SendCheck(len) => Check(len)
    case SendLoadWindow => LoadWindow(s.c.pub.sendWindow)
    case SendLoadAck => LoadAck(s.c.pub.rcvNxt)
    case SendAct(act) => InLoop(act)
    case CloseBegin => Begin(s.c.pub.terminated)
    case CloseCount => Count
    case CloseFlag => Flag
    case CloseBuild => Build(s.c.pub.rcvNxt)
    case CloseOffer(taken) => Offer(taken)
    case CloseGiveUp => GiveUp
    case CloseRelease => Release
  }

  function Lift(a: Act): (r: P.Action)
    ensures r.OfOutbound()
  {
    match a
    case Check(len) => P.SendCheck(len)
    case LoadWindow(_) => P.SendLoadWindow
    case LoadAck(_) => P.SendLoadAck
    case InLoop(act) => P.SendAct(act)
    case Begin(_) => P.CloseBegin
    case Count => P.CloseCount
    case Flag => P.CloseFlag
    case Build(_) => P.CloseBuild
    case Offer(taken) => P.CloseOffer(taken)
    case GiveUp => P.CloseGiveUp
    case Release => P.CloseRelease
  }

  /** What a step loaded is what memory holds; and a call is made only for a connection the
      application was told of, send() only while it is not terminated. */
  predicate Matches(s: P.World, a: Act) {
    match a
    case Check(_) => s.handed && !s.c.pub.terminated
    case LoadWindow(w) => w == s.c.pub.sendWindow
    case LoadAck(ack) => ack == s.c.pub.rcvNxt
    case Begin(terminated) => s.handed && terminated == s.c.pub.terminated
    case Build(ack) => ack == s.c.pub.rcvNxt
    case _ => true
  }

  lemma WiresSnoc(acks: seq<P.AckSent>, a: P.AckSent)
    ensures Wires(acks + [a]) == Wires(acks) + [a.wire]
  {
  }

  lemma LoopProjects(s: P.World, act: SendLoop.Act)
    requires s.outb.OutSend? && SendLoop.Enabled(s.outb.limit, s.outb.pc, act)
    ensures Enabled(Proj(s), InLoop(act)) && Proj(P.SendStepOf(s, act)) == Next(Proj(s), InLoop(act))
  {
    hide Wrap, Wires;
    WiresSnoc(s.acks.data, P.AckSent(s.outb.ack, s.outb.ackPos));
  }

  /** Every outbound action is the step it stands for. */
  lemma StepProjects(e: P.Env, s: P.World, a: P.Action)
    requires SendSide.SendInv(e, s) && P.Enabled(e, s, a) && a.OfOutbound()
    ensures Enabled(Proj(s), ActOf(s, a)) && Proj(P.Step(e, s, a)) == Next(Proj(s), ActOf(s, a))
  {
    hide Wrap, Wires, WindowSpace, P.SendStepOf, SendSide.InPcOk, SendSide.OutPcOk, SendSide.HandshakeOk;
    match a
    case SendAct(act) => LoopProjects(s, act);
    case CloseOffer(_) => WiresSnoc(s.acks.data, P.AckSent(s.outb.ack, s.outb.ackPos));
    case _ =>
  }

  /** No inbound action moves the outbound thread or what it owns. */
  lemma InboundProjects(e: P.Env, s: P.World, a: P.Action)
    requires P.Enabled(e, s, a) && !a.OfOutbound()
    ensures Proj(P.Step(e, s, a)) == Proj(s)
  {
    hide Wrap, Wires, ProcessSynced, P.FromPeer;
    if a.LoadNxt? {
      SendSide.ProcessedFramed(s.c, s.inb.p.seg, e.rwnd, s.inb.out, s.c.out.sndNxt);
    }
  }

  /** A step the thread can take, its load matching memory, is an action the protocol allows. */
  lemma CanFollow(e: P.Env, s: P.World, a: Act)
    requires Enabled(Proj(s), a) && Matches(s, a)
    ensures P.Enabled(e, s, Lift(a)) && ActOf(s, Lift(a)) == a
  {
    hide Wires;
  }

  // --- Over whole runs.

  /** The outbound thread's part of a run. */
  function PathOf(e: P.Env, s: P.World, acts: seq<P.Action>): seq<Act>
    requires P.Run(e, s, acts)
    decreases |acts|
  {
    if acts == [] then []
    else
      (if acts[0].OfOutbound() then [ActOf(s, acts[0])] else [])
      + PathOf(e, P.Step(e, s, acts[0]), acts[1..])
  }

  /** In every interleaving the outbound thread walks a path of its own machine, and the fields it
      owns hold exactly what that path leaves in them. */
  lemma {:induction false} RunLeads(e: P.Env, s: P.World, acts: seq<P.Action>)
    requires ProtocolSafety.Inv(e, s) && P.Run(e, s, acts)
    ensures Leads(Proj(s), PathOf(e, s, acts), Proj(P.After(e, s, acts)))
    decreases |acts|
  {
    hide P.Step, P.Enabled, Enabled, Next, SendSide.SendInv, ActOf, Proj;
    if acts != [] {
      var a, s1 := acts[0], P.Step(e, s, acts[0]);
      ProtocolSafety.StepInv(e, s, a);
      RunLeads(e, s1, acts[1..]);
      if a.OfOutbound() {
        StepProjects(e, s, a);
        assert PathOf(e, s, acts)[1..] == PathOf(e, s1, acts[1..]);
      } else {
        InboundProjects(e, s, a);
        assert PathOf(e, s, acts) == PathOf(e, s1, acts[1..]);
      }
    }
  }

  lemma {:induction false} RunSnoc(e: P.Env, s: P.World, acts: seq<P.Action>, a: P.Action)
    requires P.Run(e, s, acts) && P.Enabled(e, P.After(e, s, acts), a)
    ensures P.Run(e, s, acts + [a])
    ensures P.After(e, s, acts + [a]) == P.Step(e, P.After(e, s, acts), a)
    ensures PathOf(e, s, acts + [a])
         == PathOf(e, s, acts) + (if a.OfOutbound() then [ActOf(P.After(e, s, acts), a)] else [])
    decreases |acts|
  {
    hide P.Step, P.Enabled, ActOf;
    if acts == [] {
      assert (acts + [a])[1..] == [];
    } else {
      assert (acts + [a])[0] == acts[0] && (acts + [a])[1..] == acts[1..] + [a];
      RunSnoc(e, P.Step(e, s, acts[0]), acts[1..], a);
    }
  }

  /** And conversely: wherever the other threads have got to, the next step of any path of the
      outbound machine, its load matching memory, extends the run, and leads to the path's state. */
  lemma PathRuns(e: P.Env, s: P.World, acts: seq<P.Action>, a: Act, o: Own)
    requires ProtocolSafety.Inv(e, s) && P.Run(e, s, acts)
    requires Leads(Proj(s), PathOf(e, s, acts) + [a], o) && Matches(P.After(e, s, acts), a)
    ensures P.Run(e, s, acts + [Lift(a)]) && PathOf(e, s, acts + [Lift(a)]) == PathOf(e, s, acts) + [a]
    ensures Proj(P.After(e, s, acts + [Lift(a)])) == o
  {
    hide P.Step, P.Enabled, Enabled, Next, ProtocolSafety.Inv, Proj, Matches;
    var s' := P.After(e, s, acts);
    RunLeads(e, s, acts);
    var o' := LeadsInit(Proj(s), PathOf(e, s, acts), a, o);
    LeadsOnce(Proj(s), PathOf(e, s, acts), o', Proj(s'));
    CanFollow(e, s', a);
    RunSnoc(e, s, acts, Lift(a));
    StepProjects(e, s', Lift(a)) by {
      ProtocolSafety.RunInv(e, s, acts);
      SendPart(e, s');
    }
  }

  lemma SendPart(e: P.Env, s: P.World)
    requires ProtocolSafety.Inv(e, s)
    ensures SendSide.SendInv(e, s)
  {
    hide SendSide.SendInv;
  }
}
