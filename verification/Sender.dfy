/** tcp_sender::send and close: segmentation, partial acceptance by the NIC, and the retry of the
    FIN. The atomic loads of inbound's fields are parameters; snd_nxt, out_flags and the data
    queue are the outbound thread's own, and change only in steps of OutThread's machine. */
module Sender {
  import opened SeqArith
  import opened Connection
  import SendLoop
  import OutThread

  const BURST: nat := 32
  const CLOSE_RETRIES: nat := 0x10_0000

  datatype DataSeg = DataSeg(seqNo: u32, ack: u32, flags: u8, payload: seq<u8>)

  /** One call of send(), once its loads are done: `limit` bytes are to go out, in segments of
      at most `mss`. */
  datatype Call = Call(bytes: seq<u8>, limit: nat, mss: u16, base: u32, ack: u32) {
    predicate Valid() { limit <= |bytes| && mss > 0 }

    function Len(off: nat): nat
      requires off <= limit
    {
      Min(mss, limit - off)
    }

    /** Offset just past the n-th segment. */
    function EndOf(n: nat): (off: nat)
      requires Valid()
      ensures off <= limit
    {
      if n == 0 then 0 else var prev := EndOf(n - 1); prev + Len(prev)
    }

    /** The segment that starts at an offset: PSH only on the one that reaches the limit. */
    function SegAt(off: nat): DataSeg
      requires Valid() && off <= limit
    {
      var end := off + Len(off);
      DataSeg(Wrap(base + off), ack, if end == limit then ACK + PSH else ACK, bytes[off..end])
    }

    /** The n-th segment, counting from 0, and the offset just past it. */
    predicate IsNth(seg: DataSeg, end: nat, n: nat)
      requires Valid()
    {
      seg == SegAt(EndOf(n)) && EndOf(n) < limit && end == EndOf(n + 1)
    }

    /** Each of the first n segments has something to carry. */
    predicate Cuts(n: nat)
      requires Valid()
    {
      forall i | 0 <= i < n :: EndOf(i) < limit
    }

    function Segments(n: nat): (segs: seq<DataSeg>)
      requires Valid()
      ensures |segs| == n
    {
      if n == 0 then [] else Segments(n - 1) + [SegAt(EndOf(n - 1))]
    }
  }

  function FinSeg(seqNo: u32, ack: u32): DataSeg { DataSeg(seqNo, ack, FIN + ACK, []) }

  function Payload(segs: seq<DataSeg>): seq<u8> {
    if segs == [] then [] else Payload(segs[..|segs| - 1]) + segs[|segs| - 1].payload
  }

  /** The first n segments carry exactly the first EndOf(n) bytes, back to back. */
  lemma {:induction false} SegmentsCarryPrefix(c: Call, n: nat)
    requires c.Valid()
    ensures Payload(c.Segments(n)) == c.bytes[..c.EndOf(n)]
  {
    if n > 0 {
      SegmentsCarryPrefix(c, n - 1);
      var segs := c.Segments(n);
      assert segs[..n - 1] == c.Segments(n - 1);
    }
  }

  /** The i-th segment starts where the ones before it end, holds 1 to mss bytes, and is numbered
      by its offset from the base. */
  lemma {:induction false} SegmentsConsecutive(c: Call, n: nat, i: nat)
    requires c.Valid() && i < n && c.EndOf(i) < c.limit
    ensures var seg := c.Segments(n)[i];
      && seg.seqNo == Wrap(c.base + c.EndOf(i))
      && 1 <= |seg.payload| <= c.mss && |seg.payload| == c.EndOf(i + 1) - c.EndOf(i)
      && (HasFlag(seg.flags, PSH) <==> c.EndOf(i + 1) == c.limit) && seg.ack == c.ack
  {
    if i < n - 1 {
      SegmentsConsecutive(c, n - 1, i);
    }
  }

  /** The data a call has put on the queue: consecutive, and each segment of 1 to mss bytes. */
  predicate Carried(c: Call, segs: seq<DataSeg>, done: nat)
    requires c.Valid()
  {
    && done <= |c.bytes| && Payload(segs) == c.bytes[..done]
    && forall seg | seg in segs :: 1 <= |seg.payload| <= c.mss && seg.ack == c.ack
  }

  lemma CutsCarry(c: Call, k: nat)
    requires c.Valid() && c.Cuts(k)
    ensures Carried(c, c.Segments(k), c.EndOf(k))
  {
    hide c.EndOf, c.Segments, Wrap;
    SegmentsCarryPrefix(c, k);
    forall i | 0 <= i < k
      ensures var seg := c.Segments(k)[i]; 1 <= |seg.payload| <= c.mss && seg.ack == c.ack
    {
      SegmentsConsecutive(c, k, i);
    }
  }

  lemma NothingSent(c: Call)
    requires c.Valid()
    ensures c.Cuts(0) && c.EndOf(0) == 0 && c.Segments(0) == [] && Carried(c, c.Segments(0), 0)
  {
    CutsCarry(c, 0);
  }

  /** An atomic load of inbound's rcv_nxt: any value inbound may have stored by then. */
  method LoadRcvNxt() returns (ack: u32) {
    ack := *;
  }

  class TcpSender {
    var sndNxt: u32
    var flags: OutFlags
    var taken: seq<DataSeg>              // what the NIC accepted on the data queue
    ghost var pc: OutThread.Pc
    ghost var acks: seq<u32>
    ghost var path: seq<OutThread.Act>   // every load, store and hand-over so far
    ghost const first: OutThread.Own
    ghost var refusals: nat              // failed allocations and bursts not taken whole

    ghost function Own(): OutThread.Own
      reads this
    {
      OutThread.Own(pc, sndNxt, flags, acks)
    }

    /** All the sender ever did is a path of the outbound thread's machine, to where it stands. */
    ghost predicate Valid()
      reads this
    {
      OutThread.Leads(first, path, Own())
    }

    constructor(sndNxt: u32)
      ensures Valid() && pc.Idle? && path == [] && refusals == 0
      ensures this.sndNxt == sndNxt && flags == OutFlags(false, false) && taken == []
    {
      this.sndNxt, flags, taken, path, refusals := sndNxt, OutFlags(false, false), [], [], 0;
      pc, acks := OutThread.Idle, [];
      first := OutThread.Own(OutThread.Idle, sndNxt, OutFlags(false, false), []);
    }

    // --- The only ways to touch what the inbound thread or the wire can see.

    /** One step of the machine was taken. */
    twostate predicate Took(a: OutThread.Act)
      reads this
    {
      && OutThread.Enabled(old(Own()), a) && Own() == OutThread.Next(old(Own()), a)
      && path == old(path) + [a] && Valid()
    }

    /** A load, or a return: nothing anyone else can see. */
    ghost method Silent(a: OutThread.Act)
      requires Valid() && OutThread.Enabled(Own(), a)
      requires OutThread.Next(Own(), a) == Own().(pc := OutThread.Next(Own(), a).pc)
      modifies this`pc, this`path
      ensures Took(a)
    {
      OutThread.LeadsSnoc(first, path, Own(), a);
      pc, path := OutThread.Next(Own(), a).pc, path + [a];
    }

    /** A release store of snd_nxt. */
    method StoreNxt(nxt: u32, ghost a: OutThread.Act)
      requires Valid() && OutThread.Enabled(Own(), a)
      requires OutThread.Next(Own(), a) == Own().(pc := OutThread.Next(Own(), a).pc, sndNxt := nxt)
      modifies this`sndNxt, this`pc, this`path
      ensures Took(a)
    {
      OutThread.LeadsSnoc(first, path, Own(), a);
      pc, path := OutThread.Next(Own(), a).pc, path + [a];
      sndNxt := nxt;
    }

    /** A release store of out_flags. */
    method StoreFlags(f: OutFlags, ghost a: OutThread.Act)
      requires Valid() && OutThread.Enabled(Own(), a)
      requires OutThread.Next(Own(), a) == Own().(pc := OutThread.Next(Own(), a).pc, flags := f)
      modifies this`flags, this`pc, this`path
      ensures Took(a)
    {
      OutThread.LeadsSnoc(first, path, Own(), a);
      pc, path := OutThread.Next(Own(), a).pc, path + [a];
      flags := f;
    }

    /** What may be handed over: in send(), the bytes published and not yet taken; in close(), the
        FIN built. */
    ghost predicate Due(segs: seq<DataSeg>)
      reads this
    {
      match pc
      case Sending(_, _, ack, Offered(done, off)) =>
        |Payload(segs)| == off - done && forall seg | seg in segs :: seg.ack == ack
      case FinBuilt(ack) => segs == [FinSeg(Wrap(sndNxt - 1), ack)]
      case _ => false
    }

    /** tx_queue::send_burst: the NIC accepts any prefix. */
    method SendBurst(segs: seq<DataSeg>) returns (sent: nat, ghost a: OutThread.Act)
      requires Valid() && Due(segs)
      modifies this`taken, this`refusals, this`pc, this`acks, this`path
      ensures sent <= |segs| && taken == old(taken) + segs[..sent]
      ensures refusals == old(refusals) + (if sent == |segs| then 0 else 1)
      ensures Took(a)
      ensures a == if old(pc).Sending?
                   then OutThread.InLoop(SendLoop.Take(old(pc).pc.done + |Payload(segs[..sent])|))
                   else OutThread.Offer(sent == 1)
    {
      sent :| 0 <= sent <= |segs|;
      if sent < |segs| {
        refusals := refusals + 1;
      }
      PayloadPrefix(segs, sent);
      a := if pc.Sending? then OutThread.InLoop(SendLoop.Take(pc.pc.done + |Payload(segs[..sent])|))
           else OutThread.Offer(sent == 1);
      OutThread.LeadsSnoc(first, path, Own(), a);
      ghost var o := OutThread.Next(Own(), a);
      pc, acks, path := o.pc, o.acks, path + [a];
      taken := taken + segs[..sent];
    }

    /** The buffer pool: any allocation may fail. */
    method PoolGet() returns (ok: bool)
      modifies this`refusals
      ensures refusals == old(refusals) + (if ok then 0 else 1)
    {
      ok := *;
      if !ok {
        refusals := refusals + 1;
      }
    }

    // --- send().

    /** Build up to one burst of segments from segment number k on; stops early if the pool does. */
    method BuildBurst(c: Call, ghost k: nat, done: nat) returns (segs: seq<DataSeg>, ends: seq<nat>)
      requires c.Valid() && done == c.EndOf(k)
      modifies this`refusals
      ensures refusals >= old(refusals)
      ensures |segs| == |ends| <= BURST
      ensures |segs| == BURST || c.EndOf(k + |segs|) == c.limit || refusals > old(refusals)
      ensures forall i | 0 <= i < |segs| :: c.IsNth(segs[i], ends[i], k + i)
    {
      segs, ends := [], [];
      var off := done;
      while |segs| < BURST && off < c.limit
        invariant |segs| == |ends| <= BURST && off == c.EndOf(k + |segs|)
        invariant refusals == old(refusals)
        invariant forall i | 0 <= i < |segs| :: c.IsNth(segs[i], ends[i], k + i)
      {
        var ok := PoolGet();
        if !ok {
          break;
        }
        segs := segs + [c.SegAt(off)];
        off := off + c.Len(off);
        ends := ends + [off];
      }
    }

    /** send(), given what sendable() said and what the loads of send_window and rcv_nxt return.
        The NIC has taken whole, non-empty segments in order from the front of the buffer, `done`
        bytes of it: all the window leaves room for unless the pool or the NIC refused. snd_nxt has
        advanced by exactly that, and every store and hand-over on the way was a step of the
        outbound machine: published before it was offered, pulled back after it was refused. */
    method Send(bytes: seq<u8>, sendable: bool, window: u64, ack: u32, mss: u16)
      returns (done: nat)
      requires Valid() && pc.Idle? && mss > 0
      modifies this
      ensures Valid() && pc.Idle? && old(path) <= path
      ensures done <= |bytes| && flags == old(flags)
      ensures !sendable ==> done == 0 && path == old(path)
      ensures sndNxt == Wrap(old(sndNxt) + done)
      ensures var c := Call(bytes, Min(|bytes|, WindowSpace(window, old(sndNxt))), mss, old(sndNxt), ack);
        && (exists k: nat :: c.Cuts(k) && done == c.EndOf(k) && taken == old(taken) + c.Segments(k))
        && |old(taken)| <= |taken| && Carried(c, taken[|old(taken)|..], done)
        && (sendable ==> done == c.limit || refusals > old(refusals))
    {
      hide OutThread.Leads, Wrap, WindowSpace, Carried, Payload;
      done := 0;
      var base := sndNxt;
      var limit := Min(|bytes|, WindowSpace(window, base));
      ghost var c := Call(bytes, limit, mss, base, ack);
      hide c.EndOf, c.Cuts, c.Segments;
      NothingSent(c);
      assert taken == old(taken) + c.Segments(0) && taken[|old(taken)|..] == c.Segments(0);
      WrapSmall(base);
      if |bytes| == 0 || !sendable {
        return;
      }
      LoadAll(|bytes|, window, ack, limit);
      if limit == 0 {
        return;
      }
      ghost var k;
      done, k := Transmit(Call(bytes, limit, mss, base, ack));
      CutsCarry(c, k);
      assert taken[|old(taken)|..] == c.Segments(k);
    }

    /** The loads of send(), in their order: the pair, and only if it leaves room, rcv_nxt. */
    ghost method LoadAll(len: nat, window: u64, ack: u32, limit: nat)
      requires Valid() && pc.Idle? && limit == Min(len, WindowSpace(window, sndNxt))
      modifies this`pc, this`path
      ensures Valid() && old(path) <= path
      ensures pc == if limit == 0 then OutThread.Idle
                    else OutThread.Sending(sndNxt, limit, ack, SendLoop.Top(0))
    {
      hide OutThread.Leads, WindowSpace;
      Silent(OutThread.Check(len));
      Silent(OutThread.LoadWindow(window));
      if limit > 0 {
        Silent(OutThread.LoadAck(ack));
      }
    }

    /** The transmit loop of call c stands at its head with `done` bytes taken, k segments. */
    ghost predicate AtTop(c: Call, pre: seq<DataSeg>, k: nat, done: nat)
      requires c.Valid()
      reads this
    {
      && Valid() && pc == OutThread.Sending(c.base, c.limit, c.ack, SendLoop.Top(done))
      && Sent(c, pre, k, done)
    }

    ghost predicate Sent(c: Call, pre: seq<DataSeg>, k: nat, done: nat)
      requires c.Valid()
      reads this
    {
      done == c.EndOf(k) && c.Cuts(k) && taken == pre + c.Segments(k) && sndNxt == Wrap(c.base + done)
    }

    /** Publish a burst's end, then hand the burst over. */
    method Offer(c: Call, ghost pre: seq<DataSeg>, ghost k: nat, done: nat, segs: seq<DataSeg>, ends: seq<nat>)
      returns (sent: nat)
      requires c.Valid() && AtTop(c, pre, k, done) && 0 < |segs| == |ends|
      requires forall i | 0 <= i < |segs| :: c.IsNth(segs[i], ends[i], k + i)
      modifies this`sndNxt, this`taken, this`pc, this`acks, this`path, this`refusals
      ensures sent <= |segs| && refusals == old(refusals) + (if sent == |segs| then 0 else 1)
      ensures Valid() && old(path) <= path && sndNxt == Wrap(c.base + ends[|ends| - 1])
      ensures taken == pre + c.Segments(k + sent) && c.Cuts(k + sent)
      ensures pc == OutThread.Sending(c.base, c.limit, c.ack,
                if sent == |segs| then SendLoop.Top(c.EndOf(k + sent)) else SendLoop.Refused(c.EndOf(k + sent)))
    {
      hide c.EndOf, c.SegAt, c.Segments, c.Cuts, c.IsNth, Wrap, OutThread.Leads, Payload;
      var off := ends[|ends| - 1];
      BurstFacts(c, pre, k, segs, ends, |segs|);
      assert segs[..|segs|] == segs;
      StoreNxt(Wrap(c.base + off), OutThread.InLoop(SendLoop.Publish(off)));
      ghost var a;
      sent, a := SendBurst(segs);
      BurstFacts(c, pre, k, segs, ends, sent);
    }

    /** One turn of the transmit loop: build, publish, hand over, and pull back what the NIC
        refused. `pre` is what the queue had taken before the call, k the segments it has since. */
    method OneBurst(c: Call, ghost pre: seq<DataSeg>, ghost k: nat, done: nat)
      returns (now: nat, more: bool, ghost k': nat)
      requires c.Valid() && AtTop(c, pre, k, done) && done < c.limit
      modifies this`sndNxt, this`taken, this`pc, this`acks, this`path, this`refusals
      ensures refusals >= old(refusals) && (more || now == c.limit || refusals > old(refusals))
      ensures now >= done && (more ==> now > done) && old(path) <= path
      ensures if more then AtTop(c, pre, k', now) else Valid() && pc.Idle? && Sent(c, pre, k', now)
    {
      hide c.EndOf, c.SegAt, c.Segments, c.Cuts, c.IsNth, Wrap, OutThread.Leads, Payload;
      var segs, ends := BuildBurst(c, k, done);
      if |segs| == 0 {
        Silent(OutThread.InLoop(SendLoop.Return));
        return done, false, k;
      }
      var off := ends[|ends| - 1];
      var sent := Offer(c, pre, k, done, segs, ends);
      k' := k + sent;
      EndsOrdered(c, k, segs, ends, sent);
      now := if sent > 0 then ends[sent - 1] else done;
      if sent < |segs| {
        StoreNxt(Wrap(c.base + now), OutThread.InLoop(SendLoop.PullBack));
        more := false;
      } else if |segs| < BURST && off < c.limit {
        Silent(OutThread.InLoop(SendLoop.Return));
        more := false;
      } else {
        more := true;
      }
    }

    /** The transmit loop of send(). */
    method Transmit(c: Call) returns (done: nat, ghost k: nat)
      requires c.Valid() && c.limit > 0 && sndNxt == c.base && Valid()
      requires pc == OutThread.Sending(c.base, c.limit, c.ack, SendLoop.Top(0))
      modifies this`sndNxt, this`taken, this`pc, this`acks, this`path, this`refusals
      ensures Valid() && pc.Idle? && old(path) <= path && Sent(c, old(taken), k, done)
      ensures done == c.limit || refusals > old(refusals)
    {
      hide OutThread.Leads, Wrap;
      done, k := 0, 0;
      var more := true;
      WrapSmall(c.base);
      while more && done < c.limit
        invariant if more then AtTop(c, old(taken), k, done)
                  else Valid() && pc.Idle? && Sent(c, old(taken), k, done)
        invariant old(path) <= path
        invariant refusals >= old(refusals) && (more || done == c.limit || refusals > old(refusals))
        decreases c.limit - done, more
      {
        done, more, k := OneBurst(c, old(taken), k, done);
      }
      if more {
        Silent(OutThread.InLoop(SendLoop.Return));
      }
    }

    // --- close().

    /** The FIN was taken, as the next number before the one that counts it. */
    ghost predicate FinTaken(pre: seq<DataSeg>, seqNo: u32)
      reads this
    {
      exists ack: u32 :: taken == pre + [FinSeg(seqNo, ack)]
    }

    /** close(), given the load of `terminated`. A FIN is counted, then flagged, then offered, and only
        on a connection still open in our direction; exactly one is taken, unless all of the attempts
        were refused; and the slot is released in every case, as the very last step. */
    method Close(terminated: bool)
      requires Valid() && pc.Idle?
      modifies this
      ensures Valid() && pc.Gone? && old(path) <= path
      ensures flags == OutFlags(old(flags.finSent) || !terminated, true)
      ensures var sends := !old(flags.finSent) && !terminated;
        && sndNxt == (if sends then Wrap(old(sndNxt) + 1) else old(sndNxt))
        && (!sends ==> taken == old(taken))
        && (sends ==> FinTaken(old(taken), old(sndNxt))
                      || (taken == old(taken) && refusals == old(refusals) + CLOSE_RETRIES))
    {
      hide OutThread.Leads;
      Silent(OutThread.Begin(terminated));
      if !flags.finSent && !terminated {
        SendFin();
      }
      StoreFlags(flags.(released := true), OutThread.Release);
    }

    /** The FIN of close(): count, flag, then build and offer until taken. */
    method SendFin()
      requires Valid() && pc.Closing?
      modifies this`sndNxt, this`flags, this`taken, this`pc, this`acks, this`path, this`refusals
      ensures Valid() && pc.Leaving? && old(path) <= path
      ensures flags == old(flags).(finSent := true) && sndNxt == Wrap(old(sndNxt) + 1)
      ensures FinTaken(old(taken), old(sndNxt))
              || (taken == old(taken) && refusals == old(refusals) + CLOSE_RETRIES)
    {
      hide OutThread.Leads, Wrap;
      var seqNo := sndNxt;
      StoreNxt(Wrap(sndNxt + 1), OutThread.Count);
      StoreFlags(flags.(finSent := true), OutThread.Flag);
      PrevOfNext(seqNo);
      OfferFin(seqNo);
    }

    /** Build the FIN, once, and offer it until it is taken. */
    method OfferFin(seqNo: u32)
      requires Valid() && pc.FinFlagged? && Wrap(sndNxt - 1) == seqNo
      modifies this`taken, this`pc, this`acks, this`path, this`refusals
      ensures Valid() && pc.Leaving? && old(path) <= path
      ensures FinTaken(old(taken), seqNo)
              || (taken == old(taken) && refusals == old(refusals) + CLOSE_RETRIES)
    {
      hide OutThread.Leads, Wrap;
      var fin: seq<DataSeg> := [];
      var attempt := 0;
      while attempt < CLOSE_RETRIES
        invariant attempt <= CLOSE_RETRIES && refusals == old(refusals) + attempt
        invariant Valid() && taken == old(taken) && old(path) <= path
        invariant if fin == [] then pc.FinFlagged?
                  else pc.FinBuilt? && fin == [FinSeg(seqNo, pc.ack)]
      {
        if fin == [] {
          var ok := PoolGet();
          if ok {
            var ack := LoadRcvNxt();
            Silent(OutThread.Build(ack));
            fin := [FinSeg(seqNo, ack)];
          }
        }
        if fin != [] {
          ghost var a;
          var sent;
          sent, a := SendBurst(fin);
          if sent == 1 {
            assert fin[..1] == fin;
            return;
          }
        }
        attempt := attempt + 1;
      }
      Silent(OutThread.GiveUp);
    }
  }

  lemma PrevOfNext(seqNo: u32)
    ensures Wrap(Wrap(seqNo + 1) - 1) == seqNo
  {
    WrapSub(seqNo + 1, 1);
    WrapSmall(seqNo);
  }

  lemma {:induction false} PayloadPrefix(segs: seq<DataSeg>, n: nat)
    requires n <= |segs|
    ensures |Payload(segs[..n])| <= |Payload(segs)|
    decreases |segs|
  {
    if n < |segs| {
      assert segs[..|segs| - 1][..n] == segs[..n];
      PayloadPrefix(segs[..|segs| - 1], n);
    } else {
      assert segs[..n] == segs;
    }
  }

  lemma PayloadSnoc(segs: seq<DataSeg>, n: nat)
    requires n < |segs|
    ensures Payload(segs[..n + 1]) == Payload(segs[..n]) + segs[n].payload
  {
    assert segs[..n + 1][..n] == segs[..n];
  }

  /** The first `sent` segments of a burst numbered from k carry the bytes between the two ends. */
  lemma {:induction false} BurstCarries(c: Call, k: nat, segs: seq<DataSeg>, ends: seq<nat>, sent: nat)
    requires c.Valid() && |segs| == |ends| && sent <= |segs|
    requires forall i | 0 <= i < |segs| :: c.IsNth(segs[i], ends[i], k + i)
    ensures |Payload(segs[..sent])| == c.EndOf(k + sent) - c.EndOf(k)
    ensures forall seg | seg in segs[..sent] :: seg.ack == c.ack
    ensures c.Cuts(k) ==> c.Cuts(k + sent)
    decreases sent
  {
    hide Payload, Wrap, c.EndOf;
    if sent == 0 {
      NoPayload(segs[..0]);
    } else {
      BurstCarries(c, k, segs, ends, sent - 1);
      PayloadSnoc(segs, sent - 1);
      EndsStep(c, k + (sent - 1));
      assert c.IsNth(segs[sent - 1], ends[sent - 1], k + (sent - 1));
    }
  }

  lemma NoPayload(segs: seq<DataSeg>)
    requires segs == []
    ensures Payload(segs) == []
  {
  }

  /** What the first `sent` segments of a burst amount to. */
  lemma BurstFacts(c: Call, pre: seq<DataSeg>, k: nat, segs: seq<DataSeg>, ends: seq<nat>, sent: nat)
    requires c.Valid() && 0 < |segs| == |ends| && sent <= |segs| && c.Cuts(k)
    requires forall i | 0 <= i < |segs| :: c.IsNth(segs[i], ends[i], k + i)
    ensures |Payload(segs[..sent])| == c.EndOf(k + sent) - c.EndOf(k) && c.Cuts(k + sent)
    ensures forall seg | seg in segs[..sent] :: seg.ack == c.ack
    ensures pre + c.Segments(k) + segs[..sent] == pre + c.Segments(k + sent)
    ensures c.EndOf(k) <= c.EndOf(k + sent) <= ends[|ends| - 1] && c.EndOf(k) < ends[|ends| - 1] <= c.limit
    ensures c.EndOf(k + sent) == ends[|ends| - 1] <==> sent == |segs|
  {
    hide Payload, c.EndOf, c.SegAt, c.Segments, c.Cuts, c.IsNth;
    BurstCarries(c, k, segs, ends, sent);
    SegmentsExtend(c, pre, k, segs, ends, sent);
    EndsOrdered(c, k, segs, ends, sent);
  }

  /** Segments numbered k, k+1, ... appended to the first k are the first k + sent. */
  lemma {:induction false} SegmentsExtend(c: Call, pre: seq<DataSeg>, k: nat, segs: seq<DataSeg>,
                                          ends: seq<nat>, sent: nat)
    requires c.Valid() && |segs| == |ends| && sent <= |segs|
    requires forall i | 0 <= i < |segs| :: c.IsNth(segs[i], ends[i], k + i)
    ensures pre + c.Segments(k) + segs[..sent] == pre + c.Segments(k + sent)
    decreases sent
  {
    if sent == 0 {
      assert pre + c.Segments(k) + segs[..0] == pre + c.Segments(k);
    } else {
      var last := segs[sent - 1];
      SegmentsExtend(c, pre, k, segs, ends, sent - 1);
      assert c.IsNth(last, ends[sent - 1], k + sent - 1);
      assert pre + c.Segments(k) + segs[..sent] == pre + c.Segments(k) + segs[..sent - 1] + [last];
      assert pre + c.Segments(k + sent) == pre + c.Segments(k + sent - 1) + [last];
    }
  }

  /** A burst of segments numbered from k covers bytes past EndOf(k), and all of them only if
      every segment was sent. */
  lemma EndsOrdered(c: Call, k: nat, segs: seq<DataSeg>, ends: seq<nat>, sent: nat)
    requires c.Valid() && 0 < |segs| == |ends| && sent <= |segs|
    requires forall i | 0 <= i < |segs| :: c.IsNth(segs[i], ends[i], k + i)
    ensures c.EndOf(k) <= c.EndOf(k + sent) <= ends[|ends| - 1] && c.EndOf(k) < ends[|ends| - 1] <= c.limit
    ensures c.EndOf(k + sent) == ends[|ends| - 1] <==> sent == |segs|
    ensures sent > 0 ==> ends[sent - 1] == c.EndOf(k + sent)
  {
    hide c.EndOf, c.SegAt;
    var last := |segs| - 1;
    assert c.IsNth(segs[last], ends[last], k + last);
    EndsStep(c, k + last);
    EndsIncrease(c, k, k + sent);
    EndsIncrease(c, k, k + last);
    if sent <= last {
      EndsIncrease(c, k + sent, k + last);
    }
    if sent > 0 {
      assert c.IsNth(segs[sent - 1], ends[sent - 1], k + (sent - 1));
    }
  }

  lemma EndsStep(c: Call, n: nat)
    requires c.Valid() && c.EndOf(n) < c.limit
    ensures c.EndOf(n) < c.EndOf(n + 1) == c.EndOf(n) + |c.SegAt(c.EndOf(n)).payload|
  {
  }

  /** Segment ends never decrease. */
  lemma {:induction false} EndsIncrease(c: Call, m: nat, n: nat)
    requires c.Valid() && m <= n
    ensures c.EndOf(m) <= c.EndOf(n)
    decreases n - m
  {
    if m < n {
      EndsIncrease(c, m, n - 1);
    }
  }
}
