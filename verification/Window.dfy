/** The window update rule of process_ack (SND.WL1 and SND.WL2 of RFC 793): whose window is in force
    after any sequence of acknowledgments, in any order of arrival. */
module WindowRule {
  import opened SeqArith
  import opened Connection
  import Protocol

  /** An acknowledgment with the positions its two numbers stand for. */
  datatype Ack = Ack(seg: Segment, seqPos: int, ackPos: int)

  /** snd_una, and the segment that last updated the window, in positions. */
  datatype Mark = Mark(una: int, seqPos: int, ackPos: int, wnd: u16)

  predicate Stands(v: SendVars, m: Mark) {
    v == SendVars(Wrap(m.una), m.wnd, Wrap(m.seqPos), Wrap(m.ackPos))
  }

  /** The numbers are within half the sequence space of those they are compared with. */
  predicate Near(m: Mark, a: Ack) {
    && a.seg.seqNo == Wrap(a.seqPos) && a.seg.ack == Wrap(a.ackPos)
    && -HALF < a.seqPos - m.seqPos < HALF && -HALF < a.ackPos - m.una < HALF
    && -HALF < a.ackPos - m.ackPos < HALF
  }

  predicate AtLeast(seqPos: int, ackPos: int, seqPos': int, ackPos': int) {
    seqPos > seqPos' || (seqPos == seqPos' && ackPos >= ackPos')
  }

  function Take(m: Mark, a: Ack): Mark {
    if a.ackPos >= m.una && AtLeast(a.seqPos, a.ackPos, m.seqPos, m.ackPos)
    then Mark(a.ackPos, a.seqPos, a.ackPos, a.seg.window)
    else m.(una := Protocol.Max(m.una, a.ackPos))
  }

  function TakeAll(m: Mark, acks: seq<Ack>): Mark {
    if acks == [] then m else Take(TakeAll(m, acks[..|acks| - 1]), acks[|acks| - 1])
  }

  /** process_ack's update on the wire values is the one on positions. */
  lemma TakeExact(v: SendVars, m: Mark, a: Ack)
    requires Stands(v, m) && Near(m, a)
    ensures Stands(TakeAck(v, a.seg), Take(m, a))
  {
    hide Wrap, SeqLt, SeqLeq;
    SeqLtDecides(m.una, a.ackPos);
    SeqLeqDecides(Protocol.Max(m.una, a.ackPos), a.ackPos);
    SeqLtDecides(m.seqPos, a.seqPos);
    WrapInjective(m.seqPos, a.seqPos);
    SeqLeqDecides(m.ackPos, a.ackPos);
  }

  function TakeAcks(v: SendVars, acks: seq<Ack>): SendVars {
    if acks == [] then v else TakeAck(TakeAcks(v, acks[..|acks| - 1]), acks[|acks| - 1].seg)
  }

  predicate AllNear(m: Mark, acks: seq<Ack>) {
    forall i | 0 <= i < |acks| :: Near(TakeAll(m, acks[..i]), acks[i])
  }

  lemma {:induction false} TakeAcksExact(v: SendVars, m: Mark, acks: seq<Ack>)
    requires Stands(v, m) && AllNear(m, acks)
    ensures Stands(TakeAcks(v, acks), TakeAll(m, acks))
  {
    hide Near, Stands, Take, TakeAck;
    if acks != [] {
      var front := acks[..|acks| - 1];
      assert forall i | 0 <= i < |front| :: front[..i] == acks[..i] && front[i] == acks[i];
      TakeAcksExact(v, m, front);
      TakeExact(TakeAcks(v, front), TakeAll(m, front), acks[|acks| - 1]);
    }
  }

  /** The j-th acknowledgment was not older than one before it. */
  predicate Current(m: Mark, acks: seq<Ack>, j: nat)
    requires j < |acks|
  {
    acks[j].ackPos >= TakeAll(m, acks[..j]).una
  }

  /** The w-th acknowledgment (the initial mark, for -1) set the window: none that was current is
      newer, and none after it as new. */
  predicate Newest(m: Mark, acks: seq<Ack>, r: Mark, w: int)
    requires -1 <= w < |acks|
  {
    && (if w == -1 then (r.seqPos, r.ackPos, r.wnd) == (m.seqPos, m.ackPos, m.wnd)
        else (r.seqPos, r.ackPos, r.wnd) == (acks[w].seqPos, acks[w].ackPos, acks[w].seg.window))
    && (forall j | 0 <= j < |acks| && Current(m, acks, j) ::
          && AtLeast(r.seqPos, r.ackPos, acks[j].seqPos, acks[j].ackPos)
          && (j > w ==> !AtLeast(acks[j].seqPos, acks[j].ackPos, r.seqPos, r.ackPos)))
  }

  /** After any acknowledgments, in any order, the window in force is the one of the newest segment by
      SEG.SEQ, then SEG.ACK, then arrival, among those that were current when they came. A segment
      that was overtaken never brings its window back. */
  lemma {:induction false} WindowIsNewest(m: Mark, acks: seq<Ack>) returns (w: int)
    ensures -1 <= w < |acks| && Newest(m, acks, TakeAll(m, acks), w)
  {
    w := -1;
    if acks != [] {
      hide Newest;
      w := WindowIsNewest(m, acks[..|acks| - 1]);
      w := NewestStep(m, acks, w);
    }
  }

  lemma {:induction false} UnaIsHighest(m: Mark, acks: seq<Ack>)
    ensures m.una <= TakeAll(m, acks).una
    ensures forall j | 0 <= j < |acks| :: acks[j].ackPos <= TakeAll(m, acks).una
  {
    if acks != [] {
      var front := acks[..|acks| - 1];
      UnaIsHighest(m, front);
      assert forall j | 0 <= j < |front| :: front[j] == acks[j];
    }
  }

  /** Whether an acknowledgment was current depends on those before it only. */
  lemma SameCurrent(m: Mark, acks: seq<Ack>, j: nat)
    requires j < |acks| - 1
    ensures var front := acks[..|acks| - 1];
      front[j] == acks[j] && (Current(m, acks, j) <==> Current(m, front, j))
  {
    assert acks[..|acks| - 1][..j] == acks[..j];
  }

  lemma NewestStep(m: Mark, acks: seq<Ack>, w: int) returns (w': int)
    requires acks != [] && -1 <= w < |acks| - 1
    requires var front := acks[..|acks| - 1]; Newest(m, front, TakeAll(m, front), w)
    ensures -1 <= w' < |acks| && Newest(m, acks, TakeAll(m, acks), w')
  {
    hide Current;
    var front, a := acks[..|acks| - 1], acks[|acks| - 1];
    var before, r := TakeAll(m, front), TakeAll(m, acks);
    w' := if a.ackPos >= before.una && AtLeast(a.seqPos, a.ackPos, before.seqPos, before.ackPos)
          then |front| else w;
    forall j | 0 <= j < |acks| && Current(m, acks, j)
      ensures AtLeast(r.seqPos, r.ackPos, acks[j].seqPos, acks[j].ackPos)
      ensures j > w' ==> !AtLeast(acks[j].seqPos, acks[j].ackPos, r.seqPos, r.ackPos)
    {
      if j < |front| {
        SameCurrent(m, acks, j);
      } else {
        LastCurrent(m, acks);
      }
    }
  }

  lemma LastCurrent(m: Mark, acks: seq<Ack>)
    requires acks != []
    ensures var last := |acks| - 1;
      Current(m, acks, last) <==> acks[last].ackPos >= TakeAll(m, acks[..last]).una
  {
  }
}
