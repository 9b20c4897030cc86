/** Sequence-space arithmetic of src/tcp_connection.h: 32-bit wire values, compared by the sign
    of their wrapped difference, against the unbounded stream positions they stand for
    (section 3.3 of RFC 793). */
module SeqArith {
  const MOD: int := 0x1_0000_0000
  const HALF: int := 0x8000_0000

  type u8 = x: int | 0 <= x < 0x100
  type u16 = x: int | 0 <= x < 0x1_0000
  type u32 = x: int | 0 <= x < 0x1_0000_0000

  /** The wire value of an unbounded position. */
  function Wrap(p: int): u32 { p % MOD }

  /** Reinterpretation of a 32-bit word as a signed one. */
  function Signed(x: u32): int { if x < HALF then x else x - MOD }

  predicate SeqLt(a: u32, b: u32) { Signed(Wrap(a - b)) < 0 }
  predicate SeqLeq(a: u32, b: u32) { Signed(Wrap(a - b)) <= 0 }
  predicate SeqGt(a: u32, b: u32) { SeqLt(b, a) }
  predicate SeqGeq(a: u32, b: u32) { SeqLeq(b, a) }

  lemma WrapAdd(p: int, q: int)
    ensures Wrap(Wrap(p) + q) == Wrap(p + q)
  {
  }

  lemma WrapSub(p: int, q: int)
    ensures Wrap(Wrap(p) - Wrap(q)) == Wrap(p - q)
  {
  }

  lemma WrapSmall(p: int)
    requires 0 <= p < MOD
    ensures Wrap(p) == p
  {
  }

  lemma WrapNear(d: int)
    requires -MOD <= d < MOD
    ensures Wrap(d) == if d < 0 then d + MOD else d
  {
  }

  /** The sign of a wrapped difference is the sign of the true one exactly in half the space. */
  lemma SignedSub(p: int, q: int)
    requires -MOD <= p - q < MOD
    ensures Signed(Wrap(Wrap(p) - Wrap(q))) == p - q <==> -HALF <= p - q < HALF
  {
    hide Wrap;
    WrapSub(p, q);
    WrapNear(p - q);
  }

  /** seq_lt decides the order of two positions less than one wrap apart if and only if they
      are within half the sequence space: outside it the answer is always the wrong one. */
  lemma SeqLtDecides(p: int, q: int)
    requires -MOD <= p - q < MOD
    ensures (SeqLt(Wrap(p), Wrap(q)) <==> p < q) <==> -HALF <= p - q < HALF
  {
    hide Wrap;
    WrapSub(p, q);
    WrapNear(p - q);
  }

  lemma SeqLeqDecides(p: int, q: int)
    requires -MOD < p - q < MOD
    ensures (SeqLeq(Wrap(p), Wrap(q)) <==> p <= q) <==> -HALF <= p - q < HALF
  {
    hide Wrap;
    WrapSub(p, q);
    WrapNear(p - q);
  }

  /** Equal wire values mean equal positions whenever the positions are less than a wrap apart. */
  lemma WrapInjective(p: int, q: int)
    requires -MOD < p - q < MOD
    ensures Wrap(p) == Wrap(q) <==> p == q
  {
    hide Wrap;
    WrapSub(p, q);
    WrapNear(p - q);
    WrapNear(0);
  }

  /** The published {snd_una, window} pair, one 64-bit atomic word. */
  type u64 = x: int | 0 <= x < 0x1_0000_0000_0000_0000
  function PackWindow(una: u32, wnd: u32): u64 { una * MOD + wnd }
  function WindowUna(w: u64): u32 { w / MOD }
  function WindowSize(w: u64): u32 { w % MOD }

  lemma PackRoundTrip(una: u32, wnd: u32)
    ensures WindowUna(PackWindow(una, wnd)) == una && WindowSize(PackWindow(una, wnd)) == wnd
  {
  }

  /** window_space: room left between snd_nxt and the right edge of the published pair. */
  function WindowSpace(w: u64, sndNxt: u32): nat {
    var space := Signed(Wrap(Wrap(WindowUna(w) + WindowSize(w)) - sndNxt));
    if space > 0 then space else 0
  }

  /** Over unbounded positions the room is max(0, una + wnd - nxt). */
  lemma WindowSpaceExact(una: int, wnd: u16, nxt: int)
    requires -HALF <= una + wnd - nxt < HALF
    ensures WindowSpace(PackWindow(Wrap(una), wnd), Wrap(nxt))
         == if una + wnd > nxt then una + wnd - nxt else 0
  {
    hide Wrap, PackWindow, WindowUna, WindowSize;
    PackRoundTrip(Wrap(una), wnd);
    WrapAdd(una, wnd);
    SignedSub(una + wnd, nxt);
  }
}
