/** Network byte order and the one's-complement checksum of RFC 1071. */
module Bytes {
  import opened SeqArith

  function Hi(x: u16): u8 { x / 0x100 }
  function Lo(x: u16): u8 { x % 0x100 }
  function Be16(hi: u8, lo: u8): u16 { hi * 0x100 + lo }

  function HiWord(x: u32): u16 { x / 0x1_0000 }
  function LoWord(x: u32): u16 { x % 0x1_0000 }
  function Be32(a: u8, b: u8, c: u8, d: u8): u32 { Be16(a, b) * 0x1_0000 + Be16(c, d) }
  function U32Bytes(x: u32): seq<u8> {
    [Hi(HiWord(x)), Lo(HiWord(x)), Hi(LoWord(x)), Lo(LoWord(x))]
  }

  /** The one's-complement sum's words: big-endian pairs, an odd last byte padded with zero. */
  function Sum16(b: seq<u8>): nat {
    if |b| == 0 then 0
    else if |b| == 1 then Be16(b[0], 0)
    else Be16(b[0], b[1]) + Sum16(b[2..])
  }

  lemma {:induction false} SumBound(b: seq<u8>)
    ensures Sum16(b) <= 0xFFFF * ((|b| + 1) / 2)
  {
    if |b| > 1 {
      SumBound(b[2..]);
    }
  }

  /** The two carry folds that bring a 32-bit sum down to 16 bits. */
  function Reduce(s: nat): u16 {
    var t := s / 0x1_0000 + s % 0x1_0000;
    (t / 0x1_0000 + t % 0x1_0000) % 0x1_0000
  }

  /** Folding is reduction modulo 2^16 - 1, with 0 kept apart from its multiples. */
  lemma ReduceExact(s: nat)
    requires s < MOD
    ensures Reduce(s) == if s == 0 then 0 else (s - 1) % 0xFFFF + 1
  {
    var h, l := s / 0x1_0000, s % 0x1_0000;
    FoldTwice(h + l);
    ModShift(h + l - 1, h);
  }

  /** The second fold, of a value below 2^17 - 1. */
  lemma FoldTwice(t: nat)
    requires t < 0x1_FFFF
    ensures (t / 0x1_0000 + t % 0x1_0000) % 0x1_0000 == if t <= 0xFFFF then t else t - 0xFFFF
    ensures t > 0 ==> (t - 1) % 0xFFFF == if t <= 0xFFFF then t - 1 else t - 1 - 0xFFFF
  {
  }

  lemma ModShift(x: int, q: int)
    ensures (x + q * 0xFFFF) % 0xFFFF == x % 0xFFFF
  {
  }

  function PutWord(b: seq<u8>, at: nat, x: u16): (r: seq<u8>)
    requires at + 2 <= |b|
    ensures |r| == |b|
  {
    b[at := Hi(x)][at + 1 := Lo(x)]
  }

  /** Writing a word over zeros at an even offset adds it to the sum. */
  lemma {:induction false} SumPut(b: seq<u8>, at: nat, x: u16)
    requires at % 2 == 0 && at + 2 <= |b| && b[at] == 0 && b[at + 1] == 0
    ensures Sum16(PutWord(b, at, x)) == Sum16(b) + x
    decreases at
  {
    var r := PutWord(b, at, x);
    if at == 0 {
      assert r[2..] == b[2..];
    } else {
      SumPut(b[2..], at - 2, x);
      assert r[2..] == PutWord(b[2..], at - 2, x);
    }
  }

  /** The checksum to store over a zero field, given the sum of everything it covers. */
  function Complement(sum: nat): u16 { 0xFFFF - Reduce(sum) }

  /** A sum that includes its own complement folds to all ones. */
  lemma ComplementVerifies(sum: nat)
    requires sum + 0xFFFF < MOD
    ensures Reduce(sum + Complement(sum)) == 0xFFFF
  {
    hide Reduce;
    ReduceExact(sum);
    ReduceExact(sum + Complement(sum));
  }
}

/** Segments as bytes: what build_segment lays out (src/tcp_stack.cpp, src/ipv4_header.cpp,
    src/tcp_header.cpp) and what process and process_tcp read back. */
module Wire {
  import opened SeqArith
  import opened Bytes
  import opened Connection

  const ETH_LEN: nat := 14
  const IP_LEN: nat := 20
  const TCP_LEN: nat := 20

  function MacBytes(m: Mac): (b: seq<u8>)
    ensures |b| == 6
  {
    [Hi(m / MOD), Lo(m / MOD)] + U32Bytes(m % MOD)
  }
  function MacOf(b: seq<u8>): Mac
    requires |b| == 6
  {
    Be16(b[0], b[1]) * MOD + Be32(b[2], b[3], b[4], b[5])
  }

  function EthHeader(dst: Mac, src: Mac, etherType: u16): (b: seq<u8>)
    ensures |b| == ETH_LEN
  {
    MacBytes(dst) + MacBytes(src) + [Hi(etherType), Lo(etherType)]
  }

  /** A 20-byte IPv4 header with a zero checksum. */
  function IpHeader(src: u32, dst: u32, total: u16): (b: seq<u8>)
    ensures |b| == IP_LEN
  {
    [0x45, 0, Hi(total), Lo(total), 0, 0, 0, 0, 64, 6, 0, 0] + U32Bytes(src) + U32Bytes(dst)
  }

  /** A 20-byte TCP header with a zero checksum and urgent pointer; `words` is its data offset. */
  function TcpHeader(srcPort: u16, dstPort: u16, seqNo: u32, ack: u32, words: nat, flags: u8,
                     window: u16): (b: seq<u8>)
    requires words < 16
    ensures |b| == TCP_LEN
  {
    [Hi(srcPort), Lo(srcPort), Hi(dstPort), Lo(dstPort)] + U32Bytes(seqNo) + U32Bytes(ack)
    + [words * 16, flags, Hi(window), Lo(window), 0, 0, 0, 0]
  }

  function MssOption(mss: u16): (b: seq<u8>)
    ensures |b| == if mss == 0 then 0 else 4
  {
    if mss == 0 then [] else [2, 4, Hi(mss), Lo(mss)]
  }

  datatype SegAddr = SegAddr(
    srcMac: Mac, dstMac: Mac, srcIp: u32, dstIp: u32, srcPort: u16, dstPort: u16)

  /** Everything build_segment is asked to put in a segment; mss 0 means no option. */
  datatype SegSpec = SegSpec(
    a: SegAddr, seqNo: u32, ack: u32, flags: u8, window: u16, payload: seq<u8>, mss: u16)
  {
    function HeaderWords(): nat { if mss == 0 then 5 else 6 }
    function TcpSize(): nat { TCP_LEN + |MssOption(mss)| + |payload| }
    predicate Fits() { ETH_LEN + IP_LEN + TcpSize() <= 0xFFFF }

    /** The link and network headers before finalize_ipv4_header. */
    function L3(): (b: seq<u8>)
      ensures |b| == ETH_LEN + IP_LEN
    {
      EthHeader(a.dstMac, a.srcMac, 0x0800) + IpHeader(a.srcIp, a.dstIp, 0)
    }
    function TcpFixed(words: nat): (b: seq<u8>)
      requires words < 16
      ensures |b| == TCP_LEN
    {
      TcpHeader(a.srcPort, a.dstPort, seqNo, ack, words, flags, window)
    }
    function Tcp0(): (b: seq<u8>)
      ensures |b| == TcpSize()
    {
      TcpFixed(HeaderWords()) + MssOption(mss) + payload
    }
    function Ip0(): (b: seq<u8>)
      requires Fits()
      ensures |b| == IP_LEN
    {
      IpHeader(a.srcIp, a.dstIp, IP_LEN + TcpSize())
    }
    function Ip(): (b: seq<u8>)
      requires Fits()
      ensures |b| == IP_LEN
    {
      PutWord(Ip0(), 10, Complement(Sum16(Ip0())))
    }
    function Tcp(): (b: seq<u8>)
      requires Fits()
      ensures |b| == TcpSize()
    {
      PutWord(Tcp0(), 16, Complement(Sum16(PseudoHeader(a.srcIp, a.dstIp, TcpSize())) + Sum16(Tcp0())))
    }
    function Frame(): seq<u8>
      requires Fits()
    {
      EthHeader(a.dstMac, a.srcMac, 0x0800) + Ip() + Tcp()
    }
  }

  function PseudoHeader(src: u32, dst: u32, len: u16): seq<u8> {
    U32Bytes(src) + U32Bytes(dst) + [0, 6, Hi(len), Lo(len)]
  }

  datatype Parsed = Seg(seg: Segment) | Malformed | BadChecksum | Fragment | Ignored

  function At16(b: seq<u8>, i: nat): u16
    requires i + 2 <= |b|
  {
    Be16(b[i], b[i + 1])
  }
  function At32(b: seq<u8>, i: nat): u32
    requires i + 4 <= |b|
  {
    Be32(b[i], b[i + 1], b[i + 2], b[i + 3])
  }

  /** process, for a contiguous frame: the Ethernet and IPv4 checks, in the source's order. */
  function Parse(frame: seq<u8>, localIp: u32, verify: bool): Parsed
    requires |frame| <= 0xFFFF
  {
    if |frame| < ETH_LEN || At16(frame, 12) != 0x0800 then Ignored
    else ParseIp(MacOf(frame[6..12]), frame[ETH_LEN..], localIp, verify)
  }

  function ParseIp(srcMac: Mac, l3: seq<u8>, localIp: u32, verify: bool): Parsed {
    if |l3| < IP_LEN then Malformed
    else
      var hdrLen := l3[0] % 16 * 4;
      var total := At16(l3, 2);
      if l3[0] / 16 != 4 || hdrLen < IP_LEN || total < hdrLen || total > |l3| then Malformed
      else if At32(l3, 16) != localIp then Ignored
      else if At32(l3, 12) == 0 then Malformed
      else if verify && Complement(Sum16(l3[..hdrLen])) != 0 then BadChecksum
      else if l3[9] != 6 then Ignored
      else if At16(l3, 6) % 0x4000 != 0 then Fragment
      else ParseTcp(srcMac, At32(l3, 12), localIp, l3[hdrLen..total], verify)
  }

  /** tcp_checksum_ok. */
  predicate TcpChecksumOk(src: u32, dst: u32, l4: seq<u8>)
    requires |l4| <= 0xFFFF
  {
    Reduce(Reduce(Sum16(PseudoHeader(src, dst, |l4|))) + Sum16(l4)) == 0xFFFF
  }

  /** process_tcp, up to the connection lookup. */
  function ParseTcp(srcMac: Mac, src: u32, dst: u32, l4: seq<u8>, verify: bool): Parsed
    requires |l4| <= 0xFFFF
  {
    if |l4| < TCP_LEN then Malformed
    else
      var off := l4[12] / 16 * 4;
      if off < TCP_LEN || off > |l4| then Malformed
      else if verify && !TcpChecksumOk(src, dst, l4) then BadChecksum
      else Seg(Segment(srcMac, src, At16(l4, 0), At16(l4, 2), At32(l4, 4), At32(l4, 8), l4[13],
                       At16(l4, 14), l4[off..], l4[TCP_LEN..off]))
  }

  lemma U32RoundTrip(x: u32)
    ensures Be32(U32Bytes(x)[0], U32Bytes(x)[1], U32Bytes(x)[2], U32Bytes(x)[3]) == x
  {
  }

  lemma MacRoundTrip(m: Mac)
    ensures MacOf(MacBytes(m)) == m
  {
    U32RoundTrip(m % MOD);
  }

  /** The finished IPv4 header reads back, and its checksum verifies. */
  lemma IpReads(spec: SegSpec)
    requires spec.Fits()
    ensures var b := spec.Ip();
      && |b| == IP_LEN && b[0] == 0x45 && b[9] == 6 && At16(b, 2) == IP_LEN + spec.TcpSize()
      && At16(b, 6) == 0 && At32(b, 12) == spec.a.srcIp && At32(b, 16) == spec.a.dstIp
      && Complement(Sum16(b)) == 0
  {
    hide Sum16, Reduce;
    var b0 := spec.Ip0();
    U32RoundTrip(spec.a.srcIp);
    U32RoundTrip(spec.a.dstIp);
    SumBound(b0);
    SumPut(b0, 10, Complement(Sum16(b0)));
    ComplementVerifies(Sum16(b0));
  }

  /** Folding part of a sum early changes nothing. */
  lemma ReduceNested(a: nat, b: nat)
    requires a + b < MOD && 0xFFFF + b < MOD
    ensures Reduce(Reduce(a) + b) == Reduce(a + b)
  {
    hide Reduce;
    ReduceExact(a);
    ReduceExact(a + b);
    ReduceExact(Reduce(a) + b);
    if a > 0 {
      var q := (a - 1) / 0xFFFF;
      ModShift(Reduce(a) + b - 1, q);
      assert a + b - 1 == Reduce(a) + b - 1 + q * 0xFFFF;
    }
  }

  lemma TcpHeaderReads(srcPort: u16, dstPort: u16, seqNo: u32, ack: u32, words: nat, flags: u8,
                       window: u16)
    requires words < 16
    ensures var h := TcpHeader(srcPort, dstPort, seqNo, ack, words, flags, window);
      && |h| == TCP_LEN && At16(h, 0) == srcPort && At16(h, 2) == dstPort && At32(h, 4) == seqNo
      && At32(h, 8) == ack && h[12] / 16 == words && h[13] == flags && At16(h, 14) == window
      && h[16] == h[17] == 0
  {
    U32RoundTrip(seqNo);
    U32RoundTrip(ack);
  }

  /** The finished segment's checksum verifies. */
  lemma TcpVerifies(spec: SegSpec)
    requires spec.Fits()
    ensures TcpChecksumOk(spec.a.srcIp, spec.a.dstIp, spec.Tcp())
  {
    hide Sum16, Reduce, PutWord, Be16, Hi, Lo, TcpHeader, MssOption;
    var b0 := spec.Tcp0();
    var pseudo := PseudoHeader(spec.a.srcIp, spec.a.dstIp, spec.TcpSize());
    var sum := Sum16(pseudo) + Sum16(b0);
    TcpHeaderReads(spec.a.srcPort, spec.a.dstPort, spec.seqNo, spec.ack, spec.HeaderWords(),
                   spec.flags, spec.window);
    SumBound(b0);
    SumBound(pseudo);
    SumPut(b0, 16, Complement(sum));
    ComplementVerifies(sum);
    ReduceNested(Sum16(pseudo), Sum16(spec.Tcp()));
  }

  /** The finished segment reads back. */
  lemma TcpReads(spec: SegSpec, srcMac: Mac)
    requires spec.Fits()
    ensures ParseTcp(srcMac, spec.a.srcIp, spec.a.dstIp, spec.Tcp(), true)
         == Seg(Segment(srcMac, spec.a.srcIp, spec.a.srcPort, spec.a.dstPort, spec.seqNo, spec.ack,
                        spec.flags, spec.window, spec.payload, MssOption(spec.mss)))
  {
    hide TcpChecksumOk, Complement, Sum16, Be16, Hi, Lo, TcpHeader;
    var b0, b := spec.Tcp0(), spec.Tcp();
    TcpVerifies(spec);
    TcpHeaderReads(spec.a.srcPort, spec.a.dstPort, spec.seqNo, spec.ack, spec.HeaderWords(),
                   spec.flags, spec.window);
    var off := spec.HeaderWords() * 4;
    assert b[off..] == b0[off..] == spec.payload;
    assert b[TCP_LEN..off] == b0[TCP_LEN..off] == MssOption(spec.mss);
  }

  lemma EthReads(dst: Mac, src: Mac, etherType: u16, rest: seq<u8>)
    ensures var f := EthHeader(dst, src, etherType) + rest;
      && |f| == ETH_LEN + |rest| && f[ETH_LEN..] == rest && At16(f, 12) == etherType
      && MacOf(f[..6]) == dst && MacOf(f[6..12]) == src
  {
    hide MacOf, MacBytes;
    MacRoundTrip(dst);
    MacRoundTrip(src);
    var f := EthHeader(dst, src, etherType) + rest;
    assert f[..6] == MacBytes(dst) && f[6..12] == MacBytes(src);
  }

  lemma IpCarriesTcp(spec: SegSpec, pad: seq<u8>, srcMac: Mac)
    requires spec.Fits() && spec.a.srcIp != 0
    ensures ParseIp(srcMac, spec.Ip() + spec.Tcp() + pad, spec.a.dstIp, true)
         == ParseTcp(srcMac, spec.a.srcIp, spec.a.dstIp, spec.Tcp(), true)
  {
    hide Sum16, Complement, ParseTcp, Be16, spec.Ip, spec.Tcp;
    var l3 := spec.Ip() + spec.Tcp() + pad;
    IpReads(spec);
    assert l3[..IP_LEN] == spec.Ip();
    assert l3[IP_LEN..IP_LEN + spec.TcpSize()] == spec.Tcp();
  }

  /** Parsing undoes building, with any Ethernet padding behind the frame: every length and
      checksum test passes and the fields come back as they were asked for. */
  lemma ParseBuild(spec: SegSpec, pad: seq<u8>)
    requires spec.Fits() && spec.a.srcIp != 0 && |spec.Frame() + pad| <= 0xFFFF
    ensures Parse(spec.Frame() + pad, spec.a.dstIp, true)
         == Seg(Segment(spec.a.srcMac, spec.a.srcIp, spec.a.srcPort, spec.a.dstPort, spec.seqNo,
                        spec.ack, spec.flags, spec.window, spec.payload, MssOption(spec.mss)))
  {
    hide ParseIp, ParseTcp, MacOf, EthHeader, At16, spec.Ip, spec.Tcp, MssOption;
    var rest := spec.Ip() + spec.Tcp() + pad;
    assert spec.Frame() + pad == EthHeader(spec.a.dstMac, spec.a.srcMac, 0x0800) + rest;
    EthReads(spec.a.dstMac, spec.a.srcMac, 0x0800, rest);
    IpCarriesTcp(spec, pad, spec.a.srcMac);
    TcpReads(spec, spec.a.srcMac);
  }
}
