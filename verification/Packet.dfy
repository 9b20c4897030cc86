/** Building a segment in a packet buffer: append the headers, then back-fill the lengths and
    checksums in place (build_segment and the header builders it calls). */
module Packets {
  import opened SeqArith
  import opened Bytes
  import opened Wire

  /** Overwriting a word in the middle part of a buffer. */
  lemma PutInside(a: seq<u8>, b: seq<u8>, c: seq<u8>, at: nat, x: u16)
    requires at + 2 <= |b|
    ensures PutWord(a + b + c, |a| + at, x) == a + PutWord(b, at, x) + c
  {
  }

  lemma SetInside(a: seq<u8>, b: seq<u8>, c: seq<u8>, at: nat, x: u8)
    requires at < |b|
    ensures (a + b + c)[|a| + at := x] == a + b[at := x] + c
  {
  }

  lemma Concat(a: seq<u8>, b: seq<u8>, c: seq<u8>, d: seq<u8>)
    ensures a + b + c + d == a + (b + c + d)
    ensures c == [] ==> a + b == a + b + c
    ensures d == [] ==> a + b + c == a + b + c + d
  {
  }

  lemma TotalLengthPut(src: u32, dst: u32, total: u16)
    ensures PutWord(IpHeader(src, dst, 0), 2, total) == IpHeader(src, dst, total)
  {
  }

  class Packet {
    var data: seq<u8>
    const room: nat

    constructor(room: nat)
      ensures data == [] && this.room == room
    {
      data := [];
      this.room := room;
    }

    /** packet::append. */
    method Append(bytes: seq<u8>) returns (ok: bool)
      modifies this
      ensures ok <==> |old(data)| + |bytes| <= room
      ensures data == if ok then old(data) + bytes else old(data)
    {
      ok := |data| + |bytes| <= room;
      if ok {
        data := data + bytes;
      }
    }

    /** The Ethernet, IPv4 and TCP headers of build_segment, in that order. */
    method LayOutHeaders(spec: SegSpec) returns (ok: bool)
      requires data == []
      modifies this
      ensures ok <==> ETH_LEN + IP_LEN + TCP_LEN <= room
      ensures ok ==> data == spec.L3() + spec.TcpFixed(5)
    {
      hide EthHeader, IpHeader, TcpHeader;
      ok := Append(EthHeader(spec.a.dstMac, spec.a.srcMac, 0x0800));
      if ok {
        ok := Append(IpHeader(spec.a.srcIp, spec.a.dstIp, 0));
      }
      if ok {
        ok := Append(spec.TcpFixed(5));
      }
    }

    /** The MSS option, with the data offset it adjusts, and the payload. */
    method LayOut(spec: SegSpec) returns (ok: bool)
      requires data == []
      modifies this
      ensures ok <==> ETH_LEN + IP_LEN + spec.TcpSize() <= room
      ensures ok ==> data == spec.L3() + spec.Tcp0()
    {
      hide spec.L3, spec.TcpFixed;
      ok := LayOutHeaders(spec);
      if ok && spec.mss != 0 {
        ok := Append(MssOption(spec.mss));
        if ok {
          SetInside(spec.L3(), spec.TcpFixed(5), MssOption(spec.mss), 12, 6 * 16);
          DataOffsetPut(spec);
          data := data[ETH_LEN + IP_LEN + 12 := 6 * 16];
        }
      }
      if ok {
        Concat(spec.L3(), spec.TcpFixed(spec.HeaderWords()), MssOption(spec.mss), spec.payload);
      }
      if ok && spec.payload != [] {
        ok := Append(spec.payload);
      }
    }

    /** finalize_ipv4_header: the header starts at `at`, and everything from there on counts. */
    method FinalizeIpv4(at: nat, ghost src: u32, ghost dst: u32)
      requires at + IP_LEN <= |data| <= 0xFFFF
      requires data[at..at + IP_LEN] == IpHeader(src, dst, 0)
      modifies this
      ensures var ip0 := IpHeader(src, dst, |old(data)| - at);
        data == old(data)[..at] + PutWord(ip0, 10, Complement(Sum16(ip0))) + old(data)[at + IP_LEN..]
    {
      hide Sum16, Complement, IpHeader, PutWord;
      ghost var a, c := data[..at], data[at + IP_LEN..];
      assert data == a + IpHeader(src, dst, 0) + c;
      PutInside(a, IpHeader(src, dst, 0), c, 2, |data| - at);
      TotalLengthPut(src, dst, |data| - at);
      data := PutWord(data, at + 2, |data| - at);
      ghost var ip0 := IpHeader(src, dst, |data| - at);
      assert data == a + ip0 + c;
      assert data[at..at + IP_LEN] == ip0;
      var sum := Complement(Sum16(data[at..at + IP_LEN]));
      PutInside(a, ip0, c, 10, sum);
      data := PutWord(data, at + 10, sum);
    }

    /** finalize_tcp_header: the pseudo-header comes from the finished IPv4 header. */
    method FinalizeTcp(ipAt: nat, at: nat)
      requires ipAt + IP_LEN <= at && at + TCP_LEN <= |data|
      requires At16(data, ipAt + 2) == IP_LEN + |data| - at
      modifies this
      ensures var l4 := old(data)[at..];
        var pseudo := PseudoHeader(At32(old(data), ipAt + 12), At32(old(data), ipAt + 16), |l4|);
        data == old(data)[..at] + PutWord(l4, 16, Complement(Sum16(pseudo) + Sum16(l4)))
    {
      hide Sum16, Complement, PutWord, Be16;
      var l4Len := At16(data, ipAt + 2) - IP_LEN;
      var l4 := data[at..at + l4Len];
      var pseudo := PseudoHeader(At32(data, ipAt + 12), At32(data, ipAt + 16), l4Len);
      var sum := Complement(Sum16(pseudo) + Sum16(l4));
      assert l4 == data[at..];
      assert data == data[..at] + l4 + [];
      PutInside(data[..at], l4, [], 16, sum);
      assert data[..at] + PutWord(l4, 16, sum) + [] == data[..at] + PutWord(l4, 16, sum);
      data := PutWord(data, at + 16, sum);
    }
  }

  /** build_segment into a fresh buffer of the pool: it succeeds exactly when the frame fits, and
      then holds the frame that Parse reads back. Buffers hold at most 65535 bytes. */
  method BuildSegment(spec: SegSpec, room: nat) returns (pkt: Packet, ok: bool)
    requires room <= 0xFFFF
    ensures fresh(pkt)
    ensures ok <==> ETH_LEN + IP_LEN + spec.TcpSize() <= room
    ensures ok ==> pkt.data == spec.Frame()
  {
    hide Sum16, Complement, PutWord, Be16, EthHeader, IpHeader, spec.Tcp0;
    pkt := new Packet(room);
    ok := pkt.LayOut(spec);
    if ok {
      ghost var eth := EthHeader(spec.a.dstMac, spec.a.srcMac, 0x0800);
      pkt.FinalizeIpv4(ETH_LEN, spec.a.srcIp, spec.a.dstIp);
      assert pkt.data == eth + spec.Ip() + spec.Tcp0();
      FinalFields(spec, eth);
      pkt.FinalizeTcp(ETH_LEN, ETH_LEN + IP_LEN);
      assert (eth + spec.Ip() + spec.Tcp0())[ETH_LEN + IP_LEN..] == spec.Tcp0();
    }
  }

  lemma DataOffsetPut(spec: SegSpec)
    ensures spec.TcpFixed(5)[12 := 6 * 16] == spec.TcpFixed(6)
  {
  }

  /** What finalize_tcp_header reads from the finished IPv4 header. */
  lemma FinalFields(spec: SegSpec, eth: seq<u8>)
    requires spec.Fits() && |eth| == ETH_LEN
    ensures var b := eth + spec.Ip() + spec.Tcp0();
      && At16(b, ETH_LEN + 2) == IP_LEN + spec.TcpSize()
      && At32(b, ETH_LEN + 12) == spec.a.srcIp && At32(b, ETH_LEN + 16) == spec.a.dstIp
  {
    hide Sum16, Complement, PutWord, Be16;
    IpReads(spec);
  }
}
