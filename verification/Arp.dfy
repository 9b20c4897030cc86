/** ARP for IPv4 over Ethernet (src/arp.cpp): the neighbour table as a bounded map, and the merge
    and reply rules of RFC 826, "Packet Reception". */
module Arp {
  import opened SeqArith
  import opened Bytes
  import opened Connection
  import opened Wire
  import opened Probing

  const ARP_LEN: nat := 28
  const ETHER_TYPE_ARP: u16 := 0x0806
  const REQUEST: u16 := 1
  const REPLY: u16 := 2

  datatype ArpPacket = ArpPacket(opcode: u16, sha: Mac, sip: u32, tha: Mac, tip: u32)

  /** fill_arp. */
  function ArpBody(p: ArpPacket): (b: seq<u8>)
    ensures |b| == ARP_LEN
  {
    [0, 1, 8, 0, 6, 4, Hi(p.opcode), Lo(p.opcode)]
    + MacBytes(p.sha) + U32Bytes(p.sip) + MacBytes(p.tha) + U32Bytes(p.tip)
  }

  function BuildArp(ethDst: Mac, p: ArpPacket): (b: seq<u8>)
    ensures |b| == ETH_LEN + ARP_LEN
  {
    EthHeader(ethDst, p.sha, ETHER_TYPE_ARP) + ArpBody(p)
  }

  datatype ArpParsed = NotArp | Unusable | Arp(p: ArpPacket)

  function ParseArp(frame: seq<u8>): ArpParsed {
    if |frame| < ETH_LEN || At16(frame, 12) != ETHER_TYPE_ARP then NotArp
    else if |frame| < ETH_LEN + ARP_LEN then Unusable
    else ParseBody(frame[ETH_LEN..ETH_LEN + ARP_LEN])
  }

  function ParseBody(b: seq<u8>): ArpParsed
    requires |b| == ARP_LEN
  {
    if At16(b, 0) != 1 || At16(b, 2) != 0x0800 || b[4] != 6 || b[5] != 4 then Unusable
    else Arp(ArpPacket(At16(b, 6), MacOf(b[8..14]), At32(b, 14), MacOf(b[18..24]), At32(b, 24)))
  }

  lemma BodyRoundTrip(p: ArpPacket)
    ensures ParseBody(ArpBody(p)) == Arp(p)
  {
    hide MacBytes, MacOf;
    var b := ArpBody(p);
    MacRoundTrip(p.sha);
    MacRoundTrip(p.tha);
    U32RoundTrip(p.sip);
    U32RoundTrip(p.tip);
    assert b[8..14] == MacBytes(p.sha) && b[18..24] == MacBytes(p.tha);
    assert b[14..18] == U32Bytes(p.sip) && b[24..28] == U32Bytes(p.tip);
  }

  /** Parsing undoes building, with any padding behind the 42 bytes. */
  lemma ArpRoundTrip(ethDst: Mac, p: ArpPacket, pad: seq<u8>)
    ensures ParseArp(BuildArp(ethDst, p) + pad) == Arp(p)
  {
    hide ParseBody, EthHeader, At16, MacOf, ArpBody;
    var frame := BuildArp(ethDst, p) + pad;
    assert frame == EthHeader(ethDst, p.sha, ETHER_TYPE_ARP) + (ArpBody(p) + pad);
    EthReads(ethDst, p.sha, ETHER_TYPE_ARP, ArpBody(p) + pad);
    assert frame[ETH_LEN..ETH_LEN + ARP_LEN] == ArpBody(p);
    BodyRoundTrip(p);
  }

  /** RFC 826's merge on a table bounded by `capacity`: refresh a known sender, add an unknown one
      only if the packet targets us and there is room; 0.0.0.0 is never a neighbour. */
  function Merge(m: map<u64, Mac>, capacity: nat, localIp: u32, frame: seq<u8>): map<u64, Mac> {
    if Merges(m, capacity, localIp, frame) then m[ParseArp(frame).p.sip := ParseArp(frame).p.sha] else m
  }

  predicate Merges(m: map<u64, Mac>, capacity: nat, localIp: u32, frame: seq<u8>) {
    var r := ParseArp(frame);
    r.Arp? && r.p.sip != 0 && (r.p.sip in m || (r.p.tip == localIp && |m| < capacity))
  }

  function MergeAll(m: map<u64, Mac>, capacity: nat, localIp: u32, frames: seq<seq<u8>>): map<u64, Mac> {
    if frames == [] then m
    else Merge(MergeAll(m, capacity, localIp, frames[..|frames| - 1]), capacity, localIp,
               frames[|frames| - 1])
  }

  predicate From(frame: seq<u8>, ip: u64) {
    ParseArp(frame).Arp? && ParseArp(frame).p.sip == ip
  }

  predicate Targets(frame: seq<u8>, ip: u32) {
    ParseArp(frame).Arp? && ParseArp(frame).p.tip == ip
  }

  /** One frame keeps the bound and every key, and adds a key only if it targets us. */
  lemma MergeKeys(m: map<u64, Mac>, capacity: nat, localIp: u32, frame: seq<u8>)
    requires |m| <= capacity
    ensures var r := Merge(m, capacity, localIp, frame);
      && |r| <= capacity && m.Keys <= r.Keys
      && forall k | k in r && k !in m :: From(frame, k) && Targets(frame, localIp)
  {
    hide ParseArp;
    var r := Merge(m, capacity, localIp, frame);
    if ParseArp(frame).Arp? {
      var k: u64 := ParseArp(frame).p.sip;
      assert r.Keys == m.Keys || r.Keys == m.Keys + {k};
      assert |r| == |r.Keys| && |m| == |m.Keys|;
    }
  }

  /** Over any run of frames the bound is kept, no key is lost, and every new key came with a packet
      of that sender that targeted us. */
  lemma {:induction false} KeysOnlyFromOurs(m: map<u64, Mac>, capacity: nat, localIp: u32,
                                            frames: seq<seq<u8>>)
    requires |m| <= capacity
    ensures var r := MergeAll(m, capacity, localIp, frames);
      && |r| <= capacity && m.Keys <= r.Keys
      && forall k | k in r && k !in m :: exists i :: 0 <= i < |frames| && From(frames[i], k)
                                                     && Targets(frames[i], localIp)
  {
    hide Merge, ParseArp;
    if frames != [] {
      var front, last := frames[..|frames| - 1], frames[|frames| - 1];
      KeysOnlyFromOurs(m, capacity, localIp, front);
      var before, r := MergeAll(m, capacity, localIp, front), MergeAll(m, capacity, localIp, frames);
      MergeKeys(before, capacity, localIp, last);
      forall k | k in r && k !in m
        ensures exists i :: 0 <= i < |frames| && From(frames[i], k) && Targets(frames[i], localIp)
      {
        if k in before {
          var i :| 0 <= i < |front| && From(front[i], k) && Targets(front[i], localIp);
          assert frames[i] == front[i];
        } else {
          assert frames[|frames| - 1] == last;
        }
      }
    }
  }

  /** A known sender is refreshed by every packet of its own, whoever that targets, and is left
      alone by everyone else's: its address is always the last one it announced. */
  lemma {:induction false} AlwaysRefreshed(m: map<u64, Mac>, capacity: nat, localIp: u32,
                                           frames: seq<seq<u8>>, i: nat, k: u64)
    requires k != 0 && i < |frames| && From(frames[i], k)
    requires k in MergeAll(m, capacity, localIp, frames[..i])
    requires forall j | i < j < |frames| :: !From(frames[j], k)
    ensures var r := MergeAll(m, capacity, localIp, frames);
      k in r && r[k] == ParseArp(frames[i]).p.sha
  {
    var front := frames[..|frames| - 1];
    if i < |frames| - 1 {
      assert front[..i] == frames[..i];
      AlwaysRefreshed(m, capacity, localIp, front, i, k);
      assert !From(frames[|frames| - 1], k);
    }
  }

  datatype ArpResult = ResNotArp | ResIgnored | ResLearned | ResReplied

  datatype Lookup = Found(mac: Mac) | Unknown

  class NeighborTable {
    const entries: array<Entry<Mac>>
    const home: u64 -> nat
    const capacity: nat
    var size: nat
    ghost var m: map<u64, Mac>

    ghost predicate Valid()
      reads this, entries
    {
      && capacity < entries.Length && IsHash(home, entries.Length)
      && size == |m| <= capacity && Table(entries[..], home, -1, m)
    }

    constructor(capacity: nat, slots: nat, home: u64 -> nat)
      requires capacity * 2 <= slots && 2 <= slots && IsHash(home, slots)
      ensures Valid() && m == map[] && this.capacity == capacity && fresh(entries)
    {
      this.capacity, this.home, size, m := capacity, home, 0, map[];
      entries := new Entry<Mac>[slots](_ => Entry(0, 0));
    }

    /** Put a MAC at the slot find_slot returned. */
    method Store(i: nat, ip: u32, mac: Mac)
      requires Valid() && ip != 0 && i < entries.Length && Passed(entries[..], home(ip), i, ip)
      requires entries[i].key == (if ip as u64 in m then ip else 0)
      requires ip as u64 in m || size < capacity
      modifies this, entries
      ensures Valid() && m == old(m)[ip := mac]
    {
      hide Table, Passed, Dist;
      ghost var es := entries[..];
      Stored(es, home, m, i, ip, mac);
      if entries[i].key == 0 {
        size := size + 1;
      }
      entries[i] := Entry(ip, mac);
      assert entries[..] == es[i := Entry(ip, mac)];
      assert ip as u64 in m ==> m[ip := mac].Keys == m.Keys;
      m := m[ip := mac];
    }

    method Learn(ip: u32, mac: Mac) returns (ok: bool)
      requires Valid()
      modifies this, entries
      ensures Valid()
      ensures ok <==> ip != 0 && (ip as u64 in old(m) || |old(m)| < capacity)
      ensures m == if ok then old(m)[ip := mac] else old(m)
    {
      hide Table, Passed, Dist;
      if ip == 0 {
        return false;
      }
      var i := Probe(entries, home, m, ip);
      if entries[i].key == 0 && size >= capacity {
        return false;
      }
      Store(i, ip, mac);
      ok := true;
    }

    method UpdateIfPresent(ip: u32, mac: Mac) returns (ok: bool)
      requires Valid()
      modifies this, entries
      ensures Valid()
      ensures ok <==> ip != 0 && ip as u64 in old(m)
      ensures m == if ok then old(m)[ip := mac] else old(m)
    {
      hide Table, Passed, Dist;
      if ip == 0 {
        return false;
      }
      var i := Probe(entries, home, m, ip);
      if entries[i].key != ip {
        return false;
      }
      Store(i, ip, mac);
      ok := true;
    }

    method Find(ip: u32) returns (r: Lookup)
      requires Valid()
      ensures r == if ip != 0 && ip as u64 in m then Found(m[ip]) else Unknown
    {
      if ip == 0 {
        return Unknown;
      }
      var i := Probe(entries, home, m, ip);
      r := if entries[i].key == ip then Found(entries[i].value) else Unknown;
    }

    /** handle_arp; `poolOk` is whether a reply buffer could be had. A request for our address is
        answered to its sender whether or not the sender could be learned. */
    method HandleArp(frame: seq<u8>, localMac: Mac, localIp: u32, poolOk: bool)
      returns (result: ArpResult, reply: seq<u8>)
      requires Valid()
      modifies this, entries
      ensures Valid() && m == Merge(old(m), capacity, localIp, frame)
      ensures ParseArp(frame).NotArp? <==> result == ResNotArp
      ensures result == ResReplied <==>
        poolOk && Targets(frame, localIp) && ParseArp(frame).p.opcode == REQUEST
      ensures result == ResReplied ==>
        var p := ParseArp(frame).p;
        reply == BuildArp(p.sha, ArpPacket(REPLY, localMac, localIp, p.sha, p.sip))
      ensures result != ResReplied ==> reply == []
      ensures ParseArp(frame).Arp? ==> result == Reported(old(m), capacity, localIp, frame, poolOk)
      ensures ParseArp(frame).Unusable? ==> result == ResIgnored
    {
      hide ParseArp, Table, BuildArp;
      reply := [];
      match ParseArp(frame)
      case NotArp => result := ResNotArp;
      case Unusable => result := ResIgnored;
      case Arp(p) =>
        var learned;
        if p.tip == localIp {
          learned := Learn(p.sip, p.sha);
        } else {
          learned := UpdateIfPresent(p.sip, p.sha);
        }
        if p.tip == localIp && p.opcode == REQUEST {
          if poolOk {
            reply := BuildArp(p.sha, ArpPacket(REPLY, localMac, localIp, p.sha, p.sip));
          }
          result := if poolOk then ResReplied else ResLearned;
        } else {
          result := if learned then ResLearned else ResIgnored;
        }
    }
  }

  /** What handle_arp reports of a usable ARP packet, given whether it could build a reply. */
  function Reported(m: map<u64, Mac>, capacity: nat, localIp: u32, frame: seq<u8>, poolOk: bool): ArpResult
    requires ParseArp(frame).Arp?
  {
    if Targets(frame, localIp) && ParseArp(frame).p.opcode == REQUEST
    then if poolOk then ResReplied else ResLearned
    else if Merges(m, capacity, localIp, frame) then ResLearned else ResIgnored
  }

  /** The report says "learned" or "replied" of a sender that was not learned, exactly for requests for
      our address whose sender is 0.0.0.0 or finds no room. */
  lemma ReportedUnlearned(m: map<u64, Mac>, capacity: nat, localIp: u32, frame: seq<u8>, poolOk: bool)
    requires ParseArp(frame).Arp?
    ensures var p := ParseArp(frame).p;
      (Reported(m, capacity, localIp, frame, poolOk) != ResIgnored && !Merges(m, capacity, localIp, frame))
      <==> p.tip == localIp && p.opcode == REQUEST && (p.sip == 0 || (p.sip !in m && |m| >= capacity))
  {
    hide ParseArp;
  }

  /** So a probe from 0.0.0.0 for our address is "replied", and the table is as before. */
  lemma ProbeIsReplied(m: map<u64, Mac>, capacity: nat, localIp: u32, mac: Mac)
    ensures var probe := BuildArp(0xFFFF_FFFF_FFFF, ArpPacket(REQUEST, mac, 0, 0, localIp));
      && ParseArp(probe) == Arp(ArpPacket(REQUEST, mac, 0, 0, localIp))
      && Reported(m, capacity, localIp, probe, true) == ResReplied
      && Merge(m, capacity, localIp, probe) == m
  {
    hide ParseArp, BuildArp;
    var p := ArpPacket(REQUEST, mac, 0, 0, localIp);
    ArpRoundTrip(0xFFFF_FFFF_FFFF, p, []);
    assert BuildArp(0xFFFF_FFFF_FFFF, p) + [] == BuildArp(0xFFFF_FFFF_FFFF, p);
  }

  /** Two hosts: the answer to a's request for b's address, handled by a, teaches a where b is. */
  lemma RequestIsAnswered(ma: map<u64, Mac>, capacity: nat, macA: Mac, ipA: u32, macB: Mac, ipB: u32,
                          pad: seq<u8>, pad': seq<u8>)
    requires ipB != 0 && (ipB as u64 in ma || |ma| < capacity)
    ensures var request := BuildArp(0xFFFF_FFFF_FFFF, ArpPacket(REQUEST, macA, ipA, 0, ipB)) + pad;
      && Targets(request, ipB) && ParseArp(request).p.opcode == REQUEST
      && var p := ParseArp(request).p;
         var answer := BuildArp(p.sha, ArpPacket(REPLY, macB, ipB, p.sha, p.sip)) + pad';
         Merge(ma, capacity, ipA, answer) == ma[ipB := macB]
  {
    hide ParseArp, BuildArp;
    ArpRoundTrip(0xFFFF_FFFF_FFFF, ArpPacket(REQUEST, macA, ipA, 0, ipB), pad);
    ArpRoundTrip(macA, ArpPacket(REPLY, macB, ipB, macA, ipA), pad');
  }
}
