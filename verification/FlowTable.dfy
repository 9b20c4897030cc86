/** The inbound thread's connection lookup (flow_table in src/tcp_stack.cpp): linear probing with
    backward-shift deletion, as a refinement of a finite map from connection tuples to slots. */
module FlowTables {
  import opened SeqArith
  import opened Probing

  const EMPTY: Entry<u32> := Entry(0, 0)
  const NPOS: u32 := 0xFFFF_FFFF

  /** The lookup key of a connection: peer address, peer port, local port. */
  function Key(peerIp: u32, peerPort: u16, localPort: u16): u64 {
    peerIp * MOD + peerPort * 0x1_0000 + localPort
  }

  /** Distinct tuples have distinct keys, and a key is 0 only for the tuple of all zeros, so no
      tuple with a real peer address collides with the empty mark. */
  lemma KeyInjective(ip: u32, pp: u16, lp: u16, ip': u32, pp': u16, lp': u16)
    ensures Key(ip, pp, lp) == Key(ip', pp', lp') <==> ip == ip' && pp == pp' && lp == lp'
    ensures ip != 0 ==> Key(ip, pp, lp) != 0
  {
  }

  class FlowTable {
    const entries: array<Entry<u32>>
    const home: u64 -> nat
    const capacity: nat
    ghost var m: map<u64, u32>

    ghost predicate Valid()
      reads this, entries
    {
      && capacity < entries.Length && IsHash(home, entries.Length) && |m| <= capacity
      && Table(entries[..], home, -1, m)
    }

    /** The source sizes the table to the power of two at or above max(2 * capacity, 2). */
    constructor(capacity: nat, size: nat, home: u64 -> nat)
      requires capacity * 2 <= size && 2 <= size && IsHash(home, size)
      ensures Valid() && m == map[] && this.capacity == capacity && fresh(entries)
    {
      this.capacity, this.home, m := capacity, home, map[];
      entries := new Entry<u32>[size](_ => EMPTY);
    }

    method Find(k: u64) returns (value: u32)
      requires Valid() && k != 0
      ensures value == if k in m then m[k] else NPOS
    {
      var i := Probe(entries, home, m, k);
      value := if entries[i].key == k then entries[i].value else NPOS;
    }

    method Insert(k: u64, value: u32)
      requires Valid() && k != 0 && (k in m || |m| < capacity)
      modifies this, entries
      ensures Valid() && m == old(m)[k := value]
    {
      var i := Probe(entries, home, m, k);
      ghost var es := entries[..];
      entries[i] := Entry(k, value);
      ghost var m' := m[k := value];
      assert entries[..] == es[i := Entry(k, value)];
      Stored(es, home, m, i, k, value);
      assert k in m ==> m'.Keys == m.Keys;
      m := m';
    }

    method Erase(k: u64)
      requires Valid() && k != 0
      modifies this, entries
      ensures Valid() && m == old(m) - {k}
    {
      hide Dist, Table, Passed;
      var i := Probe(entries, home, m, k);
      if entries[i].key == 0 {
        return;
      }
      EmptySlot(entries[..], home, m);
      ghost var z :| 0 <= z < entries.Length && entries[..][z].key == 0;
      Unhook(entries[..], home, m, i, k);
      m := m - {k};
      Subset(m.Keys, old(m).Keys);
      ShiftBack(i, z);
    }

    /** Close the hole at `start` by pulling later entries of the run back into it. z is any empty slot:
        the scan ends there at the latest. */
    method ShiftBack(start: nat, ghost z: nat)
      requires start < entries.Length && z < entries.Length && entries[start].key != 0 && entries[z].key == 0
      requires IsHash(home, entries.Length) && Table(entries[..], home, start, m)
      modifies entries
      ensures Table(entries[..], home, -1, m)
    {
      hide Dist, Table, Scanned;
      var n := entries.Length;
      var i: nat := start;
      var j: nat := Succ(n, i);
      StartScan(entries[..], home, i, z);
      while entries[j].key != 0
        invariant i < n && j < n && i != j && i != z && Table(entries[..], home, i, m)
        invariant entries[i].key != 0 && entries[z].key == 0 && Scanned(entries[..], home, i, j)
        invariant Dist(n, i, j) <= Dist(n, i, z)
        decreases Dist(n, j, z)
      {
        var h := home(entries[j].key);
        var stays := if i <= j then i < h && h <= j else i < h || h <= j;
        StaysMeans(n, i, h, j);
        ScanOne(n, i, j, z);
        ghost var es := entries[..];
        if !stays {
          MoveBack(es, home, m, i, j);
          entries[i] := entries[j];
          assert entries[..] == es[i := es[j]];
          i := j;
          StartScan(entries[..], home, i, z);
        } else {
          KeepScanning(es, home, i, j, z);
        }
        j := Succ(n, j);
      }
      ghost var es := entries[..];
      Cleared(es, home, m, i, j, EMPTY);
      entries[i] := EMPTY;
      assert entries[..] == es[i := EMPTY];
    }
  }
}
