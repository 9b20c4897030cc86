/** Linear probing as both of the library's tables do it (flow_table in src/tcp_stack.cpp,
    neighbor_table in src/arp.cpp): when a sequence of slots stands for a finite map, and which
    updates keep it so. Key 0 marks an empty slot; the hash is any function into the table. */
module Probing {
  import opened SeqArith

  datatype Entry<V> = Entry(key: u64, value: V)

  /** Steps forward from a to b around a table of n entries. */
  function Dist(n: nat, a: int, b: int): int { if a <= b then b - a else b - a + n }

  function Succ(n: nat, i: nat): nat { if i + 1 == n then 0 else i + 1 }

  predicate IsHash(home: u64 -> nat, n: nat) { forall k {:trigger home(k)} :: home(k) < n }

  /** Every entry but the one at `hole` is reachable from its home without meeting an empty slot. */
  ghost predicate Probed<V>(es: seq<Entry<V>>, home: u64 -> nat, hole: int) {
    forall p, q | 0 <= p < |es| && 0 <= q < |es| && p != hole && es[p].key != 0 ::
      Dist(|es|, home(es[p].key), q) < Dist(|es|, home(es[p].key), p) ==> es[q].key != 0
  }

  ghost predicate Distinct<V>(es: seq<Entry<V>>, hole: int) {
    forall p, q | 0 <= p < |es| && 0 <= q < |es| && p != hole && q != hole && es[p].key != 0 ::
      es[p].key == es[q].key ==> p == q
  }

  /** The entries other than the one at `hole` are exactly the pairs of m. */
  ghost predicate Holds<V>(es: seq<Entry<V>>, hole: int, m: map<u64, V>) {
    && (forall p | 0 <= p < |es| && p != hole && es[p].key != 0 ::
          es[p].key in m && m[es[p].key] == es[p].value)
    && (forall k | k in m :: exists p :: 0 <= p < |es| && p != hole && es[p].key == k)
    && 0 !in m
  }

  ghost predicate Table<V>(es: seq<Entry<V>>, home: u64 -> nat, hole: int, m: map<u64, V>) {
    Probed(es, home, hole) && Distinct(es, hole) && Holds(es, hole, m)
  }

  /** A table without an empty slot holds as many keys as it has slots. */
  lemma {:induction false} FullCount<V>(es: seq<Entry<V>>, t: nat)
    requires t <= |es| && Distinct(es, -1) && forall p | 0 <= p < |es| :: es[p].key != 0
    ensures |set p | 0 <= p < t :: es[p].key| == t
  {
    if t > 0 {
      FullCount(es, t - 1);
      var front := set p | 0 <= p < t - 1 :: es[p].key;
      assert (set p | 0 <= p < t :: es[p].key) == front + {es[t - 1].key};
    }
  }

  lemma FullHolds<V>(es: seq<Entry<V>>, m: map<u64, V>)
    requires Distinct(es, -1) && Holds(es, -1, m) && forall p | 0 <= p < |es| :: es[p].key != 0
    ensures |es| <= |m|
  {
    FullCount(es, |es|);
    Subset(set p | 0 <= p < |es| :: es[p].key, m.Keys);
    assert |m.Keys| == |m|;
  }

  lemma EmptySlot<V>(es: seq<Entry<V>>, home: u64 -> nat, m: map<u64, V>)
    requires Table(es, home, -1, m) && |m| < |es|
    ensures exists z :: 0 <= z < |es| && es[z].key == 0
  {
    if forall p | 0 <= p < |es| :: es[p].key != 0 {
      FullHolds(es, m);
    }
  }

  lemma Subset<T>(a: set<T>, b: set<T>)
    requires a <= b
    ensures |a| <= |b|
  {
    assert b == a + (b - a);
  }

  lemma Nearest(n: nat, h: nat, z: nat)
    requires h < n && z < n
    ensures 0 == Dist(n, h, h) <= Dist(n, h, z) < n
    ensures forall q | 0 <= q < n :: 0 <= Dist(n, h, q)
  {
  }

  /** The slots from h up to but not including i hold other keys than k. */
  ghost predicate Passed<V>(es: seq<Entry<V>>, h: nat, i: nat, k: u64) {
    forall q | 0 <= q < |es| && Dist(|es|, h, q) < Dist(|es|, h, i) ::
      es[q].key != 0 && es[q].key != k
  }

  lemma PassOne<V>(es: seq<Entry<V>>, h: nat, i: nat, k: u64, z: nat)
    requires h < |es| && i < |es| && z < |es| && Passed(es, h, i, k) && es[i].key != 0 && es[i].key != k
    requires es[z].key == 0 && Dist(|es|, h, i) <= Dist(|es|, h, z)
    ensures var i' := Succ(|es|, i);
      && i' < |es| && Passed(es, h, i', k)
      && Dist(|es|, h, i) < Dist(|es|, h, i') <= Dist(|es|, h, z)
  {
  }

  /** A key is found before the first empty slot from its home. */
  lemma BeforeEmpty<V>(es: seq<Entry<V>>, home: u64 -> nat, k: u64, i: nat)
    requires Probed(es, home, -1) && i < |es| && es[i].key == 0 && k != 0 && home(k) < |es|
    ensures forall p | 0 <= p < |es| && es[p].key == k ::
      Dist(|es|, home(k), p) < Dist(|es|, home(k), i)
  {
  }

  /** Walk from k's home to k or to the first empty slot; one is always left. */
  method Probe<V>(entries: array<Entry<V>>, home: u64 -> nat, ghost m: map<u64, V>, k: u64)
    returns (i: nat)
    requires k != 0 && IsHash(home, entries.Length)
    requires Table(entries[..], home, -1, m) && |m| < entries.Length
    ensures i < entries.Length && Passed(entries[..], home(k), i, k)
    ensures entries[i].key == if k in m then k else 0
  {
    hide Dist;
    var n := entries.Length;
    EmptySlot(entries[..], home, m);
    ghost var z :| 0 <= z < n && entries[..][z].key == 0;
    i := home(k);
    Nearest(n, home(k), z);
    while entries[i].key != k && entries[i].key != 0
      invariant i < n && Dist(n, home(k), i) <= Dist(n, home(k), z)
      invariant Passed(entries[..], home(k), i, k)
      decreases Dist(n, home(k), z) - Dist(n, home(k), i)
    {
      PassOne(entries[..], home(k), i, k, z);
      i := Succ(n, i);
    }
    if entries[i].key == 0 {
      BeforeEmpty(entries[..], home, k, i);
    }
  }

  /** The entries strictly between the hole and j are reached without crossing the hole. */
  ghost predicate Scanned<V>(es: seq<Entry<V>>, home: u64 -> nat, hole: int, j: int) {
    forall p | 0 <= p < |es| && p != hole && es[p].key != 0 && Dist(|es|, hole, p) < Dist(|es|, hole, j) ::
      Dist(|es|, home(es[p].key), p) <= Dist(|es|, home(es[p].key), hole)
  }

  /** The source's `stays` test: the home lies cyclically after the hole, up to j. */
  lemma StaysMeans(n: nat, i: nat, h: nat, j: nat)
    requires i < n && h < n && j < n && i != j
    ensures (if i <= j then i < h && h <= j else i < h || h <= j) <==> Dist(n, h, j) < Dist(n, i, j)
  {
  }

  /** Forgetting a key leaves its slot as the hole. */
  lemma Unhook<V>(es: seq<Entry<V>>, home: u64 -> nat, m: map<u64, V>, i: nat, k: u64)
    requires Table(es, home, -1, m) && i < |es| && es[i].key == k && k != 0
    ensures Table(es, home, i, m - {k})
  {
  }

  lemma StartScan<V>(es: seq<Entry<V>>, home: u64 -> nat, i: nat, z: nat)
    requires i < |es| && z < |es| && i != z
    ensures var j := Succ(|es|, i);
      j < |es| && j != i && Scanned(es, home, i, j) && Dist(|es|, i, j) <= Dist(|es|, i, z)
  {
  }

  lemma ScanOne(n: nat, i: nat, j: nat, z: nat)
    requires i < n && j < n && z < n && i != j && j != z && Dist(n, i, j) <= Dist(n, i, z)
    ensures 0 <= Dist(n, Succ(n, j), z) < Dist(n, j, z)
  {
  }

  lemma KeepScanning<V>(es: seq<Entry<V>>, home: u64 -> nat, i: nat, j: nat, z: nat)
    requires i < |es| && j < |es| && z < |es| && i != j && j != z && es[j].key != 0
    requires IsHash(home, |es|) && Scanned(es, home, i, j) && Dist(|es|, i, j) <= Dist(|es|, i, z)
    requires Dist(|es|, home(es[j].key), j) < Dist(|es|, i, j)
    ensures var j' := Succ(|es|, j);
      j' < |es| && j' != i && Scanned(es, home, i, j') && Dist(|es|, i, j') <= Dist(|es|, i, z)
  {
  }

  /** Pulling an entry back into the hole: its new place is still on its own probe path, so the
      table is kept with the hole where the entry was. */
  lemma MoveBack<V>(es: seq<Entry<V>>, home: u64 -> nat, m: map<u64, V>, i: nat, j: nat)
    requires Table(es, home, i, m) && IsHash(home, |es|) && i < |es| && j < |es| && i != j
    requires es[i].key != 0 && es[j].key != 0
    requires Dist(|es|, home(es[j].key), j) >= Dist(|es|, i, j)
    ensures Table(es[i := es[j]], home, j, m)
  {
    hide Dist, Probed, Distinct, Holds;
    MoveProbed(es, home, i, j);
    MoveHolds(es, m, i, j);
  }

  lemma MoveProbed<V>(es: seq<Entry<V>>, home: u64 -> nat, i: nat, j: nat)
    requires Probed(es, home, i) && IsHash(home, |es|) && i < |es| && j < |es| && i != j
    requires es[i].key != 0 && es[j].key != 0
    requires Dist(|es|, home(es[j].key), j) >= Dist(|es|, i, j)
    ensures Probed(es[i := es[j]], home, j)
  {
    var es' := es[i := es[j]];
    forall p, q | 0 <= p < |es'| && 0 <= q < |es'| && p != j && es'[p].key != 0
                  && Dist(|es|, home(es'[p].key), q) < Dist(|es|, home(es'[p].key), p)
      ensures es'[q].key != 0
    {
      if p == i {
        Nearer(|es|, home(es[j].key), i, j);
        assert Dist(|es|, home(es[j].key), q) < Dist(|es|, home(es[j].key), j);
      }
    }
  }

  /** A slot between the home and j is nearer to the home than j. */
  lemma Nearer(n: nat, h: nat, i: nat, j: nat)
    requires h < n && i < n && j < n && i != j && Dist(n, h, j) >= Dist(n, i, j)
    ensures Dist(n, h, i) < Dist(n, h, j)
  {
  }

  lemma MoveHolds<V>(es: seq<Entry<V>>, m: map<u64, V>, i: nat, j: nat)
    requires Distinct(es, i) && Holds(es, i, m) && i < |es| && j < |es| && i != j && es[j].key != 0
    ensures Distinct(es[i := es[j]], j) && Holds(es[i := es[j]], j, m)
  {
    var es' := es[i := es[j]];
    forall k | k in m
      ensures exists p :: 0 <= p < |es'| && p != j && es'[p].key == k
    {
      var p :| 0 <= p < |es| && p != i && es[p].key == k;
      assert es'[if p == j then i else p].key == k;
    }
  }

  /** Past an empty slot no probe path can have crossed the hole. */
  lemma NoneCross<V>(es: seq<Entry<V>>, home: u64 -> nat, i: nat, j: nat)
    requires Probed(es, home, i) && IsHash(home, |es|) && i < |es| && j < |es| && i != j
    requires es[j].key == 0 && Scanned(es, home, i, j)
    ensures forall p | 0 <= p < |es| && p != i && es[p].key != 0 ::
      Dist(|es|, home(es[p].key), p) <= Dist(|es|, home(es[p].key), i)
  {
    forall p | 0 <= p < |es| && p != i && es[p].key != 0
      ensures Dist(|es|, home(es[p].key), p) <= Dist(|es|, home(es[p].key), i)
    {
      if Dist(|es|, i, p) >= Dist(|es|, i, j) {
        assert Dist(|es|, home(es[p].key), p) <= Dist(|es|, home(es[p].key), j);
      }
    }
  }

  /** So emptying the hole keeps the table. */
  lemma Cleared<V>(es: seq<Entry<V>>, home: u64 -> nat, m: map<u64, V>, i: nat, j: nat,
                   empty: Entry<V>)
    requires Table(es, home, i, m) && IsHash(home, |es|) && i < |es| && j < |es| && i != j
    requires es[j].key == 0 && empty.key == 0 && Scanned(es, home, i, j)
    ensures Table(es[i := empty], home, -1, m)
  {
    hide Dist;
    NoneCross(es, home, i, j);
    var es' := es[i := empty];
    forall k | k in m
      ensures exists p :: 0 <= p < |es'| && p != -1 && es'[p].key == k
    {
      var p :| 0 <= p < |es| && p != i && es[p].key == k;
      assert es'[p].key == k;
    }
  }

  /** Storing a key where its probe ended keeps the table. */
  lemma Stored<V>(es: seq<Entry<V>>, home: u64 -> nat, m: map<u64, V>, i: nat, k: u64, value: V)
    requires Table(es, home, -1, m) && i < |es| && k != 0
    requires es[i].key == (if k in m then k else 0) && Passed(es, home(k), i, k)
    ensures Table(es[i := Entry(k, value)], home, -1, m[k := value])
  {
    var es', m' := es[i := Entry(k, value)], m[k := value];
    forall k' | k' in m'
      ensures exists p :: 0 <= p < |es'| && p != -1 && es'[p].key == k'
    {
      if k' == k {
        assert es'[i].key == k';
      } else {
        var p :| 0 <= p < |es| && p != -1 && es[p].key == k';
        assert es'[p].key == k';
      }
    }
  }
}
