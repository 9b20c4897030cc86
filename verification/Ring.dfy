/** The single-producer/single-consumer ring of examples/tcp_echo_server.h. Each method is one
    thread's step between two atomic accesses of the shared counters; a method requires of the ring
    only Valid(), which every step of either thread keeps, and its own thread's progress, which the
    other thread's steps leave alone. So the contracts hold in every interleaving. */
module Rings {
  /** The counters are machine words and wrap around. */
  const WORD: int := 0x1_0000_0000_0000_0000
  type Counter = x: int | 0 <= x < 0x1_0000_0000_0000_0000

  function Pow2(k: nat): (p: nat)
    ensures p > 0
  {
    if k == 0 then 1 else 2 * Pow2(k - 1)
  }

  lemma {:induction false} Pow2Splits(k: nat, j: nat)
    ensures Pow2(k + j) == Pow2(k) * Pow2(j)
  {
    if j > 0 {
      Pow2Splits(k, j - 1);
    }
  }

  /** Slot numbers survive the wrap of the counter exactly for capacities that divide its range. */
  predicate SurvivesWrap(capacity: nat)
    requires capacity > 0
  {
    WORD % capacity == 0
  }

  lemma IndexUnwrapped(p: nat, capacity: nat)
    requires capacity > 0 && SurvivesWrap(capacity)
    ensures (p % WORD) % capacity == p % capacity
  {
    var q, w := p / WORD, WORD / capacity;
    assert p == q * w * capacity + p % WORD;
    ModPlus(p % WORD, q * w, capacity);
  }

  lemma ModPlus(x: int, q: int, n: nat)
    requires n > 0
    ensures (q * n + x) % n == x % n
  {
    var y := q * n + x;
    var k := q + x / n - y / n;
    assert k * n == y % n - x % n by {
      Distribute(q, x / n, y / n, n);
    }
    NoMultipleBetween(k, n);
  }

  lemma Distribute(a: int, b: int, c: int, n: int)
    ensures (a + b - c) * n == a * n + b * n - c * n
  {
  }

  lemma NoMultipleBetween(k: int, n: int)
    requires 0 < n && 0 - n < k * n < n
    ensures k == 0
  {
    MultipleAtLeast(k, n);
    MultipleAtLeast(-k, n);
  }

  lemma MultipleAtLeast(k: int, n: int)
    requires 0 < n
    ensures k >= 1 ==> k * n >= n
  {
  }

  /** For any other capacity the slot after the wrap is not the next one. */
  lemma IndexBrokenByWrap(capacity: nat)
    requires capacity > 0 && !SurvivesWrap(capacity)
    ensures (WORD % WORD) % capacity != WORD % capacity
  {
  }

  lemma WordIsPow2()
    ensures Pow2(64) == WORD
  {
    assert Pow2(4) == 16;
    Pow2Splits(4, 4);
    Pow2Splits(8, 8);
    Pow2Splits(16, 16);
    Pow2Splits(32, 32);
  }

  lemma Divides(w: int, m: int, p: nat)
    requires p > 0 && w == m * p
    ensures w % p == 0
  {
    ModPlus(0, m, p);
  }

  lemma {:induction false} Pow2Less(k: nat, j: nat)
    requires k < j
    ensures Pow2(k) < Pow2(j)
  {
    if k + 1 < j {
      Pow2Less(k, j - 1);
    }
  }

  /** A capacity of 2^k, k < 64, survives the wrap. */
  lemma PowersSurvive(k: nat)
    requires k < 64
    ensures SurvivesWrap(Pow2(k)) && Pow2(k) < WORD
  {
    hide Pow2;
    WordIsPow2();
    Pow2Splits(64 - k, k);
    Divides(WORD, Pow2(64 - k), Pow2(k));
    Pow2Less(k, 64);
  }

  datatype Maybe = NoSlot | Slot(index: nat)

  class SpscRing<T(0)> {
    const items: array<T>
    var head: Counter
    var tail: Counter
    ghost var pushed: seq<T>     // everything ever committed
    ghost var popped: nat        // how many of those have been popped
    ghost var reserved: bool     // the producer has a slot to fill
    ghost var filled: seq<T>     // what it has put there, once it has
    var holding: bool            // the consumer is reading the front
    ghost var fulls: nat         // how often reserve found the ring full

    ghost predicate Valid()
      reads this, items
    {
      && 0 < items.Length < WORD && SurvivesWrap(items.Length)
      && head == |pushed| % WORD && tail == popped % WORD
      && popped <= |pushed| <= popped + items.Length
      && (forall i | popped <= i < |pushed| :: items[i % items.Length] == pushed[i])
      && (reserved ==> |pushed| < popped + items.Length)
      && (filled != [] ==> reserved && filled == [items[|pushed| % items.Length]])
      && (holding ==> popped < |pushed|)
    }

    /** The items in the ring, oldest first. */
    ghost function Contents(): seq<T>
      requires Valid()
      reads this, items
    {
      pushed[popped..]
    }

    constructor(k: nat)
      requires k < 64
      ensures Valid() && pushed == [] && popped == 0 && !reserved && filled == [] && !holding
      ensures fresh(items) && items.Length == Pow2(k)
    {
      items := new T[Pow2(k)];
      head, tail := 0, 0;
      pushed, popped, reserved, filled, holding, fulls := [], 0, false, [], false, 0;
      PowersSurvive(k);
    }

    // --- Producer.

    /** Our own head against one load of tail: a slot unless the ring was full at that load. */
    method Reserve() returns (slot: Maybe)
      requires Valid() && filled == []
      modifies this`reserved, this`fulls
      ensures Valid() && reserved == slot.Slot?
      ensures fulls == old(fulls) + (if slot.NoSlot? then 1 else 0)
      ensures slot.NoSlot? <==> |Contents()| == items.Length
      ensures slot.Slot? ==> slot.index == |pushed| % items.Length
    {
      IndexUnwrapped(|pushed|, items.Length);
      CounterDistance(|pushed|, popped);
      if (head - tail) % WORD == items.Length {
        slot := NoSlot;
        fulls := fulls + 1;
      } else {
        slot := Slot(head % items.Length);
      }
      reserved := slot.Slot?;
    }

    /** Write the reserved slot: never one the consumer has yet to read. */
    method Fill(slot: nat, x: T)
      requires Valid() && reserved && slot == |pushed| % items.Length
      modifies this`filled, items
      ensures Valid() && filled == [x]
      ensures forall i | popped <= i < |pushed| :: items[i % items.Length] == old(items[i % items.Length])
    {
      forall i | popped <= i < |pushed|
        ensures i % items.Length != slot
      {
        DistinctSlots(i, |pushed|, items.Length);
      }
      items[slot] := x;
      filled := [x];
    }

    method Commit()
      requires Valid() && filled != []
      modifies this`head, this`pushed, this`reserved, this`filled
      ensures Valid() && pushed == old(pushed) + old(filled) && filled == [] && !reserved
    {
      CounterNext(|pushed|);
      head := (head + 1) % WORD;
      pushed, filled, reserved := pushed + filled, [], false;
    }

    // --- Consumer.

    /** The slot of the oldest item, unless the ring was empty at the load of head. */
    method Front() returns (slot: Maybe)
      requires Valid()
      modifies this`holding
      ensures Valid() && holding == slot.Slot?
      ensures slot.NoSlot? <==> Contents() == []
      ensures slot.Slot? ==> slot.index < items.Length && items[slot.index] == pushed[popped]
    {
      IndexUnwrapped(popped, items.Length);
      CounterDistance(|pushed|, popped);
      slot := if tail == head then NoSlot else Slot(tail % items.Length);
      holding := slot.Slot?;
    }

    method Pop()
      requires Valid() && holding
      modifies this`tail, this`popped, this`holding
      ensures Valid() && popped == old(popped) + 1 && !holding
    {
      CounterNext(popped);
      tail := (tail + 1) % WORD;
      popped, holding := popped + 1, false;
    }

    /** Any number of consumer steps, from wherever it stands to wherever it gets. */
    method ConsumerRuns()
      requires Valid()
      modifies this`tail, this`popped, this`holding
      ensures Valid() && old(popped) <= popped
    {
      var steps: nat := *;
      while steps > 0
        invariant Valid() && old(popped) <= popped
      {
        if holding {
          Pop();
        } else {
          var slot := Front();
        }
        steps := steps - 1;
      }
    }
  }

  lemma CounterDistance(a: nat, b: nat)
    requires b <= a < b + WORD
    ensures (a % WORD - b % WORD) % WORD == a - b
    ensures a % WORD == b % WORD <==> a == b
  {
  }

  lemma CounterNext(a: nat)
    ensures (a % WORD + 1) % WORD == (a + 1) % WORD
  {
  }

  lemma DistinctSlots(i: nat, j: nat, n: nat)
    requires 0 < n && i < j < i + n
    ensures i % n != j % n
  {
    if i % n == j % n {
      var k := j / n - i / n;
      assert k * n == j - i by {
        Distribute(j / n, 0, i / n, n);
      }
      NoMultipleBetween(k, n);
    }
  }
}
