/** The echo server over whole runs. */
module EchoRuns {
  import opened SeqArith
  import opened Connection
  import opened Lifecycle
  import opened Generations
  import opened EchoServer
  import opened EchoModel
  import opened EchoClose
  import opened EchoBytes

  lemma {:induction false} RunInv(s: World, acts: seq<Action>)
    requires QueueInv(s) && CloseInv(s) && BytesInv(s) && Run(s, acts)
    ensures var r := After(s, acts); QueueInv(r) && CloseInv(r) && BytesInv(r)
    decreases |acts|
  {
    hide QueueInv, CloseInv, BytesInv, Step, Enabled;
    if acts != [] {
      QueueStep(s, acts[0]);
      CloseStep(s, acts[0]);
      BytesStep(s, acts[0]);
      RunInv(Step(s, acts[0]), acts[1..]);
    }
  }

  lemma StartInv(n: nat)
    ensures QueueInv(Start(n)) && CloseInv(Start(n)) && BytesInv(Start(n))
  {
    forall inc: Inc
      ensures DataOf(Start(n).items, inc) == [] && SentOk(Start(n)) && Reached(Start(n), inc) == []
    {
      assert Start(n).items[..0] == [];
    }
  }

  /** The incarnation has released its slot, to a later one perhaps. */
  predicate GaveUp(s: World, c: Inc) {
    && c.slot < |s.slots|
    && (c.n < s.slots[c.slot].n || (c.n == s.slots[c.slot].n && s.slots[c.slot].released))
  }

  /** Every run of the server: the bytes the NIC took for a connection are a prefix of the bytes
      delivered for it, and all that was got through while it is sendable; close() was called at most
      once for each connection, and each call released that connection's own slot; and of the
      connections whose peer_closed or reset item was processed, it was called for exactly those that
      do not share their generation with the one accepted before them on the slot. */
  lemma EchoSafe(n: nat, acts: seq<Action>)
    requires Run(Start(n), acts)
    ensures var s := After(Start(n), acts);
      && SentOk(s)
      && (forall inc :: Get(s.taken, inc) <= Get(s.delivered, inc))
      && (forall inc :: Dead(s, inc) || Get(s.taken, inc) == Reached(s, inc))
      && (forall i, j | 0 <= i < j < |s.calls| :: s.calls[i] != s.calls[j])
      && (forall c | c in s.calls :: GaveUp(s, c))
      && (forall i | 0 <= i < s.popped :: s.items[i].Closing() ==>
            (s.items[i].inc in s.calls <==> !s.items[i].Aliased()))
  {
    hide QueueInv, CloseInv, Reached, DataOf, SentOk, Dead;
    StartInv(n);
    RunInv(Start(n), acts);
    var s := After(Start(n), acts);
    CloseFacts(s);
    forall inc
      ensures Get(s.taken, inc) <= Get(s.delivered, inc)
    {
      Prefix(s, inc);
    }
  }

  lemma CloseFacts(s: World)
    requires QueueInv(s) && CloseInv(s)
    ensures forall i, j | 0 <= i < j < |s.calls| :: s.calls[i] != s.calls[j]
    ensures forall c | c in s.calls :: GaveUp(s, c)
    ensures s.popped <= |s.items|
    ensures forall i | 0 <= i < s.popped :: s.items[i].Closing() ==>
      (s.items[i].inc in s.calls <==> !s.items[i].Aliased())
  {
    hide ItemsInv, Waits, Item.Aliased, GenOf;
    forall c | c in s.calls
      ensures GaveUp(s, c)
    {
      assert SlotOk(s.slots[c.slot]);
    }
  }

  /** So in a run close() was called for every processed peer_closed and reset item if and only if no
      such item is of an incarnation a whole number of generation cycles after the one before it. */
  lemma ClosedIff(n: nat, acts: seq<Action>)
    requires Run(Start(n), acts)
    ensures var s := After(Start(n), acts);
      && s.popped <= |s.items|
      && ((forall i | 0 <= i < s.popped && s.items[i].Closing() :: s.items[i].inc in s.calls) <==>
          (forall i | 0 <= i < s.popped && s.items[i].Closing() ::
             s.items[i].prev == 0 || (s.items[i].inc.n - s.items[i].prev) % CYCLE != 0))
  {
    hide GenOf, QueueInv, CloseInv, BytesInv, ItemOk;
    EchoSafe(n, acts);
    StartInv(n);
    RunInv(Start(n), acts);
    var s := After(Start(n), acts);
    CloseFacts(s);
    forall i | 0 <= i < s.popped && s.items[i].Closing()
      ensures s.items[i].Aliased() <==>
        s.items[i].prev > 0 && (s.items[i].inc.n - s.items[i].prev) % CYCLE == 0
    {
      PrevBefore(s, i);
      if s.items[i].prev > 0 {
        SameGeneration(s.items[i].prev, s.items[i].inc.n);
      }
    }
  }

  lemma PrevBefore(s: World, i: nat)
    requires QueueInv(s) && i < |s.items|
    ensures s.items[i].prev < s.items[i].inc.n
  {
    assert ItemOk(s, s.items[i]);
  }

  // --- A run in which a close() is skipped.

  lemma {:induction false} RunConcat(s: World, a: seq<Action>, b: seq<Action>)
    requires Run(s, a) && Run(After(s, a), b)
    ensures Run(s, a + b) && After(s, a + b) == After(After(s, a), b)
    decreases |a|
  {
    hide Step, Enabled;
    if a == [] {
      assert a + b == b;
    } else {
      assert (a + b)[0] == a[0] && (a + b)[1..] == a[1..] + b;
      RunConcat(Step(s, a[0]), a[1..], b);
    }
  }

  lemma RunOne(s: World, a: Action)
    requires Enabled(s, a)
    ensures Run(s, [a]) && After(s, [a]) == Step(s, a)
  {
    hide Step, Enabled;
    assert [a][1..] == [];
  }

  /** A single slot, every item processed. */
  predicate Drained(s: World) {
    && |s.slots| == |s.releasedGen| == 1 && s.popped == s.pushed == |s.items|
  }

  /** k refused handshakes in a row. */
  lemma {:induction false} Refusals(s: World, k: nat) returns (acts: seq<Action>)
    requires Drained(s) && Enabled(s, Reopen(0))
    ensures Run(s, acts) && (k == 0 ==> acts == [])
    ensures k > 0 ==> After(s, acts) == s.(slots := [Reopened(s.slots[0]).(n := s.slots[0].n + k)])
    decreases k
  {
    acts := [];
    if k > 0 {
      var s1 := Step(s, Reopen(0));
      assert s1.slots == [Reopened(s.slots[0])];
      RunOne(s, Reopen(0));
      var rest := Refusals(s1, k - 1);
      RunConcat(s, [Reopen(0)], rest);
      acts := [Reopen(0)] + rest;
    }
  }

  /** The item of a connection accepted on slot 0 and reset at once. */
  function ResetOf(i: SlotInfo): Item {
    Item(WorkItem(ResetItem, Inc(0, i.n).Id(), []), Inc(0, i.n), i.last)
  }

  /** The events of such a connection, up to its item being pushed. */
  lemma ResetArrives(s: World) returns (acts: seq<Action>)
    requires Drained(s) && s.slots[0].phase == NotYet && s.slots[0].n > 0
    ensures Run(s, acts)
    ensures var i := s.slots[0];
      After(s, acts) == s.(
        slots := [i.(phase := Over, prev := i.last, last := i.n, terminated := true)],
        items := s.items + [ResetOf(i)], pushed := s.pushed + 1)
  {
    hide GenOf;
    var i := s.slots[0];
    var s1 := Step(s, Deliver(0, Accepted));
    assert s1 == s.(slots := [i.(phase := Open, prev := i.last, last := i.n)]);
    var s2 := Step(s1, Terminate(0));
    assert s2 == s.(slots := [i.(phase := Open, prev := i.last, last := i.n, terminated := true)]);
    var s3 := Step(s2, Deliver(0, Reset));
    assert TagItems(ItemsOf(Inc(0, i.n).Id(), Reset), Inc(0, i.n), i.last) == [ResetOf(i)];
    assert s3 == s.(slots := [i.(phase := Over, prev := i.last, last := i.n, terminated := true)],
                    items := s.items + [ResetOf(i)]);
    RunOne(s, Deliver(0, Accepted));
    RunOne(s1, Terminate(0));
    RunOne(s2, Deliver(0, Reset));
    RunOne(s3, Push);
    RunConcat(s2, [Deliver(0, Reset)], [Push]);
    RunConcat(s1, [Terminate(0)], [Deliver(0, Reset)] + [Push]);
    RunConcat(s, [Deliver(0, Accepted)], [Terminate(0)] + ([Deliver(0, Reset)] + [Push]));
    acts := [Deliver(0, Accepted)] + ([Terminate(0)] + ([Deliver(0, Reset)] + [Push]));
  }

  /** Such a connection from its first event to the end of its item. */
  lemma ShortLife(s: World) returns (acts: seq<Action>)
    requires Drained(s) && s.slots[0].phase == NotYet && s.slots[0].n > 0 && !s.slots[0].released
    ensures Run(s, acts)
    ensures var i, r := s.slots[0], After(s, acts);
      && Drained(r) && r.slots[0].phase == Over && r.slots[0].n == r.slots[0].last == i.n
      && r.items == s.items + [ResetOf(i)] && r.releasedGen == [GenOf(i.n)]
      && (if s.releasedGen[0] == GenOf(i.n) then r.calls == s.calls
          else r.calls == s.calls + [Inc(0, i.n)] && r.slots[0].released)
  {
    hide GenOf;
    var first := ResetArrives(s);
    var s1 := After(s, first);
    assert s1.HasFront() && s1.Front() == ResetOf(s.slots[0]);
    RunOne(s1, CloseItem);
    RunConcat(s, first, [CloseItem]);
    acts := first + [CloseItem];
  }

  /** One connection, closed; then 2^32 - 1 openings of the slot, all but the last refused; then a
      second connection: it is never closed, though its reset was processed. */
  lemma CloseSkipped() returns (acts: seq<Action>)
    ensures Run(Start(1), acts)
    ensures var s := After(Start(1), acts);
      && s.popped == |s.items| == 2 && s.items[1].Closing()
      && s.items[1].inc == Inc(0, 1 + CYCLE) && s.calls == [Inc(0, 1)]
  {
    hide GenOf;
    var s0 := Start(1);
    var a := Refusals(s0, 1);
    var s1 := After(s0, a);
    var b := ShortLife(s1);
    var s2 := After(s1, b);
    FirstGenerations();
    var c := Refusals(s2, CYCLE);
    var s3 := After(s2, c);
    var d := ShortLife(s3);
    RunConcat(s2, c, d);
    RunConcat(s1, b, c + d);
    RunConcat(s0, a, b + (c + d));
    acts := a + (b + (c + d));
  }

  lemma FirstGenerations()
    ensures GenOf(0) == 0 && GenOf(1) == GenOf(1 + CYCLE) == 1
  {
  }
}
