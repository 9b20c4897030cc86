/** The echo server end to end, as a transition system over every interleaving of its two threads. The
    hand-off is the ring-and-overflow queue: items enqueued, pushed and popped, in that order. The
    receiver re-opens a slot once its handshake was refused, or once its connection is over and
    close() has released it. What sendable(), send() and close() find is computed from the slot's
    generation and flags at that moment, and bytes go to whichever incarnation then has the slot. */
module EchoModel {
  import opened SeqArith
  import opened Connection
  import opened Lifecycle
  import opened Generations
  import opened EchoServer

  /** One incarnation of a slot. */
  datatype Inc = Inc(slot: nat, n: nat) {
    function Id(): ConnId { ConnId(slot, GenOf(n)) }
  }

  /** A work item. It names only a slot and a generation; for reference it is kept with the
      incarnation whose event it came from, and the one accepted on the slot before that (0: none). */
  datatype Item = Item(work: WorkItem, inc: Inc, prev: nat) {
    predicate IsData() { work.what.DataItem? }
    predicate Closing() { !work.what.DataItem? }

    /** The two incarnations have the same generation. */
    predicate Aliased() { prev > 0 && GenOf(prev) == GenOf(inc.n) }
  }

  /** A slot: its incarnation and how far that one's events have got; the last two incarnations
      accepted and the last one closed; and the shared flags. */
  datatype SlotInfo = SlotInfo(
    n: nat, phase: Lifecycle.Phase, prev: nat, last: nat, lastClosed: nat,
    terminated: bool, finSent: bool, released: bool)

  /** What sendable() last said of the front item, if it was asked. */
  datatype Look = NotAsked | Yes | No

  datatype World = World(
    slots: seq<SlotInfo>, items: seq<Item>, pushed: nat, popped: nat,
    sent: nat, look: Look,                      // the front item: bytes accepted, and sendable()
    releasedGen: seq<u32>,                      // released_gen_
    calls: seq<Inc>,                            // calls of tx_.close
    delivered: map<Inc, seq<u8>>, taken: map<Inc, seq<u8>>)
  {
    predicate HasFront() { popped < pushed <= |items| }
    function Front(): Item
      requires HasFront()
    {
      items[popped]
    }
    predicate FrontIsData() { HasFront() && Front().IsData() }
  }

  /** lookup(conn), its loads taken at one instant. */
  predicate Finds(s: World, conn: ConnId) {
    && conn.slot < |s.slots|
    && GenOf(s.slots[conn.slot].n) == conn.generation && !s.slots[conn.slot].released
  }

  predicate Sendable(s: World, conn: ConnId) {
    Finds(s, conn) && !s.slots[conn.slot].finSent && !s.slots[conn.slot].terminated
  }

  datatype Action =
    // the receiver and handle()
    | Reopen(slot: nat) | Terminate(slot: nat) | Deliver(slot: nat, ev: Event) | Push
    // the outbound thread
    | Check | SendSome(k: nat) | FinishData | CloseItem

  predicate Enabled(s: World, a: Action) {
    match a
    case Reopen(slot) =>
      && slot < |s.slots|
      && (s.slots[slot].phase == NotYet || (s.slots[slot].phase == Over && s.slots[slot].released))
    case Terminate(slot) =>
      slot < |s.slots| && (s.slots[slot].phase == Open || s.slots[slot].phase == HalfClosed)
    case Deliver(slot, ev) =>
      && slot < |s.slots| && s.slots[slot].n > 0
      && Advance(s.slots[slot].phase, ev) != Broken && (Terminal(ev) ==> s.slots[slot].terminated)
    case Push => s.pushed < |s.items|
    case Check => s.FrontIsData() && s.look == NotAsked
    case SendSome(k) =>
      && s.FrontIsData() && s.look == Yes && s.sent + k <= |s.Front().work.bytes|
      && s.Front().work.conn.slot < |s.slots|
    case FinishData => s.FrontIsData() && (s.sent == |s.Front().work.bytes| || s.look == No)
    case CloseItem =>
      s.HasFront() && s.Front().Closing() && s.Front().work.conn.slot < |s.slots| == |s.releasedGen|
  }

  function Get(m: map<Inc, seq<u8>>, inc: Inc): seq<u8> { if inc in m then m[inc] else [] }

  function TagItems(items: seq<WorkItem>, inc: Inc, prev: nat): (r: seq<Item>)
    ensures |r| == |items|
  {
    seq(|items|, i requires 0 <= i < |items| => Item(items[i], inc, prev))
  }

  function Step(s: World, a: Action): World
    requires Enabled(s, a)
  {
    match a
    case Reopen(slot) => s.(slots := s.slots[slot := Reopened(s.slots[slot])])
    case Terminate(slot) => s.(slots := s.slots[slot := s.slots[slot].(terminated := true)])
    case Deliver(slot, ev) => Delivery(s, slot, ev)
    case Push => s.(pushed := s.pushed + 1)
    case Check => s.(look := if Sendable(s, s.Front().work.conn) then Yes else No)
    case SendSome(k) =>
      var f := s.Front();
      var owner := Inc(f.work.conn.slot, s.slots[f.work.conn.slot].n);
      s.(sent := s.sent + k, look := NotAsked,
         taken := s.taken[owner := Get(s.taken, owner) + f.work.bytes[s.sent..s.sent + k]])
    case FinishData => s.(popped := s.popped + 1, sent := 0, look := NotAsked)
    case CloseItem => CloseOnce(s, s.Front()).(popped := s.popped + 1)
  }

  function Reopened(i: SlotInfo): SlotInfo {
    i.(n := i.n + 1, phase := NotYet, terminated := false, finSent := false, released := false)
  }

  function Told(i: SlotInfo, ev: Event): SlotInfo {
    var i' := i.(phase := Advance(i.phase, ev));
    if ev.Accepted? then i'.(prev := i.last, last := i.n) else i'
  }

  function Delivery(s: World, slot: nat, ev: Event): World
    requires slot < |s.slots|
  {
    var i := s.slots[slot];
    var inc := Inc(slot, i.n);
    s.(slots := s.slots[slot := Told(i, ev)],
       items := s.items + TagItems(ItemsOf(inc.Id(), ev), inc, i.prev),
       delivered := if ev.Data? then s.delivered[inc := Get(s.delivered, inc) + ev.bytes] else s.delivered)
  }

  /** close_once: close() unless the slot's last closed generation is this one. */
  function CloseOnce(s: World, f: Item): World
    requires f.work.conn.slot < |s.slots| == |s.releasedGen|
  {
    var slot, gen := f.work.conn.slot, f.work.conn.generation;
    if s.releasedGen[slot] == gen then s
    else
      s.(releasedGen := s.releasedGen[slot := gen], calls := s.calls + [f.inc],
         slots := s.slots[slot := ClosedSlot(s, f)])
  }

  /** What close() does to the slot: nothing, if lookup does not find the connection. */
  function ClosedSlot(s: World, f: Item): SlotInfo
    requires f.work.conn.slot < |s.slots|
  {
    var i := s.slots[f.work.conn.slot].(lastClosed := f.inc.n);
    if Finds(s, f.work.conn) then i.(finSent := i.finSent || !i.terminated, released := true) else i
  }

  function Start(n: nat): World {
    World(seq(n, _ => SlotInfo(0, NotYet, 0, 0, 0, false, false, false)), [], 0, 0, 0, NotAsked,
          seq(n, _ => 0), [], map[], map[])
  }

  predicate Run(s: World, acts: seq<Action>)
    decreases |acts|
  {
    acts == [] || (Enabled(s, acts[0]) && Run(Step(s, acts[0]), acts[1..]))
  }

  function After(s: World, acts: seq<Action>): World
    requires Run(s, acts)
    decreases |acts|
  {
    if acts == [] then s else After(Step(s, acts[0]), acts[1..])
  }
}
