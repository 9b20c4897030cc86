/** The generation open() gives each incarnation of a slot. */
module Generations {
  import opened SeqArith
  import opened Connection

  /** Generations count 1 .. 2^32 - 1 and start again at 1. */
  const CYCLE: int := 0xFFFF_FFFF

  /** The generation the n-th incarnation of a slot is given; 0 before the first. */
  function GenOf(n: nat): u32 { if n == 0 then 0 else (n - 1) % CYCLE + 1 }

  lemma NextIsGenOf(n: nat)
    ensures NextGeneration(GenOf(n)) == GenOf(n + 1) != 0
  {
  }

  /** Two incarnations share a generation exactly when whole cycles lie between them. */
  lemma SameGeneration(j: nat, n: nat)
    requires 1 <= j <= n
    ensures GenOf(j) == GenOf(n) <==> (n - j) % CYCLE == 0
  {
  }
}

/** One connection slot through all its incarnations, as a transition system over every
    interleaving of the inbound thread's open/accept/terminate/recycle and the outbound thread's
    lookup/close. Each atomic load or store is one step. */
module SlotLife {
  import opened SeqArith
  import opened Generations

  /** The slot as the inbound thread sees it. Opening(i): i of open()'s six stores are done. */
  datatype Phase = Unused | Opening(stores: nat) | Handshake | Live | Ended

  /** Where the outbound thread stands with the id of incarnation j. */
  datatype OutPc =
    | Quiet
    | SawGeneration(j: nat)               // lookup: the first load matched
    | SawFlags(j: nat, released: bool)    // lookup: out_flags loaded
    | Found(j: nat) | Missed(j: nat)      // lookup returned
    | SawFin(j: nat, fin: bool)           // sendable: out_flags loaded once more
    | Answered(j: nat, yes: bool)         // sendable: terminated loaded too

  datatype Slot = Slot(
    inc: nat,                 // which incarnation's generation is stored
    addr: nat,                // which incarnation's addressing is stored
    terminated: bool, finSent: bool, released: bool,
    phase: Phase, out: OutPc,
    accepted: set<nat>,       // incarnations the application was told of
    closed: set<nat>)         // of those, the ones whose close() has stored out_released

  datatype Action =
    // inbound
    | Address | StoreGeneration | StoreRcvNxt | StoreWindow | StoreTerminated | StoreSndNxt
    | StoreFlags | ResetHandshake | Accept | Terminate | Recycle
    // outbound; any id the application ever learned may be looked up
    | LoadGeneration(j: nat) | LoadFlags | ReloadGeneration | LoadFin | LoadTerminated
    | SendFin | Leave | Release

  predicate Enabled(s: Slot, a: Action) {
    match a
    case Address => s.phase == Unused
    case StoreGeneration => s.phase == Opening(0)
    case StoreRcvNxt => s.phase == Opening(1)
    case StoreWindow => s.phase == Opening(2)
    case StoreTerminated => s.phase == Opening(3)
    case StoreSndNxt => s.phase == Opening(4)
    case StoreFlags => s.phase == Opening(5)
    case ResetHandshake => s.phase == Handshake
    case Accept => s.phase == Handshake
    case Terminate => s.phase == Live
    case Recycle => s.phase == Ended && s.released
    case LoadGeneration(j) => s.out.Quiet? && j in s.accepted
    case LoadFlags => s.out.SawGeneration?
    case ReloadGeneration => s.out.SawFlags?
    case LoadFin => s.out.Found?
    case LoadTerminated => s.out.SawFin?
    case SendFin => s.out.Found? && s.out.j !in s.closed
    case Leave => s.out.Found? || s.out.Missed? || s.out.Answered?
    case Release => s.out.Found? && s.out.j !in s.closed
  }

  function Step(s: Slot, a: Action): Slot
    requires Enabled(s, a)
  {
    match a
    case Address => s.(phase := Opening(0), addr := s.inc + 1)
    case StoreGeneration => s.(phase := Opening(1), inc := s.inc + 1)
    case StoreRcvNxt => s.(phase := Opening(2))
    case StoreWindow => s.(phase := Opening(3))
    case StoreTerminated => s.(phase := Opening(4), terminated := false)
    case StoreSndNxt => s.(phase := Opening(5))
    case StoreFlags => s.(phase := Handshake, finSent := false, released := false)
    case ResetHandshake => s.(phase := Unused)
    case Accept => s.(phase := Live, accepted := s.accepted + {s.inc})
    case Terminate => s.(phase := Ended, terminated := true)
    case Recycle => s.(phase := Unused)
    case LoadGeneration(j) => s.(out := if GenOf(s.inc) == GenOf(j) then SawGeneration(j) else Missed(j))
    case LoadFlags => s.(out := SawFlags(s.out.j, s.released))
    case ReloadGeneration =>
      s.(out := if GenOf(s.inc) == GenOf(s.out.j) && !s.out.released then Found(s.out.j)
                else Missed(s.out.j))
    case LoadFin => s.(out := SawFin(s.out.j, s.finSent))
    case LoadTerminated => s.(out := Answered(s.out.j, !s.out.fin && !s.terminated))
    case SendFin => s.(finSent := true)
    case Leave => s.(out := Quiet)
    case Release => s.(out := Quiet, released := true, closed := s.closed + {s.out.j})
  }

  /** The application holds the id: told of it, and has not finished closing it. */
  predicate Held(s: Slot, j: nat) { j in s.accepted && j !in s.closed }

  /** While an id is held its slot is its own: same generation, same addressing, not recycled. */
  predicate Owns(s: Slot, j: nat) {
    j == s.inc == s.addr && (s.phase == Live || s.phase == Ended) && !s.released
  }

  predicate OutOk(s: Slot) {
    match s.out
    case Quiet => true
    case SawGeneration(j) => j in s.accepted
    case SawFlags(j, rel) =>
      && j in s.accepted && (Held(s, j) ==> !rel)
      && (j in s.closed && s.inc - j < CYCLE && s.inc == j ==> rel)
    case Found(j) => j in s.accepted && (j in s.closed ==> s.inc - j >= CYCLE)
    case Missed(j) => j in s.accepted && j in s.closed
    case SawFin(j, _) => j in s.accepted && (j in s.closed ==> s.inc - j >= CYCLE)
    case Answered(j, _) => j in s.accepted
  }

  predicate Inv(s: Slot) { SlotInv(s) && OutOk(s) }

  predicate SlotInv(s: Slot) {
    && (forall j | j in s.accepted :: 1 <= j <= s.inc)
    && s.closed <= s.accepted
    && (forall j | j in s.accepted :: Held(s, j) ==> Owns(s, j))
    && (s.phase == Live || s.phase == Ended ==> s.inc in s.accepted && s.addr == s.inc)
    && (s.phase == Ended ==> s.terminated)
    && (s.inc in s.closed ==> s.released)
    && (s.phase == Opening(0) ==> s.addr == s.inc + 1) && (s.phase == Handshake ==> !s.released)
    && ((s.phase.Opening? && s.phase.stores > 0) || s.phase == Handshake ==>
          s.inc !in s.accepted && s.addr == s.inc >= 1)
  }

  function Fresh(): Slot {
    Slot(0, 0, false, false, false, Unused, Quiet, {}, {})
  }

  lemma FreshInv()
    ensures Inv(Fresh())
  {
  }

  lemma StepInv(s: Slot, a: Action)
    requires Inv(s) && Enabled(s, a)
    ensures Inv(Step(s, a))
  {
    hide Step, SlotInv, OutOk;
    SlotStep(s, a);
    OutStep(s, a);
  }

  lemma SlotStep(s: Slot, a: Action)
    requires Inv(s) && Enabled(s, a)
    ensures SlotInv(Step(s, a))
  {
    hide GenOf;
  }

  lemma OutStep(s: Slot, a: Action)
    requires Inv(s) && Enabled(s, a)
    ensures OutOk(Step(s, a))
  {
    hide GenOf;
    match a
    case LoadGeneration(j) =>
      SameGeneration(j, s.inc);
    case ReloadGeneration =>
      SameGeneration(s.out.j, s.inc);
    case _ =>
  }

  predicate Run(s: Slot, acts: seq<Action>)
    decreases |acts|
  {
    acts == [] || (Enabled(s, acts[0]) && Run(Step(s, acts[0]), acts[1..]))
  }

  function After(s: Slot, acts: seq<Action>): Slot
    requires Run(s, acts)
    decreases |acts|
  {
    if acts == [] then s else After(Step(s, acts[0]), acts[1..])
  }

  lemma {:induction false} RunInv(s: Slot, acts: seq<Action>)
    requires Inv(s) && Run(s, acts)
    ensures Inv(After(s, acts))
    decreases |acts|
  {
    if acts != [] {
      StepInv(s, acts[0]);
      RunInv(Step(s, acts[0]), acts[1..]);
    }
  }

  /** In every interleaving: a held id owns its slot, so every lookup of it, the unchecked second one
      in send() and send_space() included, finds it; and a closed id is never found, whatever part of
      a re-initialisation the lookup races with, unless the slot has been re-opened 2^32 - 1 times. */
  lemma LookupSafe(acts: seq<Action>)
    requires Run(Fresh(), acts)
    ensures var s := After(Fresh(), acts);
      && (forall j | j in s.accepted :: Held(s, j) ==> Owns(s, j))
      && (s.out.Missed? ==> s.out.j in s.closed)
      && (s.out.Found? && s.out.j in s.closed ==> s.inc - s.out.j >= CYCLE)
  {
    FreshInv();
    RunInv(Fresh(), acts);
  }

  /** The bound is exact: in every reachable state with a live slot, an uninterrupted lookup finds the
      id of a closed incarnation j exactly when a whole number of generation cycles has passed. */
  lemma StaleFoundIff(acts: seq<Action>, j: nat)
    requires Run(Fresh(), acts)
    requires var s := After(Fresh(), acts);
      s.phase == Live && !s.released && s.out == Quiet && j in s.closed && j in s.accepted
    ensures var s := After(Fresh(), acts); var s1 := Step(s, LoadGeneration(j));
      && (s1.out == Missed(j) <==> (s.inc - j) % CYCLE != 0)
      && (s1.out != Missed(j) ==> Step(Step(s1, LoadFlags), ReloadGeneration).out == Found(j))
  {
    hide GenOf, Inv;
    FreshInv();
    RunInv(Fresh(), acts);
    WithinInc(After(Fresh(), acts), j);
    SameGeneration(j, After(Fresh(), acts).inc);
  }

  lemma WithinInc(s: Slot, j: nat)
    requires Inv(s) && j in s.accepted
    ensures 1 <= j <= s.inc
  {
  }

  // --- sendable().

  /** The id can be sent on now. */
  predicate Sendable(s: Slot, j: nat) {
    GenOf(s.inc) == GenOf(j) && !s.released && !s.finSent && !s.terminated
  }

  /** The id cannot be sent on, and no call of sendable() in progress can still say it can. */
  predicate Past(s: Slot, j: nat) {
    && !Sendable(s, j)
    && match s.out
       case SawFlags(k, rel) => k == j == s.inc ==> rel || s.finSent || s.terminated
       case Found(k) => k == j == s.inc ==> s.finSent || s.terminated
       case SawFin(k, fin) => k == j == s.inc ==> fin || s.terminated
       case Answered(k, yes) => k == j ==> !yes
       case _ => true
  }

  lemma PastStep(s: Slot, a: Action, j: nat)
    requires Inv(s) && Enabled(s, a) && j in s.accepted && Past(s, j) && Step(s, a).inc - j < CYCLE
    ensures Past(Step(s, a), j)
  {
    hide GenOf;
    SameGeneration(j, s.inc);
    SameGeneration(j, Step(s, a).inc);
  }

  /** Once an accepted id cannot be sent on, it never can again, and no call of sendable() that begins
      after that moment, its five loads interleaved with anything, says it can: short of a generation
      cycle. */
  lemma {:induction false} NeverSendableAgain(s: Slot, acts: seq<Action>, j: nat)
    requires Inv(s) && Run(s, acts) && j in s.accepted && Past(s, j)
    requires After(s, acts).inc - j < CYCLE
    ensures Past(After(s, acts), j) && After(s, acts).out != Answered(j, true)
    decreases |acts|
  {
    hide Past, GenOf, Inv;
    if acts == [] {
      PastAnswers(s, j);
    } else {
      var s1 := Step(s, acts[0]);
      StepInv(s, acts[0]);
      IncGrows(s1, acts[1..]);
      PastStep(s, acts[0], j);
      NeverSendableAgain(s1, acts[1..], j);
    }
  }

  lemma PastAnswers(s: Slot, j: nat)
    requires Past(s, j)
    ensures s.out != Answered(j, true)
  {
  }

  lemma {:induction false} IncGrows(s: Slot, acts: seq<Action>)
    requires Run(s, acts)
    ensures s.inc <= After(s, acts).inc
    decreases |acts|
  {
    if acts != [] {
      IncGrows(Step(s, acts[0]), acts[1..]);
    }
  }

  // --- A run in which a stale id is found.

  lemma {:induction false} RunConcat(s: Slot, a: seq<Action>, b: seq<Action>)
    requires Run(s, a) && Run(After(s, a), b)
    ensures Run(s, a + b) && After(s, a + b) == After(After(s, a), b)
    decreases |a|
  {
    hide Step, Enabled;
    if a == [] {
      assert a + b == b;
    } else {
      assert (a + b)[0] == a[0] && (a + b)[1..] == a[1..] + b;
      RunConcat(Step(s, a[0]), a[1..], b);
    }
  }

  lemma RunSnoc(s: Slot, acts: seq<Action>, a: Action)
    requires Run(s, acts) && Enabled(After(s, acts), a)
    ensures Run(s, acts + [a]) && After(s, acts + [a]) == Step(After(s, acts), a)
  {
    hide Step, Enabled;
    var s' := After(s, acts);
    assert [a][1..] == [];
    RunConcat(s, acts, [a]);
  }

  /** One open(), all its stores. */
  lemma Opens(s: Slot) returns (acts: seq<Action>)
    requires s.phase == Unused
    ensures Run(s, acts)
    ensures After(s, acts) == s.(inc := s.inc + 1, addr := s.inc + 1, phase := Handshake,
                                 terminated := false, finSent := false, released := false)
  {
    hide Run, After;
    RunNone(s);
    RunSnoc(s, [], Address);
    acts := [] + [Address];
    RunSnoc(s, acts, StoreGeneration);
    acts := acts + [StoreGeneration];
    RunSnoc(s, acts, StoreRcvNxt);
    acts := acts + [StoreRcvNxt];
    RunSnoc(s, acts, StoreWindow);
    acts := acts + [StoreWindow];
    RunSnoc(s, acts, StoreTerminated);
    acts := acts + [StoreTerminated];
    RunSnoc(s, acts, StoreSndNxt);
    acts := acts + [StoreSndNxt];
    RunSnoc(s, acts, StoreFlags);
    acts := acts + [StoreFlags];
  }

  lemma RunNone(s: Slot)
    ensures Run(s, []) && After(s, []) == s
  {
  }

  /** k openings, each refused by a reset of the handshake. */
  lemma {:induction false} Refusals(s: Slot, k: nat) returns (acts: seq<Action>)
    requires s.phase == Unused
    ensures Run(s, acts) && After(s, acts).phase == Unused && After(s, acts).inc == s.inc + k
    ensures After(s, acts).out == s.out && After(s, acts).closed == s.closed
    ensures After(s, acts).accepted == s.accepted
    decreases k
  {
    acts := [];
    if k > 0 {
      var one := Opens(s);
      RunSnoc(s, one, ResetHandshake);
      var s1 := After(s, one + [ResetHandshake]);
      var rest := Refusals(s1, k - 1);
      RunConcat(s, one + [ResetHandshake], rest);
      acts := one + [ResetHandshake] + rest;
    }
  }

  /** A lookup of the id of incarnation j, uninterrupted. */
  lemma LooksUp(s: Slot, j: nat) returns (acts: seq<Action>)
    requires s.out == Quiet && j in s.accepted && GenOf(s.inc) == GenOf(j) && !s.released
    ensures Run(s, acts) && After(s, acts) == s.(out := Found(j))
  {
    hide GenOf, Run, After;
    RunNone(s);
    RunSnoc(s, [], LoadGeneration(j));
    acts := [] + [LoadGeneration(j)];
    RunSnoc(s, acts, LoadFlags);
    acts := acts + [LoadFlags];
    RunSnoc(s, acts, ReloadGeneration);
    acts := acts + [ReloadGeneration];
  }

  /** One whole connection: accepted, closed by us, terminated, its slot recycled. */
  lemma ShortLife(s: Slot) returns (acts: seq<Action>)
    requires s.phase == Unused && s.out == Quiet && s.inc + 1 !in s.closed
    ensures Run(s, acts) && After(s, acts).phase == Unused && After(s, acts).inc == s.inc + 1
    ensures After(s, acts).out == Quiet && After(s, acts).closed == s.closed + {s.inc + 1}
    ensures After(s, acts).accepted == s.accepted + {s.inc + 1}
  {
    hide GenOf, Run, After;
    acts := Opens(s);
    RunSnoc(s, acts, Accept);
    acts := acts + [Accept];
    var find := LooksUp(After(s, acts), s.inc + 1);
    RunConcat(s, acts, find);
    acts := acts + find;
    RunSnoc(s, acts, Release);
    acts := acts + [Release];
    RunSnoc(s, acts, Terminate);
    RunSnoc(s, acts + [Terminate], Recycle);
    acts := acts + [Terminate] + [Recycle];
  }

  /** The first connection is closed, the slot opened 2^32 - 2 times in vain and then for another
      connection: a lookup of the first one's id finds that one. */
  lemma StaleFound() returns (acts: seq<Action>)
    ensures Run(Fresh(), acts)
    ensures var s := After(Fresh(), acts); s.out == Found(1) && 1 in s.closed && s.inc == s.addr == 1 + CYCLE
  {
    hide GenOf, Run, After;
    var s0 := Fresh();
    var life := ShortLife(s0);
    var refused := Refusals(After(s0, life), CYCLE - 1);
    RunConcat(s0, life, refused);
    acts := life + refused;
    var open := Opens(After(s0, acts));
    RunConcat(s0, acts, open);
    acts := acts + open;
    RunSnoc(s0, acts, Accept);
    acts := acts + [Accept];
    SameGeneration(1, 1 + CYCLE);
    var find := LooksUp(After(s0, acts), 1);
    RunConcat(s0, acts, find);
    acts := acts + find;
  }
}
