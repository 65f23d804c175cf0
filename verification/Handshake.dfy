/** The handshake driver: whose slot it is, and when the exchange gives up.

    In each slot either end may be refused the radio, come too late to use it, or be elsewhere and let
    the slot pass; and a message one end sends while the other listens may be lost, arrive in part or
    arrive whole.
    What is heard is left to the environment here; `Exchange` derives it.
 */
module Handshake {
  import opened Config

  const IDLE_LIMIT: nat := 8
  const IDLE_LIMIT_RESUME: nat := 5
  const SLOT_LIMIT: nat := 48
  const SLOT_LIMIT_RESUME: nat := 24

  datatype Msg = NoMsg | JoinReq | JoinRsp | JoinCfm | JoinAck | ResumeReq | ResumeRsp

  // Waiting: a router whose join window nobody has used yet.
  datatype Phase = Waiting | Active | Linked | Failed

  datatype Side = Side(phase: Phase, joiner: bool, resuming: bool, owe: bool, staged: Msg, slot: nat,
                       idle: nat, wasTx: bool, progressed: bool, refused: bool)

  // How an end fares in one slot. A dropped one is settled although it never began: the scheduler was
  // late. An absent one is not settled at all: the end was busy with other radio work.
  datatype Turn = Took | Refused | Dropped | Absent

  // What reached a listening end in one slot; a whole message may be refused by its checks.
  datatype Heard = Nothing | Part | Whole(valid: bool)

  function IdleLimit(resuming: bool): nat {
    if resuming then IDLE_LIMIT_RESUME else IDLE_LIMIT
  }

  function SlotLimit(resuming: bool): nat {
    if resuming then SLOT_LIMIT_RESUME else SLOT_LIMIT
  }

  // ----- one end -----

  function Stage(s: Side, m: Msg): Side {
    s.(owe := true, staged := m)
  }

  /** The slot begins: transmit if something is owed, else listen; or get no radio at all. */
  function Begin(s: Side, turn: Turn): Side {
    if s.phase != Active then s
    else
      match turn
      case Took => s.(wasTx := s.owe)
      case Refused => s.(wasTx := false, progressed := false, refused := true)
      case Dropped => s
      case Absent => s
  }

  predicate Request(m: Msg) {
    m == JoinReq || m == ResumeReq
  }

  // The parameters that complete the exchange.
  predicate Final(m: Msg) {
    m == JoinAck || m == ResumeRsp
  }

  function Reply(m: Msg): Msg {
    match m
    case JoinReq => JoinRsp
    case JoinRsp => JoinCfm
    case JoinCfm => JoinAck
    case ResumeReq => ResumeRsp
    case _ => NoMsg
  }

  /** `lg_join_rx_pdu` over one slot. */
  function Hear(s: Side, m: Msg, heard: Heard): Side {
    var open :=
      if s.phase == Waiting && Request(m) && heard != Nothing then
        Side(Active, false, m == ResumeReq, false, NoMsg, 0, 0, false, false, false)
      else s;
    if open.phase != Active || !heard.Whole? then open
    else if !heard.valid then open.(phase := Failed)
    else if Final(m) then open.(phase := Linked)
    else Stage(open, Reply(m)).(progressed := true)
  }

  /** `lg_join_event_finish`. */
  function Settle(s: Side, clock: nat): Side {
    if s.phase != Active then s
    else if !s.joiner && s.wasTx && Final(s.staged) then s.(phase := Linked)
    else
      var owe := if s.wasTx then false else if !s.progressed then s.staged != NoMsg else s.owe;
      var idle := if s.progressed then 0 else if !s.refused then s.idle + 1 else s.idle;
      var slot := Max(s.slot + 1, clock);
      var failed := idle >= IdleLimit(s.resuming) || slot >= SlotLimit(s.resuming) || (owe && s.staged == NoMsg);
      s.(phase := if failed then Failed else Active, owe := owe, idle := idle, slot := slot,
         progressed := false, refused := false)
  }

  // ----- the pair -----

  datatype Pair = Pair(j: Side, r: Side)

  datatype Slot = Slot(jTurn: Turn, rTurn: Turn, heard: Heard, jClock: nat, rClock: nat)

  predicate Sends(s: Side, turn: Turn) {
    turn == Took && s.phase == Active && s.wasTx
  }

  predicate Listens(s: Side, turn: Turn) {
    turn == Took && (s.phase == Waiting || (s.phase == Active && !s.wasTx))
  }

  function Finish(s: Side, turn: Turn, clock: nat): Side {
    if turn == Absent then s else Settle(s, clock)
  }

  function Next(p: Pair, slot: Slot): Pair {
    var j, r := Begin(p.j, slot.jTurn), Begin(p.r, slot.rTurn);
    var r' := if Sends(j, slot.jTurn) && Listens(r, slot.rTurn) then Hear(r, j.staged, slot.heard) else r;
    var j' := if Sends(r, slot.rTurn) && Listens(j, slot.jTurn) then Hear(j, r.staged, slot.heard) else j;
    Pair(Finish(j', slot.jTurn, slot.jClock), Finish(r', slot.rTurn, slot.rClock))
  }

  /** A joiner with its request staged, a router with a window open. */
  function Start(resuming: bool): Pair {
    Pair(Side(Active, true, resuming, true, if resuming then ResumeReq else JoinReq, 0, 0, false, false, false),
         Side(Waiting, false, false, false, NoMsg, 0, 0, false, false, false))
  }

  function Run(p: Pair, slots: seq<Slot>): Pair {
    if slots == [] then p else Next(Run(p, slots[..|slots| - 1]), slots[|slots| - 1])
  }

  lemma RunOne(p: Pair, slots: seq<Slot>, slot: Slot)
    ensures Run(p, slots + [slot]) == Next(Run(p, slots), slot)
  {
    assert (slots + [slot])[..|slots|] == slots;
  }

  // ----- what every slot keeps -----

  /** Both ends are at work and the router has a reply staged. */
  predicate InDialogue(p: Pair) {
    p.j.phase == Active && p.r.phase == Active && p.r.staged != NoMsg
  }

  /** Which messages can be staged together. */
  predicate Matching(j: Msg, r: Msg) {
    || (j == JoinReq && r in {NoMsg, JoinRsp}) || (j == JoinCfm && r in {JoinRsp, JoinAck})
    || (j == ResumeReq && r in {NoMsg, ResumeRsp})
  }

  predicate SideValid(s: Side) {
    && (s.phase == Active ==>
          !s.progressed && !s.refused && s.slot < SlotLimit(s.resuming) && s.idle < IdleLimit(s.resuming))
    && (s.phase == Active ==> (s.owe <==> s.staged != NoMsg && !s.wasTx))
  }

  predicate Valid(p: Pair) {
    && SideValid(p.j) && SideValid(p.r) && p.j.joiner && !p.r.joiner && p.j.phase != Waiting
    && p.j.staged != NoMsg
    && (p.j.phase == Active && p.r.phase in {Active, Waiting} ==> Matching(p.j.staged, p.r.staged))
    && (p.r.phase == Waiting ==> p.r.staged == NoMsg)
    && (p.r.phase == Active ==> p.r.resuming == p.j.resuming)
    && (p.j.phase == Linked ==> p.r.phase == Linked)
    && (p.j.resuming <==> p.j.staged == ResumeReq)
    && (p.r.phase == Active && Final(p.r.staged) ==> !p.r.wasTx)
  }

  lemma SlotKeepsValid(p: Pair, slot: Slot)
    requires Valid(p)
    ensures Valid(Next(p, slot))
  {
    if p.j.phase == Active && p.j.owe && slot.jTurn == Took {
      JoinerSpeaks(p, slot);
    } else if p.r.phase == Active && p.r.owe && slot.rTurn == Took {
      RouterSpeaks(p, slot);
    } else {
      NobodySpeaks(p, slot);
    }
  }

  lemma NobodySpeaks(p: Pair, slot: Slot)
    requires Valid(p)
    requires p.j.phase == Active && p.j.owe ==> slot.jTurn != Took
    requires p.r.phase == Active && p.r.owe ==> slot.rTurn != Took
    ensures Valid(Next(p, slot))
  {
  }

  lemma JoinerSpeaks(p: Pair, slot: Slot)
    requires Valid(p) && p.j.phase == Active && p.j.owe && slot.jTurn == Took
    ensures Valid(Next(p, slot))
  {
    if slot.rTurn == Took && (p.r.phase == Waiting || (p.r.phase == Active && !p.r.owe)) {
      RouterListens(p, slot);
    }
  }

  lemma RouterListens(p: Pair, slot: Slot)
    requires Valid(p) && p.j.phase == Active && p.j.owe && slot.jTurn == Took && slot.rTurn == Took
    requires p.r.phase == Waiting || (p.r.phase == Active && !p.r.owe)
    ensures Valid(Next(p, slot))
  {
  }

  lemma RouterSpeaks(p: Pair, slot: Slot)
    requires Valid(p) && p.r.phase == Active && p.r.owe && slot.rTurn == Took
    ensures Valid(Next(p, slot))
  {
  }

  /** A turn that leaves the end where it was, owing or not: it was refused a transmit slot, dropped a slot
      or let it pass. */
  predicate Holds(s: Side, turn: Turn) {
    turn == Dropped || turn == Absent || (turn == Refused && s.owe)
  }

  /** Turns held while the dialogue is on. */
  function HeldTurns(p: Pair, slot: Slot): nat {
    if !InDialogue(p) then 0
    else (if Holds(p.j, slot.jTurn) then 1 else 0) + (if Holds(p.r, slot.rTurn) then 1 else 0)
  }

  function HeldTurnsIn(p: Pair, slots: seq<Slot>): nat {
    if slots == [] then 0
    else
      var before := slots[..|slots| - 1];
      HeldTurnsIn(p, before) + HeldTurns(Run(p, before), slots[|slots| - 1])
  }

  predicate OneOwes(p: Pair) {
    p.j.owe != p.r.owe
  }

  /** One slot: an end that holds its turn while the other does not flips between one end owing and both
      or neither. Lost messages and refused receive slots do not. */
  lemma TurnStep(p: Pair, slot: Slot)
    requires Valid(p) && InDialogue(p) && InDialogue(Next(p, slot))
    ensures OneOwes(Next(p, slot)) <==> (OneOwes(p) <==> HeldTurns(p, slot) % 2 == 0)
  {
  }

  lemma DialogueOpens(p: Pair, slot: Slot)
    requires Valid(p) && !InDialogue(p) && InDialogue(Next(p, slot))
    ensures OneOwes(Next(p, slot))
  {
  }

  predicate Over(p: Pair) {
    p.j.phase in {Linked, Failed} || p.r.phase in {Linked, Failed}
  }

  /** Once an end has come up or failed, the dialogue is over for good. */
  lemma {:induction false} DialogueNeverReopens(p: Pair, slots: seq<Slot>)
    requires Valid(p) && Over(p)
    ensures Valid(Run(p, slots)) && Over(Run(p, slots)) && !InDialogue(Run(p, slots))
  {
    if slots != [] {
      var before := slots[..|slots| - 1];
      DialogueNeverReopens(p, before);
      OverStays(Run(p, before), slots[|slots| - 1]);
    }
  }

  lemma OverStays(p: Pair, slot: Slot)
    requires Valid(p) && Over(p)
    ensures Valid(Next(p, slot)) && Over(Next(p, slot))
  {
    SlotKeepsValid(p, slot);
  }

  /** Nothing staged at the router yet, and nobody done. */
  predicate Quiet(p: Pair) {
    p.j.phase == Active && p.r.phase in {Waiting, Active} && p.r.staged == NoMsg
  }

  lemma QuietBefore(p: Pair, slot: Slot)
    requires Valid(p)
    ensures Quiet(Next(p, slot)) ==> Quiet(p)
    ensures InDialogue(Next(p, slot)) ==> InDialogue(p) || Quiet(p)
  {
  }

  /** What holds after `n` held turns. */
  ghost predicate Turns(p: Pair, n: nat) {
    && Valid(p)
    && (InDialogue(p) ==> (OneOwes(p) <==> n % 2 == 0))
    && (Quiet(p) ==> n == 0)
  }

  lemma TurnsKept(p: Pair, slot: Slot, n: nat)
    requires Turns(p, n)
    ensures Turns(Next(p, slot), n + HeldTurns(p, slot))
  {
    SlotKeepsValid(p, slot);
    QuietBefore(p, slot);
    if InDialogue(Next(p, slot)) {
      if InDialogue(p) {
        TurnStep(p, slot);
      } else {
        DialogueOpens(p, slot);
      }
    }
  }

  lemma TurnsAfter(p: Pair, slot: Slot, n: nat, q: Pair, m: nat)
    requires Turns(p, n) && q == Next(p, slot) && m == n + HeldTurns(p, slot)
    ensures Turns(q, m)
  {
    TurnsKept(p, slot, n);
  }

  lemma {:induction false} TurnsAlways(p: Pair, slots: seq<Slot>)
    requires Turns(p, 0)
    ensures Turns(Run(p, slots), HeldTurnsIn(p, slots))
  {
    if slots != [] {
      var before, slot := slots[..|slots| - 1], slots[|slots| - 1];
      TurnsAlways(p, before);
      TurnsAfter(Run(p, before), slot, HeldTurnsIn(p, before), Run(p, slots), HeldTurnsIn(p, slots));
    }
  }

  /** Turn-taking, exactly: from the router's first staged reply until an end is done, one end
      and one only owes a message if and only if an even number of turns was held: transmit slots
      refused, slots dropped late, slots let pass. Loss in any pattern and refused receive slots
      change nothing. */
  lemma TurnTaking(resuming: bool, slots: seq<Slot>)
    ensures Valid(Run(Start(resuming), slots))
    ensures InDialogue(Run(Start(resuming), slots)) ==>
      (OneOwes(Run(Start(resuming), slots)) <==> HeldTurnsIn(Start(resuming), slots) % 2 == 0)
  {
    TurnsAlways(Start(resuming), slots);
  }

  /** Without held turns the ends never both owe, at any time. */
  lemma NeverBothOwe(resuming: bool, slots: seq<Slot>)
    requires HeldTurnsIn(Start(resuming), slots) == 0
    ensures
      var p := Run(Start(resuming), slots);
      p.j.phase == Active && p.r.phase in {Waiting, Active} ==> !(p.j.owe && p.r.owe && p.r.phase == Active)
  {
    TurnTaking(resuming, slots);
  }

  /** A joiner that is up has a router that is up. */
  lemma JoinerUpMeansRouterUp(resuming: bool, slots: seq<Slot>)
    ensures Run(Start(resuming), slots).j.phase == Linked ==> Run(Start(resuming), slots).r.phase == Linked
  {
    TurnTaking(resuming, slots);
  }

  // ----- stalling -----

  /** While both or neither owe and no turn is held, no message gets across: the
      joiner stages nothing new and does not come up. */
  lemma StalledSlot(p: Pair, slot: Slot)
    requires Valid(p) && InDialogue(p) && !OneOwes(p) && HeldTurns(p, slot) == 0
    ensures
      var q := Next(p, slot);
      && q.j.staged == p.j.staged && q.r.staged == p.r.staged
      && q.j.phase in {Active, Failed}
      && (q.j.phase == Active ==> q.j.idle == p.j.idle + if slot.jTurn == Refused then 0 else 1)
      && (InDialogue(q) ==> !OneOwes(q))
  {
  }

  lemma AloneSlot(p: Pair, slot: Slot)
    requires slot.jTurn != Absent && Valid(p) && p.j.phase == Active && p.r.phase in {Linked, Failed}
    ensures
      var q := Next(p, slot);
      && q.j.phase in {Active, Failed} && q.r.phase == p.r.phase
      && (q.j.phase == Active ==> q.j.idle == p.j.idle + if slot.jTurn == Refused then 0 else 1)
  {
  }

  predicate BothTook(slot: Slot) {
    slot.jTurn == Took && slot.rTurn == Took
  }

  /** Nothing will reach the joiner any more unless a turn is held, and `n` slots have passed. */
  ghost predicate Stuck(p: Pair, n: nat) {
    && Valid(p) && p.j.phase in {Active, Failed}
    && (p.j.phase == Active ==> p.j.idle >= n)
    && (p.j.phase == Active ==> (InDialogue(p) && !OneOwes(p)) || p.r.phase in {Linked, Failed})
  }

  lemma StuckStays(p: Pair, slot: Slot, n: nat, q: Pair, m: nat)
    requires Stuck(p, n) && BothTook(slot) && q == Next(p, slot) && m == n + 1
    ensures Stuck(q, m)
  {
    SlotKeepsValid(p, slot);
    if p.j.phase == Active {
      if p.r.phase in {Linked, Failed} {
        AloneSlot(p, slot);
      } else {
        StalledSlot(p, slot);
        if Next(p, slot).j.phase == Active {
          StalledOrOver(p, slot);
        }
      }
    }
  }

  /** So an odd number of held turns, not followed by another, ends the exchange: the joiner gives up after
      at most eight more slots. */
  lemma OddRefusalsAreFatal(p: Pair, slots: seq<Slot>)
    requires Valid(p) && InDialogue(p) && !OneOwes(p)
    requires forall i :: 0 <= i < |slots| ==> BothTook(slots[i])
    ensures Run(p, slots).j.phase in {Active, Failed}
    ensures |slots| >= IDLE_LIMIT ==> Run(p, slots).j.phase == Failed
  {
    StuckThroughout(p, slots);
  }

  lemma {:induction false} StuckThroughout(p: Pair, slots: seq<Slot>)
    requires Stuck(p, 0)
    requires forall i :: 0 <= i < |slots| ==> BothTook(slots[i])
    ensures Stuck(Run(p, slots), |slots|)
  {
    if slots != [] {
      var before, n := slots[..|slots| - 1], |slots| - 1;
      StuckThroughout(p, before);
      StuckStays(Run(p, before), slots[n], n, Run(p, slots), |slots|);
    }
  }

  lemma StalledOrOver(p: Pair, slot: Slot)
    requires Valid(p) && InDialogue(p) && Next(p, slot).j.phase == Active
    ensures InDialogue(Next(p, slot)) || Next(p, slot).r.phase in {Linked, Failed}
  {
  }

  /** The stall is real: one refused transmit slot leaves both ends owing. */
  lemma OneRefusalStalls()
    ensures
      var clear := Slot(Took, Took, Whole(true), 0, 0);
      var p := Run(Start(false), [clear, clear.(rTurn := Refused)]);
      InDialogue(p) && p.j.owe && p.r.owe
  {
    var clear := Slot(Took, Took, Whole(true), 0, 0);
    var p := Start(false);
    RunOne(p, [], clear);
    RunOne(p, [clear], clear.(rTurn := Refused));
    assert [] + [clear] == [clear];
    assert [clear] + [clear.(rTurn := Refused)] == [clear, clear.(rTurn := Refused)];
  }

  // ----- termination -----

  /** An end still at work after settling a slot is in a later one than before. */
  lemma SlotRises(p: Pair, slot: Slot)
    requires Valid(p)
    ensures p.j.phase == Active && Next(p, slot).j.phase == Active ==>
      Next(p, slot).j.slot >= p.j.slot + SettledBy(slot.jTurn)
    ensures p.r.phase == Active && Next(p, slot).r.phase == Active ==>
      Next(p, slot).r.slot >= p.r.slot + SettledBy(slot.rTurn)
    ensures p.j.phase == Active || Next(p, slot).j.phase != Active
    ensures p.r.phase in {Linked, Failed} ==> Next(p, slot).r.phase != Active
    ensures p.r.phase == Active ==> Next(p, slot).r.phase != Waiting
  {
  }

  function SettledBy(turn: Turn): nat {
    if turn == Absent then 0 else 1
  }

  /** How many of the slots the joiner, or the router, settles. */
  function SettledSlots(slots: seq<Slot>, joiner: bool): nat {
    if slots == [] then 0
    else
      var last := slots[|slots| - 1];
      SettledSlots(slots[..|slots| - 1], joiner) + SettledBy(if joiner then last.jTurn else last.rTurn)
  }

  /** What holds after the ends have settled `n` and `m` slots, with or without a router at work. */
  ghost predicate Counting(p: Pair, n: nat, m: nat, routerOpen: bool) {
    && Valid(p)
    && (p.j.phase == Active ==> p.j.slot >= n)
    && (routerOpen ==> p.r.phase != Waiting && (p.r.phase == Active ==> p.r.slot >= m))
  }

  lemma CountingGoesOn(p: Pair, slot: Slot, n: nat, m: nat, routerOpen: bool)
    requires Counting(p, n, m, routerOpen)
    ensures Counting(Next(p, slot), n + SettledBy(slot.jTurn), m + SettledBy(slot.rTurn), routerOpen)
  {
    SlotRises(p, slot);
    SlotKeepsValid(p, slot);
  }

  lemma {:induction false} CountingThroughout(p: Pair, slots: seq<Slot>, routerOpen: bool)
    requires Counting(p, 0, 0, routerOpen)
    ensures Counting(Run(p, slots), SettledSlots(slots, true), SettledSlots(slots, false), routerOpen)
  {
    if slots != [] {
      var before, last := slots[..|slots| - 1], slots[|slots| - 1];
      CountingThroughout(p, before, routerOpen);
      CountingGoesOn(Run(p, before), last, SettledSlots(before, true), SettledSlots(before, false), routerOpen);
    }
  }

  /** Whatever happens, an end has come up or failed once it has settled as many slots as its slot limit
      allows; a router counts from the first fragment it hears. */
  lemma EndsWithinSlotLimit(p: Pair, slots: seq<Slot>)
    requires Valid(p)
    ensures SettledSlots(slots, true) >= SlotLimit(p.j.resuming) ==> Run(p, slots).j.phase in {Linked, Failed}
    ensures p.r.phase != Waiting && SettledSlots(slots, false) >= SlotLimit(p.j.resuming) ==>
      Run(p, slots).r.phase in {Linked, Failed}
  {
    CountingThroughout(p, slots, p.r.phase != Waiting);
    ResumingStays(p, slots);
  }

  lemma {:induction false} ResumingStays(p: Pair, slots: seq<Slot>)
    requires Valid(p)
    ensures SameKind(p, Run(p, slots))
  {
    if slots != [] {
      var before, last := slots[..|slots| - 1], slots[|slots| - 1];
      ResumingStays(p, before);
      KindStays(p, Run(p, before), last, Run(p, slots));
    }
  }

  // Still a handshake of the kind it began as.
  ghost predicate SameKind(p: Pair, q: Pair) {
    Valid(q) && q.j.resuming == p.j.resuming
  }

  lemma KindStays(p: Pair, q: Pair, slot: Slot, q': Pair)
    requires SameKind(p, q) && q' == Next(q, slot)
    ensures SameKind(p, q')
  {
    SlotKeepsValid(q, slot);
  }

  // ----- progress -----

  predicate Clear(slot: Slot) {
    slot == Slot(Took, Took, Whole(true), 0, 0)
  }

  // Both ends have slots to spare, of both kinds.
  predicate Early(p: Pair, n: nat) {
    && p.j.slot + n < SLOT_LIMIT_RESUME && p.j.idle + n < IDLE_LIMIT_RESUME
    && (p.r.phase == Active ==> p.r.slot + n < SLOT_LIMIT_RESUME && p.r.idle + n < IDLE_LIMIT_RESUME)
  }

  /** In an undisturbed slot the router takes in the joiner's message and owes the answer. */
  lemma JoinerIsHeard(p: Pair, slot: Slot)
    requires Valid(p) && Clear(slot) && Early(p, 1) && p.j.phase == Active && p.j.owe
    requires p.r.phase == Active ==> !p.r.owe
    requires p.r.phase == Active || (p.r.phase == Waiting && Request(p.j.staged))
    ensures
      var q := Next(p, slot);
      && InDialogue(q) && q.r.staged == Reply(p.j.staged) && q.j.staged == p.j.staged && q.r.owe && !q.j.owe
      && q.j.slot == p.j.slot + 1 && q.r.slot == (if p.r.phase == Waiting then 0 else p.r.slot) + 1
      && q.j.idle == p.j.idle + 1 && q.r.idle == 0
  {
  }

  /** And the joiner the router's; the last message brings both ends up in the same slot. A resuming joiner
      never hears its router, which `Exchange` shows. */
  lemma RouterIsHeard(p: Pair, slot: Slot)
    requires Valid(p) && Clear(slot) && Early(p, 1) && InDialogue(p) && p.r.owe && !p.j.owe && !p.j.resuming
    ensures
      var q := Next(p, slot);
      && (Final(p.r.staged) ==> q.j.phase == Linked && q.r.phase == Linked)
      && (!Final(p.r.staged) ==>
            && InDialogue(q) && q.j.staged == Reply(p.r.staged) && q.r.staged == p.r.staged && q.j.owe && !q.r.owe
            && q.j.slot == p.j.slot + 1 && q.r.slot == p.r.slot + 1
            && q.j.idle == 0 && q.r.idle == p.r.idle + 1)
  {
  }

  /** Four undisturbed slots bring both ends up. */
  lemma UndisturbedCompletes(clear: Slot)
    requires Clear(clear)
    ensures Up(Next(Next(Next(Next(Start(false), clear), clear), clear), clear))
  {
    var p := Start(false);
    RoundTrip(p, clear);
    RoundTrip(Next(Next(p, clear), clear), clear);
  }

  /** Two undisturbed slots: a message from the joiner and the router's answer to it. */
  lemma RoundTrip(p: Pair, clear: Slot)
    requires Valid(p) && Clear(clear) && Early(p, 2) && p.j.phase == Active && p.j.owe && !p.j.resuming
    requires p.r.phase == Active ==> !p.r.owe
    requires p.r.phase == Active || (p.r.phase == Waiting && Request(p.j.staged))
    ensures
      var q := Next(Next(p, clear), clear);
      var answer := Reply(p.j.staged);
      && Valid(q)
      && (Final(answer) ==> q.j.phase == Linked && q.r.phase == Linked)
      && (!Final(answer) ==>
            && InDialogue(q) && q.j.staged == Reply(answer) && q.r.staged == answer && q.j.owe && !q.r.owe
            && q.j.slot == p.j.slot + 2 && q.r.slot == (if p.r.phase == Waiting then 0 else p.r.slot) + 2
            && q.j.idle == 0 && q.r.idle == 1)
  {
    JoinerIsHeard(p, clear);
    SlotKeepsValid(p, clear);
    RouterIsHeard(Next(p, clear), clear);
    SlotKeepsValid(Next(p, clear), clear);
  }

  // ----- losing messages -----

  // Messages of a full handshake, and how many of them may be lost.
  const MESSAGES: nat := 4
  const LOSS_LIMIT: nat := 3

  /** Both ends take their turn at the slot the clock expects. */
  predicate Timely(p: Pair, slot: Slot) {
    BothTook(slot) && slot.jClock <= p.j.slot + 1 && slot.rClock <= p.r.slot + 1
  }

  predicate Speaking(p: Pair) {
    (p.j.phase == Active && p.j.owe) || (p.r.phase == Active && p.r.owe)
  }

  /** A full handshake is under way and turns have been kept. */
  predicate OnCourse(p: Pair) {
    && Valid(p) && !p.j.resuming && p.j.phase == Active && p.r.phase in {Waiting, Active}
    && (p.r.staged == NoMsg ==> Request(p.j.staged))
    && (p.r.staged != NoMsg ==> OneOwes(p))
    && (Final(p.r.staged) ==> p.r.owe)
  }

  /** Undisturbed slots until both ends are up. */
  function ToGo(p: Pair): (n: nat)
    requires OnCourse(p)
    ensures n >= 1
  {
    if p.r.staged == NoMsg then MESSAGES + (if p.j.owe then 0 else 1)
    else if Final(p.r.staged) then 1
    else if p.j.staged == JoinReq then if p.r.owe then 3 else 4
    else if p.j.owe then 2 else 3
  }

  /** Somebody sends, and nothing is complete at the other end afterwards. */
  predicate Loses(p: Pair, slot: Slot) {
    OnCourse(p) && Speaking(p) && !slot.heard.Whole?
  }

  /** What cannot be made good: a reception that completes as something invalid, or the loss of the final
      message. */
  predicate Spoils(p: Pair, slot: Slot) {
    OnCourse(p) && ((Speaking(p) && slot.heard == Whole(false)) || (ToGo(p) == 1 && !slot.heard.Whole?))
  }

  // Two wasted slots for each loss, and one more for an end whose turn it is to listen. Before the router
  // has an answer the joiner wastes both slots of a loss itself.
  predicate Patient(p: Pair, losses: nat) {
    if p.r.staged == NoMsg then
      p.j.idle + (if p.j.owe then 0 else 1) <= 2 * losses
      && (p.r.phase == Active ==> p.r.idle + (if p.j.owe then 0 else 1) <= 2 * losses)
    else
      p.j.idle <= 2 * losses + (if p.j.owe then 0 else 1) && p.r.idle <= 2 * losses + (if p.r.owe then 0 else 1)
  }

  /** What holds on course after some losses: no end is out of patience or late. */
  predicate Course(p: Pair, losses: nat) {
    && OnCourse(p) && Patient(p, losses)
    && p.j.slot + ToGo(p) <= MESSAGES + 2 * losses
    && (p.r.phase == Active ==> p.r.slot + ToGo(p) <= MESSAGES + 2 * losses)
    && (p.r.phase == Waiting ==> p.r.slot == 0)
  }

  predicate Up(p: Pair) {
    p.j.phase == Linked && p.r.phase == Linked
  }

  /** A slot brings the end one nearer; a loss, other than of the final message, costs one slot and what
      it takes to make it good. */
  lemma CourseStep(p: Pair, slot: Slot, losses: nat)
    requires Course(p, losses) && Timely(p, slot) && !Spoils(p, slot)
    requires losses + (if Loses(p, slot) then 1 else 0) <= LOSS_LIMIT
    ensures
      var q := Next(p, slot);
      if ToGo(p) == 1 then Up(q)
      else
        && OnCourse(q) && ToGo(q) <= (if Loses(p, slot) then ToGo(p) + 1 else ToGo(p) - 1)
        && Course(q, losses + if Loses(p, slot) then 1 else 0)
  {
    SlotKeepsValid(p, slot);
    if p.j.owe {
      JoinersTurn(p, slot, losses);
    } else if p.r.phase == Active && p.r.owe {
      RoutersTurn(p, slot, losses);
    } else {
      NobodysTurn(p, slot, losses);
    }
  }

  lemma NobodysTurn(p: Pair, slot: Slot, losses: nat)
    requires Course(p, losses) && Timely(p, slot) && losses <= LOSS_LIMIT
    requires !p.j.owe && !(p.r.phase == Active && p.r.owe)
    ensures
      var q := Next(p, slot);
      ToGo(p) > 1 && !Loses(p, slot) && OnCourse(q) && ToGo(q) == ToGo(p) - 1 && Course(q, losses)
  {
    SlotKeepsValid(p, slot);
  }

  lemma JoinersTurn(p: Pair, slot: Slot, losses: nat)
    requires Course(p, losses) && Timely(p, slot) && !Spoils(p, slot) && p.j.owe
    requires losses + (if Loses(p, slot) then 1 else 0) <= LOSS_LIMIT
    ensures
      var q := Next(p, slot);
      && ToGo(p) > 1 && OnCourse(q) && ToGo(q) <= (if Loses(p, slot) then ToGo(p) + 1 else ToGo(p) - 1)
      && Course(q, losses + if Loses(p, slot) then 1 else 0)
  {
    SlotKeepsValid(p, slot);
  }

  lemma RoutersTurn(p: Pair, slot: Slot, losses: nat)
    requires Course(p, losses) && Timely(p, slot) && !Spoils(p, slot)
    requires !p.j.owe && p.r.phase == Active && p.r.owe
    requires losses + (if Loses(p, slot) then 1 else 0) <= LOSS_LIMIT
    ensures
      var q := Next(p, slot);
      if ToGo(p) == 1 then Up(q)
      else
        && OnCourse(q) && ToGo(q) <= (if Loses(p, slot) then ToGo(p) + 1 else ToGo(p) - 1)
        && Course(q, losses + if Loses(p, slot) then 1 else 0)
  {
    SlotKeepsValid(p, slot);
  }

  /** One end has failed, or the router is up and its joiner is not: they never both come up. */
  predicate Doomed(p: Pair) {
    Valid(p) && (p.j.phase == Failed || p.r.phase == Failed || (p.j.phase == Active && p.r.phase == Linked))
  }

  lemma SpoiledIsDoomed(p: Pair, slot: Slot)
    requires Spoils(p, slot) && BothTook(slot)
    ensures Doomed(Next(p, slot))
  {
    SlotKeepsValid(p, slot);
  }

  lemma DoomedStays(p: Pair, slot: Slot)
    requires Doomed(p)
    ensures Doomed(Next(p, slot))
  {
    SlotKeepsValid(p, slot);
  }

  function Losses(p: Pair, slots: seq<Slot>): nat {
    if slots == [] then 0
    else
      var before := slots[..|slots| - 1];
      Losses(p, before) + if Loses(Run(p, before), slots[|slots| - 1]) then 1 else 0
  }

  /** While the exchange is under way both ends take their turns in time. */
  predicate TimelyRun(p: Pair, slots: seq<Slot>) {
    slots == [] ||
    var before := slots[..|slots| - 1];
    TimelyRun(p, before) && (OnCourse(Run(p, before)) ==> Timely(Run(p, before), slots[|slots| - 1]))
  }

  /** Some slot spoils the exchange. */
  predicate Spoiled(p: Pair, slots: seq<Slot>) {
    slots != [] &&
    var before := slots[..|slots| - 1];
    Spoiled(p, before) || Spoils(Run(p, before), slots[|slots| - 1])
  }

  // Where the exchange stands after `n` slots: beyond hope if one was spoiled, else done or so much nearer.
  ghost predicate Standing(q: Pair, n: nat, losses: nat, spoiled: bool) {
    if spoiled then Doomed(q)
    else Up(q) || (Course(q, losses) && ToGo(q) + n <= MESSAGES + 2 * losses)
  }

  lemma StandingStep(q: Pair, n: nat, losses: nat, spoiled: bool, slot: Slot,
                     q': Pair, n': nat, losses': nat, spoiled': bool)
    requires Standing(q, n, losses, spoiled) && (OnCourse(q) ==> Timely(q, slot))
    requires q' == Next(q, slot) && n' == n + 1 && (spoiled' <==> spoiled || Spoils(q, slot))
    requires losses' == losses + (if Loses(q, slot) then 1 else 0) && losses' <= LOSS_LIMIT
    ensures Standing(q', n', losses', spoiled')
  {
    if spoiled {
      DoomedStays(q, slot);
    } else if Up(q) {
      UpStays(q, slot);
    } else if Spoils(q, slot) {
      SpoiledIsDoomed(q, slot);
    } else {
      CourseStep(q, slot, losses);
    }
  }

  lemma {:induction false} StandingAfter(p: Pair, slots: seq<Slot>)
    requires p == Start(false) && TimelyRun(p, slots) && Losses(p, slots) <= LOSS_LIMIT
    ensures Standing(Run(p, slots), |slots|, Losses(p, slots), Spoiled(p, slots))
  {
    if slots != [] {
      var n := |slots| - 1;
      StandingAfter(p, slots[..n]);
      StandingStep(Run(p, slots[..n]), n, Losses(p, slots[..n]), Spoiled(p, slots[..n]), slots[n],
                   Run(p, slots), |slots|, Losses(p, slots), Spoiled(p, slots));
    }
  }

  lemma UpStays(p: Pair, slot: Slot)
    requires Up(p)
    ensures Up(Next(p, slot))
  {
  }

  /** Any three messages may be lost, each costing two slots: within that limit both ends come up exactly when
      no slot spoils the exchange. */
  lemma UpIffUnspoiled(p: Pair, slots: seq<Slot>)
    requires p == Start(false) && TimelyRun(p, slots) && Losses(p, slots) <= LOSS_LIMIT
    requires |slots| >= MESSAGES + 2 * Losses(p, slots)
    ensures Up(Run(p, slots)) <==> !Spoiled(p, slots)
  {
    StandingAfter(p, slots);
  }

  /** A fourth loss in a row can be one too many: a joiner whose first four requests are lost gives up. */
  lemma FourLossesAreFatal(slots: seq<Slot>)
    requires |slots| == 8 && forall k :: 0 <= k < 8 ==> slots[k] == Slot(Took, Took, Nothing, 0, 0)
    ensures Run(Start(false), slots).j.phase == Failed
  {
    UnheardSlots(slots, 7);
    assert slots[..8] == slots && slots[..8][..7] == slots[..7];
  }

  lemma {:induction false} UnheardSlots(slots: seq<Slot>, n: nat)
    requires n <= |slots| && n <= 7 && forall k :: 0 <= k < n ==> slots[k] == Slot(Took, Took, Nothing, 0, 0)
    ensures
      var p := Run(Start(false), slots[..n]);
      && p.j == Side(Active, true, false, n % 2 == 0, JoinReq, n, n, n > 0 && n % 2 == 1, false, false)
      && p.r == Start(false).r
  {
    if n > 0 {
      UnheardSlots(slots, n - 1);
      assert slots[..n][..n - 1] == slots[..n - 1] && slots[..n][n - 1] == slots[n - 1];
      UnheardSlot(Run(Start(false), slots[..n - 1]), n - 1, slots[n - 1]);
    }
  }

  lemma UnheardSlot(p: Pair, n: nat, slot: Slot)
    requires n < 7 && slot == Slot(Took, Took, Nothing, 0, 0) && p.r == Start(false).r
    requires p.j == Side(Active, true, false, n % 2 == 0, JoinReq, n, n, n > 0 && n % 2 == 1, false, false)
    ensures
      var q := Next(p, slot);
      && q.j == Side(Active, true, false, (n + 1) % 2 == 0, JoinReq, n + 1, n + 1, (n + 1) % 2 == 1, false, false)
      && q.r == p.r
  {
  }

  /** Losing the final message is always fatal to the joiner: the router comes up on sending it and does not
      send it again. */
  lemma FinalLossIsFatal(p: Pair, slot: Slot, slots: seq<Slot>)
    requires Valid(p) && InDialogue(p) && Final(p.r.staged) && p.r.owe && !p.j.owe
    requires BothTook(slot) && !slot.heard.Whole?
    requires forall i :: 0 <= i < |slots| ==> BothTook(slots[i])
    ensures Next(p, slot).r.phase == Linked
    ensures |slots| >= IDLE_LIMIT ==> Run(Next(p, slot), slots).j.phase == Failed
  {
    SlotKeepsValid(p, slot);
    StuckThroughout(Next(p, slot), slots);
  }

  // ----- the end as the firmware holds it -----

  class Driver {
    var phase: Phase
    var joiner: bool
    var resuming: bool
    var owe: bool
    var staged: Msg
    var slot: nat
    var idle: nat
    var wasTx: bool
    var progressed: bool
    var refused: bool

    function State(): Side
      reads this
    {
      Side(phase, joiner, resuming, owe, staged, slot, idle, wasTx, progressed, refused)
    }

    constructor (joiner: bool, resuming: bool)
      ensures State() == if joiner then Start(resuming).j else Start(resuming).r
    {
      phase, this.joiner := if joiner then Active else Waiting, joiner;
      this.resuming := joiner && resuming;
      owe, staged := joiner, if !joiner then NoMsg else if resuming then ResumeReq else JoinReq;
      slot, idle, wasTx, progressed, refused := 0, 0, false, false, false;
    }

    method StageMessage(m: Msg)
      modifies this
      ensures State() == Stage(old(State()), m)
    {
      owe := true;
      staged := m;
    }

    /** `join_tx_start`, `join_rx_start` or `join_aborted`, or none of them. */
    method BeginSlot(turn: Turn)
      modifies this
      ensures State() == Begin(old(State()), turn)
    {
      if phase != Active {
        return;
      }
      if turn == Refused {
        wasTx := false;
        progressed := false;
        refused := true;
      } else if turn == Took {
        wasTx := owe;
      }
    }

    // The first fragment of a request starts the router's side.
    method Open(m: Msg)
      modifies this
      ensures State() == Side(Active, false, m == ResumeReq, false, NoMsg, 0, 0, false, false, false)
    {
      phase, joiner, resuming := Active, false, m == ResumeReq;
      owe, staged, slot, idle := false, NoMsg, 0, 0;
      wasTx, progressed, refused := false, false, false;
    }

    /** `lg_join_rx_pdu`. */
    method ReceiveMessage(m: Msg, heard: Heard)
      modifies this
      ensures State() == Hear(old(State()), m, heard)
    {
      if phase == Waiting && Request(m) && heard != Nothing {
        Open(m);
      }
      if phase != Active || !heard.Whole? {
        return;
      }
      if !heard.valid {
        phase := Failed;
        return;
      }
      if Final(m) {
        phase := Linked;
        return;
      }
      StageMessage(Reply(m));
      progressed := true;
    }

    // The budgets: idle slots, which refused ones leave alone, and the slot number.
    method CountSlot(clock: nat)
      modifies this`idle, this`refused, this`slot, this`progressed
      ensures idle == if old(progressed) then 0 else if old(refused) then old(idle) else old(idle) + 1
      ensures slot == Max(old(slot) + 1, clock) && !refused && !progressed
    {
      if progressed {
        idle := 0;
      } else if !refused {
        idle := idle + 1;
      }
      refused := false;
      slot := Max(slot + 1, clock);
      progressed := false;
    }

    /** `lg_join_event_finish`, given the slot the clock says is next. */
    method EventFinish(clock: nat)
      modifies this
      ensures State() == Settle(old(State()), clock)
    {
      if phase != Active {
        return;
      }
      if !joiner && wasTx && (staged == JoinAck || staged == ResumeRsp) {
        phase := Linked;
        return;
      }
      if wasTx {
        owe := false;
      } else if !progressed {
        owe := staged != NoMsg;
      }
      CountSlot(clock);
      if idle >= (if resuming then IDLE_LIMIT_RESUME else IDLE_LIMIT) {
        phase := Failed;
        return;
      }
      if slot >= SlotLimit(resuming) {
        phase := Failed;
        return;
      }
      if owe && staged == NoMsg {
        phase := Failed;
      }
    }
  }
}
