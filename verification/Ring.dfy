/** The ring that carries received frames from the radio interrupt to the work queue.

    Producer and consumer interleave at every load, store and increment. History counters that
    never wrap say how often each end has stepped.
 */
module Ring {
  import opened Arith
  import opened Config

  const SIZE: nat := 8

  type Record = seq<nat>

  // Torn: the producer has begun to overwrite the slot and has not finished.
  datatype Slot = Empty | Torn | Full(rec: Record)

  /** Where `lg_rx_post` is. */
  datatype Producer =
    | Resting
    | Loaded(rec: Record, head: nat)
    | Seen(rec: Record, head: nat, tail: nat)
    | Writing(rec: Record, head: nat)
    | Written

  /** Where `rx_handler` is. */
  datatype Consumer = Waiting | Peeked(tail: nat) | Reading(idx: nat)

  type Slots = s: seq<Slot> | |s| == 8 witness [Empty, Empty, Empty, Empty, Empty, Empty, Empty, Empty]

  // `seenAt` is the history counter behind the tail the producer loaded last.
  datatype State = State(slots: Slots, head: nat, tail: nat, producer: Producer, consumer: Consumer,
                         accepted: seq<Record>, dispatched: seq<Slot>, posted: nat, retired: nat, seenAt: nat)

  datatype Action = Arrive(rec: Record) | LoadTail | Check | EndWrite | Publish | LookTail | LookHead | Retire

  // Unsigned 32-bit subtraction and increment.
  function Sub(a: nat, b: nat): nat {
    (a - b) % WORD32
  }

  function Inc(a: nat): nat {
    (a + 1) % WORD32
  }

  function Initial(): State {
    State([Empty, Empty, Empty, Empty, Empty, Empty, Empty, Empty], 0, 0, Resting, Waiting, [], [], 0, 0, 0)
  }

  /** One atomic step of either side; a step that is not due changes nothing. */
  function Next(s: State, a: Action): State {
    match a
    case Arrive(rec) => if s.producer.Resting? then s.(producer := Loaded(rec, s.head)) else s
    case LoadTail =>
      if s.producer.Loaded? then
        s.(producer := Seen(s.producer.rec, s.producer.head, s.tail), seenAt := s.retired)
      else s
    case Check =>
      if !s.producer.Seen? then s
      else if |s.producer.rec| > PDU_MAX || Sub(s.producer.head, s.producer.tail) >= SIZE then s.(producer := Resting)
      else s.(producer := Writing(s.producer.rec, s.producer.head), accepted := s.accepted + [s.producer.rec],
              slots := s.slots[s.producer.head % SIZE := Torn])
    case EndWrite =>
      if s.producer.Writing? then
        s.(producer := Written, slots := s.slots[s.producer.head % SIZE := Full(s.producer.rec)])
      else s
    case Publish =>
      if s.producer.Written? then s.(producer := Resting, head := Inc(s.head), posted := s.posted + 1) else s
    case LookTail => if s.consumer.Waiting? then s.(consumer := Peeked(s.tail)) else s
    case LookHead =>
      if !s.consumer.Peeked? then s
      else if s.consumer.tail == s.head then s.(consumer := Waiting)
      else s.(consumer := Reading(s.tail % SIZE), dispatched := s.dispatched + [s.slots[s.tail % SIZE]])
    case Retire =>
      if s.consumer.Reading? then s.(consumer := Waiting, tail := Inc(s.tail), retired := s.retired + 1) else s
  }

  function Run(actions: seq<Action>): State {
    if actions == [] then Initial() else Next(Run(actions[..|actions| - 1]), actions[|actions| - 1])
  }

  // ----- the invariant -----

  predicate Mid(p: Producer) {
    p.Writing? || p.Written?
  }

  /** The wrapped counters stand for the history, which is never more than a ring apart. */
  ghost predicate Counters(s: State) {
    && s.retired <= s.posted <= s.retired + SIZE
    && s.head == s.posted % WORD32 && s.tail == s.retired % WORD32
    && |s.accepted| == s.posted + (if Mid(s.producer) then 1 else 0)
    && |s.dispatched| == s.retired + (if s.consumer.Reading? then 1 else 0)
  }

  ghost predicate Places(s: State) {
    && (s.producer.Loaded? ==> s.producer.head == s.head)
    && (s.producer.Seen? ==>
          && s.producer.head == s.head && s.producer.tail == s.seenAt % WORD32
          && s.seenAt <= s.retired && s.posted <= s.seenAt + SIZE)
    && (s.producer.Writing? ==> s.producer.head == s.head)
    && (Mid(s.producer) ==> s.posted < s.retired + SIZE)
    && (s.consumer.Peeked? ==> s.consumer.tail == s.tail)
    && (s.consumer.Reading? ==> s.consumer.idx == s.retired % SIZE && s.retired < s.posted)
  }

  ghost predicate Contents(s: State)
    requires Counters(s) && Places(s)
  {
    && (forall k {:trigger s.accepted[k]} :: s.retired <= k < s.posted ==> s.slots[k % SIZE] == Full(s.accepted[k]))
    && (s.producer.Writing? ==> s.accepted[s.posted] == s.producer.rec)
    && (s.producer.Written? ==> s.slots[s.posted % SIZE] == Full(s.accepted[s.posted]))
    && (forall i :: 0 <= i < |s.dispatched| ==> s.dispatched[i] == Full(s.accepted[i]))
  }

  ghost predicate Valid(s: State) {
    Counters(s) && Places(s) && Contents(s)
  }

  lemma Wrapped(n: nat)
    ensures n % WORD32 % SIZE == n % SIZE
    ensures Inc(n % WORD32) == (n + 1) % WORD32
  {
    var q, r := n / WORD32, n % WORD32;
    DivMod(n, WORD32);
    DivMod(r, SIZE);
    assert n == (q * 0x2000_0000 + r / SIZE) * SIZE + r % SIZE;
    DivModUnique(n, SIZE, q * 0x2000_0000 + r / SIZE, r % SIZE);
    if r + 1 < WORD32 {
      DivModUnique(n + 1, WORD32, q, r + 1);
    } else {
      DivModUnique(n + 1, WORD32, q + 1, 0);
    }
  }

  /** Wrapped or not, the difference is the number of records between. */
  lemma Difference(a: nat, b: nat)
    requires b <= a < b + WORD32
    ensures Sub(a % WORD32, b % WORD32) == a - b
    ensures a % WORD32 == b % WORD32 <==> a == b
  {
    DivMod(a, WORD32);
    DivMod(b, WORD32);
    var d := a / WORD32 - b / WORD32;
    assert a % WORD32 - b % WORD32 == a - b - d * WORD32;
    if d == 0 {
      DivModUnique(a % WORD32 - b % WORD32, WORD32, 0, a - b);
    } else {
      assert d == 1;
      DivModUnique(a % WORD32 - b % WORD32, WORD32, -1, a - b);
    }
  }

  /** Records less than a ring apart lie in different slots. */
  lemma Apart(a: nat, b: nat)
    requires a < b < a + SIZE
    ensures a % SIZE != b % SIZE
  {
  }

  lemma CheckKeeps(s: State)
    requires Valid(s)
    ensures Valid(Next(s, Check))
  {
    if s.producer.Seen? {
      Difference(s.posted, s.seenAt);
      Wrapped(s.posted);
      SlotFree(s, Next(s, Check), Torn);
    }
  }

  // Writing the next slot touches no record still to be read.
  lemma SlotFree(s: State, t: State, v: Slot)
    requires Counters(s) && Counters(t) && s.posted == t.posted && s.retired == t.retired
    requires t.slots == s.slots || (s.posted < s.retired + SIZE && t.slots == s.slots[s.posted % SIZE := v])
    requires s.accepted <= t.accepted
    requires forall k {:trigger s.accepted[k]} :: s.retired <= k < s.posted ==> s.slots[k % SIZE] == Full(s.accepted[k])
    ensures forall k {:trigger t.accepted[k]} :: t.retired <= k < t.posted ==> t.slots[k % SIZE] == Full(t.accepted[k])
  {
    forall k {:trigger t.accepted[k]} | t.retired <= k < t.posted
      ensures t.slots[k % SIZE] == Full(t.accepted[k])
    {
      assert s.accepted[k] == t.accepted[k];
      if s.posted < s.retired + SIZE {
        Apart(k, s.posted);
      }
    }
  }

  lemma EndWriteKeeps(s: State)
    requires Valid(s)
    ensures Valid(Next(s, EndWrite))
  {
    if s.producer.Writing? {
      Wrapped(s.posted);
      SlotFree(s, Next(s, EndWrite), Full(s.producer.rec));
    }
  }

  lemma PublishKeeps(s: State)
    requires Valid(s)
    ensures Valid(Next(s, Publish))
  {
    Wrapped(s.posted);
  }

  lemma LookHeadKeeps(s: State)
    requires Valid(s)
    ensures Valid(Next(s, LookHead))
  {
    if s.consumer.Peeked? {
      Difference(s.posted, s.retired);
      Wrapped(s.retired);
      if s.retired < s.posted {
        assert s.slots[s.retired % SIZE] == Full(s.accepted[s.retired]);
      }
    }
  }

  lemma RetireKeeps(s: State)
    requires Valid(s)
    ensures Valid(Next(s, Retire))
  {
    Wrapped(s.retired);
  }

  lemma StepKeepsValid(s: State, a: Action)
    requires Valid(s)
    ensures Valid(Next(s, a))
  {
    match a
    case Check => CheckKeeps(s);
    case EndWrite => EndWriteKeeps(s);
    case Publish => PublishKeeps(s);
    case LookHead => LookHeadKeeps(s);
    case Retire => RetireKeeps(s);
    case _ =>
  }

  lemma {:induction false} RunKeepsValid(actions: seq<Action>)
    ensures Valid(Run(actions))
  {
    if actions != [] {
      RunKeepsValid(actions[..|actions| - 1]);
      StepKeepsValid(Run(actions[..|actions| - 1]), actions[|actions| - 1]);
    }
  }

  // ----- what it means -----

  /** Under every interleaving and any number of wraps, what was dispatched is a prefix of what was
      accepted: each record once, in order, whole. */
  lemma DispatchedIsPrefix(actions: seq<Action>)
    ensures
      var s := Run(actions);
      |s.dispatched| <= |s.accepted| && forall i :: 0 <= i < |s.dispatched| ==> s.dispatched[i] == Full(s.accepted[i])
  {
    RunKeepsValid(actions);
  }

  /** The record being read is never the one being written, and does not change under the reader,
      whatever step comes next. */
  lemma NeverOverwrittenWhileRead(actions: seq<Action>, a: Action)
    ensures
      var s := Run(actions);
      s.consumer.Reading? ==>
        && s.consumer.idx < SIZE && s.retired < |s.accepted|
        && (s.producer.Writing? ==> s.producer.head % SIZE != s.consumer.idx)
        && Next(s, a).slots[s.consumer.idx] == s.slots[s.consumer.idx] == Full(s.accepted[s.retired])
  {
    RunKeepsValid(actions);
    var s := Run(actions);
    if s.consumer.Reading? {
      assert s.slots[s.retired % SIZE] == Full(s.accepted[s.retired]);
      Wrapped(s.posted);
      if s.posted < s.retired + SIZE {
        Apart(s.retired, s.posted);
      }
      if s.producer.Seen? {
        Difference(s.posted, s.seenAt);
      }
    }
  }

  /** A frame is turned away only if it is too long or the ring was full when the tail was read;
      a full ring is all eight slots. */
  lemma RejectedOnlyWhenFull(actions: seq<Action>)
    ensures
      var s := Run(actions);
      s.producer.Seen? ==>
        (Next(s, Check).accepted == s.accepted <==>
          |s.producer.rec| > PDU_MAX || s.posted - s.seenAt == SIZE)
  {
    RunKeepsValid(actions);
    var s := Run(actions);
    if s.producer.Seen? {
      Difference(s.posted, s.seenAt);
      assert |Next(s, Check).accepted| == |s.accepted| <==> Next(s, Check).accepted == s.accepted;
    }
  }

  /** When the handler finds nothing to do, everything published has been dispatched. */
  lemma DrainedMeansAll(actions: seq<Action>)
    ensures
      var s := Run(actions);
      s.consumer.Peeked? && Next(s, LookHead).consumer.Waiting? ==> |s.dispatched| == s.posted
  {
    RunKeepsValid(actions);
    var s := Run(actions);
    Difference(s.posted, s.retired);
  }

  // ----- the ring as the firmware holds it -----

  class RxRing {
    const slots: array<Slot>
    var head: nat
    var tail: nat
    var producer: Producer
    var consumer: Consumer
    ghost var accepted: seq<Record>
    ghost var dispatched: seq<Slot>
    ghost var posted: nat
    ghost var retired: nat
    ghost var seenAt: nat

    ghost function Abstract(): State
      requires slots.Length == SIZE
      reads this, slots
    {
      State(slots[..], head, tail, producer, consumer, accepted, dispatched, posted, retired, seenAt)
    }

    ghost predicate Sound()
      reads this, slots
    {
      slots.Length == SIZE && Valid(Abstract())
    }

    constructor ()
      ensures Sound() && fresh(slots) && Abstract() == Initial()
    {
      slots := new Slot[8](_ => Empty);
      head, tail, producer, consumer := 0, 0, Resting, Waiting;
      accepted, dispatched, posted, retired, seenAt := [], [], 0, 0, 0;
      new;
      assert slots[..] == Initial().slots;
      RunKeepsValid([]);
      assert Run([]) == Initial();
    }

    /** `lg_rx_post` begins with the two loads. */
    method LoadHead(rec: Record)
      requires Sound() && producer.Resting?
      modifies this`producer
      ensures Sound() && Abstract() == Next(old(Abstract()), Arrive(rec))
    {
      StepKeepsValid(Abstract(), Arrive(rec));
      producer := Loaded(rec, head);
    }

    method LoadTailCounter()
      requires Sound() && producer.Loaded?
      modifies this`producer, this`seenAt
      ensures Sound() && Abstract() == Next(old(Abstract()), LoadTail)
    {
      StepKeepsValid(Abstract(), LoadTail);
      producer := Seen(producer.rec, producer.head, tail);
      seenAt := retired;
    }

    /** The test, and the start of the copy. */
    method CheckRoom()
      requires Sound() && producer.Seen?
      modifies this`producer, this`accepted, slots
      ensures Sound() && Abstract() == Next(old(Abstract()), Check)
    {
      StepKeepsValid(Abstract(), Check);
      var rec, h, t := producer.rec, producer.head, producer.tail;
      if |rec| > PDU_MAX || (h - t) % WORD32 >= SIZE {
        producer := Resting;
        return;
      }
      slots[h % SIZE] := Torn;
      producer := Writing(rec, h);
      accepted := accepted + [rec];
    }

    method FinishWrite()
      requires Sound() && producer.Writing?
      modifies this`producer, slots
      ensures Sound() && Abstract() == Next(old(Abstract()), EndWrite)
    {
      StepKeepsValid(Abstract(), EndWrite);
      slots[producer.head % SIZE] := Full(producer.rec);
      producer := Written;
    }

    method PublishHead()
      requires Sound() && producer.Written?
      modifies this`producer, this`head, this`posted
      ensures Sound() && Abstract() == Next(old(Abstract()), Publish)
    {
      StepKeepsValid(Abstract(), Publish);
      head := (head + 1) % WORD32;
      producer := Resting;
      posted := posted + 1;
    }

    method PeekTail()
      requires Sound() && consumer.Waiting?
      modifies this`consumer
      ensures Sound() && Abstract() == Next(old(Abstract()), LookTail)
    {
      StepKeepsValid(Abstract(), LookTail);
      consumer := Peeked(tail);
    }

    /** The loop test of `rx_handler`; `slot` is what a dispatch then reads. */
    method Compare() returns (more: bool, slot: Slot)
      requires Sound() && consumer.Peeked?
      modifies this`consumer, this`dispatched
      ensures Sound() && Abstract() == Next(old(Abstract()), LookHead)
      ensures more <==> consumer.Reading?
      ensures more ==> slot == Full(accepted[|dispatched| - 1])
    {
      StepKeepsValid(Abstract(), LookHead);
      if consumer.tail == head {
        consumer := Waiting;
        return false, Empty;
      }
      slot := slots[tail % SIZE];
      consumer := Reading(tail % SIZE);
      dispatched := dispatched + [slot];
      return true, slot;
    }

    method RetireTail()
      requires Sound() && consumer.Reading?
      modifies this`consumer, this`tail, this`retired
      ensures Sound() && Abstract() == Next(old(Abstract()), Retire)
    {
      StepKeepsValid(Abstract(), Retire);
      tail := (tail + 1) % WORD32;
      consumer := Waiting;
      retired := retired + 1;
    }
  }
}
