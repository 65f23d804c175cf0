/** When a link's events fall: event numbers, catching up, and staying in step. */
module Schedule {
  import opened Arith
  import opened Config

  const EVENT_MODULUS: nat := WORD16

  function Step(subrate: nat): (s: nat)
    ensures s >= 1
  {
    Max(subrate, 1)
  }

  /** `next_active`: the next multiple of the subrate, in sixteen bits. */
  function NextActive(subrate: nat, after: nat): nat {
    (after / Step(subrate) + 1) * Step(subrate) % EVENT_MODULUS
  }

  // Event numbers at which an end with this subrate wakes.
  predicate Active(subrate: nat, c: int) {
    c % Step(subrate) == 0
  }

  /** Without wrapping, the next active event is the least active one after `after`. */
  lemma NextActiveIsLeast(subrate: nat, after: nat)
    requires (after / Step(subrate) + 1) * Step(subrate) < EVENT_MODULUS
    ensures
      var r := NextActive(subrate, after);
      && Active(subrate, r) && after < r <= after + Step(subrate)
      && forall c :: after < c < r ==> !Active(subrate, c)
  {
    var s := Step(subrate);
    var r := (after / s + 1) * s;
    DivMod(after, s);
    Gap(0, after / s + 1, s);
    MultipleOf(after / s + 1, s);
    DivModUnique(r, EVENT_MODULUS, 0, r);
    assert r == after / s * s + s;
    forall c | after < c < r
      ensures !Active(subrate, c)
    {
      DivModUnique(c, s, after / s, c - after / s * s);
    }
  }

  lemma GridPoint(c: nat, interval: nat)
    requires interval >= 1
    ensures (c * interval + interval / 2) / interval == c
  {
    DivModUnique(c * interval + interval / 2, interval, c, interval / 2);
  }

  /** The event `c` is the first active one from `from` on whose time is not before the
      deadline, both measured from event zero. */
  ghost predicate FirstReady(interval: nat, subrate: nat, from: nat, deadline: int, c: nat) {
    && from <= c && Active(subrate, c) && c * interval >= deadline
    && forall e: nat :: from <= e < c && Active(subrate, e) ==> e * interval < deadline
  }

  /** What is loaded does not depend on where an end started: two ends whose deadlines fall
      in the same gap between active events load the same event, whatever each had skipped. */
  lemma SkipsDoNotDiverge(interval: nat, subrate: nat, from1: nat, from2: nat, d1: int, d2: int, c1: nat, c2: nat)
    requires FirstReady(interval, subrate, from1, d1, c1) && FirstReady(interval, subrate, from2, d2, c2)
    requires from1 <= c2 && from2 <= c1
    requires forall e: nat :: Active(subrate, e) ==> (e * interval >= d1 <==> e * interval >= d2)
    ensures c1 == c2
  {
  }

  /** In particular two ends that start at or before a common deadline load the same event, and it
      is the least active one at or after that deadline. */
  lemma CommonDeadline(interval: nat, subrate: nat, from1: nat, from2: nat, d: int, c1: nat, c2: nat)
    requires interval >= 1 && from1 * interval <= d && from2 * interval <= d
    requires FirstReady(interval, subrate, from1, d, c1) && FirstReady(interval, subrate, from2, d, c2)
    ensures c1 == c2
    ensures forall e: nat :: Active(subrate, e) && e * interval >= d ==> c1 <= e
  {
    MultiplesOrdered(c2, from1, interval);
    MultiplesOrdered(c1, from2, interval);
    forall e: nat | Active(subrate, e) && e * interval >= d
      ensures c1 <= e
    {
      MultiplesOrdered(e, from1, interval);
    }
  }

  /** The largest event an end with this subrate can ever load. */
  function LastActive(subrate: nat): (m: nat)
    requires Step(subrate) <= 256
    ensures m < EVENT_MODULUS && Active(subrate, m) && m + Step(subrate) >= EVENT_MODULUS
  {
    var s := Step(subrate);
    MultipleOf((EVENT_MODULUS - 1) / s, s);
    (EVENT_MODULUS - 1) / s * s
  }

  // ----- where catching up ends -----

  /** The event loaded after the loop body has run `k` times. */
  ghost function Advanced(subrate: nat, c: nat, k: nat): nat {
    if k == 0 then c else NextActive(subrate, Advanced(subrate, c, k - 1))
  }

  /** After `k` advances catching up has ended: the event loaded meets the deadline, and if none was
      made it was active to begin with. */
  ghost predicate EndsAfter(subrate: nat, interval: nat, deadline: int, c: nat, k: nat) {
    (k >= 1 || Active(subrate, c)) && Advanced(subrate, c, k) * interval >= deadline
  }

  /** Past the horizon the catch-up loop cannot end: sixteen-bit event numbers never reach
      an event at the deadline, whatever number of times it advances. An end may start past the
      last active event, where a change of subrate can leave it; its first advance wraps. */
  lemma {:induction false} CatchUpNeverEnds(subrate: nat, interval: nat, deadline: int, c: nat, k: nat)
    requires Step(subrate) <= 256 && c < EVENT_MODULUS && (c <= LastActive(subrate) || k >= 1)
    requires LastActive(subrate) * interval < deadline
    ensures Advanced(subrate, c, k) <= LastActive(subrate)
    ensures Advanced(subrate, c, k) * interval < deadline
  {
    var m := LastActive(subrate);
    if k > 0 {
      if k > 1 || c <= m {
        CatchUpNeverEnds(subrate, interval, deadline, c, k - 1);
      }
      NextWithin(subrate, Advanced(subrate, c, k - 1));
    }
    MulMonotone(Advanced(subrate, c, k), m, interval);
  }

  /** Below the last active event an advance climbs to the least active one above. */
  lemma Climbs(subrate: nat, c: nat)
    requires Step(subrate) <= 256 && c < LastActive(subrate)
    ensures
      var r := NextActive(subrate, c);
      c < r <= LastActive(subrate) && Active(subrate, r) && forall e :: c < e < r ==> !Active(subrate, e)
  {
    var s, m := Step(subrate), LastActive(subrate);
    DivMod(m, s);
    NextMultiple(c, m / s, s);
    NextActiveIsLeast(subrate, c);
    NextWithin(subrate, c);
  }

  /** Nothing past the last active event is active. */
  lemma PastLastActive(subrate: nat, c: nat)
    requires Step(subrate) <= 256 && LastActive(subrate) < c < EVENT_MODULUS
    ensures !Active(subrate, c)
  {
    var s, m := Step(subrate), LastActive(subrate);
    DivMod(m, s);
    DivModUnique(c, s, m / s, c - m);
  }

  /** From anywhere, enough advances load the last active event: at most one wraps, the others climb. */
  lemma {:induction false} ReachesLastActive(subrate: nat, c: nat) returns (k: nat)
    requires Step(subrate) <= 256 && c < EVENT_MODULUS
    ensures Advanced(subrate, c, k) == LastActive(subrate) && (k >= 1 || Active(subrate, c))
    decreases if c <= LastActive(subrate) then 0 else 1, LastActive(subrate) - c
  {
    if c == LastActive(subrate) {
      return 0;
    }
    if c < LastActive(subrate) {
      Climbs(subrate, c);
    } else {
      NextWithin(subrate, c);
    }
    k := ReachesLastActive(subrate, NextActive(subrate, c));
    AdvancedFirst(subrate, c, k);
    k := k + 1;
  }

  lemma {:induction false} AdvancedFirst(subrate: nat, c: nat, k: nat)
    ensures Advanced(subrate, c, k + 1) == Advanced(subrate, NextActive(subrate, c), k)
  {
    if k > 0 {
      AdvancedFirst(subrate, c, k - 1);
    }
  }

  /** Catching up ends, wherever it starts, if and only if the last active event meets the deadline. */
  lemma CatchUpEndsIff(subrate: nat, interval: nat, deadline: int, c: nat)
    requires Step(subrate) <= 256 && c < EVENT_MODULUS
    ensures (exists k :: EndsAfter(subrate, interval, deadline, c, k)) <==> LastActive(subrate) * interval >= deadline
  {
    if LastActive(subrate) * interval >= deadline {
      var k := ReachesLastActive(subrate, c);
      assert EndsAfter(subrate, interval, deadline, c, k);
    } else {
      forall k | EndsAfter(subrate, interval, deadline, c, k)
        ensures false
      {
        if c > LastActive(subrate) {
          PastLastActive(subrate, c);
        }
        CatchUpNeverEnds(subrate, interval, deadline, c, k);
      }
    }
  }

  /** The event catching up ends at. Up to the last active event it is the first active one at or after the
      start that meets the deadline. From past it the first advance wraps, and what is loaded is
      numbered below the start: the event the wrap lands on, active or not, or the first active one after
      it that meets the deadline. */
  ghost predicate LandsOn(interval: nat, subrate: nat, c: nat, deadline: int, goal: nat)
    requires Step(subrate) <= 256
  {
    && goal <= LastActive(subrate) && goal * interval >= deadline
    && if c <= LastActive(subrate) then FirstReady(interval, subrate, c, deadline, goal)
       else
         var wrapped := NextActive(subrate, c);
         goal == wrapped || (wrapped * interval < deadline && FirstReady(interval, subrate, wrapped, deadline, goal))
  }

  /** Catching up ends after `k` advances and not before. */
  ghost predicate EndsFirstAfter(subrate: nat, interval: nat, deadline: int, c: nat, k: nat) {
    && EndsAfter(subrate, interval, deadline, c, k)
    && forall j :: 0 <= j < k ==> !EndsAfter(subrate, interval, deadline, c, j)
  }

  lemma OneAdvanceOn(subrate: nat, interval: nat, deadline: int, c: nat, k: nat)
    requires EndsFirstAfter(subrate, interval, deadline, c, k) && k >= 1
    requires k >= 2 || Active(subrate, NextActive(subrate, c))
    ensures Advanced(subrate, c, k) == Advanced(subrate, NextActive(subrate, c), k - 1)
    ensures EndsFirstAfter(subrate, interval, deadline, NextActive(subrate, c), k - 1)
  {
    var d := NextActive(subrate, c);
    AdvancedFirst(subrate, c, k - 1);
    forall j | 0 <= j < k - 1
      ensures !EndsAfter(subrate, interval, deadline, d, j)
    {
      AdvancedFirst(subrate, c, j);
      assert !EndsAfter(subrate, interval, deadline, c, j + 1);
    }
  }

  lemma {:induction false} EndsWithinRange(interval: nat, subrate: nat, c: nat, deadline: int, k: nat)
    requires Step(subrate) <= 256 && c <= LastActive(subrate) && LastActive(subrate) * interval >= deadline
    requires EndsFirstAfter(subrate, interval, deadline, c, k)
    ensures Advanced(subrate, c, k) <= LastActive(subrate)
    ensures FirstReady(interval, subrate, c, deadline, Advanced(subrate, c, k))
    decreases k
  {
    if k > 0 {
      assert !EndsAfter(subrate, interval, deadline, c, 0);
      Climbs(subrate, c);
      OneAdvanceOn(subrate, interval, deadline, c, k);
      EndsWithinRange(interval, subrate, NextActive(subrate, c), deadline, k - 1);
    }
  }

  /** Where the loop ends is where `LandsOn` says, and nowhere else. */
  lemma LandsWhereItEnds(interval: nat, subrate: nat, c: nat, deadline: int, k: nat, goal: nat)
    requires Step(subrate) <= 256 && c < EVENT_MODULUS && EndsFirstAfter(subrate, interval, deadline, c, k)
    ensures LandsOn(interval, subrate, c, deadline, goal) <==> goal == Advanced(subrate, c, k)
  {
    CatchUpEndsIff(subrate, interval, deadline, c);
    if c <= LastActive(subrate) {
      EndsWithinRange(interval, subrate, c, deadline, k);
    } else {
      PastLastActive(subrate, c);
      NextWithin(subrate, c);
      var d := NextActive(subrate, c);
      assert Advanced(subrate, c, 0 + 1) == Advanced(subrate, d, 0) by { AdvancedFirst(subrate, c, 0); }
      if d * interval >= deadline {
        assert EndsAfter(subrate, interval, deadline, c, 1);
      } else {
        OneAdvanceOn(subrate, interval, deadline, c, k);
        EndsWithinRange(interval, subrate, d, deadline, k - 1);
      }
    }
  }

  /** Catching up ends at an event numbered below the start exactly when the start is past the last active
      event. */
  lemma LandsEarlierIff(interval: nat, subrate: nat, c: nat, deadline: int, k: nat)
    requires Step(subrate) <= 256 && c < EVENT_MODULUS && EndsFirstAfter(subrate, interval, deadline, c, k)
    ensures Advanced(subrate, c, k) < c <==> c > LastActive(subrate)
  {
    LandsWhereItEnds(interval, subrate, c, deadline, k, Advanced(subrate, c, k));
  }

  /** The wrap is reachable: a change of subrate from 16 to 22 that falls due on event 65520. No event from
      there on meets a deadline 65510 intervals in, yet catching up ends, at an event far below. */
  lemma WrapIsReachable(interval: nat)
    requires interval >= 1
    ensures Active(16, 65520) && LastActive(22) == 65516 < 65520 && NextActive(22, 65520) == 2
    ensures forall goal: nat :: goal < EVENT_MODULUS ==> !FirstReady(interval, 22, 65520, 65510 * interval, goal)
    ensures exists k :: EndsAfter(22, interval, 65510 * interval, 65520, k)
    ensures LandsOn(interval, 22, 65520, 65510 * interval, 65516)
  {
    MulMonotone(65510, 65516, interval);
    CatchUpEndsIff(22, interval, 65510 * interval, 65520);
    HorizonExact(interval, 22, 65520, 65510 * interval);
    assert FirstReady(interval, 22, 2, 65510 * interval, 65516) by {
      forall e: nat | 2 <= e < 65516 && Active(22, e)
        ensures e * interval < 65510 * interval
      {
        assert e <= 65494;
        MulMonotone(e, 65494, interval);
      }
    }
  }

  /** Sixteen-bit event numbers never pass the last active one: they wrap below a step. */
  lemma NextWithin(subrate: nat, e: nat)
    requires Step(subrate) <= 256 && e < EVENT_MODULUS
    ensures NextActive(subrate, e) <= LastActive(subrate)
  {
    var s, m := Step(subrate), LastActive(subrate);
    DivMod(m, s);
    NextMultiple(e, m / s, s);
    var r := (e / s + 1) * s;
    if e < m {
      DivModUnique(r, EVENT_MODULUS, 0, r);
    } else {
      DivModUnique(r, EVENT_MODULUS, 1, r - EVENT_MODULUS);
    }
  }

  // The next multiple after `e` is at most `q * s` while `e` is below that, and one more from there on.
  lemma NextMultiple(e: nat, q: nat, s: nat)
    requires s >= 1 && e < q * s + s
    ensures if e < q * s then s <= (e / s + 1) * s <= q * s else (e / s + 1) * s == q * s + s
  {
    var p := Quotient(e, s);
    NextFrom(e, p, q, s);
  }

  lemma Quotient(e: nat, s: nat) returns (p: nat)
    requires s >= 1
    ensures p == e / s && p * s <= e < p * s + s
  {
    DivMod(e, s);
    p := e / s;
  }

  lemma NextFrom(e: nat, p: nat, q: nat, s: nat)
    requires s >= 1 && p * s <= e < p * s + s && e < q * s + s
    ensures if e < q * s then s <= (p + 1) * s <= q * s else (p + 1) * s == q * s + s
  {
    OneMore(p, s);
    MultiplesOrdered(p, q, s);
    MultiplesOrdered(q, p, s);
  }

  lemma OneMore(p: nat, s: nat)
    ensures (p + 1) * s == p * s + s >= s
  {
    Gap(0, p, s);
  }

  // ----- an end's schedule as a value -----

  datatype Clock = Clock(anchor: nat, epoch: nat, counter: nat, interval: nat, subrate: nat)

  ghost predicate Gridded(c: Clock) {
    c.interval >= 1 && c.counter < EVENT_MODULUS && c.anchor == c.epoch + c.counter * c.interval
  }

  // Loading the next event, catching up with a deadline, re-anchoring on a frame, and a new subrate.
  datatype Move = Loaded | CaughtUp(deadline: nat) | Heard(airStart: nat) | Resubrated(subrate: nat)

  ghost predicate Moves(c: Clock, c': Clock, m: Move) {
    match m
    case Loaded => Gridded(c') && c' == c.(counter := NextActive(c.subrate, c.counter), anchor := c'.anchor)
    case CaughtUp(d) =>
      Gridded(c') && c' == c.(counter := c'.counter, anchor := c'.anchor)
      && Step(c.subrate) <= 256 && LandsOn(c.interval, c.subrate, c.counter, d - c.epoch, c'.counter)
    case Heard(air) => c.epoch + air >= c.anchor && c' == c.(epoch := c.epoch + air - c.anchor, anchor := air)
    case Resubrated(s) => c' == c.(subrate := s)
  }

  /** One end's side of the schedule, as the fields `lg_link.c` updates. */
  class LinkClock {
    var anchor: nat
    var epoch: nat
    var counter: nat
    const interval: nat
    var subrate: nat

    // The loaded anchor is the time of the loaded event.
    ghost predicate OnGrid()
      reads this
    {
      interval >= 1 && counter < EVENT_MODULUS && anchor == epoch + counter * interval
    }

    function State(): Clock
      reads this
    {
      Clock(anchor, epoch, counter, interval, subrate)
    }

    /** `counter_of`: event number of the loaded anchor, derived from time. */
    function CounterOf(): nat
      reads this
    {
      if interval == 0 || anchor < epoch then 0
      else ((anchor - epoch) + interval / 2) / interval % EVENT_MODULUS
    }

    /** The event derived from time is the one the grid says. */
    lemma CounterIsEvent()
      requires OnGrid()
      ensures CounterOf() == counter
    {
      GridPoint(counter, interval);
    }

    /** `lg_link_establish`: event zero is the anchor the JOIN_ACK frame set. */
    constructor Establish(anchor: nat, interval: nat)
      requires interval >= 1
      ensures OnGrid() && counter == 0 && this.anchor == epoch == anchor
      ensures this.interval == interval && subrate == 1
    {
      this.anchor, epoch, counter := anchor, anchor, 0;
      this.interval, subrate := interval, 1;
    }

    method AnchorSet(target: nat)
      requires interval >= 1 && target < EVENT_MODULUS
      modifies this`anchor, this`counter
      ensures OnGrid() && counter == target
    {
      anchor := epoch + target * interval;
      counter := target;
    }

    /** The anchor part of `lg_link_advance`. */
    method Advance()
      requires OnGrid()
      modifies this`anchor, this`counter
      ensures OnGrid() && counter == NextActive(subrate, old(counter))
      ensures Moves(old(State()), State(), Loaded)
    {
      CounterIsEvent();
      AnchorSet(NextActive(subrate, CounterOf()));
    }

    /** Re-anchoring on a received frame moves event zero by the same amount, so it never
        changes which event this is. */
    method Resync(airStart: nat, eventAnchor: nat)
      requires OnGrid() && eventAnchor == anchor && epoch + airStart >= eventAnchor
      modifies this`anchor, this`epoch
      ensures OnGrid() && counter == old(counter) && CounterOf() == old(CounterOf())
      ensures anchor == airStart && Moves(old(State()), State(), Heard(airStart))
    {
      CounterIsEvent();
      var syncErr := airStart - eventAnchor;
      epoch := epoch + syncErr;
      anchor := airStart;
      CounterIsEvent();
    }

    /** `anchor_catch_up`: load an active event that can still be made. It requires exactly that the loop
        ends. */
    method CatchUp(now: nat, lead: nat)
      requires OnGrid() && Step(subrate) <= 256
      requires LastActive(subrate) * interval >= now + lead - epoch
      modifies this`anchor, this`counter
      ensures OnGrid() && anchor >= now + lead
      ensures LandsOn(interval, subrate, old(counter), now + lead - epoch, counter)
      ensures Moves(old(State()), State(), CaughtUp(now + lead))
    {
      ghost var deadline := now + lead - epoch;
      CounterIsEvent();
      if CounterOf() % Step(subrate) != 0 {
        Settles(counter);
        AnchorSet(NextActive(subrate, CounterOf()));
      } else {
        Settles(counter);
      }
      ghost var start := counter;
      while anchor < now + lead
        invariant OnGrid() && start <= counter <= LastActive(subrate)
        invariant counter == start || (start * interval < deadline && Active(subrate, counter))
        invariant forall e: nat :: start <= e < counter && Active(subrate, e) ==> e * interval < deadline
        decreases LastActive(subrate) - counter
      {
        CounterIsEvent();
        MultiplesOrdered(counter, LastActive(subrate), interval);
        Climbs(subrate, counter);
        AnchorSet(NextActive(subrate, CounterOf()));
      }
      assert counter * interval >= deadline;
    }

    // The first step: active events stay, others advance, those past the last one by wrapping.
    lemma Settles(c: nat)
      requires Step(subrate) <= 256 && c < EVENT_MODULUS
      ensures Active(subrate, c) ==> c <= LastActive(subrate)
      ensures !Active(subrate, c) ==> NextActive(subrate, c) <= LastActive(subrate)
      ensures !Active(subrate, c) && c <= LastActive(subrate) ==>
        c < NextActive(subrate, c) && Active(subrate, NextActive(subrate, c))
        && forall e: nat :: c <= e < NextActive(subrate, c) ==> !Active(subrate, e)
    {
      NextWithin(subrate, c);
      if c > LastActive(subrate) {
        PastLastActive(subrate, c);
      } else if c < LastActive(subrate) {
        Climbs(subrate, c);
      }
    }
  }

  // ----- two ends -----

  /** A run of one end: the states it goes through and the moves between them. */
  ghost predicate IsRun(states: seq<Clock>, moves: seq<Move>) {
    && |states| == |moves| + 1 && Gridded(states[0])
    && forall k :: 0 <= k < |moves| ==> Moves(states[k], states[k + 1], moves[k])
  }

  /** Skipping, re-anchoring and new subrates never leave the grid; only a frame heard moves it. */
  lemma {:induction false} RunStaysOnGrid(states: seq<Clock>, moves: seq<Move>, from: nat, k: nat)
    requires IsRun(states, moves) && from <= k < |states|
    ensures Gridded(states[k]) && states[k].interval == states[0].interval
    ensures (forall j :: from <= j < k ==> !moves[j].Heard?) ==> states[k].epoch == states[from].epoch
    decreases k
  {
    if k > 0 {
      assert Moves(states[k - 1], states[k - 1 + 1], moves[k - 1]);
      RunStaysOnGrid(states, moves, if from < k then from else k - 1, k - 1);
    }
  }

  /** Hearing the frame the other end sent in the event both have loaded puts the two grids back in
      step, however far the clocks had drifted: they differ by what the clocks now differ by. */
  lemma HeardRestoresSkew(a: Clock, b: Clock, b': Clock, skew: int)
    requires Gridded(a) && Gridded(b) && a.interval == b.interval && a.epoch + b.counter * b.interval + skew >= 0
    requires Moves(b, b', Heard(a.epoch + b.counter * b.interval + skew))
    ensures b'.epoch == a.epoch + skew && b'.counter == b.counter && Gridded(b')
  {
  }

  // Where the grid of the second end was last set: at the start, or by a frame of the first end.
  ghost predicate Anchored(a: Clock, states: seq<Clock>, moves: seq<Move>, h: nat, skew: int)
    requires IsRun(states, moves) && h <= |moves|
  {
    && (forall j :: h <= j < |moves| ==> !moves[j].Heard?)
    && (if h == 0 then states[0].epoch == a.epoch + skew
        else
          && a.epoch + states[h - 1].counter * states[h - 1].interval + skew >= 0
          && moves[h - 1] == Heard(a.epoch + states[h - 1].counter * states[h - 1].interval + skew))
  }

  /** Event-number agreement over whole runs. One end keeps its grid; the other sets its own from the
      same frame or from any frame of the first since. Whatever either skipped, loaded or was told in
      between, once both catch up with a common deadline under one subrate they have loaded the same
      event, the least active one at or after it, and mean the same instant by it. */
  lemma EndsMeet(xs: seq<Clock>, xm: seq<Move>, ys: seq<Clock>, ym: seq<Move>, h: nat, skew: int, d: nat)
    requires IsRun(xs, xm) && IsRun(ys, ym) && xs[0].interval == ys[0].interval
    requires (forall j :: 0 <= j < |xm| ==> !xm[j].Heard?) && h < |ym| && Anchored(xs[0], ys, ym, h, skew)
    requires xm != [] && xm[|xm| - 1] == CaughtUp(d)
    requires d + skew >= 0 && ym[|ym| - 1] == CaughtUp(d + skew)
    requires xs[|xm| - 1].subrate == ys[|ym| - 1].subrate
    requires xs[|xm| - 1].anchor <= d && ys[|ym| - 1].anchor <= d + skew
    ensures
      var a, b := xs[|xm|], ys[|ym|];
      && a.counter == b.counter && b.anchor == a.anchor + skew && a.anchor >= d
      && forall e: nat :: Active(a.subrate, e) && a.epoch + e * a.interval >= d ==> a.counter <= e
  {
    var n, m := |xm|, |ym|;
    RunStaysOnGrid(xs, xm, 0, n - 1);
    RunStaysOnGrid(ys, ym, h, m - 1);
    assert Moves(xs[n - 1], xs[n - 1 + 1], xm[n - 1]) && Moves(ys[m - 1], ys[m - 1 + 1], ym[m - 1]);
    if h > 0 {
      RunStaysOnGrid(ys, ym, h - 1, h - 1);
      assert Moves(ys[h - 1], ys[h - 1 + 1], ym[h - 1]);
      HeardRestoresSkew(xs[0], ys[h - 1], ys[h], skew);
    }
    var a, b := xs[n - 1], ys[m - 1];
    NotPastTheEnd(a, xs[n].counter, d - a.epoch);
    NotPastTheEnd(b, ys[m].counter, d - a.epoch);
    CommonDeadline(a.interval, a.subrate, a.counter, b.counter, d - a.epoch, xs[n].counter, ys[m].counter);
  }

  // An end that starts by the deadline and meets it has not wrapped.
  lemma NotPastTheEnd(c: Clock, goal: nat, deadline: int)
    requires Step(c.subrate) <= 256 && c.interval >= 1
    ensures c.counter * c.interval <= deadline && LandsOn(c.interval, c.subrate, c.counter, deadline, goal) ==>
      FirstReady(c.interval, c.subrate, c.counter, deadline, goal)
  {
    MultiplesOrdered(goal, c.counter, c.interval);
  }

  /** Two ends whose event zero was one instant, on clocks that differ by `skew`, mean the same
      instant by the same event number, and by no other. */
  lemma SameEventSameInstant(a: LinkClock, b: LinkClock, skew: int)
    requires a.OnGrid() && b.OnGrid() && a.interval == b.interval && b.epoch == a.epoch + skew
    ensures b.anchor == a.anchor + skew <==> b.counter == a.counter
    ensures b.anchor == a.anchor + skew ==> b.CounterOf() == a.CounterOf()
  {
    MultiplesOrdered(a.counter, b.counter, a.interval);
    MultiplesOrdered(b.counter, a.counter, a.interval);
    a.CounterIsEvent();
    b.CounterIsEvent();
  }

  /** Catching up forward is possible, an event that meets the deadline exists within sixteen bits from where
      an end stands, if and only if the last active one is not behind it and meets the deadline. */
  lemma HorizonExact(interval: nat, subrate: nat, from: nat, deadline: int)
    requires Step(subrate) <= 256
    ensures from <= LastActive(subrate) && LastActive(subrate) * interval >= deadline <==>
      exists goal: nat :: goal < EVENT_MODULUS && FirstReady(interval, subrate, from, deadline, goal)
  {
    var m := LastActive(subrate);
    if from <= m && m * interval >= deadline {
      var goal := Least(interval, subrate, from, deadline, m);
    }
    if goal: nat :| goal < EVENT_MODULUS && FirstReady(interval, subrate, from, deadline, goal) {
      var s := Step(subrate);
      assert goal == goal / s * s && m == m / s * s;
      MultiplesOrdered(m / s, goal / s, s);
      assert goal <= m;
      MulMonotone(goal, m, interval);
    }
  }

  lemma Least(interval: nat, subrate: nat, from: nat, deadline: int, m: nat) returns (goal: nat)
    requires from <= m && Active(subrate, m) && m * interval >= deadline
    ensures goal <= m && FirstReady(interval, subrate, from, deadline, goal)
  {
    goal := m;
    var e := m;
    while e > from
      invariant from <= e <= goal <= m && Active(subrate, goal) && goal * interval >= deadline
      invariant forall x: nat :: e <= x < goal && Active(subrate, x) ==> x * interval < deadline
    {
      e := e - 1;
      if Active(subrate, e) && e * interval >= deadline {
        goal := e;
      }
    }
  }
}
