/** Beacons: where each copy points, which join window opens, and when the next beacon comes. */
module Beacon {
  import opened Arith
  import opened Config

  const COPIES: nat := 3
  const COPY_GAP_US: nat := 600
  const JOIN_OFFSET_US: nat := 5_000
  const JOIN_TRAIN_US: nat := 9_500
  const CONTEND_SLOTS: nat := 4
  const JOIN_WINDOW_US: nat := CONTEND_SLOTS * JOIN_TRAIN_US + 2_000
  // A promise this close to the present is not kept.
  const PROMISE_MARGIN_US: nat := 2_000
  // Listeners ignore predictions this far ahead.
  const PREDICTION_LIMIT_US: nat := 60_000_000

  const BEACON_LEN: nat := 23
  const BEACON_MIC_LEN: nat := 4

  function Airtime(len: nat): nat {
    (len + 8) * 32
  }

  const COPY_AIR_US: nat := Airtime(HDR_LEN + BEACON_LEN + BEACON_MIC_LEN)

  /** When copy `i` of a beacon anchored at `startUs` goes on air. */
  function CopyStart(startUs: nat, i: nat): nat {
    startUs + i * (COPY_AIR_US + COPY_GAP_US)
  }

  /** Where the last copy of that beacon ends, and the window a full beacon promises. */
  function PromisedWindow(startUs: nat): nat {
    CopyStart(startUs, COPIES - 1) + COPY_AIR_US + JOIN_OFFSET_US
  }

  // One staged copy: its length, zero if sealing failed, and what it says.
  datatype Copy = Copy(len: nat, joinOffsetUs: nat, joinWindowUs: nat, nextOffsetUs: nat)

  /** A listener that hears a copy start at `heardUs`, as `lg_disc_beacon_rx` reckons. */
  function PredictedWindow(c: Copy, heardUs: nat): nat {
    heardUs + c.joinOffsetUs
  }

  datatype Prediction = None | At(us: nat)

  function PredictedBeacon(c: Copy, heardUs: nat): Prediction {
    if 0 < c.nextOffsetUs < PREDICTION_LIMIT_US then At(heardUs + c.nextOffsetUs) else None
  }

  // ----- jitter -----

  /** `jitter`, a quarter either way of the nominal time. */
  function Jitter(nominal: nat, rand: nat): nat {
    if nominal / 2 == 0 then nominal else (nominal - nominal / 2 / 2 + rand % (nominal / 2)) % WORD32
  }

  lemma JitterBounds(nominal: nat, rand: nat)
    requires nominal <= 3_000_000_000
    ensures 3 * nominal <= 4 * Jitter(nominal, rand) <= 5 * nominal
    ensures nominal >= 2 ==> 4 * Jitter(nominal, rand) < 5 * nominal + 4
  {
    if nominal / 2 > 0 {
      DivMod(rand, nominal / 2);
      var r := nominal - nominal / 2 / 2 + rand % (nominal / 2);
      DivModUnique(r, WORD32, 0, r);
    }
  }

  // ----- what is staged -----

  /** All copies staged for a beacon at `startUs` agree on the join window, whichever of them is
      heard, and carry what is left to `plannedUs` from their own start, in 32 bits. */
  ghost predicate Consistent(copies: seq<Copy>, startUs: nat, plannedUs: nat, offers: bool) {
    && |copies| == COPIES
    && forall i :: 0 <= i < COPIES && copies[i].len > 0 ==>
         && PredictedWindow(copies[i], CopyStart(startUs, i)) == PromisedWindow(startUs)
         && copies[i].joinWindowUs == (if offers then JOIN_WINDOW_US else 0)
         && copies[i].nextOffsetUs == (plannedUs - CopyStart(startUs, i)) % WORD32
  }

  /** Air time left, from the start of any copy, reaches the same instant. */
  lemma OffsetsMeet(startUs: nat, i: nat)
    requires i < COPIES
    ensures CopyStart(startUs, i) + (COPIES - i) * COPY_AIR_US + (COPIES - 1 - i) * COPY_GAP_US + JOIN_OFFSET_US
      == PromisedWindow(startUs)
  {
  }

  /** A join offset does not depend on when the beacon starts: moved as a whole, it still points at
      its own window. */
  lemma WindowMovesAlong(copies: seq<Copy>, stagedFor: nat, plannedUs: nat, offers: bool, startUs: nat, i: nat)
    requires Consistent(copies, stagedFor, plannedUs, offers) && i < COPIES && copies[i].len > 0
    ensures PredictedWindow(copies[i], CopyStart(startUs, i)) == PromisedWindow(startUs)
  {
  }

  // ----- one node's beacons over time -----

  // The two times a node keeps.
  datatype Plan = Plan(nextUs: nat, plannedUs: nat)

  datatype State = State(plan: Plan, stagedFor: nat, copies: seq<Copy>, offers: bool)

  datatype Input =
    | Finish(nowUs: nat, intervalUs: nat, rand1: nat, rand2: nat, offers: bool, sealed: seq<bool>)
    | Retune(should: bool, nowUs: nat, intervalUs: nat, rand: nat)

  predicate WellFormed(input: Input) {
    input.Finish? ==> |input.sealed| == COPIES
  }

  // The planned time becomes the next one unless it is past or imminent.
  predicate Timely(p: Plan, nowUs: nat) {
    p.plannedUs > nowUs + PROMISE_MARGIN_US
  }

  function Settle(p: Plan, nowUs: nat, intervalUs: nat, rand1: nat, rand2: nat): Plan {
    var next := if Timely(p, nowUs) then p.plannedUs else nowUs + Jitter(intervalUs, rand1);
    Plan(next, next + Jitter(intervalUs, rand2))
  }

  function StagedCopy(p: Plan, offers: bool, sealed: bool, k: nat): Copy
    requires k < COPIES
  {
    Copy(if sealed then HDR_LEN + BEACON_LEN + BEACON_MIC_LEN else 0,
         ((COPIES - k) * COPY_AIR_US + (COPIES - 1 - k) * COPY_GAP_US + JOIN_OFFSET_US) % WORD16,
         if offers then JOIN_WINDOW_US else 0,
         (p.plannedUs - CopyStart(p.nextUs, k)) % WORD32)
  }

  function StagedCopies(p: Plan, offers: bool, sealed: seq<bool>): seq<Copy>
    requires |sealed| == COPIES
  {
    seq(COPIES, k requires 0 <= k < COPIES => StagedCopy(p, offers, sealed[k], k))
  }

  /** Settling a beacon event stages the next beacon; a retune moves it without staging again. */
  function Step(s: State, input: Input): State
    requires WellFormed(input)
  {
    match input
    case Finish(now, interval, rand1, rand2, offers, sealed) =>
      var p := Settle(s.plan, now, interval, rand1, rand2);
      State(p, p.nextUs, StagedCopies(p, offers, sealed), offers)
    case Retune(should, now, interval, rand) =>
      var next :=
        if !should then TIME_NEVER
        else if s.plan.nextUs == TIME_NEVER then now + Jitter(interval, rand)
        else s.plan.nextUs;
      s.(plan := s.plan.(nextUs := next))
  }

  function Run(s: State, inputs: seq<Input>): State
    requires forall j :: 0 <= j < |inputs| ==> WellFormed(inputs[j])
  {
    if inputs == [] then s else Step(Run(s, inputs[..|inputs| - 1]), inputs[|inputs| - 1])
  }

  /** Copies and promise go together. */
  ghost predicate Promises(s: State) {
    Consistent(s.copies, s.stagedFor, s.plan.plannedUs, s.offers)
  }

  lemma StepPromises(s: State, input: Input)
    requires WellFormed(input) && (input.Finish? || Promises(s))
    ensures Promises(Step(s, input))
    ensures input.Finish? ==> Step(s, input).stagedFor == Step(s, input).plan.nextUs
  {
    if input.Finish? {
      var t := Step(s, input);
      forall i | 0 <= i < COPIES
        ensures PredictedWindow(t.copies[i], CopyStart(t.stagedFor, i)) == PromisedWindow(t.stagedFor)
      {
        OffsetsMeet(t.stagedFor, i);
      }
    }
  }

  /** From the first settling on, staged copies always carry the promise now planned. Without a
      retune they are staged for the beacon that is next. */
  lemma {:induction false} RunPromises(s: State, inputs: seq<Input>)
    requires inputs != [] && inputs[0].Finish? && forall j :: 0 <= j < |inputs| ==> WellFormed(inputs[j])
    ensures Promises(Run(s, inputs))
    ensures (forall j :: 0 <= j < |inputs| ==> inputs[j].Finish?) ==>
      Run(s, inputs).stagedFor == Run(s, inputs).plan.nextUs
    ensures (forall j :: 0 <= j < |inputs| ==> inputs[j].Finish?) ==>
      var last := inputs[|inputs| - 1];
      Run(s, inputs).plan.plannedUs == Run(s, inputs).plan.nextUs + Jitter(last.intervalUs, last.rand2)
  {
    var before, last := inputs[..|inputs| - 1], inputs[|inputs| - 1];
    if before != [] {
      RunPromises(s, before);
    }
    StepPromises(Run(s, before), last);
  }

  /** What a listener makes of one copy of a beacon that starts at `startUs`: nothing, if the offset is
      zero, has wrapped or is too long; else the planned time, shifted by as much as the beacon was
      moved after staging. */
  lemma Predicted(s: State, i: nat, startUs: nat)
    requires Promises(s) && i < COPIES && s.copies[i].len > 0 && s.plan.plannedUs < s.stagedFor + WORD32
    requires CopyStart(s.stagedFor, i) <= s.plan.plannedUs + PREDICTION_LIMIT_US
    ensures PredictedBeacon(s.copies[i], CopyStart(startUs, i)) ==
      if CopyStart(s.stagedFor, i) < s.plan.plannedUs < CopyStart(s.stagedFor, i) + PREDICTION_LIMIT_US
      then At(s.plan.plannedUs + startUs - s.stagedFor) else None
  {
    var gap := s.plan.plannedUs - CopyStart(s.stagedFor, i);
    if gap >= 0 {
      DivModUnique(gap, WORD32, 0, gap);
    } else {
      DivModUnique(gap, WORD32, -1, gap + WORD32);
    }
  }

  /** Beacon promises over a whole run without retunes, whatever the intervals, the random numbers and
      the copies that could not be sealed. At every beacon, a listener of any copy predicts the planned
      time or nothing, and the former exactly when the gap is one it accepts; the beacon after it comes
      at the predicted time if and only if the event was settled more than two milliseconds before
      that, or the fresh time coincides with it. */
  lemma EveryListenerIsRight(s0: State, inputs: seq<Input>, k: nat, i: nat)
    requires 1 <= k < |inputs| && i < COPIES
    requires forall j :: 0 <= j < |inputs| ==> WellFormed(inputs[j]) && inputs[j].Finish?
    requires |Run(s0, inputs[..k]).copies| == COPIES ==> Run(s0, inputs[..k]).copies[i].len > 0
    ensures
      var s, s', last := Run(s0, inputs[..k]), Run(s0, inputs[..k + 1]), inputs[k];
      |s.copies| == COPIES &&
      var start, planned := CopyStart(s.plan.nextUs, i), s.plan.plannedUs;
      var heard := PredictedBeacon(s.copies[i], start);
      && heard == (if start < planned < start + PREDICTION_LIMIT_US then At(planned) else None)
      && (heard.At? ==>
            (heard.us == s'.plan.nextUs <==>
              Timely(s.plan, last.nowUs) || planned == last.nowUs + Jitter(last.intervalUs, last.rand1)))
      && (Timely(s.plan, last.nowUs) ==> heard == None || heard == At(s'.plan.nextUs))
      && (100_000 <= inputs[k - 1].intervalUs < 48_000_000 ==> heard.At?)
  {
    RunPromises(s0, inputs[..k]);
    assert inputs[..k + 1][..k] == inputs[..k] && inputs[..k][k - 1] == inputs[k - 1];
    ListenerIsRight(Run(s0, inputs[..k]), inputs[k - 1].intervalUs, inputs[k - 1].rand2, inputs[k], i);
  }

  // One beacon of such a run, staged after an event settled with this interval.
  lemma ListenerIsRight(s: State, intervalUs: nat, rand: nat, last: Input, i: nat)
    requires Promises(s) && s.stagedFor == s.plan.nextUs && i < COPIES && s.copies[i].len > 0
    requires s.plan.plannedUs == s.plan.nextUs + Jitter(intervalUs, rand)
    requires last.Finish? && WellFormed(last)
    ensures
      var start, planned := CopyStart(s.plan.nextUs, i), s.plan.plannedUs;
      var heard := PredictedBeacon(s.copies[i], start);
      && heard == (if start < planned < start + PREDICTION_LIMIT_US then At(planned) else None)
      && (heard.At? ==>
            (heard.us == Step(s, last).plan.nextUs <==>
              Timely(s.plan, last.nowUs) || planned == last.nowUs + Jitter(last.intervalUs, last.rand1)))
      && (Timely(s.plan, last.nowUs) ==> heard == None || heard == At(Step(s, last).plan.nextUs))
      && (100_000 <= intervalUs < 48_000_000 ==> heard.At?)
  {
    JitterFits(intervalUs, rand);
    Predicted(s, i, s.plan.nextUs);
    if intervalUs <= 3_000_000_000 {
      JitterBounds(intervalUs, rand);
    }
  }

  lemma JitterFits(nominal: nat, rand: nat)
    ensures Jitter(nominal, rand) < WORD32
  {
  }

  /** Consecutive beacons of a timely run keep their distance to a quarter of the interval. */
  lemma GapsStayNearInterval(s0: State, inputs: seq<Input>, k: nat)
    requires 1 <= k < |inputs| && forall j :: 0 <= j < |inputs| ==> WellFormed(inputs[j]) && inputs[j].Finish?
    requires inputs[k - 1].intervalUs <= 3_000_000_000 && Timely(Run(s0, inputs[..k]).plan, inputs[k].nowUs)
    ensures
      var gap := Run(s0, inputs[..k + 1]).plan.nextUs - Run(s0, inputs[..k]).plan.nextUs;
      3 * inputs[k - 1].intervalUs <= 4 * gap <= 5 * inputs[k - 1].intervalUs
  {
    RunPromises(s0, inputs[..k]);
    assert inputs[..k + 1][..k] == inputs[..k];
    assert inputs[..k][k - 1] == inputs[k - 1];
    JitterBounds(inputs[k - 1].intervalUs, inputs[k - 1].rand2);
  }

  // ----- sending -----

  /** How many copies go out: up to the first that is not sealed or gets no radio. */
  function Sent(copies: seq<Copy>, suppressed: bool, granted: seq<bool>): (n: nat)
    requires |copies| == |granted| == COPIES
    ensures n <= COPIES
    ensures n == COPIES <==> !suppressed && forall i :: 0 <= i < COPIES ==> copies[i].len > 0 && granted[i]
  {
    if suppressed then 0 else SentFrom(copies, granted, 0)
  }

  function SentFrom(copies: seq<Copy>, granted: seq<bool>, i: nat): (n: nat)
    requires |copies| == |granted| == COPIES && i <= COPIES
    ensures i <= n <= COPIES && forall k :: i <= k < n ==> copies[k].len > 0 && granted[k]
    ensures n < COPIES ==> !(copies[n].len > 0 && granted[n])
    decreases COPIES - i
  {
    if i < COPIES && copies[i].len > 0 && granted[i] then SentFrom(copies, granted, i + 1) else i
  }

  // The window that opens once `sent` copies have ended.
  // `sent` copies are out and, if there is more, one is on the air.
  predicate SendingOn(copies: seq<Copy>, suppressed: bool, granted: seq<bool>, sent: nat, more: bool) {
    && |copies| == |granted| == COPIES && sent <= COPIES && (more ==> sent < COPIES && !suppressed)
    && Sent(copies, suppressed, granted) == if more then SentFrom(copies, granted, sent + 1) else sent
  }

  lemma SendingNext(copies: seq<Copy>, granted: seq<bool>, sent: nat, more: bool)
    requires SendingOn(copies, false, granted, sent, true)
    requires more <==> sent + 1 < COPIES && copies[sent + 1].len > 0 && granted[sent + 1]
    ensures SendingOn(copies, false, granted, sent + 1, more)
  {
  }

  function WindowAfter(startUs: nat, sent: nat): nat
    requires sent > 0
  {
    CopyStart(startUs, sent - 1) + COPY_AIR_US + JOIN_OFFSET_US
  }

  lemma WindowIff(s: State, startUs: nat, granted: seq<bool>, windowUs: nat)
    requires Promises(s) && |granted| == COPIES
    requires var sent := Sent(s.copies, false, granted);
      sent > 0 && windowUs == WindowAfter(startUs, sent)
    ensures var sent := Sent(s.copies, false, granted);
      && windowUs + (COPIES - sent) * (COPY_AIR_US + COPY_GAP_US) == PromisedWindow(startUs)
      && ((forall i :: 0 <= i < sent ==> PredictedWindow(s.copies[i], CopyStart(startUs, i)) == windowUs)
          <==> forall i :: 0 <= i < COPIES ==> s.copies[i].len > 0 && granted[i])
  {
    var sent := Sent(s.copies, false, granted);
    forall i | 0 <= i < sent
      ensures PredictedWindow(s.copies[i], CopyStart(startUs, i)) == PromisedWindow(startUs)
    {
      WindowMovesAlong(s.copies, s.stagedFor, s.plan.plannedUs, s.offers, startUs, i);
    }
    assert PredictedWindow(s.copies[0], CopyStart(startUs, 0)) == PromisedWindow(startUs);
  }

  class Beaconer {
    var nextUs: nat
    var plannedUs: nat
    var copies: seq<Copy>
    var offers: bool
    var joinWindowUs: nat
    var copyIdx: nat
    /** The beacon time the copies were staged for. */
    ghost var stagedFor: nat

    ghost function Contents(): State
      reads this`nextUs, this`plannedUs, this`copies, this`offers, this`stagedFor
    {
      State(Plan(nextUs, plannedUs), stagedFor, copies, offers)
    }

    ghost predicate Valid()
      reads this`nextUs, this`plannedUs, this`copies, this`offers, this`stagedFor
    {
      Promises(Contents())
    }

    constructor (nextUs: nat)
      ensures Valid() && Contents().plan == Plan(nextUs, 0) && joinWindowUs == 0
    {
      this.nextUs, plannedUs, offers, joinWindowUs, copyIdx := nextUs, 0, false, 0, 0;
      copies := seq(COPIES, i => Copy(0, 0, 0, 0));
      stagedFor := 0;
    }

    /** `beacon_stage`: three copies of one promise. `sealed[i]` says whether copy `i` could be
        authenticated. */
    method Stage(worthwhile: bool, linked: nat, maxLinks: nat, sealed: seq<bool>)
      requires |sealed| == COPIES
      modifies this`copies, this`offers, this`stagedFor
      ensures offers <==> linked < maxLinks && worthwhile
      ensures copies == StagedCopies(Plan(nextUs, plannedUs), offers, sealed) && stagedFor == nextUs
    {
      offers := linked < maxLinks && worthwhile;
      copies := [];
      for i := 0 to COPIES
        modifies this`copies
        invariant |copies| == i
        invariant forall k :: 0 <= k < i ==> copies[k] == StagedCopy(Plan(nextUs, plannedUs), offers, sealed[k], k)
      {
        var copyOff := i * (COPY_AIR_US + COPY_GAP_US);
        var totalAir := 0;
        for j := i to COPIES
          invariant totalAir == (j - i) * COPY_AIR_US + (if j < COPIES then j - i else COPIES - 1 - i) * COPY_GAP_US
        {
          totalAir := totalAir + COPY_AIR_US;
          if j < COPIES - 1 {
            totalAir := totalAir + COPY_GAP_US;
          }
        }
        copies := copies + [Copy(if sealed[i] then HDR_LEN + BEACON_LEN + BEACON_MIC_LEN else 0,
                                 (totalAir + JOIN_OFFSET_US) % WORD16,
                                 if offers then JOIN_WINDOW_US else 0,
                                 (plannedUs - (nextUs + copyOff)) % WORD32)];
      }
      stagedFor := nextUs;
    }

    /** `beacon_start`: true if the first copy goes out. */
    method TxStart(suppressed: bool, granted: bool) returns (sending: bool)
      requires Valid()
      modifies this`copyIdx
      ensures copyIdx == 0
      ensures sending <==> !suppressed && copies[0].len > 0 && granted
    {
      copyIdx := 0;
      if suppressed {
        return false;
      }
      return copies[0].len > 0 && granted;
    }

    /** `beacon_tx_done`, when the copy at `copyIdx` has ended: send the next one, or stop and open
        the window. */
    method TxDone(startUs: nat, granted: bool) returns (more: bool)
      requires Valid() && copyIdx < COPIES
      modifies this`copyIdx, this`joinWindowUs
      ensures copyIdx == old(copyIdx) + 1
      ensures more <==> copyIdx < COPIES && copies[copyIdx].len > 0 && granted
      ensures joinWindowUs ==
        if more || !offers then old(joinWindowUs) else WindowAfter(startUs, copyIdx)
    {
      var airEndUs := CopyStart(startUs, copyIdx) + COPY_AIR_US;
      copyIdx := copyIdx + 1;
      if copyIdx < COPIES && copies[copyIdx].len > 0 && granted {
        return true;
      }
      if offers {
        joinWindowUs := airEndUs + JOIN_OFFSET_US;
      }
      return false;
    }

    /** A whole beacon event: the callbacks one after the other. The window that opens is the one
        every copy on air pointed at exactly when the event was not suppressed and every copy was
        sealed and granted; each copy short brings it forward by one step. */
    method Send(startUs: nat, suppressed: bool, granted: seq<bool>) returns (sent: nat)
      requires Valid() && |granted| == COPIES
      modifies this`copyIdx, this`joinWindowUs
      ensures sent == Sent(copies, suppressed, granted)
      ensures sent == 0 || !offers ==> joinWindowUs == old(joinWindowUs)
      ensures sent > 0 && offers ==>
        joinWindowUs + (COPIES - sent) * (COPY_AIR_US + COPY_GAP_US) == PromisedWindow(startUs)
      ensures sent > 0 && offers ==>
        ((forall i :: 0 <= i < sent ==> PredictedWindow(copies[i], CopyStart(startUs, i)) == joinWindowUs)
          <==> forall i :: 0 <= i < COPIES ==> copies[i].len > 0 && granted[i])
    {
      sent := 0;
      var more := TxStart(suppressed, granted[0]);
      while more
        invariant SendingOn(copies, suppressed, granted, sent, more) && (more ==> sent == copyIdx)
        invariant joinWindowUs ==
          if more || sent == 0 || !offers then old(joinWindowUs) else WindowAfter(startUs, sent)
        modifies this`copyIdx, this`joinWindowUs
        decreases COPIES - sent, more
      {
        more := TxDone(startUs, granted[if sent + 1 < COPIES then sent + 1 else 0]);
        SendingNext(copies, granted, sent, more);
        sent := sent + 1;
      }
      if sent > 0 && offers {
        WindowIff(Contents(), startUs, granted, joinWindowUs);
      }
    }

    /** `lg_disc_beacon_finish`. */
    method Finish(nowUs: nat, intervalUs: nat, rand1: nat, rand2: nat, worthwhile: bool, linked: nat, maxLinks: nat,
                  sealed: seq<bool>)
      requires |sealed| == COPIES
      modifies this
      ensures Valid()
      ensures Contents() == Step(old(Contents()),
        Input.Finish(nowUs, intervalUs, rand1, rand2, linked < maxLinks && worthwhile, sealed))
      ensures joinWindowUs == old(joinWindowUs)
    {
      StepPromises(Contents(), Input.Finish(nowUs, intervalUs, rand1, rand2, linked < maxLinks && worthwhile, sealed));
      if plannedUs > nowUs + PROMISE_MARGIN_US {
        nextUs := plannedUs;
      } else {
        nextUs := nowUs + Jitter(intervalUs, rand1);
      }
      plannedUs := nextUs + Jitter(intervalUs, rand2);
      Stage(worthwhile, linked, maxLinks, sealed);
    }

    /** `lg_disc_retune`, where it touches beacons: the copies are not staged again. */
    method Retune(should: bool, nowUs: nat, intervalUs: nat, rand: nat)
      requires Valid()
      modifies this`nextUs
      ensures Valid()
      ensures Contents() == Step(old(Contents()), Input.Retune(should, nowUs, intervalUs, rand))
    {
      if !should {
        nextUs := TIME_NEVER;
      } else if nextUs == TIME_NEVER {
        nextUs := nowUs + Jitter(intervalUs, rand);
      }
    }
  }

  // ----- the joiner's choice -----

  /** Joiners that pick different sub-slots of the window cannot overlap, and every pick fits. */
  lemma SubSlotsDisjoint(pick1: nat, pick2: nat)
    requires pick1 < pick2 < JOIN_WINDOW_US / JOIN_TRAIN_US
    ensures JOIN_WINDOW_US / JOIN_TRAIN_US == CONTEND_SLOTS
    ensures pick1 * JOIN_TRAIN_US + JOIN_TRAIN_US <= pick2 * JOIN_TRAIN_US
    ensures pick2 * JOIN_TRAIN_US + JOIN_TRAIN_US <= JOIN_WINDOW_US
  {
  }
}
