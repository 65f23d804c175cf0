/** Subrating: when two ends meet, and why backing off never starves a link. */
module Subrate {
  import opened Arith
  import opened Config
  import opened Schedule
  import A = Agreement

  const SUBRATE_CAP: nat := 32
  // The supervision timeout travels in units of 10 ms.
  const CENTISECOND_US: nat := 10_000

  // ----- joint activity -----

  predicate JointlyActive(s: nat, t: nat, c: int) {
    Active(s, c) && Active(t, c)
  }

  ghost predicate IsLcm(s: nat, t: nat, m: nat) {
    m >= 1 && JointlyActive(s, t, m) && forall k :: 0 < k < m ==> !JointlyActive(s, t, k)
  }

  /** Ends with different subrates are awake together exactly at the multiples of the least
      common multiple of the two: a modulus has no phase to lose. */
  lemma MeetAtLcmMultiples(s: nat, t: nat, m: nat, c: nat)
    requires IsLcm(s, t, m)
    ensures JointlyActive(s, t, c) <==> c % m == 0
  {
    DivMod(c, m);
    var q, r := c / m, c % m;
    ActiveSum(s, m, q, r);
    ActiveSum(t, m, q, r);
    assert c == q * m + r;
    if r == 0 {
      ActiveZero(s);
      ActiveZero(t);
    } else {
      assert !JointlyActive(s, t, r);
    }
  }

  lemma ActiveZero(s: nat)
    ensures Active(s, 0)
  {
  }

  /** Adding multiples of an active event number changes nothing. */
  lemma {:induction false} ActiveSum(s: nat, m: nat, q: nat, r: nat)
    requires Active(s, m)
    ensures Active(s, q * m + r) <==> Active(s, r)
  {
    var step := Step(s);
    DivMod(m, step);
    DivMod(r, step);
    var k := m / step;
    assert m == k * step;
    assert q * m + r == (q * k + r / step) * step + r % step by {
      assert q * m == (q * k) * step;
      assert (q * k + r / step) * step == (q * k) * step + r / step * step;
    }
    DivModUnique(q * m + r, step, q * k + r / step, r % step);
  }

  /** Any two ends do meet, at the latest after the product of their subrates. */
  lemma LcmExists(s: nat, t: nat) returns (m: nat)
    ensures IsLcm(s, t, m) && m <= Step(s) * Step(t)
  {
    var top := Step(s) * Step(t);
    Gap(1, Step(s), Step(t));
    MultipleOf(Step(t), Step(s));
    MultipleOf(Step(s), Step(t));
    m := 1;
    while !JointlyActive(s, t, m)
      invariant 1 <= m <= top
      invariant forall k :: 0 < k < m ==> !JointlyActive(s, t, k)
      decreases top - m
    {
      m := m + 1;
    }
  }

  // ----- the ceiling -----

  /** Two missed events fit in the timeout, with one to spare. */
  predicate Fits(subrate: nat, intervalUs: nat, supTimeoutUs: nat) {
    3 * (subrate * intervalUs) <= supTimeoutUs
  }

  /** `lg_subrate_ceiling`, with its 32-bit product. */
  function SubrateCeiling(intervalUs: nat, supTimeoutUs: nat): nat {
    if intervalUs == 0 || supTimeoutUs == 0 || intervalUs * 3 % WORD32 == 0 then 1
    else Min(Max(supTimeoutUs / (intervalUs * 3 % WORD32), 1), SUBRATE_CAP)
  }

  /** The ceiling is the largest subrate up to 32 that fits, or 1 if none does; so it fits
      exactly when a subrate of 1 does. */
  lemma CeilingIsLargest(intervalUs: nat, supTimeoutUs: nat, k: nat)
    requires 0 < intervalUs && intervalUs * 3 < WORD32 && 1 <= k <= SUBRATE_CAP
    ensures 1 <= SubrateCeiling(intervalUs, supTimeoutUs) <= SUBRATE_CAP
    ensures k <= SubrateCeiling(intervalUs, supTimeoutUs) <==> k == 1 || Fits(k, intervalUs, supTimeoutUs)
  {
    var d := intervalUs * 3;
    assert d % WORD32 == d;
    var q := supTimeoutUs / d;
    DivMod(supTimeoutUs, d);
    assert 3 * (k * intervalUs) == k * d;
    if k <= q {
      Gap(k, q, d);
    } else {
      Gap(q + 1, k, d);
    }
  }

  // ----- tuning and establishment -----

  function ClampInterval(intervalUs: int): int {
    Clamp(intervalUs, CONN_INTERVAL_MIN_MS * 1000, CONN_INTERVAL_MAX_MS * 1000)
  }

  /** The timing settings, as a caller asks for them or as the build configures them. */
  datatype Settings = Settings(connIntervalUs: nat, supTimeoutUs: nat, subrateMax: nat, scanWindowUs: nat,
                               scanUnattachedUs: nat, scanSeekingUs: nat, scanAttachedUs: nat,
                               beaconIntervalUs: nat, beaconIdleFactor: nat, joinWindowFloorUs: nat)

  const SCAN_WINDOW_FLOOR_US: nat := 2_000
  const BEACON_INTERVAL_FLOOR_US: nat := 100_000

  class Tuning {
    var connIntervalUs: nat
    var supTimeoutUs: nat
    var subrateMax: nat
    var scanWindowUs: nat
    var scanUnattachedUs: nat
    var scanSeekingUs: nat
    var scanAttachedUs: nat
    var beaconIntervalUs: nat
    var beaconIdleFactor: nat
    var joinWindowFloorUs: nat

    function Current(): Settings
      reads this
    {
      Settings(connIntervalUs, supTimeoutUs, subrateMax, scanWindowUs, scanUnattachedUs, scanSeekingUs,
               scanAttachedUs, beaconIntervalUs, beaconIdleFactor, joinWindowFloorUs)
    }

    ghost predicate Valid()
      reads this
    {
      && connIntervalUs == ClampInterval(connIntervalUs)
      && supTimeoutUs >= 4 * connIntervalUs
      && 1 <= subrateMax <= SUBRATE_CAP && Fits(subrateMax, connIntervalUs, supTimeoutUs)
      && scanWindowUs >= SCAN_WINDOW_FLOOR_US
      && Min(scanUnattachedUs, Min(scanSeekingUs, scanAttachedUs)) >= scanWindowUs
      && beaconIntervalUs >= BEACON_INTERVAL_FLOOR_US && beaconIdleFactor >= 1
    }

    /** `lg_tuning_init`: the configured settings stay as they are, except that the subrate becomes the
        largest one configured that fits. They are as good as accepted ones exactly when nothing in them
        needs raising. */
    constructor (k: Settings)
      requires 0 < k.connIntervalUs && k.connIntervalUs * 3 < WORD32 && k.subrateMax >= 1
      ensures Current() == k.(subrateMax := subrateMax)
      ensures forall n :: 1 <= n <= SUBRATE_CAP ==>
        (n <= subrateMax <==> n <= k.subrateMax && (n == 1 || Fits(n, k.connIntervalUs, k.supTimeoutUs)))
      ensures Valid() <==>
        && k.connIntervalUs == ClampInterval(k.connIntervalUs) && k.supTimeoutUs >= 4 * k.connIntervalUs
        && k.scanWindowUs >= SCAN_WINDOW_FLOOR_US
        && Min(k.scanUnattachedUs, Min(k.scanSeekingUs, k.scanAttachedUs)) >= k.scanWindowUs
        && k.beaconIntervalUs >= BEACON_INTERVAL_FLOOR_US && k.beaconIdleFactor >= 1
    {
      connIntervalUs, supTimeoutUs := k.connIntervalUs, k.supTimeoutUs;
      subrateMax := Min(k.subrateMax, SubrateCeiling(k.connIntervalUs, k.supTimeoutUs));
      scanWindowUs, scanUnattachedUs := k.scanWindowUs, k.scanUnattachedUs;
      scanSeekingUs, scanAttachedUs := k.scanSeekingUs, k.scanAttachedUs;
      beaconIntervalUs, beaconIdleFactor := k.beaconIntervalUs, k.beaconIdleFactor;
      joinWindowFloorUs := k.joinWindowFloorUs;
      new;
      ConfiguredIsLargest(k.connIntervalUs, k.supTimeoutUs, k.subrateMax, subrateMax);
    }

    /** `lg_tuning_set`: any request at all is made safe. Each setting is the least change to what was
        asked for that its limits allow. */
    method Set(t: Settings)
      requires CONN_INTERVAL_MIN_MS <= CONN_INTERVAL_MAX_MS
      modifies this
      ensures Valid()
      ensures Current() ==
        t.(connIntervalUs := ClampInterval(t.connIntervalUs),
           supTimeoutUs := Max(t.supTimeoutUs, 4 * connIntervalUs),
           subrateMax := subrateMax,
           scanWindowUs := Max(t.scanWindowUs, SCAN_WINDOW_FLOOR_US),
           scanUnattachedUs := Max(t.scanUnattachedUs, scanWindowUs),
           scanSeekingUs := Max(t.scanSeekingUs, scanWindowUs),
           scanAttachedUs := Max(t.scanAttachedUs, scanWindowUs),
           beaconIntervalUs := Max(t.beaconIntervalUs, BEACON_INTERVAL_FLOOR_US),
           beaconIdleFactor := Max(1, t.beaconIdleFactor))
      ensures forall k :: 1 <= k <= SUBRATE_CAP ==>
        (k <= subrateMax <==> k == 1 || (k <= t.subrateMax && Fits(k, connIntervalUs, supTimeoutUs)))
    {
      connIntervalUs := ClampInterval(t.connIntervalUs);
      supTimeoutUs := Max(t.supTimeoutUs, connIntervalUs * 4);
      subrateMax := Max(1, Min(t.subrateMax, SubrateCeiling(connIntervalUs, supTimeoutUs)));
      scanWindowUs := Max(t.scanWindowUs, SCAN_WINDOW_FLOOR_US);
      scanUnattachedUs := Max(t.scanUnattachedUs, scanWindowUs);
      scanSeekingUs := Max(t.scanSeekingUs, scanWindowUs);
      scanAttachedUs := Max(t.scanAttachedUs, scanWindowUs);
      beaconIntervalUs := Max(t.beaconIntervalUs, BEACON_INTERVAL_FLOOR_US);
      beaconIdleFactor := Max(1, t.beaconIdleFactor);
      joinWindowFloorUs := t.joinWindowFloorUs;
      LimitIsLargest(connIntervalUs, supTimeoutUs, t.subrateMax, subrateMax);
    }
  }

  lemma ConfiguredIsLargest(intervalUs: nat, supTimeoutUs: nat, asked: nat, limit: nat)
    requires 0 < intervalUs && intervalUs * 3 < WORD32 && asked >= 1
    requires limit == Min(asked, SubrateCeiling(intervalUs, supTimeoutUs))
    ensures 1 <= limit <= SUBRATE_CAP
    ensures forall n :: 1 <= n <= SUBRATE_CAP ==>
      (n <= limit <==> n <= asked && (n == 1 || Fits(n, intervalUs, supTimeoutUs)))
    ensures supTimeoutUs >= 4 * intervalUs ==> Fits(limit, intervalUs, supTimeoutUs)
  {
    forall n | 1 <= n <= SUBRATE_CAP
      ensures 1 <= SubrateCeiling(intervalUs, supTimeoutUs) <= SUBRATE_CAP
      ensures n <= SubrateCeiling(intervalUs, supTimeoutUs) <==> n == 1 || Fits(n, intervalUs, supTimeoutUs)
    {
      CeilingIsLargest(intervalUs, supTimeoutUs, n);
    }
    assert 1 <= SUBRATE_CAP;
    if limit == 1 {
      assert supTimeoutUs >= 4 * intervalUs ==> Fits(1, intervalUs, supTimeoutUs);
    }
  }

  lemma LimitIsLargest(intervalUs: nat, supTimeoutUs: nat, asked: nat, limit: nat)
    requires 0 < intervalUs && intervalUs * 3 < WORD32 && supTimeoutUs >= 4 * intervalUs
    requires limit == Max(1, Min(asked, SubrateCeiling(intervalUs, supTimeoutUs)))
    ensures 1 <= limit <= SUBRATE_CAP && Fits(limit, intervalUs, supTimeoutUs)
    ensures forall k :: 1 <= k <= SUBRATE_CAP ==>
      (k <= limit <==> k == 1 || (k <= asked && Fits(k, intervalUs, supTimeoutUs)))
  {
    forall k | 1 <= k <= SUBRATE_CAP
      ensures 1 <= SubrateCeiling(intervalUs, supTimeoutUs) <= SUBRATE_CAP
      ensures k <= SubrateCeiling(intervalUs, supTimeoutUs) <==> k == 1 || Fits(k, intervalUs, supTimeoutUs)
    {
      CeilingIsLargest(intervalUs, supTimeoutUs, k);
    }
    assert Fits(1, intervalUs, supTimeoutUs);
    assert limit == 1 || Fits(limit, intervalUs, supTimeoutUs);
  }

  // What the router sends of its tuning; the timeout field has sixteen bits.
  datatype LinkParams = LinkParams(intervalUs: nat, supTimeoutCs: nat, subrateMax: nat)

  function ParamsFill(intervalUs: nat, supTimeoutUs: nat, subrateMax: nat): LinkParams {
    LinkParams(intervalUs, supTimeoutUs / CENTISECOND_US % WORD16, subrateMax)
  }

  // The subrate limit an end takes from the parameters and its own tuning.
  function EstablishedMax(pp: LinkParams, tuneMax: nat): nat {
    Min(pp.subrateMax, Min(tuneMax, SubrateCeiling(ClampInterval(pp.intervalUs), pp.supTimeoutCs * CENTISECOND_US)))
  }

  /** The timeout, as it was sent, holds three intervals. */
  predicate HasRoom(pp: LinkParams) {
    3 * ClampInterval(pp.intervalUs) <= pp.supTimeoutCs * CENTISECOND_US
  }

  /** The limit keeps every subrate up to it within the timeout if and only if there is room; without
      room it is 1. */
  lemma LimitFits(pp: LinkParams, tuneMax: nat)
    requires pp.subrateMax >= 1 && tuneMax >= 1
    ensures 1 <= EstablishedMax(pp, tuneMax) <= SUBRATE_CAP
    ensures Fits(EstablishedMax(pp, tuneMax), ClampInterval(pp.intervalUs), pp.supTimeoutCs * CENTISECOND_US)
      <==> HasRoom(pp)
    ensures !HasRoom(pp) ==> EstablishedMax(pp, tuneMax) == 1
  {
    var interval, sup := ClampInterval(pp.intervalUs), pp.supTimeoutCs * CENTISECOND_US;
    var k := EstablishedMax(pp, tuneMax);
    CeilingIsLargest(interval, sup, 1);
    CeilingIsLargest(interval, sup, k);
    Gap(1, k, interval);
  }

  /** From any accepted tuning whose timeout fits its field, no subrate the link may reach starves
      it. */
  lemma AcceptedTuningNeverStarves(tune: Tuning, tuneMax: nat)
    requires tune.Valid() && tuneMax >= 1 && tune.supTimeoutUs / CENTISECOND_US < WORD16
    ensures
      var pp := ParamsFill(tune.connIntervalUs, tune.supTimeoutUs, tune.subrateMax);
      && HasRoom(pp) && ClampInterval(pp.intervalUs) == tune.connIntervalUs
      && Fits(EstablishedMax(pp, tuneMax), tune.connIntervalUs, pp.supTimeoutCs * CENTISECOND_US)
  {
    var pp := ParamsFill(tune.connIntervalUs, tune.supTimeoutUs, tune.subrateMax);
    LimitFits(pp, tuneMax);
  }

  /** The tuning a node boots with is sent as configured: it has room exactly when the configured timeout,
      in whole centiseconds, holds three intervals. */
  lemma ConfiguredTuningHasRoomIff(intervalMs: nat, supTimeoutMs: nat, subrateMax: nat)
    requires 500 <= supTimeoutMs <= 60_000 && intervalMs * 1000 == ClampInterval(intervalMs * 1000)
    ensures HasRoom(ParamsFill(intervalMs * 1000, supTimeoutMs * 1000, subrateMax)) <==>
      3 * intervalMs <= supTimeoutMs / 10 * 10
  {
    var cs := supTimeoutMs / 10;
    assert supTimeoutMs * 1000 / CENTISECOND_US == cs;
  }

  /** A timeout that overflows the field can arrive as none at all. */
  lemma OverflowedTimeoutStarves(intervalUs: nat, subrateMax: nat, tuneMax: nat)
    requires intervalUs == ClampInterval(intervalUs) && subrateMax >= 1 && tuneMax >= 1
    ensures
      var pp := ParamsFill(intervalUs, 655_360_000, subrateMax);
      pp.supTimeoutCs == 0 && !HasRoom(pp)
      && !Fits(EstablishedMax(pp, tuneMax), intervalUs, pp.supTimeoutCs * CENTISECOND_US)
  {
    LimitFits(ParamsFill(intervalUs, 655_360_000, subrateMax), tuneMax);
  }

  // ----- every subrate a link reaches -----

  predicate FrameWithin(f: A.Frame, cap: nat) {
    f.CtrlSubrate? ==> f.subrate <= cap
  }

  predicate EndWithin(e: A.End, cap: nat) {
    e.subrate <= cap && (e.pendSubrate ==> e.newSubrate <= cap) && FrameWithin(e.tx, cap)
  }

  predicate PairWithin(p: A.Pair, cap: nat) {
    EndWithin(p.ini, cap) && EndWithin(p.rsp, cap) && p.ini.initiator && !p.rsp.initiator
  }

  // Only the initiator's limit decides anything.
  predicate InputWithin(input: A.Input, cap: nat) {
    input.Event? ==> input.local.subrateMax <= cap
  }

  predicate InputsWithin(inputs: seq<A.Input>, cap: nat) {
    forall i :: 0 <= i < |inputs| ==> InputWithin(inputs[i], cap)
  }

  /** Whatever is lost, echoed or abandoned, neither end's subrate ever passes the limit the
      link was established with. */
  lemma {:induction false} SubrateStaysWithin(p: A.Pair, inputs: seq<A.Input>, cap: nat)
    requires cap >= 1 && PairWithin(p, cap) && InputsWithin(inputs, cap)
    ensures PairWithin(A.Run(p, inputs), cap)
  {
    if inputs != [] {
      SubrateStaysWithin(p, inputs[..|inputs| - 1], cap);
      StepStaysWithin(A.Run(p, inputs[..|inputs| - 1]), inputs[|inputs| - 1], cap);
    }
  }

  lemma StepStaysWithin(p: A.Pair, input: A.Input, cap: nat)
    requires cap >= 1 && PairWithin(p, cap) && InputWithin(input, cap)
    ensures PairWithin(A.Next(p, input), cap)
  {
    if input.Event? {
      ExchangeWithin(p, input.forward, input.reply, cap);
      var q := A.Exchange(A.Caught(p), input.forward, input.reply);
      SettleWithin(q.ini, input.local, cap);
      SettleWithin(q.rsp, input.rspLocal, cap);
    }
  }

  // Catching up and exchanging frames, which leave both subrates alone.
  lemma ExchangeWithin(p: A.Pair, forward: bool, reply: bool, cap: nat)
    requires PairWithin(p, cap)
    ensures
      var q := A.Exchange(A.Caught(p), forward, reply);
      && PairWithin(q, cap)
      && q.ini.counter == A.Meeting(p.ini) && q.ini.subrate == p.ini.subrate
      && q.rsp.counter == A.Meeting(p.rsp) && q.rsp.subrate == p.rsp.subrate
      && (!(forward && reply) ==> q.ini == A.Catch(p.ini)) && (!forward ==> q.rsp == A.Catch(p.rsp))
  {
  }

  lemma SettleWithin(e: A.End, l: A.Local, cap: nat)
    requires cap >= 1 && EndWithin(e, cap) && (e.initiator ==> l.subrateMax <= cap)
    ensures EndWithin(A.Settle(e, l), cap) && A.Settle(e, l).initiator == e.initiator
  {
    assert EndWithin(A.Advance(e), cap);
  }

  // ----- supervision -----

  /** The test `lg_link_event_miss` makes. */
  predicate Supervises(lastRxUs: nat, nowUs: nat, supTimeoutUs: nat) {
    lastRxUs != 0 && nowUs - lastRxUs > supTimeoutUs
  }

  // A change of subrate that this end cannot apply when it next loads an event.
  predicate Calm(e: A.End) {
    !e.pendSubrate || (e.initiator && !e.acked)
  }

  /** From one active event to the next: one step, and if the subrate changes with it, less than one step
      of the new subrate more to an event that selects. An end that heard nothing since cannot change it
      again. */
  lemma LoadNext(e: A.End, l: A.Local, cap: nat)
    requires cap >= 1 && EndWithin(e, cap) && (e.initiator ==> l.subrateMax <= cap)
    requires Active(e.subrate, e.counter) && e.counter + 2 * cap < EVENT_MODULUS
    ensures
      var e' := A.Settle(e, l);
      && e'.counter == e.counter + Step(e.subrate)
      && A.Meeting(e') < e.counter + Step(e.subrate) + (if e'.subrate == e.subrate then 1 else Step(e'.subrate))
      && (e'.subrate != e.subrate ==> Calm(e'))
      && (Calm(e) ==> e'.subrate == e.subrate)
  {
    ActiveAfter(e.subrate, e.counter);
    var e' := A.Settle(e, l);
    SettleWithin(e, l, cap);
    var loaded := e.counter + Step(e.subrate);
    assert e'.counter == loaded;
    if !Active(e'.subrate, loaded) {
      NextSoon(e'.subrate, loaded);
    }
  }

  lemma NextSoon(subrate: nat, c: nat)
    requires !Active(subrate, c) && c + Step(subrate) < EVENT_MODULUS
    ensures NextActive(subrate, c) < c + Step(subrate)
  {
    var s := Step(subrate);
    DivMod(c, s);
    assert (c / s + 1) * s == c / s * s + s;
    DivModUnique((c / s + 1) * s, EVENT_MODULUS, 0, (c / s + 1) * s);
  }

  function EndOf(p: A.Pair, initiator: bool): A.End {
    if initiator then p.ini else p.rsp
  }

  // The initiator hears a reply, the responder the frame it answers.
  predicate Hears(input: A.Input, initiator: bool) {
    input.Event? && input.forward && (initiator ==> input.reply)
  }

  predicate Misses(input: A.Input, initiator: bool) {
    input.Event? && !Hears(input, initiator)
  }

  predicate OnlyMaps(inputs: seq<A.Input>) {
    forall i :: 0 <= i < |inputs| ==> inputs[i].NewMap?
  }

  /** Map proposals between events touch no subrate and no event number, and do not license anything. */
  lemma {:induction false} MapsChangeNothing(p: A.Pair, maps: seq<A.Input>, initiator: bool)
    requires OnlyMaps(maps)
    ensures
      var e, e' := EndOf(p, initiator), EndOf(A.Run(p, maps), initiator);
      && e'.counter == e.counter && e'.subrate == e.subrate && (Calm(e) ==> Calm(e'))
  {
    if maps != [] {
      var before := maps[..|maps| - 1];
      MapsChangeNothing(p, before, initiator);
    }
  }

  /** An event an end misses, it settles as it stood. */
  lemma MissIsSettled(p: A.Pair, miss: A.Input, initiator: bool, cap: nat)
    requires PairWithin(p, cap) && Misses(miss, initiator)
    ensures EndOf(A.Next(p, miss), initiator) ==
      A.Settle(A.Catch(EndOf(p, initiator)), if initiator then miss.local else miss.rspLocal)
  {
    ExchangeWithin(p, miss.forward, miss.reply, cap);
  }

  // How far one event takes an end, and whether it may change the subrate again.
  ghost predicate Steps(e: A.End, e': A.End) {
    && e'.counter == A.Meeting(e) + Step(e.subrate)
    && A.Meeting(e') < A.Meeting(e) + Step(e.subrate) + (if e'.subrate == e.subrate then 1 else Step(e'.subrate))
    && (e'.subrate != e.subrate ==> Calm(e'))
    && (Calm(e) ==> e'.subrate == e.subrate)
  }

  // One event that this end misses, after proposals.
  lemma MissedStep(p: A.Pair, maps: seq<A.Input>, miss: A.Input, initiator: bool, cap: nat)
    requires cap >= 1 && PairWithin(p, cap) && OnlyMaps(maps) && Misses(miss, initiator) && InputWithin(miss, cap)
    requires EndOf(p, initiator).counter + 3 * cap < EVENT_MODULUS
    ensures
      var q := A.Run(p, maps);
      && PairWithin(A.Next(q, miss), cap)
      && A.Meeting(EndOf(q, initiator)) == A.Meeting(EndOf(p, initiator))
      && Steps(EndOf(p, initiator), EndOf(A.Next(q, miss), initiator))
  {
    var q := A.Run(p, maps);
    MapsChangeNothing(p, maps, initiator);
    SubrateStaysWithin(p, maps, cap);
    StepStaysWithin(q, miss, cap);
    MissIsSettled(q, miss, initiator, cap);
    CaughtSteps(EndOf(p, initiator), EndOf(q, initiator), if initiator then miss.local else miss.rspLocal, cap);
  }

  lemma CaughtSteps(p: A.End, e: A.End, l: A.Local, cap: nat)
    requires cap >= 1 && EndWithin(e, cap) && (e.initiator ==> l.subrateMax <= cap)
    requires e.counter + 3 * cap < EVENT_MODULUS
    requires e.counter == p.counter && e.subrate == p.subrate && (Calm(p) ==> Calm(e))
    ensures Steps(p, A.Settle(A.Catch(e), l))
  {
    MeetingIsActive(e);
    if !Active(e.subrate, e.counter) {
      NextSoon(e.subrate, e.counter);
    }
    LoadNext(A.Catch(e), l, cap);
  }

  lemma MeetingIsActive(e: A.End)
    requires e.counter + Step(e.subrate) < EVENT_MODULUS
    ensures Active(e.subrate, A.Meeting(e)) && A.Meeting(e) >= e.counter
  {
    if !Active(e.subrate, e.counter) {
      NextFits(e.subrate, e.counter);
      NextActiveIsLeast(e.subrate, e.counter);
    }
  }

  lemma NextFits(subrate: nat, c: nat)
    requires c + Step(subrate) < EVENT_MODULUS
    ensures (c / Step(subrate) + 1) * Step(subrate) < EVENT_MODULUS
  {
    var s := Step(subrate);
    DivMod(c, s);
    assert (c / s + 1) * s == c / s * s + s;
  }

  lemma ActiveAfter(subrate: nat, a: nat)
    requires Active(subrate, a) && a + Step(subrate) < EVENT_MODULUS
    ensures NextActive(subrate, a) == a + Step(subrate) && Active(subrate, a + Step(subrate))
  {
    var s := Step(subrate);
    DivMod(a, s);
    assert (a / s + 1) * s == a + s;
    MultipleOf(a / s + 1, s);
    DivModUnique(a + s, EVENT_MODULUS, 0, a + s);
  }

  lemma HeardStep(p: A.Pair, hit: A.Input, initiator: bool, cap: nat)
    requires cap >= 1 && PairWithin(p, cap) && hit.Event? && InputWithin(hit, cap)
    requires EndOf(p, initiator).counter + 3 * cap < EVENT_MODULUS
    ensures
      var e, e' := EndOf(p, initiator), EndOf(A.Next(p, hit), initiator);
      && PairWithin(A.Next(p, hit), cap) && e'.counter == A.Meeting(e) + Step(e.subrate)
      && A.Meeting(e') < A.Meeting(e) + Step(e.subrate) + (if e'.subrate == e.subrate then 1 else Step(e'.subrate))
      && (e'.subrate != e.subrate ==> Calm(e'))
  {
    StepStaysWithin(p, hit, cap);
    ExchangeWithin(p, hit.forward, hit.reply, cap);
    var e := EndOf(p, initiator);
    MeetingIsActive(e);
    if !Active(e.subrate, e.counter) {
      NextSoon(e.subrate, e.counter);
    }
    LoadNext(EndOf(A.Exchange(A.Caught(p), hit.forward, hit.reply), initiator),
             if initiator then hit.local else hit.rspLocal, cap);
  }

  /** From an event an end hears something in to the second one after it that it misses, less than three
      of the largest subrate's steps go by, whatever change of subrate falls due in between: at most one
      can, because nothing is heard that would license another. */
  lemma TwoMissesAreNear(p: A.Pair, hit: A.Input, maps1: seq<A.Input>, miss: A.Input, maps2: seq<A.Input>,
                         initiator: bool, cap: nat)
    requires cap >= 1 && PairWithin(p, cap) && InputWithin(hit, cap) && InputWithin(miss, cap)
    requires Hears(hit, initiator) && Misses(miss, initiator) && OnlyMaps(maps1) && OnlyMaps(maps2)
    requires EndOf(p, initiator).counter + 5 * cap < EVENT_MODULUS
    ensures A.Meeting(EndOf(SecondMiss(p, hit, maps1, miss, maps2), initiator))
      < A.Meeting(EndOf(p, initiator)) + 3 * cap
  {
    var q := A.Next(p, hit);
    HeardStep(p, hit, initiator, cap);
    MeetingNear(EndOf(p, initiator), cap);
    MissedStep(q, maps1, miss, initiator, cap);
    MapsChangeNothing(A.Next(A.Run(q, maps1), miss), maps2, initiator);
  }

  lemma MeetingNear(e: A.End, cap: nat)
    requires e.subrate <= cap && cap >= 1 && e.counter + cap < EVENT_MODULUS
    ensures A.Meeting(e) < e.counter + cap
  {
    if !Active(e.subrate, e.counter) {
      NextSoon(e.subrate, e.counter);
    }
  }

  /** The pair as the second missed event begins. */
  function SecondMiss(p: A.Pair, hit: A.Input, maps1: seq<A.Input>, miss: A.Input, maps2: seq<A.Input>): A.Pair {
    A.Run(A.Next(A.Run(A.Next(p, hit), maps1), miss), maps2)
  }

  /** While the subrate stays as it is, the second miss may be noticed at any time before the third active
      event is due. */
  lemma TwoMissesAtOneSubrate(subrate: nat, intervalUs: nat, supTimeoutUs: nat, epochUs: nat, a: nat,
                              lastRxUs: nat, nowUs: nat)
    requires Active(subrate, a) && Fits(Step(subrate), intervalUs, supTimeoutUs)
    requires a + 3 * Step(subrate) < EVENT_MODULUS
    requires lastRxUs >= epochUs + a * intervalUs
    requires
      var third := NextActive(subrate, NextActive(subrate, NextActive(subrate, a)));
      nowUs < epochUs + third * intervalUs
    ensures !Supervises(lastRxUs, nowUs, supTimeoutUs)
  {
    ThirdAfter(subrate, a);
    TimesThree(a, Step(subrate), intervalUs);
  }

  lemma ThirdAfter(subrate: nat, a: nat)
    requires Active(subrate, a) && a + 3 * Step(subrate) < EVENT_MODULUS
    ensures NextActive(subrate, NextActive(subrate, NextActive(subrate, a))) == a + 3 * Step(subrate)
  {
    var s := Step(subrate);
    ActiveAfter(subrate, a);
    ActiveAfter(subrate, a + s);
    ActiveAfter(subrate, a + s + s);
  }

  lemma TimesThree(a: nat, s: nat, intervalUs: nat)
    ensures (a + 3 * s) * intervalUs == a * intervalUs + 3 * (s * intervalUs)
  {
  }

  /** A run from an established link, within the limit it was established with, to a point where an end
      hears something in one event, misses the next, and begins the one after. */
  ghost predicate MissesTwice(p: A.Pair, before: seq<A.Input>, hit: A.Input, maps1: seq<A.Input>, miss: A.Input,
                              maps2: seq<A.Input>, initiator: bool, limit: nat) {
    && A.Established(p) && InputsWithin(before, limit) && InputWithin(hit, limit) && InputWithin(miss, limit)
    && Hears(hit, initiator) && Misses(miss, initiator) && OnlyMaps(maps1) && OnlyMaps(maps2)
    && EndOf(A.Run(p, before), initiator).counter + 5 * SUBRATE_CAP < EVENT_MODULUS
  }

  /** Two active events missed in a row never end a link that has room, at either end, in any run:
      neither losses nor splits, nor a change of subrate falling due in the gap, let the timeout run out
      before the second miss has been noticed, up to one interval late. */
  lemma TwoMissesDoNotSupervise(pp: LinkParams, tuneMax: nat, p: A.Pair, before: seq<A.Input>,
                                hit: A.Input, maps1: seq<A.Input>, miss: A.Input, maps2: seq<A.Input>, initiator: bool,
                                epochUs: nat, lastRxUs: nat, nowUs: nat)
    requires pp.subrateMax >= 1 && tuneMax >= 1 && HasRoom(pp)
    ensures
      var intervalUs := ClampInterval(pp.intervalUs);
      var heardIn := A.Meeting(EndOf(A.Run(p, before), initiator));
      var second := A.Meeting(EndOf(SecondMiss(A.Run(p, before), hit, maps1, miss, maps2), initiator));
      MissesTwice(p, before, hit, maps1, miss, maps2, initiator, EstablishedMax(pp, tuneMax))
      && lastRxUs >= epochUs + heardIn * intervalUs && nowUs <= epochUs + second * intervalUs + intervalUs
      ==> !Supervises(lastRxUs, nowUs, pp.supTimeoutCs * CENTISECOND_US)
  {
    var limit := EstablishedMax(pp, tuneMax);
    LimitFits(pp, tuneMax);
    if MissesTwice(p, before, hit, maps1, miss, maps2, initiator, limit) {
      MissesTwiceAreNear(p, before, hit, maps1, miss, maps2, initiator, limit);
      var q := A.Run(p, before);
      TimeFits(A.Meeting(EndOf(q, initiator)), A.Meeting(EndOf(SecondMiss(q, hit, maps1, miss, maps2), initiator)),
               limit, ClampInterval(pp.intervalUs));
    }
  }

  /** Without room the same two misses do end it, in every run, when the second is noticed one interval
      late: the guard is exact. */
  lemma WithoutRoomTwoMissesSupervise(pp: LinkParams, tuneMax: nat, p: A.Pair, before: seq<A.Input>,
                                      hit: A.Input, maps1: seq<A.Input>, miss: A.Input, maps2: seq<A.Input>,
                                      initiator: bool, epochUs: nat, lastRxUs: nat, nowUs: nat)
    requires pp.subrateMax >= 1 && tuneMax >= 1 && !HasRoom(pp) && lastRxUs > 0
    ensures
      var intervalUs := ClampInterval(pp.intervalUs);
      var heardIn := A.Meeting(EndOf(A.Run(p, before), initiator));
      var second := A.Meeting(EndOf(SecondMiss(A.Run(p, before), hit, maps1, miss, maps2), initiator));
      MissesTwice(p, before, hit, maps1, miss, maps2, initiator, EstablishedMax(pp, tuneMax))
      && lastRxUs == epochUs + heardIn * intervalUs && nowUs == epochUs + second * intervalUs + intervalUs
      ==> Supervises(lastRxUs, nowUs, pp.supTimeoutCs * CENTISECOND_US)
  {
    LimitFits(pp, tuneMax);
    var q := A.Run(p, before);
    var heardIn := A.Meeting(EndOf(q, initiator));
    var second := A.Meeting(EndOf(SecondMiss(q, hit, maps1, miss, maps2), initiator));
    if MissesTwice(p, before, hit, maps1, miss, maps2, initiator, 1) {
      SecondIsTwoOn(p, before, hit, maps1, miss, maps2, initiator);
      ThreeIntervals(heardIn, second, ClampInterval(pp.intervalUs));
    }
  }

  lemma ThreeIntervals(a: nat, second: nat, intervalUs: int)
    requires second == a + 2
    ensures second * intervalUs + intervalUs == a * intervalUs + 3 * intervalUs
  {
  }

  lemma MissesTwiceAreNear(p: A.Pair, before: seq<A.Input>, hit: A.Input, maps1: seq<A.Input>, miss: A.Input,
                           maps2: seq<A.Input>, initiator: bool, limit: nat)
    ensures MissesTwice(p, before, hit, maps1, miss, maps2, initiator, limit) && 1 <= limit <= SUBRATE_CAP ==>
      A.Meeting(EndOf(SecondMiss(A.Run(p, before), hit, maps1, miss, maps2), initiator))
        < A.Meeting(EndOf(A.Run(p, before), initiator)) + 3 * limit
  {
    if MissesTwice(p, before, hit, maps1, miss, maps2, initiator, limit) && 1 <= limit <= SUBRATE_CAP {
      SubrateStaysWithin(p, before, limit);
      TwoMissesAreNear(A.Run(p, before), hit, maps1, miss, maps2, initiator, limit);
    }
  }

  /** A link that may not subrate takes every event. */
  lemma SecondIsTwoOn(p: A.Pair, before: seq<A.Input>, hit: A.Input, maps1: seq<A.Input>, miss: A.Input,
                      maps2: seq<A.Input>, initiator: bool)
    requires MissesTwice(p, before, hit, maps1, miss, maps2, initiator, 1)
    ensures A.Meeting(EndOf(SecondMiss(A.Run(p, before), hit, maps1, miss, maps2), initiator))
      == A.Meeting(EndOf(A.Run(p, before), initiator)) + 2
  {
    var q := A.Run(p, before);
    SubrateStaysWithin(p, before, 1);
    HeardStep(q, hit, initiator, 1);
    var q1 := A.Next(q, hit);
    MeetingAtOne(EndOf(q1, initiator));
    MissedStep(q1, maps1, miss, initiator, 1);
    var q2 := A.Next(A.Run(q1, maps1), miss);
    MeetingAtOne(EndOf(q2, initiator));
    MapsChangeNothing(q2, maps2, initiator);
  }

  lemma MeetingAtOne(e: A.End)
    requires e.subrate <= 1
    ensures A.Meeting(e) == e.counter && Step(e.subrate) == 1
  {
  }

  lemma TimeFits(a: nat, second: nat, cap: nat, intervalUs: nat)
    requires second < a + 3 * cap
    ensures second * intervalUs + intervalUs <= a * intervalUs + 3 * (cap * intervalUs)
  {
    MulMonotone(second + 1, a + 3 * cap, intervalUs);
    assert (second + 1) * intervalUs == second * intervalUs + intervalUs;
    TimesThree(a, cap, intervalUs);
  }
}
