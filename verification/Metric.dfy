/** Link quality of one neighbour: delivery history, signal strength and the cost they give. */
module Metric {
  import opened Config
  import opened Arith

  const ETX_MAX: nat := 8 * ETX_ONE
  const ETX_LOSS: nat := 4 * ETX_ONE
  const RSSI_WEAK_DBM: int := -88
  const RSSI_PENALTY_PER_DB: nat := 2
  const DECAY_AT: nat := 128
  // Where a run of losses alone takes the estimate, and the dearest link there can be.
  const ETX_WORST: nat := 57
  const COST_WORST: nat := 135

  function Sample(acked: bool): nat {
    if acked then ETX_ONE else ETX_LOSS
  }

  function NextEtx(etx: nat, acked: bool): int {
    Clamp(Ewma(etx, Sample(acked)), ETX_ONE, ETX_MAX)
  }

  // ----- the estimate over a history of attempts -----

  function EtxAfter(history: seq<bool>): (etx: nat)
    ensures ETX_ONE <= etx <= ETX_WORST
  {
    if history == [] then ETX_ONE else NextEtx(EtxAfter(history[..|history| - 1]), history[|history| - 1])
  }

  /** The upper clamp never acts. */
  lemma ClampIsIdle(history: seq<bool>, acked: bool)
    ensures EtxAfter(history + [acked]) == Ewma(EtxAfter(history), Sample(acked)) < ETX_MAX
  {
    Appended(history, acked);
  }

  lemma Appended(history: seq<bool>, acked: bool)
    ensures EtxAfter(history + [acked]) == NextEtx(EtxAfter(history), acked)
  {
    assert (history + [acked])[..|history|] == history;
  }

  lemma OneMore(history: seq<bool>, acked: bool)
    ensures EtxAfter(history + [acked]) == (7 * EtxAfter(history) + Sample(acked)) / 8
    ensures acked ==> EtxAfter(history + [acked]) < EtxAfter(history) || EtxAfter(history + [acked]) == ETX_ONE
    ensures !acked ==> EtxAfter(history + [acked]) > EtxAfter(history) || EtxAfter(history + [acked]) == ETX_WORST
  {
    Appended(history, acked);
  }

  function Repeat(acked: bool, n: nat): (run: seq<bool>) {
    seq(n, i => acked)
  }

  // The estimate `n` equal outcomes after `etx`.
  function Drift(etx: nat, acked: bool, n: nat): nat {
    if n == 0 then etx else (7 * Drift(etx, acked, n - 1) + Sample(acked)) / 8
  }

  lemma {:induction false} RunDrifts(history: seq<bool>, acked: bool, n: nat)
    ensures EtxAfter(history + Repeat(acked, n)) == Drift(EtxAfter(history), acked, n)
  {
    if n == 0 {
      assert history + Repeat(acked, 0) == history;
    } else {
      RunDrifts(history, acked, n - 1);
      RunStep(history, acked, n);
    }
  }

  lemma RunStep(history: seq<bool>, acked: bool, n: nat)
    requires n > 0
    ensures EtxAfter(history + Repeat(acked, n)) == (7 * EtxAfter(history + Repeat(acked, n - 1)) + Sample(acked)) / 8
  {
    var before := history + Repeat(acked, n - 1);
    assert history + Repeat(acked, n) == before + [acked];
    OneMore(before, acked);
  }

  lemma {:induction false} DriftMonotone(a: nat, b: nat, acked: bool, n: nat)
    requires a <= b
    ensures Drift(a, acked, n) <= Drift(b, acked, n)
  {
    if n > 0 {
      DriftMonotone(a, b, acked, n - 1);
    }
  }

  /** Eighteen equal outcomes forget any past: successes restore a perfect estimate, losses take
      it to its worst. */
  lemma EighteenSettle(history: seq<bool>)
    ensures EtxAfter(history + Repeat(true, 18)) == ETX_ONE
    ensures EtxAfter(history + Repeat(false, 18)) == ETX_WORST
  {
    RunSettles(history, 18);
  }

  lemma RunSettles(history: seq<bool>, n: nat)
    requires n == |FALLING| - 1
    ensures EtxAfter(history + Repeat(true, n)) == ETX_ONE
    ensures EtxAfter(history + Repeat(false, n)) == ETX_WORST
  {
    RunDrifts(history, true, n);
    RunDrifts(history, false, n);
    DriftSettles(EtxAfter(history), n);
  }

  lemma DriftSettles(etx: nat, n: nat)
    requires ETX_ONE <= etx <= ETX_WORST && n == |FALLING| - 1
    ensures Drift(etx, true, n) == ETX_ONE && Drift(etx, false, n) == ETX_WORST
  {
    DriftMonotone(etx, ETX_WORST, true, n);
    DriftMonotone(ETX_ONE, etx, false, n);
    DriftWithinBounds(etx, n);
    Falling(n);
    Rising(n);
  }

  lemma Falling(n: nat)
    requires n < |FALLING|
    ensures Drift(ETX_WORST, true, n) == FALLING[n]
  {
    forall i | 0 < i <= n
      ensures Follows(FALLING, true, i)
    {
      if i <= 9 {
        FallingFirst(i);
      } else {
        FallingSecond(i);
      }
    }
    DriftTable(FALLING, true, n);
  }

  lemma FallingFirst(i: nat)
    requires 0 < i <= 9
    ensures Follows(FALLING, true, i)
  {
  }

  lemma FallingSecond(i: nat)
    requires 9 < i < |FALLING|
    ensures Follows(FALLING, true, i)
  {
  }

  lemma Rising(n: nat)
    requires n < |RISING|
    ensures Drift(ETX_ONE, false, n) == RISING[n]
  {
    forall i | 0 < i <= n
      ensures Follows(RISING, false, i)
    {
      if i <= 9 {
        RisingFirst(i);
      } else {
        RisingSecond(i);
      }
    }
    DriftTable(RISING, false, n);
  }

  lemma RisingFirst(i: nat)
    requires 0 < i <= 9
    ensures Follows(RISING, false, i)
  {
  }

  lemma RisingSecond(i: nat)
    requires 9 < i < |RISING|
    ensures Follows(RISING, false, i)
  {
  }

  /** Seventeen successes are not always enough. */
  lemma SeventeenMayNotSettle()
    ensures EtxAfter(Repeat(false, 18) + Repeat(true, 17)) > ETX_ONE
  {
    RunUnsettled(18, 17);
  }

  lemma RunUnsettled(n: nat, m: nat)
    requires n == |FALLING| - 1 && m == n - 1
    ensures EtxAfter(Repeat(false, n) + Repeat(true, m)) > ETX_ONE
  {
    RunSettles([], n);
    assert [] + Repeat(false, n) == Repeat(false, n);
    RunsShort(Repeat(false, n), m);
  }

  lemma RunsShort(history: seq<bool>, m: nat)
    requires EtxAfter(history) == ETX_WORST && m < |FALLING| - 1
    ensures EtxAfter(history + Repeat(true, m)) > ETX_ONE
  {
    RunDrifts(history, true, m);
    Falling(m);
  }

  const FALLING: seq<nat> := [57, 51, 46, 42, 38, 35, 32, 30, 28, 26, 24, 23, 22, 21, 20, 19, 18, 17, 16]
  const RISING: seq<nat> := [16, 22, 27, 31, 35, 38, 41, 43, 45, 47, 49, 50, 51, 52, 53, 54, 55, 56, 57]

  // One entry follows from the one before.
  predicate Follows(table: seq<nat>, acked: bool, i: nat)
    requires 0 < i < |table|
  {
    table[i] == (7 * table[i - 1] + Sample(acked)) / 8
  }

  lemma {:induction false} DriftTable(table: seq<nat>, acked: bool, n: nat)
    requires n < |table| && forall i :: 0 < i <= n ==> Follows(table, acked, i)
    ensures Drift(table[0], acked, n) == table[n]
  {
    if n > 0 {
      DriftTable(table, acked, n - 1);
      assert Follows(table, acked, n);
    }
  }

  lemma {:induction false} DriftWithinBounds(etx: nat, n: nat)
    requires ETX_ONE <= etx <= ETX_WORST
    ensures ETX_ONE <= Drift(etx, true, n) && Drift(etx, false, n) <= ETX_WORST
  {
    if n > 0 {
      DriftWithinBounds(etx, n - 1);
    }
  }

  /** A history with successes where another has losses never looks worse. */
  lemma {:induction false} BetterNeverLooksWorse(a: seq<bool>, b: seq<bool>)
    requires |a| == |b| && forall i :: 0 <= i < |a| ==> a[i] ==> b[i]
    ensures EtxAfter(b) <= EtxAfter(a)
  {
    if a != [] {
      BetterNeverLooksWorse(a[..|a| - 1], b[..|b| - 1]);
    }
  }

  // ----- cost -----

  function WeakPenalty(rssi: int): int {
    if rssi != UNKNOWN_DBM && rssi < RSSI_WEAK_DBM then (RSSI_WEAK_DBM - rssi) * RSSI_PENALTY_PER_DB else 0
  }

  // A counter after a decay that halves it or not.
  function Kept(count: nat, halve: bool): nat {
    if halve then count / 2 else count
  }

  class Quality {
    var rssi: Dbm
    var etx: nat
    var perPermille: nat
    var linkCost: nat
    var txAttempts: nat
    var txAcked: nat
    var consecMisses: nat
    /** Outcomes of all attempts since the record was allocated. */
    ghost var history: seq<bool>

    ghost predicate Valid()
      reads this
    {
      && etx == EtxAfter(history)
      && txAcked <= txAttempts < DECAY_AT
      && perPermille <= 1000
      && consecMisses < 256
      && (linkCost == RANK_INFINITE || ETX_ONE <= linkCost <= COST_WORST)
    }

    /** The record `lg_neigh_alloc` hands out. */
    constructor ()
      ensures Valid() && history == [] && rssi == UNKNOWN_DBM && linkCost == RANK_INFINITE
    {
      rssi, etx, linkCost := UNKNOWN_DBM, ETX_ONE, RANK_INFINITE;
      perPermille, txAttempts, txAcked, consecMisses := 0, 0, 0, 0;
      history := [];
    }

    /** `lg_neigh_update_cost`: the cap below infinity is never needed. */
    method UpdateCost()
      requires Valid()
      modifies this`linkCost
      ensures Valid()
      ensures ETX_ONE <= linkCost <= COST_WORST
      ensures linkCost == EtxAfter(history) + WeakPenalty(rssi)
    {
      var cost := etx;
      if rssi != UNKNOWN_DBM && rssi < RSSI_WEAK_DBM {
        cost := cost + (RSSI_WEAK_DBM - rssi) * RSSI_PENALTY_PER_DB;
      }
      linkCost := Min(cost, RANK_INFINITE - 1);
    }

    /** `lg_neigh_tx_result`. */
    method TxResult(acked: bool)
      requires Valid()
      modifies this
      ensures Valid()
      ensures history == old(history) + [acked] && rssi == old(rssi)
      ensures linkCost == EtxAfter(history) + WeakPenalty(rssi)
      ensures consecMisses == if acked then 0 else (old(consecMisses) + 1) % 256
      ensures perPermille ==
        Permille(old(txAttempts) - old(txAcked) + (if acked then 0 else 1), old(txAttempts) + 1)
      ensures var halve := old(txAttempts) + 1 >= DECAY_AT;
        && txAttempts == Kept(old(txAttempts) + 1, halve)
        && txAcked == Kept(old(txAcked) + (if acked then 1 else 0), halve)
    {
      CountAttempt(acked);
      Appended(history, acked);
      var sample := if acked then ETX_ONE else 4 * ETX_ONE;
      etx := Clamp(Ewma(etx, sample), ETX_ONE, ETX_MAX);
      history := history + [acked];
      UpdateCost();
    }

    // The counters, which the estimate does not depend on.
    method CountAttempt(acked: bool)
      requires Valid()
      modifies this`txAttempts, this`txAcked, this`consecMisses, this`perPermille
      ensures Valid()
      ensures consecMisses == if acked then 0 else (old(consecMisses) + 1) % 256
      ensures perPermille ==
        Permille(old(txAttempts) - old(txAcked) + (if acked then 0 else 1), old(txAttempts) + 1)
      ensures var halve := old(txAttempts) + 1 >= DECAY_AT;
        && txAttempts == Kept(old(txAttempts) + 1, halve)
        && txAcked == Kept(old(txAcked) + (if acked then 1 else 0), halve)
    {
      txAttempts := txAttempts + 1;
      if acked {
        txAcked := txAcked + 1;
        consecMisses := 0;
      } else {
        consecMisses := (consecMisses + 1) % 256;
      }
      if txAttempts > 0 {
        var lost := txAttempts - txAcked;
        PermilleBounds(lost, txAttempts);
        perPermille := Permille(lost, txAttempts);
      }
      if txAttempts >= DECAY_AT {
        txAttempts, txAcked := txAttempts / 2, txAcked / 2;
      }
    }

    /** `lg_neigh_rx_rssi`: the first sample seeds the average; once known, strength stays known
        and moves no further than the sample. */
    method RxRssi(sample: Dbm)
      requires Valid()
      modifies this`rssi
      ensures Valid()
      ensures old(rssi) == UNKNOWN_DBM ==> rssi == sample
      ensures old(rssi) != UNKNOWN_DBM ==>
        && rssi == Ewma(old(rssi), sample) && rssi != UNKNOWN_DBM
        && Min(old(rssi), sample) <= rssi <= Max(old(rssi), sample)
    {
      rssi := if rssi != UNKNOWN_DBM then Ewma(rssi, sample) else sample;
    }
  }

}
