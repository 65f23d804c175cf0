/** Upkeep of the channel map: frame and noise evidence, retiring and returning channels. */
module ChanMap {
  import opened Config
  import opened Hop
  import opened Arith

  const MIN_SAMPLES: nat := 12
  const DECAY_AT: nat := 64

  const ALL: ChannelMap := FirstBits(CHAN_COUNT)

  function FirstBits(n: nat): (bits: set<int>)
    ensures |bits| == n && forall i :: i in bits <==> 0 <= i < n
  {
    if n == 0 then {} else FirstBits(n - 1) + {n - 1}
  }

  datatype Stat = Stat(ok: nat, bad: nat, perPermille: nat, noise: Dbm, blacklisted: bool, probing: bool)

  predicate Sound(s: Stat) {
    && s.ok + s.bad < DECAY_AT
    && s.perPermille <= FULL_PERMILLE
    && (s.blacklisted && s.probing ==> s.noise != UNKNOWN_DBM)
  }

  predicate Noisy(s: Stat) {
    s.noise != UNKNOWN_DBM && s.noise > CHAN_NOISE_FLOOR_DBM
  }

  predicate Errored(s: Stat) {
    s.ok + s.bad >= MIN_SAMPLES && s.perPermille >= CHAN_BAD_PER_PERMILLE
  }

  predicate Clean(s: Stat) {
    s.ok + s.bad < MIN_SAMPLES || s.perPermille <= CHAN_GOOD_PER_PERMILLE
  }

  // ----- evidence -----

  /** One frame counted on a channel. */
  function Counted(s: Stat, ok: bool): (r: Stat)
    requires Sound(s)
    ensures Sound(r) && r.noise == s.noise && r.blacklisted == s.blacklisted && r.probing == s.probing
    ensures Min(s.ok + s.bad + 1, DECAY_AT / 2 - 1) <= r.ok + r.bad
  {
    var ok1 := if ok then s.ok + 1 else s.ok;
    var bad1 := if ok then s.bad else s.bad + 1;
    var halve := ok1 + bad1 >= DECAY_AT;
    var ok2 := if halve then ok1 / 2 else ok1;
    var bad2 := if halve then bad1 / 2 else bad1;
    PermilleBounds(bad2, ok2 + bad2);
    s.(ok := ok2, bad := bad2, perPermille := Permille(bad2, ok2 + bad2))
  }

  /** `n` frames in a row lost. */
  function Lost(s: Stat, n: nat): (r: Stat)
    requires Sound(s)
    ensures Sound(r)
    decreases n
  {
    if n == 0 then s else Lost(Counted(s, false), n - 1)
  }

  // How often a count can be halved before it is gone.
  function Halvings(n: nat): nat {
    if n == 0 then 0 else 1 + Halvings(n / 2)
  }

  // Losses after which no success is remembered any more.
  function LossesLeft(s: Stat): int {
    if s.ok == 0 then 0 else 33 * (Halvings(s.ok) - 1) + DECAY_AT - (s.ok + s.bad)
  }

  /** A channel on which every frame is lost shows the full error rate within 229 frames,
      whatever was counted before: old successes are forgotten by halving. */
  lemma DeadChannelIsSeen(s: Stat, n: nat)
    requires Sound(s) && n >= 229
    ensures Errored(Lost(s, n)) && Lost(s, n).perPermille == FULL_PERMILLE
  {
    HalvingsBelow(s.ok, 6);
    LossesForget(s, n);
    LossesAddUp(s, n);
  }

  lemma {:induction false} HalvingsBelow(n: nat, k: nat)
    requires n < Power(k)
    ensures Halvings(n) <= k
  {
    if n > 0 {
      HalvingsBelow(n / 2, k - 1);
    }
  }

  lemma {:induction false} LossesForget(s: Stat, n: nat)
    requires Sound(s) && n >= 1 && n > LossesLeft(s)
    ensures Lost(s, n).perPermille == FULL_PERMILLE
    decreases n
  {
    var r := Counted(s, false);
    if n == 1 {
      PermilleBounds(r.bad, r.ok + r.bad);
      assert Lost(r, 0) == r;
    } else {
      LossesForget(r, n - 1);
    }
  }

  lemma {:induction false} LossesAddUp(s: Stat, n: nat)
    requires Sound(s)
    ensures Lost(s, n).ok + Lost(s, n).bad >= Min(n, MIN_SAMPLES)
    ensures s.ok + s.bad >= MIN_SAMPLES ==> Lost(s, n).ok + Lost(s, n).bad >= MIN_SAMPLES
    ensures Lost(s, n).ok + Lost(s, n).bad >= Min(s.ok + s.bad + n, MIN_SAMPLES)
    decreases n
  {
    if n > 0 {
      LossesAddUp(Counted(s, false), n - 1);
    }
  }

  // ----- evaluation -----

  predicate Retires(s: Stat, current: ChannelMap) {
    (Noisy(s) || Errored(s)) && |current| > CHAN_MIN_GOOD
  }

  predicate Retried(s: Stat) {
    !Noisy(s) && (s.noise != UNKNOWN_DBM || s.probing)
  }

  /** The map once the channels below bit `i` have been decided, each against the map its
      predecessors left. */
  function Decided(stats: seq<Stat>, was: ChannelMap, i: nat): ChannelMap
    requires i <= |stats| && |stats| == CHAN_COUNT
  {
    if i == 0 then was
    else
      var m := Decided(stats, was, i - 1);
      if i - 1 in m then if Retires(stats[i - 1], m) then m - {i - 1} else m
      else if Retried(stats[i - 1]) && Clean(stats[i - 1]) then m + {i - 1} else m
  }

  /** The record of a channel after an evaluation that found it in the map or not, and left it
      there or not. */
  function Settled(s: Stat, before: bool, after: bool): Stat {
    if before && after then s
    else if before then s.(blacklisted := true, probing := false)
    else if after then s.(blacklisted := false, probing := false, ok := 0, bad := 0, perPermille := 0)
    else if Retried(s) then s.(probing := true, ok := 0, bad := 0)
    else s
  }

  /** The records once the channels below bit `i` have been decided. */
  ghost predicate Partly(stats: seq<Stat>, was: ChannelMap, i: nat, records: seq<Stat>)
    requires |stats| == CHAN_COUNT && i <= CHAN_COUNT
  {
    && |records| == CHAN_COUNT
    && (forall j :: 0 <= j < i ==> records[j] == Settled(stats[j], j in was, j in Decided(stats, was, i)))
    && (forall j :: i <= j < CHAN_COUNT ==> records[j] == stats[j])
  }

  // The map and the records when the loop comes to bit `i`.
  ghost predicate Reached(stats: seq<Stat>, was: ChannelMap, i: nat, records: seq<Stat>, m: ChannelMap)
    requires |stats| == CHAN_COUNT && i <= CHAN_COUNT
  {
    m == Decided(stats, was, i) && Partly(stats, was, i, records)
  }

  ghost predicate Evaluated(stats: seq<Stat>, was: ChannelMap, stats': seq<Stat>, now: ChannelMap)
    requires |stats| == |stats'| == CHAN_COUNT
  {
    && now == Decided(stats, was, |stats|)
    && forall i :: 0 <= i < CHAN_COUNT ==> stats'[i] == Settled(stats[i], i in was, i in now)
  }

  ghost predicate Consistent(stats: seq<Stat>, map_: ChannelMap) {
    && |stats| == CHAN_COUNT
    && |map_| >= CHAN_MIN_GOOD
    && forall i :: 0 <= i < CHAN_COUNT ==> Sound(stats[i]) && (stats[i].blacklisted <==> i !in map_)
  }

  /** Bits are decided one at a time: below `i` for good, from `i` up not yet; and never below the
      minimum. */
  lemma {:induction false} DecidedInOrder(stats: seq<Stat>, was: ChannelMap, i: nat, k: nat)
    requires i <= k <= |stats| && |stats| == CHAN_COUNT
    ensures forall j :: j >= k ==> (j in Decided(stats, was, k) <==> j in was)
    ensures forall j :: j < i ==> (j in Decided(stats, was, k) <==> j in Decided(stats, was, i))
    ensures |was| >= CHAN_MIN_GOOD ==> |Decided(stats, was, k)| >= CHAN_MIN_GOOD
  {
    if k > 0 {
      DecidedInOrder(stats, was, if i == k then k - 1 else i, k - 1);
    }
  }

  lemma InitiallyConsistent(stats: seq<Stat>, leftOver: seq<bool>)
    requires |stats| == |leftOver| == CHAN_COUNT
    requires forall i :: 0 <= i < CHAN_COUNT ==> stats[i] == Stat(0, 0, 0, UNKNOWN_DBM, false, leftOver[i])
    ensures Consistent(stats, ALL)
  {
  }

  ghost predicate OneStep(s: Stat, m: ChannelMap, i: nat, r: Stat, next: ChannelMap) {
    if i in m then
      if Retires(s, m) then next == m - {i} && r == s.(blacklisted := true, probing := false)
      else next == m && r == s
    else if Retried(s) then
      if Clean(s) then
        next == m + {i} && r == s.(blacklisted := false, probing := false, ok := 0, bad := 0, perPermille := 0)
      else next == m && r == s.(probing := true, ok := 0, bad := 0)
    else next == m && r == s
  }

  // The arithmetic of `lg_chan_result`.
  method Tally(s: Stat, ok: bool) returns (cs: Stat)
    requires Sound(s)
    ensures cs == Counted(s, ok)
  {
    cs := s;
    if ok {
      cs := cs.(ok := cs.ok + 1);
    } else {
      cs := cs.(bad := cs.bad + 1);
    }
    if cs.ok + cs.bad >= DECAY_AT {
      cs := cs.(ok := cs.ok / 2, bad := cs.bad / 2);
    }
    var total := cs.ok + cs.bad;
    if total > 0 {
      cs := cs.(perPermille := Permille(cs.bad, total));
    }
  }

  /** A sound record may take the place of another as long as the channel stays in or out. */
  lemma OneRecorded(stats: seq<Stat>, map_: ChannelMap, i: nat, r: Stat)
    requires Consistent(stats, map_) && i < CHAN_COUNT && Sound(r) && r.blacklisted == stats[i].blacklisted
    ensures Consistent(stats[i := r], map_)
  {
  }

  // One turn of the loop in `lg_chan_reevaluate`.
  method EvaluateOne(s: Stat, m: ChannelMap, i: nat) returns (cs: Stat, current: ChannelMap)
    requires i < CHAN_COUNT
    ensures OneStep(s, m, i, cs, current)
  {
    cs, current := s, m;
    if i in m {
      if (Errored(cs) || Noisy(cs)) && |m| > CHAN_MIN_GOOD {
        current := m - {i};
        cs := cs.(blacklisted := true, probing := false);
      }
    } else if !Noisy(cs) && (cs.noise != UNKNOWN_DBM || cs.probing) {
      if Clean(cs) {
        current := m + {i};
        cs := cs.(blacklisted := false, probing := false, ok := 0, bad := 0, perPermille := 0);
      } else {
        cs := cs.(probing := true, ok := 0, bad := 0);
      }
    }
  }

  class Channels {
    const chan: array<Stat>
    var map_: ChannelMap

    ghost predicate Valid()
      reads this, chan
    {
      chan.Length == CHAN_COUNT && Consistent(chan[..], map_)
    }

    /** `lg_chan_init`. A probing flag left over from an earlier start is not cleared. */
    constructor (leftOver: seq<bool>)
      requires |leftOver| == CHAN_COUNT
      ensures Valid() && fresh(chan) && map_ == ALL
      ensures forall i :: 0 <= i < CHAN_COUNT ==> chan[i] == Stat(0, 0, 0, UNKNOWN_DBM, false, leftOver[i])
    {
      chan := new Stat[16](i requires 0 <= i < 16 => Stat(0, 0, 0, UNKNOWN_DBM, false, leftOver[i]));
      map_ := ALL;
      new;
      InitiallyConsistent(chan[..], leftOver);
    }

    /** `lg_chan_result`: frames on channels outside the band are not counted. */
    method Result(channel: nat, ok: bool)
      requires Valid()
      modifies chan
      ensures Valid()
      ensures chan[..] ==
        if CHAN_FIRST <= channel < CHAN_FIRST + CHAN_COUNT
        then old(chan[..])[channel - CHAN_FIRST := Counted(old(chan[..])[channel - CHAN_FIRST], ok)]
        else old(chan[..])
    {
      if channel < CHAN_FIRST || channel >= CHAN_FIRST + CHAN_COUNT {
        return;
      }
      var i := channel - CHAN_FIRST;
      ghost var stats := chan[..];
      assert chan[i] == stats[i] && Sound(stats[i]);
      var cs := Tally(chan[i], ok);
      chan[i] := cs;
      assert chan[..] == stats[i := cs];
      OneRecorded(stats, map_, i, cs);
    }

    /** `lg_chan_noise`. Once measured, a noise floor never reads as unmeasured again. */
    method Noise(channel: nat, dbm: Dbm)
      requires Valid()
      modifies chan
      ensures Valid()
      ensures forall i :: 0 <= i < CHAN_COUNT ==> chan[i] == old(chan[i]).(noise := chan[i].noise)
      ensures forall i :: 0 <= i < CHAN_COUNT && (i != channel - CHAN_FIRST || dbm == UNKNOWN_DBM) ==>
        chan[i].noise == old(chan[i].noise)
      ensures CHAN_FIRST <= channel < CHAN_FIRST + CHAN_COUNT && dbm != UNKNOWN_DBM ==>
        var n, n' := old(chan[channel - CHAN_FIRST]).noise, chan[channel - CHAN_FIRST].noise;
        if n == UNKNOWN_DBM then n' == dbm else n' == Ewma(n, dbm) && Min(n, dbm) <= n' <= Max(n, dbm)
    {
      if channel < CHAN_FIRST || channel >= CHAN_FIRST + CHAN_COUNT || dbm == UNKNOWN_DBM {
        return;
      }
      var i := channel - CHAN_FIRST;
      assert Sound(chan[..][i]);
      var n := chan[i].noise;
      assert n != UNKNOWN_DBM ==> Min(n, dbm) <= Ewma(n, dbm) <= Max(n, dbm);
      chan[i] := chan[i].(noise := if n == UNKNOWN_DBM then dbm else Ewma(n, dbm));
      assert chan[..] == old(chan[..])[i := chan[i]];
    }

    /** `lg_chan_reevaluate`. The map never gets small enough for the branch that replaces it. */
    method Reevaluate() returns (changed: bool)
      requires Valid()
      modifies this, chan
      ensures Valid()
      ensures Evaluated(old(chan[..]), old(map_), chan[..], map_)
      ensures changed <==> map_ != old(map_)
    {
      ghost var stats := chan[..];
      var before := map_;
      EvaluateAll();
      StaysConsistent(stats, before, chan[..], map_);
      if |map_| < CHAN_MIN_GOOD {
        // Where the fallback to the four channels in the Wi-Fi gaps would be taken.
        assert false;
      }
      changed := map_ != before;
    }

    // The loop over the channels.
    method EvaluateAll()
      requires chan.Length == CHAN_COUNT
      modifies this`map_, chan
      ensures Evaluated(old(chan[..]), old(map_), chan[..], map_)
    {
      ghost var was, stats := map_, chan[..];
      for i := 0 to chan.Length
        invariant Reached(stats, was, i, chan[..], map_)
      {
        EvaluateAt(i, stats, was);
      }
    }

    method EvaluateAt(i: nat, ghost stats: seq<Stat>, ghost was: ChannelMap)
      requires chan.Length == |stats| == CHAN_COUNT && i < CHAN_COUNT && Reached(stats, was, i, chan[..], map_)
      modifies this`map_, chan
      ensures Reached(stats, was, i + 1, chan[..], map_)
    {
      ghost var records := chan[..];
      var cs, current := EvaluateOne(chan[i], map_, i);
      OneDecided(stats, was, i, records, current, cs);
      map_ := current;
      chan[i] := cs;
      assert chan[..] == records[i := cs];
    }
  }

  // ----- what evaluation achieves -----

  lemma StaysConsistent(s: seq<Stat>, was: ChannelMap, r: seq<Stat>, now: ChannelMap)
    requires Consistent(s, was) && |r| == CHAN_COUNT && Evaluated(s, was, r, now)
    ensures Consistent(r, now)
  {
    DecidedInOrder(s, was, 0, |s|);
    forall i | 0 <= i < CHAN_COUNT
      ensures Sound(r[i]) && (r[i].blacklisted <==> i !in now)
    {
      BitDecided(s, was, i);
    }
  }

  lemma OneDecided(stats: seq<Stat>, was: ChannelMap, i: nat, records: seq<Stat>, next: ChannelMap, r: Stat)
    requires |stats| == |records| == CHAN_COUNT && i < CHAN_COUNT
    ensures Partly(stats, was, i, records) && OneStep(records[i], Decided(stats, was, i), i, r, next) ==>
      next == Decided(stats, was, i + 1) && Partly(stats, was, i + 1, records[i := r])
  {
    DecidedInOrder(stats, was, i, i);
  }

  /** What becomes of one channel. */
  lemma BitDecided(s: seq<Stat>, was: ChannelMap, i: nat)
    requires |s| == CHAN_COUNT && i < CHAN_COUNT
    ensures i in was ==>
      (i in Decided(s, was, |s|) <==> !Retires(s[i], Decided(s, was, i)))
    ensures i !in was ==>
      (i in Decided(s, was, |s|) <==> Retried(s[i]) && Clean(s[i]))
  {
    DecidedInOrder(s, was, i, i);
    DecidedInOrder(s, was, i + 1, |s|);
  }

  // Channels past bit `i` that were out of the map and are back.
  ghost function ReturnedAbove(was: ChannelMap, now: ChannelMap, i: int): set<int> {
    set j | j in now && j !in was && j > i
  }

  /** A bad channel is kept exactly when the map was down to the configured minimum as its turn came; so
      apart from channels that returned after that, the map is then no larger than the minimum. */
  lemma KeptOnlyAtMinimum(s: seq<Stat>, was: ChannelMap, r: seq<Stat>, now: ChannelMap, i: int)
    requires Consistent(s, was) && |r| == CHAN_COUNT && Evaluated(s, was, r, now)
    requires i in was && (Noisy(s[i]) || Errored(s[i]))
    ensures i in now <==> |Decided(s, was, i)| == CHAN_MIN_GOOD
    ensures i in now ==> |now| <= CHAN_MIN_GOOD + |ReturnedAbove(was, now, i)|
    ensures i in now && now <= was ==> |now| == CHAN_MIN_GOOD
  {
    BitDecided(s, was, i);
    DecidedInOrder(s, was, i, i);
    KeptOrBack(s, was, now, i);
    var kept, back := Decided(s, was, i), ReturnedAbove(was, now, i);
    UnionSize(now, kept, back);
    if now <= was {
      assert back == {};
      DecidedInOrder(s, was, i, |s|);
    }
  }

  lemma KeptOrBack(s: seq<Stat>, was: ChannelMap, now: ChannelMap, i: int)
    requires |s| == CHAN_COUNT && now == Decided(s, was, |s|) && i in was
    ensures forall j :: j in now ==> j in Decided(s, was, i) || j in ReturnedAbove(was, now, i)
  {
    DecidedInOrder(s, was, i, |s|);
    DecidedInOrder(s, was, i, i);
  }

  lemma UnionSize(a: set<int>, b: set<int>, c: set<int>)
    requires forall j :: j in a ==> j in b || j in c
    ensures |a| <= |b| + |c|
  {
    forall j | j in a
      ensures j in b + c
    {
    }
    Subset(a, b + c);
  }

  /** The probe flag never decides anything: a retired channel comes back exactly when its noise
      floor has been measured, is low, and its errors are few. */
  lemma ReturnNeedsMeasurement(s: seq<Stat>, was: ChannelMap, r: seq<Stat>, now: ChannelMap, i: int)
    requires Consistent(s, was) && |r| == CHAN_COUNT && Evaluated(s, was, r, now)
    requires 0 <= i < CHAN_COUNT && i !in was
    ensures i in now <==> s[i].noise != UNKNOWN_DBM && s[i].noise <= CHAN_NOISE_FLOOR_DBM && Clean(s[i])
  {
    BitDecided(s, was, i);
  }

  /** A retired channel that has gone quiet is back after two evaluations at the latest, if no
      frame is counted on it in between: the first clears its counters. */
  lemma QuietChannelReturns(s: seq<Stat>, was: ChannelMap, r: seq<Stat>, now: ChannelMap,
                            s2: seq<Stat>, r2: seq<Stat>, last: ChannelMap, i: int)
    requires Consistent(s, was) && |r| == CHAN_COUNT && Evaluated(s, was, r, now)
    requires Consistent(s2, now) && |r2| == CHAN_COUNT && Evaluated(s2, now, r2, last)
    requires 0 <= i < CHAN_COUNT && i !in was && i !in now
    requires s[i].noise != UNKNOWN_DBM && !Noisy(s[i])
    requires s2[i].ok == r[i].ok && s2[i].bad == r[i].bad && s2[i].noise != UNKNOWN_DBM && !Noisy(s2[i])
    ensures i in last
  {
    BitDecided(s, was, i);
    BitDecided(s2, now, i);
  }
}
