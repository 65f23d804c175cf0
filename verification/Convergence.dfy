/** A grid with backhauls whose links stand still while advertisements go round.

    Nodes, what they have stored and what is in flight start anywhere. The steps are those of
    `Collapse` that leave links and roles alone.
 */
module Convergence {
  import opened Config
  import opened Route
  import opened Walks
  import C = Collapse

  /** Links are up, lead to sites and cost at least a perfect hop. */
  ghost predicate Sound(topo: Topology) {
    forall v, k {:trigger topo[v].links[k]} :: v in topo && 0 <= k < |topo[v].links| ==>
      topo[v].links[k].up && topo[v].links[k].addr in topo && topo[v].links[k].cost >= ETX_ONE
  }

  /** A walk costs at least a perfect hop for each of its hops. */
  lemma {:induction false} WalkCostFloor(topo: Topology, v: nat, hops: seq<nat>)
    requires Sound(topo) && IsWalk(topo, v, hops)
    ensures WalkCost(topo, v, hops) >= ETX_ONE * |hops|
    decreases |hops|
  {
    if hops != [] {
      var link := topo[v].links[hops[0]];
      WalkCostFloor(topo, link.addr, hops[1..]);
    }
  }

  // ----- how good a rank is -----

  /** After `k` rounds: a finite rank is no less than the true distance, or than 16 k while that is
      less; and no more than the price of any affordable walk of up to k hops. */
  ghost predicate Good(topo: Topology, v: nat, rank: nat, k: nat) {
    && (rank == RANK_INFINITE || rank >= ETX_ONE * k || exists hops :: Covers(topo, v, hops, rank))
    && (forall hops :: |hops| <= k && Affordable(topo, v, hops) ==> rank <= Price(topo, v, hops))
  }

  // What is stored or in flight lags one round behind; at first it is anything.
  ghost predicate StoredGood(topo: Topology, v: nat, rank: nat, k: nat) {
    k == 0 || Good(topo, v, rank, k - 1)
  }

  lemma GoodBefore(topo: Topology, v: nat, rank: nat, k: nat)
    requires Good(topo, v, rank, k)
    ensures StoredGood(topo, v, rank, k)
  {
  }

  // ----- states and steps -----

  ghost predicate NodeShape(site: Site, n: C.NodeState) {
    && |n.table| == |n.born| == |site.links|
    && forall k :: 0 <= k < |n.table| ==>
         && n.table[k].state == Linked && n.table[k].addr == site.links[k].addr
         && n.table[k].linkCost == site.links[k].cost
  }

  ghost predicate Shape(topo: Topology, s: C.System) {
    s.nodes.Keys == topo.Keys && forall v :: v in topo ==> NodeShape(topo[v], s.nodes[v])
  }

  /** The rank a recompute takes from `table`. */
  ghost predicate Recomputed(site: Site, table: Table, n: C.NodeState) {
    SameLinks(table, n.table) && if site.backhaul then n.rank == 0 else RankRule(table, n.rank)
  }

  datatype Step =
    | BuildStep(v: nat)
    | LoseStep(m: C.Frame)
    | AdvStep(v: nat, k: nat, m: C.Frame, n: C.NodeState)
    | BeaconStep(v: nat, k: nat, m: C.Frame, n: C.NodeState)
    | RecomputeStep(v: nat, n: C.NodeState)

  function Stored(n: C.NodeState, k: nat, rank: nat): Table
    requires k < |n.table|
  {
    n.table[k := n.table[k].(peerRank := rank)]
  }

  /** A node takes in an advertisement and recomputes. */
  ghost predicate Takes(topo: Topology, s: C.System, s': C.System, v: nat, k: nat, m: C.Frame, n: C.NodeState) {
    && C.NodeBecomes(s, s', v, n) && v in topo && k < |s.nodes[v].table|
    && m in s.flight && m.src == s.nodes[v].table[k].addr
    && Recomputed(topo[v], Stored(s.nodes[v], k, m.rank), n) && n.born == s.nodes[v].born[k := m.born]
  }

  ghost predicate Recomputes(topo: Topology, s: C.System, s': C.System, v: nat, n: C.NodeState) {
    && C.NodeBecomes(s, s', v, n) && v in topo
    && Recomputed(topo[v], s.nodes[v].table, n) && n.born == s.nodes[v].born
  }

  // Entry `j` of a node's table after a frame wrote its rank there.
  ghost predicate Heard(was: C.NodeState, j: nat, m: C.Frame, n: C.NodeState) {
    && j < |was.table| == |was.born| && m.src == was.table[j].addr
    && n == was.(table := Stored(was, j, m.rank), born := was.born[j := Min(was.born[j], m.born)])
  }

  ghost predicate NextBy(topo: Topology, s: C.System, s': C.System, step: Step)
    requires Shape(topo, s)
  {
    match step
    case BuildStep(v) => C.Build(s, s', v)
    case LoseStep(m) => C.Lose(s, s', m)
    case AdvStep(v, k, m, n) => Takes(topo, s, s', v, k, m, n)
    case BeaconStep(v, k, m, n) => C.NodeBecomes(s, s', v, n) && m in s.flight && Heard(s.nodes[v], k, m, n)
    case RecomputeStep(v, n) => Recomputes(topo, s, s', v, n)
  }

  ghost predicate Next(topo: Topology, s: C.System, s': C.System)
    requires Shape(topo, s)
  {
    exists step :: NextBy(topo, s, s', step)
  }

  // ----- the bounds -----

  ghost predicate NodeBounded(topo: Topology, v: nat, n: C.NodeState, k: nat, now: nat)
    requires v in topo
  {
    && NodeShape(topo[v], n)
    && (topo[v].backhaul ==> n.rank == 0) && (n.rank == RANK_INFINITE || n.rank < MAX_RANK)
    && (n.table == [] && !topo[v].backhaul ==> n.rank == RANK_INFINITE)
    && Good(topo, v, n.rank, k)
    && forall j :: 0 <= j < |n.table| ==>
         StoredGood(topo, n.table[j].addr, n.table[j].peerRank, k) && n.born[j] < now
  }

  ghost predicate Bounded(topo: Topology, s: C.System, k: nat) {
    && s.nodes.Keys == topo.Keys
    && (forall v :: v in topo ==> NodeBounded(topo, v, s.nodes[v], k, s.now))
    && forall m :: m in s.flight ==> m.born < s.now && StoredGood(topo, m.src, m.rank, k)
  }

  ghost predicate NodeInRound(topo: Topology, v: nat, n: C.NodeState, k: nat, since: nat) {
    && |n.born| == |n.table|
    && (forall j :: 0 <= j < |n.table| && n.born[j] >= since ==> Good(topo, n.table[j].addr, n.table[j].peerRank, k))
    && (C.NodeFresh(n, since) ==> Good(topo, v, n.rank, k + 1))
  }

  /** Inside a round that started at `since`: what was built in it is one level better. */
  ghost predicate InRound(topo: Topology, s: C.System, k: nat, since: nat) {
    && Bounded(topo, s, k)
    && (forall v :: v in topo ==> NodeInRound(topo, v, s.nodes[v], k, since))
    && forall m :: m in s.flight && m.born >= since ==> Good(topo, m.src, m.rank, k)
  }

  // ----- one recompute -----

  /** A backhaul's rank is as good as can be, and so is that of a node without links. */
  lemma EndsAreGood(topo: Topology, v: nat, rank: nat, k: nat)
    requires Sound(topo) && v in topo
    requires if topo[v].backhaul then rank == 0 else topo[v].links == [] && rank == RANK_INFINITE
    ensures Good(topo, v, rank, k)
  {
    if topo[v].backhaul {
      assert IsWalk(topo, v, []);
      assert Covers(topo, v, [], rank);
    } else {
      forall hops | IsWalk(topo, v, hops)
        ensures false
      {
      }
    }
  }

  // A table whose entries are the site's links, holding ranks that are good for the round before.
  ghost predicate Entries(topo: Topology, v: nat, table: Table, k: nat)
    requires v in topo
  {
    && |table| == |topo[v].links|
    && forall j :: 0 <= j < |table| ==>
         && table[j].state == Linked && table[j].addr == topo[v].links[j].addr
         && table[j].linkCost == topo[v].links[j].cost && StoredGood(topo, table[j].addr, table[j].peerRank, k)
  }

  /** From entries that are good for k - 1, a recompute takes a rank that is good for k. */
  lemma RecomputeImproves(topo: Topology, v: nat, table: Table, rank: nat, k: nat)
    requires Sound(topo) && v in topo && !topo[v].backhaul && RankRule(table, rank) && Entries(topo, v, table, k)
    ensures Good(topo, v, rank, k) && (rank == RANK_INFINITE || rank < MAX_RANK)
    ensures table == [] ==> rank == RANK_INFINITE
  {
    RankFromBelow(topo, v, table, rank, k);
    forall hops | |hops| <= k && Affordable(topo, v, hops)
      ensures rank <= Price(topo, v, hops)
    {
      RankFromAbove(topo, v, table, rank, k, hops);
    }
  }

  lemma RankFromBelow(topo: Topology, v: nat, table: Table, rank: nat, k: nat)
    requires Sound(topo) && v in topo && RankRule(table, rank) && Entries(topo, v, table, k)
    ensures rank == RANK_INFINITE || rank < MAX_RANK
    ensures rank == RANK_INFINITE || rank >= ETX_ONE * k || exists hops :: Covers(topo, v, hops, rank)
    ensures table == [] ==> rank == RANK_INFINITE
  {
    if rank != RANK_INFINITE {
      var p :| RankedBy(table, rank, p);
      assert Eligible(table[p]) && topo[v].links[p].cost >= ETX_ONE;
      if k > 0 && table[p].peerRank < ETX_ONE * (k - 1) {
        var hops :| Covers(topo, table[p].addr, hops, table[p].peerRank);
        Extend(topo, v, p, hops);
        assert Covers(topo, v, [p] + hops, rank);
      }
    }
  }

  lemma RankFromAbove(topo: Topology, v: nat, table: Table, rank: nat, k: nat, hops: seq<nat>)
    requires Sound(topo) && v in topo && !topo[v].backhaul && RankRule(table, rank) && Entries(topo, v, table, k)
    requires |hops| <= k && Affordable(topo, v, hops)
    ensures rank <= Price(topo, v, hops)
  {
    var j, rest := hops[0], hops[1..];
    var e := table[j];
    assert topo[v].links[j].cost >= ETX_ONE;
    assert Price(topo, v, hops) == e.linkCost + Price(topo, e.addr, rest) + RANK_HYSTERESIS;
    assert Affordable(topo, e.addr, rest);
    assert e.peerRank <= Price(topo, e.addr, rest);
    assert Eligible(e);
  }

  // ----- one step -----

  /** A node that recomputed over bounded entries keeps the round. */
  lemma NodeKeepsRound(topo: Topology, v: nat, table: Table, n: C.NodeState, k: nat, since: nat, now: nat)
    requires Sound(topo) && v in topo && |n.born| == |table| && Recomputed(topo[v], table, n)
    requires Entries(topo, v, table, k)
    requires forall j :: 0 <= j < |table| ==>
      && n.born[j] < now && (n.born[j] >= since ==> Good(topo, table[j].addr, table[j].peerRank, k))
    ensures NodeBounded(topo, v, n, k, now) && NodeInRound(topo, v, n, k, since)
  {
    if topo[v].backhaul {
      EndsAreGood(topo, v, n.rank, k);
      EndsAreGood(topo, v, n.rank, k + 1);
    } else {
      RecomputeImproves(topo, v, table, n.rank, k);
      if C.NodeFresh(n, since) {
        RecomputeImproves(topo, v, table, n.rank, k + 1);
      }
    }
  }

  lemma OthersKeepRound(topo: Topology, s: C.System, k: nat, since: nat)
    requires InRound(topo, s, k, since)
    ensures forall v :: v in topo ==>
      NodeBounded(topo, v, s.nodes[v], k, s.now + 1) && NodeInRound(topo, v, s.nodes[v], k, since)
  {
    forall v | v in topo
      ensures NodeBounded(topo, v, s.nodes[v], k, s.now + 1)
    {
      assert NodeBounded(topo, v, s.nodes[v], k, s.now);
    }
  }

  lemma NodeReplaced(topo: Topology, s: C.System, s': C.System, v: nat, n: C.NodeState, k: nat, since: nat)
    requires InRound(topo, s, k, since) && v in topo
    requires s' == s.(nodes := s.nodes[v := n], now := s.now + 1)
    requires NodeBounded(topo, v, n, k, s.now + 1) && NodeInRound(topo, v, n, k, since)
    ensures InRound(topo, s', k, since)
  {
    OthersKeepRound(topo, s, k, since);
  }

  lemma BuildKeepsRound(topo: Topology, s: C.System, s': C.System, v: nat, k: nat, since: nat)
    requires InRound(topo, s, k, since) && C.Build(s, s', v)
    ensures InRound(topo, s', k, since)
  {
    OthersKeepRound(topo, s, k, since);
    assert NodeBounded(topo, v, s.nodes[v], k, s.now);
    GoodBefore(topo, v, s.nodes[v].rank, k);
  }

  lemma HeardIsBounded(topo: Topology, v: nat, was: C.NodeState, j: nat, m: C.Frame, n: C.NodeState, k: nat, now: nat)
    requires v in topo && NodeBounded(topo, v, was, k, now) && Heard(was, j, m, n)
    requires m.born < now && StoredGood(topo, m.src, m.rank, k)
    ensures NodeBounded(topo, v, n, k, now + 1)
  {
  }

  lemma HeardIsInRound(topo: Topology, v: nat, was: C.NodeState, j: nat, m: C.Frame, n: C.NodeState, k: nat, since: nat)
    requires v in topo && NodeInRound(topo, v, was, k, since) && Heard(was, j, m, n)
    requires m.born >= since ==> Good(topo, m.src, m.rank, k)
    ensures NodeInRound(topo, v, n, k, since)
  {
    C.SameFreshness(was, n, since);
  }

  lemma BeaconKeepsRound(topo: Topology, s: C.System, v: nat, j: nat, m: C.Frame, n: C.NodeState, k: nat, since: nat)
    requires InRound(topo, s, k, since) && v in topo && m in s.flight && Heard(s.nodes[v], j, m, n)
    ensures NodeBounded(topo, v, n, k, s.now + 1) && NodeInRound(topo, v, n, k, since)
  {
    assert NodeBounded(topo, v, s.nodes[v], k, s.now) && NodeInRound(topo, v, s.nodes[v], k, since);
    HeardIsBounded(topo, v, s.nodes[v], j, m, n, k, s.now);
    HeardIsInRound(topo, v, s.nodes[v], j, m, n, k, since);
  }

  // Storing a rank that is good enough leaves entries that are.
  lemma StoredEntries(topo: Topology, v: nat, was: C.NodeState, j: nat, m: C.Frame, k: nat, since: nat, now: nat)
    requires v in topo && j < |was.table| && NodeBounded(topo, v, was, k, now) && NodeInRound(topo, v, was, k, since)
    requires m.src == was.table[j].addr && m.born < now && StoredGood(topo, m.src, m.rank, k)
    requires m.born >= since ==> Good(topo, m.src, m.rank, k)
    ensures Entries(topo, v, Stored(was, j, m.rank), k)
    ensures
      var table, born := Stored(was, j, m.rank), was.born[j := m.born];
      forall i :: 0 <= i < |table| ==>
        born[i] < now && (born[i] >= since ==> Good(topo, table[i].addr, table[i].peerRank, k))
  {
  }

  lemma AdvKeepsRound(topo: Topology, s: C.System, s': C.System, v: nat, j: nat, m: C.Frame, n: C.NodeState, k: nat,
                      since: nat)
    requires Sound(topo) && v in topo
    ensures InRound(topo, s, k, since) && Takes(topo, s, s', v, j, m, n) ==> InRound(topo, s', k, since)
  {
    if InRound(topo, s, k, since) && Takes(topo, s, s', v, j, m, n) {
      assert NodeBounded(topo, v, s.nodes[v], k, s.now) && NodeInRound(topo, v, s.nodes[v], k, since);
      StoredEntries(topo, v, s.nodes[v], j, m, k, since, s.now);
      NodeKeepsRound(topo, v, Stored(s.nodes[v], j, m.rank), n, k, since, s'.now);
      NodeReplaced(topo, s, s', v, n, k, since);
    }
  }

  lemma RecomputeKeepsRound(topo: Topology, s: C.System, s': C.System, v: nat, n: C.NodeState, k: nat, since: nat)
    requires Sound(topo) && v in topo
    ensures InRound(topo, s, k, since) && Recomputes(topo, s, s', v, n) ==> InRound(topo, s', k, since)
  {
    if InRound(topo, s, k, since) && Recomputes(topo, s, s', v, n) {
      assert NodeBounded(topo, v, s.nodes[v], k, s.now) && NodeInRound(topo, v, s.nodes[v], k, since);
      NodeKeepsRound(topo, v, s.nodes[v].table, n, k, since, s'.now);
      NodeReplaced(topo, s, s', v, n, k, since);
    }
  }

  /** Every step keeps the round's bounds; no order or fairness is assumed. */
  lemma StepKeepsRound(topo: Topology, s: C.System, s': C.System, k: nat, since: nat)
    requires Sound(topo) && InRound(topo, s, k, since) && since <= s.now && Shape(topo, s) && Next(topo, s, s')
    ensures InRound(topo, s', k, since) && since <= s'.now
  {
    var step :| NextBy(topo, s, s', step);
    match step
    case BuildStep(v) =>
      BuildKeepsRound(topo, s, s', v, k, since);
    case LoseStep(m) =>
      OthersKeepRound(topo, s, k, since);
    case AdvStep(v, j, m, n) =>
      AdvKeepsRound(topo, s, s', v, j, m, n, k, since);
    case BeaconStep(v, j, m, n) =>
      BeaconKeepsRound(topo, s, v, j, m, n, k, since);
      NodeReplaced(topo, s, s', v, n, k, since);
    case RecomputeStep(v, n) =>
      RecomputeKeepsRound(topo, s, s', v, n, k, since);
  }

  // ----- rounds and runs -----

  ghost predicate IsRun(topo: Topology, run: seq<C.System>) {
    && run != [] && (forall i :: 0 <= i < |run| ==> Shape(topo, run[i]))
    && forall i {:trigger Next(topo, run[i], run[i + 1])} :: 0 <= i < |run| - 1 ==> Next(topo, run[i], run[i + 1])
  }

  lemma RoundStarts(topo: Topology, s: C.System, k: nat)
    requires Sound(topo) && Bounded(topo, s, k)
    ensures InRound(topo, s, k, s.now)
  {
    forall v | v in topo
      ensures NodeInRound(topo, v, s.nodes[v], k, s.now)
    {
      var n := s.nodes[v];
      assert NodeBounded(topo, v, n, k, s.now);
      NeverFreshYet(topo, v, n, s.now);
      if n.table == [] {
        EndsAreGood(topo, v, n.rank, k + 1);
      }
    }
  }

  lemma NeverFreshYet(topo: Topology, v: nat, n: C.NodeState, now: nat)
    requires v in topo && NodeShape(topo[v], n) && forall j :: 0 <= j < |n.table| ==> n.born[j] < now
    ensures C.NodeFresh(n, now) ==> n.table == []
  {
    assert n.table != [] ==> C.LinkedAt(n, 0) && n.born[0] < now;
  }

  // State `i` of a run lies inside a round that started at `since`.
  ghost predicate Inside(topo: Topology, run: seq<C.System>, i: nat, k: nat, since: nat) {
    i < |run| && since <= run[i].now && InRound(topo, run[i], k, since)
  }

  lemma RunKeepsRound(topo: Topology, run: seq<C.System>, a: nat, b: nat, k: nat)
    requires Sound(topo) && IsRun(topo, run) && a <= b < |run| && Bounded(topo, run[a], k)
    ensures InRound(topo, run[b], k, run[a].now) && run[a].now <= run[b].now
  {
    RoundStarts(topo, run[a], k);
    RoundGoesOn(topo, run, a, b, k, run[a].now);
  }

  lemma {:induction false} RoundGoesOn(topo: Topology, run: seq<C.System>, a: nat, b: nat, k: nat, since: nat)
    requires Sound(topo) && IsRun(topo, run) && a <= b < |run| && Inside(topo, run, a, k, since)
    ensures Inside(topo, run, b, k, since)
    decreases b
  {
    if a < b {
      RoundGoesOn(topo, run, a, b - 1, k, since);
      InsideStep(topo, run, b, k, since);
    }
  }

  lemma InsideStep(topo: Topology, run: seq<C.System>, b: nat, k: nat, since: nat)
    requires Sound(topo) && IsRun(topo, run) && 0 < b < |run| && Inside(topo, run, b - 1, k, since)
    ensures Inside(topo, run, b, k, since)
  {
    StepOf(topo, run, b);
    StepKeepsRound(topo, run[b - 1], run[b], k, since);
  }

  lemma StepOf(topo: Topology, run: seq<C.System>, b: nat)
    requires IsRun(topo, run) && 0 < b < |run|
    ensures Shape(topo, run[b - 1]) && Next(topo, run[b - 1], run[b])
  {
    var i := b - 1;
    assert Next(topo, run[i], run[i + 1]);
  }

  /** A complete round makes everything one level better. */
  lemma RoundImproves(topo: Topology, run: seq<C.System>, a: nat, b: nat, k: nat)
    requires Sound(topo) && IsRun(topo, run) && a < |run| && b < |run| && C.CompleteRound(run, a, b)
    requires Bounded(topo, run[a], k)
    ensures Bounded(topo, run[b], k + 1)
  {
    RunKeepsRound(topo, run, a, b, k);
    forall v | v in topo
      ensures NodeBounded(topo, v, run[b].nodes[v], k + 1, run[b].now)
    {
      var n := run[b].nodes[v];
      assert C.NodeFresh(n, run[a].now);
      assert NodeInRound(topo, v, n, k, run[a].now) && NodeBounded(topo, v, n, k, run[b].now);
    }
  }

  /** Where a run may start: whatever ranks are stored or in flight, built before now, and at each node one that
      is infinite or below the ceiling. Backhauls rank 0, and a node without links has no rank. */
  ghost predicate Anything(topo: Topology, s: C.System) {
    && Shape(topo, s) && (forall m :: m in s.flight ==> m.born < s.now)
    && forall v :: v in topo ==> NodeAnything(topo[v], s.nodes[v], s.now)
  }

  ghost predicate NodeAnything(site: Site, n: C.NodeState, now: nat) {
    && (forall j :: 0 <= j < |n.born| ==> n.born[j] < now)
    && if site.backhaul then n.rank == 0
       else n.rank == RANK_INFINITE || (n.rank < MAX_RANK && site.links != [])
  }

  lemma AnythingIsBounded(topo: Topology, s: C.System)
    requires Sound(topo) && Anything(topo, s)
    ensures Bounded(topo, s, 0)
  {
    forall v | v in topo
      ensures NodeBounded(topo, v, s.nodes[v], 0, s.now)
    {
      assert NodeShape(topo[v], s.nodes[v]) && NodeAnything(topo[v], s.nodes[v], s.now);
      if topo[v].backhaul {
        EndsAreGood(topo, v, 0, 0);
      } else {
        assert forall hops :: |hops| <= 0 ==> !IsWalk(topo, v, hops);
      }
    }
  }

  /** After k complete rounds, in any order and with any loss, every rank lies between the true distance,
      or 16 k while that is less, and the price of the best walk of up to k hops. */
  lemma {:induction false} RanksAfterRounds(topo: Topology, run: seq<C.System>, marks: seq<nat>, k: nat)
    requires Sound(topo) && IsRun(topo, run) && C.Rounds(run, marks) && k < |marks| && Anything(topo, run[marks[0]])
    ensures Bounded(topo, run[marks[k]], k)
    ensures forall v :: v in topo ==> Good(topo, v, run[marks[k]].nodes[v].rank, k)
  {
    if k == 0 {
      AnythingIsBounded(topo, run[marks[0]]);
    } else {
      RanksAfterRounds(topo, run, marks, k - 1);
      assert C.CompleteRound(run, marks[k - 1], marks[k - 1 + 1]);
      RoundImproves(topo, run, marks[k - 1], marks[k], k - 1);
    }
    forall v | v in topo
      ensures Good(topo, v, run[marks[k]].nodes[v].rank, k)
    {
      assert NodeBounded(topo, v, run[marks[k]].nodes[v], k, run[marks[k]].now);
    }
  }

  /** An affordable walk has no more hops than the ceiling has perfect ones. */
  lemma GoodForAll(topo: Topology, v: nat, rank: nat, k: nat)
    requires Sound(topo) && v in topo && Good(topo, v, rank, k) && ETX_ONE * k >= MAX_RANK
    requires rank == RANK_INFINITE || rank < MAX_RANK
    ensures rank != RANK_INFINITE ==> exists hops :: Covers(topo, v, hops, rank)
    ensures forall hops :: Affordable(topo, v, hops) ==> rank <= Price(topo, v, hops)
  {
    forall hops | Affordable(topo, v, hops)
      ensures |hops| <= k
    {
      WalkCostFloor(topo, v, hops);
    }
  }

  /** Convergence: after ceil(MAX_RANK / 16) complete rounds, and for good, a rank is finite only if some
      walk to a backhaul costs no more, and no affordable walk, however long, is cheaper than the rank by
      more than the hysteresis of its hops. */
  lemma RanksConverge(topo: Topology, run: seq<C.System>, marks: seq<nat>, i: nat, v: nat)
    requires Sound(topo) && IsRun(topo, run) && C.Rounds(run, marks) && Anything(topo, run[marks[0]])
    requires |marks| - 1 >= (MAX_RANK + 15) / 16 && marks[(MAX_RANK + 15) / 16] <= i < |run| && v in topo
    ensures
      var rank := run[i].nodes[v].rank;
      && (rank != RANK_INFINITE ==> rank < MAX_RANK && exists hops :: Covers(topo, v, hops, rank))
      && (forall hops :: Affordable(topo, v, hops) ==> rank <= Price(topo, v, hops))
  {
    var k := (MAX_RANK + 15) / 16;
    RanksAfterRounds(topo, run, marks, k);
    RunKeepsRound(topo, run, marks[k], i, k);
    assert NodeBounded(topo, v, run[i].nodes[v], k, run[i].now);
    GoodForAll(topo, v, run[i].nodes[v].rank, k);
  }

  ghost predicate BelowCeiling(topo: Topology, v: nat, hops: seq<nat>) {
    IsWalk(topo, v, hops) && WalkCost(topo, v, hops) < MAX_RANK
  }

  /** So in the end a node with an affordable walk is routed, and a routed node has a walk below the ceiling: the
      two conditions are the hysteresis of the walk's hops apart. */
  lemma RoutedWithinHysteresis(topo: Topology, run: seq<C.System>, marks: seq<nat>, i: nat, v: nat)
    requires Sound(topo) && IsRun(topo, run) && C.Rounds(run, marks) && Anything(topo, run[marks[0]])
    requires |marks| - 1 >= (MAX_RANK + 15) / 16 && marks[(MAX_RANK + 15) / 16] <= i < |run| && v in topo
    ensures (exists hops :: Affordable(topo, v, hops)) ==> run[i].nodes[v].rank != RANK_INFINITE
    ensures run[i].nodes[v].rank != RANK_INFINITE ==> exists hops :: BelowCeiling(topo, v, hops)
  {
    RanksConverge(topo, run, marks, i, v);
    var rank := run[i].nodes[v].rank;
    if rank != RANK_INFINITE {
      var hops :| Covers(topo, v, hops, rank);
      assert BelowCeiling(topo, v, hops);
    }
  }
}
