/** A grid that has lost its last backhaul.

    Nodes, their tables and everything in flight form one state; a run is any
    interleaving of builds, deliveries, losses, link changes and recomputes.
    A frame carries the rank of its builder at the moment it was built, and
    `born` is that moment.
 */
module Collapse {
  import opened Config
  import opened Route

  datatype Frame = Frame(src: nat, rank: nat, born: nat)

  // Entry `k` of `table` was last written by a frame born at `born[k]`.
  datatype NodeState = NodeState(rank: nat, table: Table, born: seq<nat>)

  datatype System = System(nodes: map<nat, NodeState>, flight: set<Frame>, now: nat)

  predicate LinkedAt(n: NodeState, k: int) {
    0 <= k < |n.table| && k < |n.born| && n.table[k].state == Linked
  }

  predicate NoLinks(n: NodeState) {
    forall k :: 0 <= k < |n.table| && k < |n.born| ==> !LinkedAt(n, k)
  }

  // ----- the steps -----

  /** A node builds an advertisement, a beacon or link parameters. */
  ghost predicate Build(s: System, s': System, v: nat) {
    && v in s.nodes
    && s' == s.(flight := s.flight + {Frame(v, s.nodes[v].rank, s.now)}, now := s.now + 1)
  }

  /** A frame is gone for good. */
  ghost predicate Lose(s: System, s': System, m: Frame) {
    s' == s.(flight := s.flight - {m}, now := s.now + 1)
  }

  ghost predicate NodeBecomes(s: System, s': System, v: nat, n: NodeState) {
    && v in s.nodes && |s.nodes[v].table| == |s.nodes[v].born| == |n.table| == |n.born|
    && s' == s.(nodes := s.nodes[v := n], now := s.now + 1)
  }

  /** The node ends up with the rank a recompute takes from `table`. */
  ghost predicate Recomputed(n: NodeState, table: Table) {
    SameLinks(table, n.table) && RankRule(table, n.rank)
  }

  /** `lg_route_handle_adv`: store the peer's rank on its link and recompute. */
  ghost predicate DeliverAdv(s: System, s': System, v: nat, k: nat, m: Frame, n: NodeState) {
    && NodeBecomes(s, s', v, n) && LinkedAt(s.nodes[v], k)
    && m in s.flight && m.src == s.nodes[v].table[k].addr
    && Recomputed(n, s.nodes[v].table[k := s.nodes[v].table[k].(peerRank := m.rank)])
    && n.born == s.nodes[v].born[k := m.born]
  }

  /** `lg_disc_beacon_rx`: store the sender's rank without recomputing. The entry is no
      fresher than the older of what it held and what the beacon carried. */
  ghost predicate DeliverBeacon(s: System, s': System, v: nat, k: nat, m: Frame, n: NodeState) {
    && NodeBecomes(s, s', v, n) && k < |s.nodes[v].table|
    && m in s.flight && m.src == s.nodes[v].table[k].addr
    && n == s.nodes[v].(table := s.nodes[v].table[k := s.nodes[v].table[k].(peerRank := m.rank)],
                        born := s.nodes[v].born[k := Min(s.nodes[v].born[k], m.born)])
  }

  /** `lg_link_establish`: an entry comes up with the rank in the link parameters, which at
      the router are its own. */
  ghost predicate LinkUp(s: System, s': System, v: nat, k: nat, m: Frame, e: Neigh, n: NodeState) {
    && NodeBecomes(s, s', v, n) && k < |s.nodes[v].table|
    && m in s.flight && (m.src == e.addr || m.src == v)
    && e.state == Linked && e.peerRank == m.rank && e.linkCost >= ETX_ONE
    && Recomputed(n, s.nodes[v].table[k := e])
    && n.born == s.nodes[v].born[k := m.born]
  }

  /** `lg_link_down`: an entry stops being linked and the node recomputes. */
  ghost predicate LinkDown(s: System, s': System, v: nat, k: nat, n: NodeState) {
    && NodeBecomes(s, s', v, n) && LinkedAt(s.nodes[v], k)
    && Recomputed(n, s.nodes[v].table[k := s.nodes[v].table[k].(state := Lost)])
    && n.born == s.nodes[v].born
  }

  /** A role change between leaf and router, or any other reason to recompute. */
  ghost predicate Recompute(s: System, s': System, v: nat, n: NodeState) {
    NodeBecomes(s, s', v, n) && Recomputed(n, s.nodes[v].table) && n.born == s.nodes[v].born
  }

  /** Quality changes a link's cost, and entries without a link come, go and change freely. */
  ghost predicate Retouch(s: System, s': System, v: nat, k: nat, e: Neigh, n: NodeState) {
    && NodeBecomes(s, s', v, n) && k < |s.nodes[v].table|
    && (if LinkedAt(s.nodes[v], k) then
          e == s.nodes[v].table[k].(linkCost := e.linkCost) && e.linkCost >= ETX_ONE
        else e.state != Linked)
    && n == s.nodes[v].(table := s.nodes[v].table[k := e])
  }

  datatype Step =
    | BuildStep(v: nat)
    | LoseStep(m: Frame)
    | AdvStep(v: nat, k: nat, m: Frame, n: NodeState)
    | BeaconStep(v: nat, k: nat, m: Frame, n: NodeState)
    | UpStep(v: nat, k: nat, m: Frame, e: Neigh, n: NodeState)
    | DownStep(v: nat, k: nat, n: NodeState)
    | RecomputeStep(v: nat, n: NodeState)
    | RetouchStep(v: nat, k: nat, e: Neigh, n: NodeState)

  ghost predicate NextBy(s: System, s': System, step: Step) {
    match step
    case BuildStep(v) => Build(s, s', v)
    case LoseStep(m) => Lose(s, s', m)
    case AdvStep(v, k, m, n) => DeliverAdv(s, s', v, k, m, n)
    case BeaconStep(v, k, m, n) => DeliverBeacon(s, s', v, k, m, n)
    case UpStep(v, k, m, e, n) => LinkUp(s, s', v, k, m, e, n)
    case DownStep(v, k, n) => LinkDown(s, s', v, k, n)
    case RecomputeStep(v, n) => Recompute(s, s', v, n)
    case RetouchStep(v, k, e, n) => Retouch(s, s', v, k, e, n)
  }

  ghost predicate Next(s: System, s': System) {
    exists step :: NextBy(s, s', step)
  }

  // ----- the bound -----

  ghost predicate AtLeast(rank: nat, bound: nat) {
    rank == RANK_INFINITE || rank >= bound
  }

  /** No finite rank is below `low + 16`, nothing stored or in flight is below `low`. */
  ghost predicate Bounded(s: System, low: nat) {
    && (forall v :: v in s.nodes ==> NodeBounded(s.nodes[v], low, s.now))
    && (forall m :: m in s.flight ==> m.born < s.now && AtLeast(m.rank, low))
  }

  ghost predicate NodeBounded(n: NodeState, low: nat, now: nat) {
    && |n.table| == |n.born|
    && (n.rank == RANK_INFINITE || low + ETX_ONE <= n.rank < MAX_RANK)
    && (NoLinks(n) ==> n.rank == RANK_INFINITE)
    && (forall k :: LinkedAt(n, k) ==>
          AtLeast(n.table[k].peerRank, low) && n.table[k].linkCost >= ETX_ONE && n.born[k] < now)
  }

  /** Everything stored or in flight was built at or after `since`. */
  ghost predicate AllBornSince(s: System, since: nat) {
    && (forall v :: v in s.nodes ==> NodeFresh(s.nodes[v], since))
    && (forall m :: m in s.flight ==> m.born >= since)
  }

  ghost predicate NodeFresh(n: NodeState, since: nat) {
    forall k :: LinkedAt(n, k) ==> n.born[k] >= since
  }

  /** Inside a round that started at `since`: what was built in it is already 16 higher. */
  ghost predicate InRound(s: System, low: nat, since: nat) {
    && Bounded(s, low)
    && (forall v :: v in s.nodes ==> NodeInRound(s.nodes[v], low, since))
    && (forall m :: m in s.flight && m.born >= since ==> AtLeast(m.rank, low + ETX_ONE))
  }

  ghost predicate NodeInRound(n: NodeState, low: nat, since: nat) {
    && (forall k :: LinkedAt(n, k) && n.born[k] >= since ==> AtLeast(n.table[k].peerRank, low + ETX_ONE))
    && (NodeFresh(n, since) ==> AtLeast(n.rank, low + 2 * ETX_ONE))
  }

  // ----- one step -----

  /** A recompute over entries at or above `low` yields a rank at least one perfect hop more. */
  lemma RecomputeClimbs(t: Table, rank: nat, low: nat)
    requires RankRule(t, rank)
    requires forall k :: 0 <= k < |t| && t[k].state == Linked ==>
      AtLeast(t[k].peerRank, low) && t[k].linkCost >= ETX_ONE
    ensures rank == RANK_INFINITE || low + ETX_ONE <= rank < MAX_RANK
    ensures (forall k :: 0 <= k < |t| ==> t[k].state != Linked) ==> rank == RANK_INFINITE
  {
    if p :| RankedBy(t, rank, p) {
      assert Eligible(t[p]);
    }
  }

  lemma NodeStepKeepsRound(table: Table, n': NodeState, low: nat, since: nat, now: nat)
    requires |table| == |n'.born| == |n'.table| && Recomputed(n', table)
    requires forall k :: 0 <= k < |table| && table[k].state == Linked ==>
      AtLeast(table[k].peerRank, low) && table[k].linkCost >= ETX_ONE && n'.born[k] < now
    requires forall k :: 0 <= k < |table| && table[k].state == Linked && n'.born[k] >= since ==>
      AtLeast(table[k].peerRank, low + ETX_ONE)
    ensures NodeBounded(n', low, now) && NodeInRound(n', low, since)
  {
    RecomputeClimbs(table, n'.rank, low);
    assert forall k :: 0 <= k < |table| ==> (LinkedAt(n', k) <==> table[k].state == Linked);
    if NodeFresh(n', since) {
      forall k | 0 <= k < |table| && table[k].state == Linked
        ensures AtLeast(table[k].peerRank, low + ETX_ONE)
      {
        assert LinkedAt(n', k);
      }
      RecomputeClimbs(table, n'.rank, low + ETX_ONE);
    }
  }

  /** Every step keeps the round's bounds; no order or fairness is assumed. */
  lemma StepKeepsRound(s: System, s': System, low: nat, since: nat)
    requires InRound(s, low, since) && since <= s.now && Next(s, s')
    ensures InRound(s', low, since) && since <= s'.now
  {
    var step :| NextBy(s, s', step);
    match step
    case BuildStep(v) =>
      BuildKeepsRound(s, s', v, low, since);
    case LoseStep(m) =>
      OthersKeepRound(s, low, since);
    case AdvStep(v, k, m, n) =>
      var table := s.nodes[v].table[k := s.nodes[v].table[k].(peerRank := m.rank)];
      EntryKeepsRound(s, s', v, k, table, n, low, since);
    case BeaconStep(v, k, m, n) =>
      BeaconKeepsRound(s, v, k, m, n, low, since);
      NodeReplaced(s, s', v, n, low, since);
    case UpStep(v, k, m, e, n) =>
      EntryKeepsRound(s, s', v, k, s.nodes[v].table[k := e], n, low, since);
    case DownStep(v, k, n) =>
      var table := s.nodes[v].table[k := s.nodes[v].table[k].(state := Lost)];
      EntryKeepsRound(s, s', v, k, table, n, low, since);
    case RecomputeStep(v, n) =>
      RecomputeKeepsRound(s, s', v, n, low, since);
    case RetouchStep(v, k, e, n) =>
      RetouchKeepsRound(s, v, k, e, n, low, since);
      NodeReplaced(s, s', v, n, low, since);
  }

  lemma OthersKeepRound(s: System, low: nat, since: nat)
    requires InRound(s, low, since)
    ensures forall v :: v in s.nodes ==>
      NodeBounded(s.nodes[v], low, s.now + 1) && NodeInRound(s.nodes[v], low, since)
  {
    forall v | v in s.nodes
      ensures NodeBounded(s.nodes[v], low, s.now + 1)
    {
      assert NodeBounded(s.nodes[v], low, s.now);
    }
  }

  lemma NodeReplaced(s: System, s': System, v: nat, n: NodeState, low: nat, since: nat)
    requires InRound(s, low, since) && v in s.nodes
    requires s' == s.(nodes := s.nodes[v := n], now := s.now + 1)
    requires NodeBounded(n, low, s.now + 1) && NodeInRound(n, low, since)
    ensures InRound(s', low, since)
  {
    OthersKeepRound(s, low, since);
  }

  lemma BuildKeepsRound(s: System, s': System, v: nat, low: nat, since: nat)
    requires InRound(s, low, since) && Build(s, s', v)
    ensures InRound(s', low, since)
  {
    OthersKeepRound(s, low, since);
    assert NodeBounded(s.nodes[v], low, s.now);
  }

  /** One entry is rewritten from a frame in flight, or unlinked, and the node recomputes. */
  lemma EntryKeepsRound(s: System, s': System, v: nat, k: nat, table: Table, n: NodeState, low: nat, since: nat)
    requires InRound(s, low, since) && NodeBecomes(s, s', v, n) && k < |table|
    requires Recomputed(n, table) && |table| == |s.nodes[v].table|
    requires forall i :: 0 <= i < |table| && i != k ==>
      table[i] == s.nodes[v].table[i] && n.born[i] == s.nodes[v].born[i]
    requires table[k].state == Linked ==>
      && table[k].linkCost >= ETX_ONE
      && exists m :: m in s.flight && m.rank == table[k].peerRank && m.born == n.born[k]
    ensures InRound(s', low, since)
  {
    TouchedEntry(s, v, k, table, n.born, low, since);
    NodeStepKeepsRound(table, n, low, since, s'.now);
    NodeReplaced(s, s', v, n, low, since);
  }

  lemma RecomputeKeepsRound(s: System, s': System, v: nat, n: NodeState, low: nat, since: nat)
    requires InRound(s, low, since) && Recompute(s, s', v, n)
    ensures InRound(s', low, since)
  {
    var was := s.nodes[v];
    assert NodeBounded(was, low, s.now) && NodeInRound(was, low, since);
    assert forall i :: 0 <= i < |was.table| && was.table[i].state == Linked ==> LinkedAt(was, i);
    NodeStepKeepsRound(was.table, n, low, since, s'.now);
    NodeReplaced(s, s', v, n, low, since);
  }

  lemma RetouchKeepsRound(s: System, v: nat, k: nat, e: Neigh, n: NodeState, low: nat, since: nat)
    requires InRound(s, low, since) && v in s.nodes && k < |s.nodes[v].table| == |s.nodes[v].born|
    requires if LinkedAt(s.nodes[v], k) then
      e == s.nodes[v].table[k].(linkCost := e.linkCost) && e.linkCost >= ETX_ONE else e.state != Linked
    requires n == s.nodes[v].(table := s.nodes[v].table[k := e])
    ensures NodeBounded(n, low, s.now + 1) && NodeInRound(n, low, since)
  {
    var was := s.nodes[v];
    assert NodeBounded(was, low, s.now) && NodeInRound(was, low, since);
    assert forall i :: LinkedAt(n, i) <==> LinkedAt(was, i);
    SameFreshness(was, n, since);
  }

  lemma SameFreshness(a: NodeState, b: NodeState, since: nat)
    requires forall i :: LinkedAt(b, i) <==> LinkedAt(a, i)
    requires forall i :: LinkedAt(a, i) && LinkedAt(b, i) ==> b.born[i] <= a.born[i]
    ensures NodeFresh(b, since) ==> NodeFresh(a, since)
    ensures NoLinks(b) ==> NoLinks(a)
  {
    if NodeFresh(b, since) {
      forall i | LinkedAt(a, i)
        ensures a.born[i] >= since
      {
        assert LinkedAt(b, i);
      }
    }
    if !NoLinks(a) {
      var i :| LinkedAt(a, i);
      assert LinkedAt(b, i);
    }
  }

  /** Entries other than the one written keep the bounds they had. */
  lemma TouchedEntry(s: System, v: nat, k: nat, table: Table, born: seq<nat>, low: nat, since: nat)
    requires InRound(s, low, since) && v in s.nodes
    requires k < |table| == |s.nodes[v].table| == |born|
    requires forall i :: 0 <= i < |table| && i != k ==>
      table[i] == s.nodes[v].table[i] && born[i] == s.nodes[v].born[i]
    ensures forall i :: 0 <= i < |table| && i != k && table[i].state == Linked ==>
      && AtLeast(table[i].peerRank, low) && table[i].linkCost >= ETX_ONE && born[i] < s.now
      && (born[i] >= since ==> AtLeast(table[i].peerRank, low + ETX_ONE))
  {
    assert NodeBounded(s.nodes[v], low, s.now) && NodeInRound(s.nodes[v], low, since);
    assert forall i :: 0 <= i < |table| && i != k && table[i].state == Linked ==> LinkedAt(s.nodes[v], i);
  }

  lemma BeaconKeepsRound(s: System, v: nat, k: nat, m: Frame, n: NodeState, low: nat, since: nat)
    requires InRound(s, low, since) && v in s.nodes && m in s.flight && k < |s.nodes[v].table|
    requires n == s.nodes[v].(table := s.nodes[v].table[k := s.nodes[v].table[k].(peerRank := m.rank)],
                              born := s.nodes[v].born[k := Min(s.nodes[v].born[k], m.born)])
    ensures NodeBounded(n, low, s.now + 1) && NodeInRound(n, low, since)
  {
    var was := s.nodes[v];
    assert NodeBounded(was, low, s.now) && NodeInRound(was, low, since);
    assert forall i :: LinkedAt(n, i) <==> LinkedAt(was, i);
    SameFreshness(was, n, since);
  }

  // ----- rounds and runs -----

  ghost predicate IsRun(run: seq<System>) {
    run != [] && forall i :: 0 <= i < |run| - 1 ==> Next(run[i], run[i + 1])
  }

  /** Before any round: every rank came from a recompute, so it costs at least one hop. */
  ghost predicate Settled(s: System) {
    Bounded(s, 0)
  }

  /** A round may start at any bounded state: nothing in it is as young as the round. */
  lemma RoundStarts(s: System, low: nat)
    requires Bounded(s, low)
    ensures InRound(s, low, s.now)
  {
    forall v | v in s.nodes
      ensures NodeInRound(s.nodes[v], low, s.now)
    {
      var n := s.nodes[v];
      assert NodeBounded(n, low, s.now);
      if NodeFresh(n, s.now) {
        assert NoLinks(n);
      }
    }
  }

  lemma RunKeepsRound(run: seq<System>, a: nat, b: nat, low: nat)
    requires IsRun(run) && a <= b < |run| && Bounded(run[a], low)
    ensures InRound(run[b], low, run[a].now) && run[a].now <= run[b].now
  {
    RoundStarts(run[a], low);
    RoundGoesOn(run, a, b, low, run[a].now);
  }

  lemma {:induction false} RoundGoesOn(run: seq<System>, a: nat, b: nat, low: nat, since: nat)
    requires IsRun(run) && a <= b < |run| && InRound(run[a], low, since) && since <= run[a].now
    ensures InRound(run[b], low, since) && since <= run[b].now
    decreases b
  {
    if a < b {
      RoundGoesOn(run, a, b - 1, low, since);
      StepOf(run, b);
      StepKeepsRound(run[b - 1], run[b], low, since);
    }
  }

  lemma StepOf(run: seq<System>, b: nat)
    requires IsRun(run) && 0 < b < |run|
    ensures Next(run[b - 1], run[b])
  {
    assert Next(run[b - 1], run[b - 1 + 1]);
  }

  /** One complete round: by its end everything stored and in flight was built inside it. */
  ghost predicate CompleteRound(run: seq<System>, a: nat, b: nat)
    requires a < |run| && b < |run|
  {
    a <= b && AllBornSince(run[b], run[a].now)
  }

  /** The progress theorem: a complete round raises every bound by a perfect hop. */
  lemma RoundRaises(run: seq<System>, a: nat, b: nat, low: nat)
    requires IsRun(run) && a < |run| && b < |run| && CompleteRound(run, a, b)
    requires Bounded(run[a], low)
    ensures Bounded(run[b], low + ETX_ONE)
  {
    RunKeepsRound(run, a, b, low);
    forall v | v in run[b].nodes
      ensures NodeBounded(run[b].nodes[v], low + ETX_ONE, run[b].now)
    {
      assert NodeFresh(run[b].nodes[v], run[a].now);
      assert NodeInRound(run[b].nodes[v], low, run[a].now) && NodeBounded(run[b].nodes[v], low, run[b].now);
    }
  }

  // `marks` cuts the run into complete rounds.
  ghost predicate Rounds(run: seq<System>, marks: seq<nat>) {
    && marks != [] && (forall i :: 0 <= i < |marks| ==> marks[i] < |run|)
    && forall i :: 0 <= i < |marks| - 1 ==> CompleteRound(run, marks[i], marks[i + 1])
  }

  lemma {:induction false} RoundsRaise(run: seq<System>, marks: seq<nat>, k: nat)
    requires IsRun(run) && Rounds(run, marks) && k < |marks| && Bounded(run[marks[0]], 0)
    ensures Bounded(run[marks[k]], k * ETX_ONE)
  {
    if k > 0 {
      RoundsRaise(run, marks, k - 1);
      assert CompleteRound(run, marks[k - 1], marks[k]);
      RoundRaises(run, marks[k - 1], marks[k], (k - 1) * ETX_ONE);
    }
  }

  /** No-sink collapse: after ceil(MAX_RANK / 16) complete rounds, whatever their order, loss
      or churn, no node believes in a route, and none ever does again. */
  lemma NoSinkCollapse(run: seq<System>, marks: seq<nat>, i: nat)
    requires IsRun(run) && Rounds(run, marks) && Settled(run[marks[0]])
    requires |marks| - 1 >= (MAX_RANK + 15) / 16
    requires marks[(MAX_RANK + 15) / 16] <= i < |run|
    ensures forall v :: v in run[i].nodes ==> run[i].nodes[v].rank == RANK_INFINITE
  {
    var k := (MAX_RANK + 15) / 16;
    RoundsRaise(run, marks, k);
    RunKeepsRound(run, marks[k], i, k * ETX_ONE);
    forall v | v in run[i].nodes
      ensures run[i].nodes[v].rank == RANK_INFINITE
    {
      assert NodeBounded(run[i].nodes[v], k * ETX_ONE, run[i].now);
    }
  }
}
