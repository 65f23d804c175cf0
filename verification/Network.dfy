/** A whole grid whose advertisements have settled. */
module Network {
  import opened Config
  import opened Route
  import opened Walks

  datatype GridNode = GridNode(role: Role, rank: nat, table: Table)

  // Nodes by address.
  type Grid = map<nat, GridNode>

  /** Every rank came from a recompute, and every stored peer rank is the peer's rank. */
  ghost predicate Converged(g: Grid) {
    forall v :: v in g ==> NodeConverged(g, v)
  }

  ghost predicate NodeConverged(g: Grid, v: nat)
    requires v in g
  {
    var n := g[v];
    && CostFloor(n.table)
    && (if n.role == Backhaul then n.rank == 0 else RankRule(n.table, n.rank))
    && forall k :: 0 <= k < |n.table| && n.table[k].state == Linked ==>
         n.table[k].addr in g && n.table[k].peerRank == g[n.table[k].addr].rank
  }

  /** A routed node that is not a backhaul has an entry its rank was taken from. */
  ghost predicate Climbs(g: Grid, v: nat, k: int)
    requires v in g
  {
    RankedBy(g[v].table, g[v].rank, k)
  }

  /** One primary entry chosen for each routed node; any choice will do. */
  ghost predicate PrimaryChoice(g: Grid, prim: map<nat, nat>) {
    forall v :: v in g && g[v].role != Backhaul && g[v].rank != RANK_INFINITE ==>
      v in prim && Climbs(g, v, prim[v])
  }

  lemma PrimaryStep(g: Grid, v: nat, k: int)
    requires Converged(g) && v in g && g[v].role != Backhaul && Climbs(g, v, k)
    ensures
      var n := g[v].table[k];
      && n.state == Linked && n.addr in g && g[n.addr].rank != RANK_INFINITE
      && g[v].rank == g[n.addr].rank + n.linkCost < MAX_RANK && n.linkCost >= ETX_ONE
  {
    assert NodeConverged(g, v);
  }

  lemma RankBelowCeiling(g: Grid, v: nat)
    requires Converged(g) && v in g && g[v].rank != RANK_INFINITE
    ensures g[v].rank < MAX_RANK
    ensures g[v].rank == 0 <==> g[v].role == Backhaul
  {
    assert NodeConverged(g, v);
    if g[v].role != Backhaul {
      RankRuleRange(g[v].table, g[v].rank);
    }
  }

  /** Addresses met by following primary parents from `v` up to a backhaul. */
  ghost function Climb(g: Grid, prim: map<nat, nat>, v: nat): (path: seq<nat>)
    requires Converged(g) && PrimaryChoice(g, prim) && v in g && g[v].rank != RANK_INFINITE
    ensures path != [] && path[0] == v
    ensures forall i :: 0 <= i < |path| ==> path[i] in g
    decreases g[v].rank
  {
    if g[v].role == Backhaul then [v]
    else
      PrimaryStep(g, v, prim[v]);
      [v] + Climb(g, prim, g[v].table[prim[v]].addr)
  }

  /** The forest theorem: each hop of the climb is a link of the grid and loses at least one
      perfect hop of rank, the climb ends at a backhaul, and it is as short as the rank says. */
  lemma {:induction false} ForestRootedAtBackhauls(g: Grid, prim: map<nat, nat>, v: nat)
    requires Converged(g) && PrimaryChoice(g, prim) && v in g && g[v].rank != RANK_INFINITE
    ensures
      var path := Climb(g, prim, v);
      && g[path[|path| - 1]].role == Backhaul
      && (forall i :: 0 <= i < |path| - 1 ==>
            g[path[i]].role != Backhaul && g[path[i + 1]].rank + ETX_ONE <= g[path[i]].rank)
      && (|path| - 1) * ETX_ONE <= g[v].rank < MAX_RANK
    decreases g[v].rank
  {
    RankBelowCeiling(g, v);
    if g[v].role != Backhaul {
      PrimaryStep(g, v, prim[v]);
      var up := g[v].table[prim[v]].addr;
      ForestRootedAtBackhauls(g, prim, up);
      var rest := Climb(g, prim, up);
      var path := Climb(g, prim, v);
      assert path == [v] + rest;
      forall i | 0 <= i < |path| - 1
        ensures g[path[i]].role != Backhaul && g[path[i + 1]].rank + ETX_ONE <= g[path[i]].rank
      {
        if i > 0 {
          assert path[i] == rest[i - 1] && path[i + 1] == rest[i];
        }
      }
    }
  }

  /** Following primary parents never returns to a node, and takes fewer than
      MAX_RANK / 16 + 1 hops. */
  lemma ClimbIsAcyclic(g: Grid, prim: map<nat, nat>, v: nat, i: nat, j: nat)
    requires Converged(g) && PrimaryChoice(g, prim) && v in g && g[v].rank != RANK_INFINITE
    requires i < j < |Climb(g, prim, v)|
    ensures
      var path := Climb(g, prim, v);
      && g[path[j]].rank + (j - i) * ETX_ONE <= g[path[i]].rank && path[i] != path[j]
      && |path| - 1 < MAX_RANK / 16 + 1
  {
    ForestRootedAtBackhauls(g, prim, v);
    if j > i + 1 {
      ClimbIsAcyclic(g, prim, v, i, j - 1);
    }
  }

  // ----- how good the ranks are -----

  function LinksOf(t: Table): (links: seq<Link>)
    ensures |links| == |t|
  {
    seq(|t|, k requires 0 <= k < |t| => Link(t[k].state == Linked, t[k].addr, t[k].linkCost))
  }

  function TopologyOf(g: Grid): Topology {
    map v | v in g :: Site(g[v].role == Backhaul, LinksOf(g[v].table))
  }

  /** No walk to a backhaul is more than the hysteresis per hop cheaper than the rank. */
  lemma {:induction false} RankNearlyShortest(g: Grid, v: nat, hops: seq<nat>)
    requires Converged(g) && Affordable(TopologyOf(g), v, hops)
    ensures g[v].rank <= Price(TopologyOf(g), v, hops)
    decreases |hops|
  {
    assert NodeConverged(g, v);
    if hops != [] && g[v].role != Backhaul {
      var n := g[v].table[hops[0]];
      RankNearlyShortest(g, n.addr, hops[1..]);
      assert Eligible(n);
    }
  }

  /** The rank is the exact cost of a walk to a backhaul, so it is never below the cheapest. */
  lemma {:induction false} RankIsAttained(g: Grid, v: nat) returns (hops: seq<nat>)
    requires Converged(g) && v in g && g[v].rank != RANK_INFINITE
    ensures IsWalk(TopologyOf(g), v, hops) && WalkCost(TopologyOf(g), v, hops) == g[v].rank
    decreases g[v].rank
  {
    assert NodeConverged(g, v);
    if g[v].role == Backhaul {
      hops := [];
    } else {
      var k: int :| RankedBy(g[v].table, g[v].rank, k);
      PrimaryStep(g, v, k);
      var rest := RankIsAttained(g, g[v].table[k].addr);
      Extend(TopologyOf(g), v, k, rest);
      hops := [k] + rest;
    }
  }

  /** A node without a route is too far from every backhaul: no walk that stays below the
      ceiling with the hysteresis per hop added is ever missed. */
  lemma UnroutedMeansFar(g: Grid, v: nat, hops: seq<nat>)
    requires Converged(g) && IsWalk(TopologyOf(g), v, hops) && g[v].rank == RANK_INFINITE
    ensures Price(TopologyOf(g), v, hops) >= MAX_RANK
  {
    if Price(TopologyOf(g), v, hops) < MAX_RANK {
      RankNearlyShortest(g, v, hops);
    }
  }
}
