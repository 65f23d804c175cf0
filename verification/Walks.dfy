/** Sites, the links between them, and walks along links to a backhaul. */
module Walks {
  import opened Config
  import opened Route

  datatype Link = Link(up: bool, addr: nat, cost: nat)

  datatype Site = Site(backhaul: bool, links: seq<Link>)

  // Sites by address.
  type Topology = map<nat, Site>

  /** A walk along links that are up, by which to take at each site, that ends at a backhaul. */
  ghost predicate IsWalk(topo: Topology, v: nat, hops: seq<nat>)
    decreases |hops|
  {
    && v in topo
    && if hops == [] then topo[v].backhaul
       else
         && hops[0] < |topo[v].links| && topo[v].links[hops[0]].up
         && IsWalk(topo, topo[v].links[hops[0]].addr, hops[1..])
  }

  ghost function WalkCost(topo: Topology, v: nat, hops: seq<nat>): nat
    requires IsWalk(topo, v, hops)
    decreases |hops|
  {
    if hops == [] then 0
    else topo[v].links[hops[0]].cost + WalkCost(topo, topo[v].links[hops[0]].addr, hops[1..])
  }

  // The price of a walk with the hysteresis every hop may add.
  ghost function Price(topo: Topology, v: nat, hops: seq<nat>): nat
    requires IsWalk(topo, v, hops)
  {
    WalkCost(topo, v, hops) + RANK_HYSTERESIS * |hops|
  }

  ghost predicate Affordable(topo: Topology, v: nat, hops: seq<nat>) {
    IsWalk(topo, v, hops) && Price(topo, v, hops) < MAX_RANK
  }

  ghost predicate Covers(topo: Topology, v: nat, hops: seq<nat>, rank: nat) {
    IsWalk(topo, v, hops) && WalkCost(topo, v, hops) <= rank
  }

  /** A walk from a neighbour, one link longer. */
  lemma Extend(topo: Topology, v: nat, k: nat, hops: seq<nat>)
    requires v in topo && k < |topo[v].links| && topo[v].links[k].up && IsWalk(topo, topo[v].links[k].addr, hops)
    ensures IsWalk(topo, v, [k] + hops)
    ensures WalkCost(topo, v, [k] + hops) == topo[v].links[k].cost + WalkCost(topo, topo[v].links[k].addr, hops)
  {
    assert ([k] + hops)[1..] == hops;
  }
}
