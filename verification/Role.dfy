/** Which role a node plays, and the rank that goes with it. */
module Role {
  import opened Config
  import opened Route

  const UNROUTED_LIFETIME_US: nat := 20_000_000
  const DWELL_US: nat := 15_000_000

  datatype RouteEntry = RouteEntry(dst: nat, expiryUs: nat)

  /** A role change: when, and whether a change of the uplink forced it. */
  datatype Change = Change(at: nat, forced: bool)

  // ----- what a node sees around itself -----

  ghost function RoutersIn(t: Table, roles: seq<Route.Role>): nat
    requires |roles| == |t|
  {
    if t == [] then 0
    else
      RoutersIn(t[..|t| - 1], roles[..|t| - 1])
      + if IsRouter(t[|t| - 1], roles[|t| - 1]) then 1 else 0
  }

  predicate IsRouter(n: Neigh, role: Route.Role) {
    n.state != Free && role != Leaf && n.peerRank != RANK_INFINITE
  }

  predicate IsChild(r: RouteEntry, now: nat) {
    r.dst != ADDR_INVALID && r.expiryUs > now
  }

  /** Surroundings that decide between leaf and router. */
  datatype View = View(routers: nat, unrouted: bool, children: bool, hasRoute: bool)

  predicate Promotes(v: View) {
    v.hasRoute && (v.unrouted || v.routers < ROUTER_DENSITY_TARGET)
  }

  predicate Demotes(v: View) {
    !v.children && !v.unrouted && v.routers > ROUTER_DENSITY_TARGET
  }

  /** The two decisions cannot chase each other: between the counts that promote and those that
      demote lies one that does neither, so no surroundings, nor any that differ by a single
      router, call for both. */
  lemma DecisionsDoNotChase(v: View, w: View)
    requires -1 <= v.routers - w.routers <= 1
    ensures Promotes(v) && v.unrouted == w.unrouted ==> !Demotes(w)
    ensures v.routers == ROUTER_DENSITY_TARGET && !v.unrouted ==> !Promotes(v) && !Demotes(v)
  {
  }

  /** What a node that may change its role does. */
  function Chosen(role: Route.Role, v: View): Route.Role {
    match role
    case Backhaul => Backhaul
    case Leaf => if Promotes(v) then Router else Leaf
    case Router => if Demotes(v) then Leaf else Router
  }

  /** A choice stands: in the same surroundings, or one router more or less, it is not reversed. */
  lemma ChoiceStands(role: Route.Role, v: View, w: View)
    requires -1 <= v.routers - w.routers <= 1 && v.unrouted == w.unrouted
    ensures Chosen(role, v) != role ==> Chosen(Chosen(role, v), w) == Chosen(role, v)
  {
    DecisionsDoNotChase(v, w);
    DecisionsDoNotChase(w, v);
  }

  // ----- invariants -----

  /** Rank zero is a backhaul's and nobody else's. */
  ghost predicate RankFits(role: Route.Role, rank: nat) {
    if role == Backhaul then rank == 0 else rank == RANK_INFINITE || ETX_ONE <= rank < MAX_RANK
  }

  /** Role changes nobody forced come a dwell time or more after the change before. */
  ghost predicate Spaced(changes: seq<Change>) {
    forall k {:trigger changes[k].forced} :: 1 <= k < |changes| && !changes[k].forced && changes[k - 1].at > 0 ==>
      changes[k].at >= changes[k - 1].at + DWELL_US
  }

  ghost function LastAt(changes: seq<Change>): nat {
    if changes == [] then 0 else changes[|changes| - 1].at
  }

  /** In a run of changes none of which was forced, the k-th lies k dwell times after the first. */
  lemma {:induction false} UnforcedChangesAreRare(changes: seq<Change>, i: nat, k: nat)
    requires Spaced(changes) && i + k < |changes| && changes[i].at > 0
    requires forall j :: i < j <= i + k ==> !changes[j].forced
    ensures changes[i + k].at >= changes[i].at + k * DWELL_US
  {
    if k > 0 {
      UnforcedChangesAreRare(changes, i, k - 1);
      assert !changes[i + k].forced;
    }
  }

  class RoleKeeper {
    const node: Node
    var started: bool
    var backhaulActive: bool
    var roleChangedUs: nat
    var unroutedSeenUs: nat
    /** Role changes since the start, and the latest time any operation was given. */
    ghost var changes: seq<Change>
    ghost var clock: nat

    ghost predicate Valid()
      reads this, node, node.neigh
    {
      && RankFits(node.role, node.rank) && CostFloor(node.neigh[..])
      && (started ==> (node.role == Backhaul <==> backhaulActive))
      && Spaced(changes) && roleChangedUs == LastAt(changes)
      && roleChangedUs <= clock && unroutedSeenUs <= clock
    }

    constructor (size: nat, backhaulActive: bool)
      ensures Valid() && fresh(node) && fresh(node.neigh) && !started
      ensures node.neigh.Length == size
    {
      this.backhaulActive := backhaulActive;
      started := false;
      roleChangedUs, unroutedSeenUs := 0, 0;
      changes, clock := [], 0;
      node := new Node(Leaf, size);
    }

    /** `lg_role_init`, as `lg_start` runs it. */
    method Start()
      requires Valid() && !started
      modifies this`started, this`roleChangedUs, this`unroutedSeenUs, this`changes, node`role, node`rank
      ensures Valid() && started && changes == []
      ensures node.role == if backhaulActive then Backhaul else Leaf
    {
      unroutedSeenUs, roleChangedUs := 0, 0;
      changes := [];
      if backhaulActive {
        node.role, node.rank := Backhaul, 0;
      } else {
        node.role, node.rank := Leaf, RANK_INFINITE;
      }
      started := true;
    }

    /** A neighbour entry changes and the rank is recomputed. A linked neighbour's cost has been
        updated, so it is at the floor or above it. */
    method NeighbourChanged(i: nat, n: Neigh)
      requires Valid() && i < node.neigh.Length && (n.state == Linked ==> n.linkCost >= ETX_ONE)
      modifies node`rank, node`advUrgent, node`parentSwitches, node.neigh
      ensures Valid() && node.role == old(node.role)
      ensures SameLinks(old(node.neigh[..])[i := n], node.neigh[..])
      ensures node.role != Backhaul ==> RankRule(old(node.neigh[..])[i := n], node.rank)
    {
      node.neigh[i] := n;
      assert node.neigh[..] == old(node.neigh[..])[i := n];
      Refresh();
    }

    method Refresh()
      requires CostFloor(node.neigh[..])
      modifies node`rank, node`advUrgent, node`parentSwitches, node.neigh
      ensures RankFits(node.role, node.rank) && CostFloor(node.neigh[..])
      ensures node.role == Backhaul <==> node.rank == 0
      ensures SameLinks(old(node.neigh[..]), node.neigh[..])
      ensures node.role != Backhaul ==> RankRule(old(node.neigh[..]), node.rank)
    {
      ghost var t := node.neigh[..];
      var _, _ := node.Recompute();
      if node.role != Backhaul {
        RankRuleRange(t, node.rank);
      }
      forall j | 0 <= j < node.neigh.Length && node.neigh[j].state == Linked
        ensures node.neigh[j].linkCost >= ETX_ONE
      {
        assert t[j].state == Linked;
      }
    }

    /** `apply`. */
    method Apply(want: Route.Role, now: nat, ghost forced: bool)
      requires CostFloor(node.neigh[..]) && RankFits(node.role, node.rank) && Spaced(changes)
      requires LastAt(changes) <= clock <= now && unroutedSeenUs <= now
      requires want != node.role && !forced && LastAt(changes) > 0 ==> now >= LastAt(changes) + DWELL_US
      requires want == node.role ==> roleChangedUs == LastAt(changes)
      requires started ==> (want == Backhaul <==> backhaulActive)
      modifies this`roleChangedUs, this`changes, this`clock
      modifies node`role, node`rank, node`advUrgent, node`parentSwitches, node.neigh
      ensures Valid() && node.role == want
      ensures want == old(node.role) ==> changes == old(changes) && node.rank == old(node.rank)
      ensures want != old(node.role) ==> changes == old(changes) + [Change(now, forced)]
    {
      clock := now;
      if want == node.role {
        return;
      }
      node.role := want;
      roleChangedUs := now;
      changes := changes + [Change(now, forced)];
      Refresh();
    }

    /** `routers_heard`. */
    method RoutersHeard(roles: seq<Route.Role>) returns (count: nat)
      requires |roles| == node.neigh.Length
      ensures count == RoutersIn(node.neigh[..], roles)
    {
      count := 0;
      for i := 0 to node.neigh.Length
        invariant count == RoutersIn(node.neigh[..i], roles[..i])
      {
        assert node.neigh[..i + 1][..i] == node.neigh[..i] && roles[..i + 1][..i] == roles[..i];
        if node.neigh[i].state == Free {
          continue;
        }
        if roles[i] == Leaf || node.neigh[i].peerRank == RANK_INFINITE {
          continue;
        }
        count := count + 1;
      }
      assert node.neigh[..node.neigh.Length] == node.neigh[..] && roles[..node.neigh.Length] == roles;
    }

    /** `has_children`. */
    method HasChildren(routes: seq<RouteEntry>, now: nat) returns (any: bool)
      ensures any <==> exists i :: 0 <= i < |routes| && IsChild(routes[i], now)
    {
      for i := 0 to |routes|
        invariant forall j :: 0 <= j < i ==> !IsChild(routes[j], now)
      {
        if routes[i].dst != ADDR_INVALID && routes[i].expiryUs > now {
          return true;
        }
      }
      return false;
    }

    predicate UnroutedNearby(now: nat)
      reads this
    {
      unroutedSeenUs != 0 && now - unroutedSeenUs < UNROUTED_LIFETIME_US
    }

    ghost function ViewAt(roles: seq<Route.Role>, routes: seq<RouteEntry>, now: nat): View
      requires |roles| == node.neigh.Length
      reads this, node, node.neigh
    {
      View(RoutersIn(node.neigh[..], roles), UnroutedNearby(now),
           exists i :: 0 <= i < |routes| && IsChild(routes[i], now),
           node.role == Backhaul || node.rank != RANK_INFINITE)
    }

    /** `lg_role_evaluate`. Without a change of the uplink only leaf and router trade places, and
        only after the dwell time. */
    method Evaluate(now: nat, roles: seq<Route.Role>, routes: seq<RouteEntry>)
      requires Valid() && now >= clock && |roles| == node.neigh.Length
      modifies this`roleChangedUs, this`changes, this`clock
      modifies node`role, node`rank, node`advUrgent, node`parentSwitches, node.neigh
      ensures Valid()
      ensures node.role ==
        if !started || (old(roleChangedUs) > 0 && now < old(roleChangedUs) + DWELL_US) then old(node.role)
        else Chosen(old(node.role), old(ViewAt(roles, routes, now)))
      ensures changes == if node.role == old(node.role) then old(changes) else old(changes) + [Change(now, false)]
    {
      EvaluateNow(now, roles, routes, false);
    }

    // The evaluation itself; a change of the uplink, and nothing else, may have cleared the dwell
    // time and left the role behind.
    method EvaluateNow(now: nat, roles: seq<Route.Role>, routes: seq<RouteEntry>, ghost forced: bool)
      requires CostFloor(node.neigh[..]) && RankFits(node.role, node.rank) && Spaced(changes)
      requires LastAt(changes) <= clock <= now && unroutedSeenUs <= clock && |roles| == node.neigh.Length
      requires if forced then started && (node.role == Backhaul <==> !backhaulActive) else Valid()
      modifies this`roleChangedUs, this`changes, this`clock
      modifies node`role, node`rank, node`advUrgent, node`parentSwitches, node.neigh
      ensures Valid()
      ensures forced ==> node.role == (if backhaulActive then Backhaul else Router)
      ensures forced ==> changes == old(changes) + [Change(now, true)]
      ensures !forced ==> (node.role ==
        if !started || (old(roleChangedUs) > 0 && now < old(roleChangedUs) + DWELL_US) then old(node.role)
        else Chosen(old(node.role), old(ViewAt(roles, routes, now))))
      ensures !forced ==>
        changes == if node.role == old(node.role) then old(changes) else old(changes) + [Change(now, false)]
    {
      if !started {
        return;
      }
      if backhaulActive {
        Apply(Backhaul, now, forced);
        return;
      }
      if node.role == Backhaul {
        Apply(Router, now, forced);
        return;
      }
      if roleChangedUs != 0 && now - roleChangedUs < DWELL_US {
        return;
      }
      var routers := RoutersHeard(roles);
      if node.role == Leaf {
        if node.rank == RANK_INFINITE {
          return;
        }
        if UnroutedNearby(now) {
          Apply(Router, now, forced);
        } else if routers < ROUTER_DENSITY_TARGET {
          Apply(Router, now, forced);
        }
        return;
      }
      var children := HasChildren(routes, now);
      if children || UnroutedNearby(now) {
        return;
      }
      if routers > ROUTER_DENSITY_TARGET {
        Apply(Leaf, now, forced);
      }
    }

    method NoteUnrouted(now: nat)
      requires Valid() && now >= clock
      modifies this`unroutedSeenUs, this`clock
      ensures Valid() && unroutedSeenUs == now
    {
      unroutedSeenUs, clock := now, now;
    }

    /** `lg_backhaul_set`: the role follows the uplink at once. */
    method BackhaulSet(up: bool, now: nat, roles: seq<Route.Role>, routes: seq<RouteEntry>)
      requires Valid() && now >= clock && |roles| == node.neigh.Length
      modifies this`backhaulActive, this`roleChangedUs, this`changes, this`clock
      modifies node`role, node`rank, node`advUrgent, node`parentSwitches, node.neigh
      ensures Valid() && backhaulActive == up
      ensures up == old(backhaulActive) || !started ==> node.role == old(node.role) && changes == old(changes)
      ensures up != old(backhaulActive) && started ==>
        node.role == (if up then Backhaul else Router) && changes == old(changes) + [Change(now, true)]
    {
      if backhaulActive == up {
        return;
      }
      backhaulActive := up;
      if started {
        roleChangedUs := 0;
        EvaluateNow(now, roles, routes, true);
      }
    }
  }
}
