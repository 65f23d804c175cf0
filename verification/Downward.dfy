/** The downward routing table: `lg_route_add`, `lg_route_flush_via` and `lg_route_next_hop`. */
module Downward {
  import opened Config

  const ROUTE_LIFETIME_US: nat := 120_000_000

  datatype Entry = Entry(dst: nat, nextHop: nat, hops: nat, expiryUs: nat)

  const FREE := Entry(ADDR_INVALID, ADDR_INVALID, 0, 0)

  type Table = seq<Entry>

  predicate Live(e: Entry, now: nat) {
    e.dst != ADDR_INVALID && e.expiryUs > now
  }

  /** No destination is listed twice. */
  ghost predicate Unique(t: Table) {
    forall i, j :: 0 <= i < j < |t| && t[i].dst != ADDR_INVALID ==> t[i].dst != t[j].dst
  }

  /** The live route to `dst`, if there is one. */
  ghost predicate IsRoute(t: Table, dst: nat, now: nat, i: int) {
    0 <= i < |t| && t[i].dst == dst && Live(t[i], now)
  }

  ghost predicate HasRoute(t: Table, dst: nat, now: nat) {
    exists i :: IsRoute(t, dst, now, i)
  }

  /** The slot `lg_route_add` settles on. */
  ghost predicate IsSlot(t: Table, dst: nat, now: nat, s: int) {
    && 0 <= s < |t|
    && (if exists i :: 0 <= i < |t| && t[i].dst == dst then t[s].dst == dst
        else if exists i :: 0 <= i < |t| && !Live(t[i], now) then !Live(t[s], now)
        else forall i :: 0 <= i < |t| ==> t[s].expiryUs <= t[i].expiryUs)
  }

  /** What it writes there: a live route is refreshed if it is the shorter one, else replaced. */
  function Written(e: Entry, dst: nat, via: nat, hops: nat, now: nat): Entry {
    if e.dst == dst && e.expiryUs > now && e.hops < hops then e.(expiryUs := now + ROUTE_LIFETIME_US)
    else Entry(dst, via, hops, now + ROUTE_LIFETIME_US)
  }

  /** After adding, the destination has a route that lives a full lifetime, no longer than either
      the claim or the route before it; it still goes the old way only if that was live and
      strictly shorter. */
  lemma AddedRouteIsBest(t: Table, dst: nat, via: nat, hops: nat, now: nat, s: int)
    requires dst != ADDR_INVALID && Unique(t) && IsSlot(t, dst, now, s)
    ensures
      var t' := t[s := Written(t[s], dst, via, hops, now)];
      && Unique(t') && IsRoute(t', dst, now, s) && t'[s].expiryUs == now + ROUTE_LIFETIME_US
      && t'[s].hops <= hops
      && (forall i :: IsRoute(t, dst, now, i) ==> i == s && t'[s].hops <= t[i].hops)
      && (t'[s].nextHop == via || (IsRoute(t, dst, now, s) && t[s].hops < hops && t'[s].nextHop == t[s].nextHop))
  {
    forall i | IsRoute(t, dst, now, i)
      ensures i == s
    {
      assert t[s].dst == dst;
    }
  }

  /** Adding costs another destination its route only if every slot is live and none of them is
      its own; and then it is one that would have expired first. */
  lemma AddingEvictsTheOldest(t: Table, dst: nat, via: nat, hops: nat, now: nat, s: int, other: nat, i: int)
    requires dst != ADDR_INVALID && Unique(t) && IsSlot(t, dst, now, s)
    requires other != dst && IsRoute(t, other, now, i)
    ensures
      var t' := t[s := Written(t[s], dst, via, hops, now)];
      && (IsRoute(t', other, now, i) ==> t'[i] == t[i])
      && (!IsRoute(t', other, now, i) ==>
            && i == s && !HasRoute(t', other, now)
            && forall k :: 0 <= k < |t| ==> Live(t[k], now) && t[k].dst != dst && t[i].expiryUs <= t[k].expiryUs)
  {
    var t' := t[s := Written(t[s], dst, via, hops, now)];
    if i == s {
      forall k | 0 <= k < |t'|
        ensures !IsRoute(t', other, now, k)
      {
      }
    }
  }

  class RouteTable {
    const slots: array<Entry>
    const addr: nat

    ghost predicate Valid()
      reads this, slots
    {
      Unique(slots[..]) && forall i :: 0 <= i < slots.Length && slots[i].dst == ADDR_INVALID ==> slots[i] == FREE
    }

    constructor (addr: nat, size: nat)
      ensures Valid() && fresh(slots) && slots.Length == size && this.addr == addr
      ensures forall i :: 0 <= i < size ==> slots[i] == FREE
    {
      this.addr := addr;
      slots := new Entry[size](_ => FREE);
    }

    /** `route_find`: the first entry for a destination. */
    method Find(dst: nat) returns (r: int)
      requires Valid()
      ensures -1 <= r < slots.Length
      ensures r >= 0 ==> slots[r].dst == dst && forall j :: 0 <= j < r ==> slots[j].dst != dst
      ensures r < 0 ==> forall j :: 0 <= j < slots.Length ==> slots[j].dst != dst
    {
      for i := 0 to slots.Length
        invariant forall j :: 0 <= j < i ==> slots[j].dst != dst
      {
        if slots[i].dst == dst {
          return i;
        }
      }
      return -1;
    }

    /** A free or expired slot if there is one, else the slot that expires soonest. */
    method Victim(now: nat) returns (r: int)
      requires Valid()
      ensures -1 <= r < slots.Length && (r < 0 <==> slots.Length == 0)
      ensures r >= 0 && Live(slots[r], now) ==> forall i :: 0 <= i < slots.Length ==>
        Live(slots[i], now) && slots[r].expiryUs <= slots[i].expiryUs
    {
      r := -1;
      for i := 0 to slots.Length
        invariant -1 <= r < i
        invariant i > 0 ==> r >= 0
        invariant forall j :: 0 <= j < i ==> Live(slots[j], now) && slots[r].expiryUs <= slots[j].expiryUs
      {
        if slots[i].dst == ADDR_INVALID || slots[i].expiryUs <= now {
          return i;
        }
        if r < 0 || slots[i].expiryUs < slots[r].expiryUs {
          r := i;
        }
      }
    }

    /** `lg_route_add`. */
    method Add(dst: nat, via: nat, hops: nat, now: nat)
      requires Valid()
      modifies slots
      ensures Valid()
      ensures dst == ADDR_INVALID || dst == addr || slots.Length == 0 ==> slots[..] == old(slots[..])
      ensures dst != ADDR_INVALID && dst != addr && slots.Length > 0 ==>
        exists s :: IsSlot(old(slots[..]), dst, now, s)
          && slots[..] == old(slots[..])[s := Written(old(slots[..])[s], dst, via, hops, now)]
    {
      if dst == ADDR_INVALID || dst == addr {
        return;
      }
      ghost var t := slots[..];
      var s := Find(dst);
      if s < 0 {
        s := Victim(now);
        if s < 0 {
          return;
        }
        assert forall i :: 0 <= i < |t| ==> t[i] == slots[i] && t[i].dst != dst;
      } else {
        assert t[s].dst == dst;
      }
      assert IsSlot(t, dst, now, s);
      AddedRouteIsBest(t, dst, via, hops, now, s);
      var e := slots[s];
      if e.dst == dst && e.expiryUs > now && e.hops < hops {
        slots[s] := e.(expiryUs := now + ROUTE_LIFETIME_US);
      } else {
        slots[s] := Entry(dst, via, hops, now + ROUTE_LIFETIME_US);
      }
      assert slots[..] == t[s := Written(t[s], dst, via, hops, now)];
    }

    /** `lg_route_flush_via`: every route through a lost neighbour goes, and no other. */
    method FlushVia(via: nat)
      requires Valid()
      modifies slots
      ensures Valid()
      ensures forall i :: 0 <= i < slots.Length ==>
        slots[i] == if old(slots[i]).nextHop == via then FREE else old(slots[i])
      ensures via != ADDR_INVALID ==> forall i :: 0 <= i < slots.Length ==> slots[i].nextHop != via
    {
      for i := 0 to slots.Length
        invariant forall j :: 0 <= j < i ==>
          slots[j] == if old(slots[j]).nextHop == via then FREE else old(slots[j])
        invariant forall j :: i <= j < slots.Length ==> slots[j] == old(slots[j])
      {
        if slots[i].nextHop == via {
          slots[i] := FREE;
        }
      }
      ghost var t := old(slots[..]);
      assert forall i :: 0 <= i < slots.Length ==> old(slots[i]) == t[i];
    }

    /** `lg_route_next_hop`. The answer is always a linked neighbour or none; a route through a
        neighbour that is gone is forgotten on the way. */
    method NextHop(final: nat, upward: bool, linked: seq<nat>, parent: nat, now: nat) returns (hop: nat)
      requires Valid() && (parent == ADDR_INVALID || parent in linked) && ADDR_INVALID !in linked
      modifies slots
      ensures Valid()
      ensures hop == ADDR_INVALID || hop in linked
      ensures upward ==> hop == parent
      ensures !upward && final in linked ==> hop == final
      ensures !upward && final !in linked ==>
        if exists i :: IsRoute(old(slots[..]), final, now, i) && old(slots[..])[i].nextHop in linked
        then exists i :: IsRoute(old(slots[..]), final, now, i) && hop == old(slots[..])[i].nextHop
        else hop == parent
      ensures forall i :: 0 <= i < slots.Length ==>
        slots[i] ==
          if !upward && final !in linked && IsRoute(old(slots[..]), final, now, i) && old(slots[i]).nextHop !in linked
          then FREE else old(slots[i])
    {
      if upward {
        return parent;
      }
      if final in linked {
        return final;
      }
      ghost var t := slots[..];
      var r := Find(final);
      if r >= 0 && slots[r].expiryUs > now {
        assert IsRoute(t, final, now, r);
        assert forall i :: IsRoute(t, final, now, i) ==> i == r;
        if slots[r].nextHop in linked {
          return slots[r].nextHop;
        }
        slots[r] := FREE;
        assert slots[..] == t[r := FREE];
      } else {
        assert forall i :: !IsRoute(t, final, now, i);
      }
      return parent;
    }
  }
}
