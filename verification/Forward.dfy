/** Forwarding messages: duplicates, hop counts, and why nothing circulates for ever. */
module Forward {
  import opened Config
  import Route

  const HOPS_MAX: nat := 12
  const PAYLOAD_MAX: nat := 64
  const CACHE_SIZE: nat := 16
  const ADDR_BACKHAUL: nat := 0xFFFE

  datatype Key = Key(origin: nat, msgId: nat)

  datatype Data = Data(origin: nat, final: nat, upward: bool, broadcast: bool, downward: bool,
                       port: nat, hops: nat, msgId: nat, payload: seq<nat>)
  {
    function Id(): Key {
      Key(origin, msgId)
    }
  }

  // ----- the duplicate cache -----

  function Zeros(): (z: seq<Key>)
    ensures |z| == CACHE_SIZE
  {
    seq(CACHE_SIZE, i => Key(0, 0))
  }

  /** The last sixteen accepted, oldest first; before sixteen, the rest are zero keys. */
  ghost function Recent(accepted: seq<Key>): (r: seq<Key>)
    ensures |r| == CACHE_SIZE
  {
    (Zeros() + accepted)[|accepted|..]
  }

  class DupCache {
    const slots: array<Key>
    var next: nat
    /** Keys that were not duplicates, in order of arrival. */
    ghost var accepted: seq<Key>

    ghost predicate Valid()
      reads this, slots
    {
      && slots.Length == CACHE_SIZE && next < CACHE_SIZE
      && InOrder(slots[..], next) == Recent(accepted)
    }

    constructor ()
      ensures Valid() && fresh(slots) && accepted == []
    {
      slots := new Key[CACHE_SIZE](_ => Key(0, 0));
      next, accepted := 0, [];
      new;
      assert slots[..] == Zeros();
      assert InOrder(slots[..], 0) == slots[..];
    }

    /** `lg_route_is_duplicate`: the cache is always the last sixteen keys accepted. */
    method IsDuplicate(k: Key) returns (dup: bool)
      requires Valid()
      modifies this`next, this`accepted, slots
      ensures Valid()
      ensures dup <==> k in Recent(old(accepted))
      ensures accepted == if dup then old(accepted) else old(accepted) + [k]
    {
      for i := 0 to CACHE_SIZE
        invariant forall j :: 0 <= j < i ==> slots[j] != k
      {
        if slots[i] == k {
          assert k in slots[..];
          RingMembers(slots[..], next, k);
          return true;
        }
      }
      RingMembers(slots[..], next, k);
      RingPush(slots[..], next, k);
      ghost var was := slots[..];
      slots[next] := k;
      assert slots[..] == was[next := k];
      next := (next + 1) % CACHE_SIZE;
      accepted := accepted + [k];
      assert Recent(accepted) == old(Recent(accepted))[1..] + [k];
      return false;
    }
  }

  // The cache read from its oldest entry on.
  ghost function InOrder(ring: seq<Key>, next: nat): seq<Key>
    requires next < |ring|
  {
    ring[next..] + ring[..next]
  }

  lemma RingMembers(ring: seq<Key>, next: nat, k: Key)
    requires next < |ring|
    ensures k in InOrder(ring, next) <==> k in ring
  {
    assert ring == ring[..next] + ring[next..];
  }

  /** Overwriting the oldest entry and moving on drops the first and appends. */
  lemma RingPush(ring: seq<Key>, next: nat, k: Key)
    requires next < |ring| == CACHE_SIZE
    ensures InOrder(ring[next := k], (next + 1) % CACHE_SIZE) == InOrder(ring, next)[1..] + [k]
  {
    var pushed := ring[next := k];
    assert pushed[next + 1..] == ring[next + 1..] && pushed[..next + 1] == ring[..next] + [k];
    assert InOrder(ring, next)[1..] == ring[next + 1..] + ring[..next];
    if next + 1 == CACHE_SIZE {
      assert InOrder(pushed, 0) == pushed[..next + 1];
    } else {
      assert InOrder(pushed, next + 1) == ring[next + 1..] + (ring[..next] + [k]);
    }
  }

  /** A message comes up as a duplicate for as long as fewer than sixteen others have been accepted
      since it was. */
  lemma RepeatIsDropped(accepted: seq<Key>, i: nat)
    requires i < |accepted| && |accepted| - i <= CACHE_SIZE
    ensures accepted[i] in Recent(accepted)
  {
    assert Recent(accepted)[CACHE_SIZE - (|accepted| - i)] == accepted[i];
  }

  /** And is accepted again once it is not among the last sixteen: only then. */
  lemma OnlyRecentAreDropped(accepted: seq<Key>, k: Key)
    requires k.origin != ADDR_INVALID
    ensures k in Recent(accepted) <==>
      exists i :: 0 <= i < |accepted| && |accepted| - i <= CACHE_SIZE && accepted[i] == k
  {
    var r := Recent(accepted);
    if k in r {
      var j :| 0 <= j < CACHE_SIZE && r[j] == k;
      assert accepted[j + |accepted| - CACHE_SIZE] == k;
    }
    if i :| 0 <= i < |accepted| && |accepted| - i <= CACHE_SIZE && accepted[i] == k {
      RepeatIsDropped(accepted, i);
    }
  }

  // ----- handling one message -----

  // Everything a node brings to the decision. Its routing tables are whatever they are: `nextHop`
  // is what `lg_route_next_hop` answers for the message and `queueFree` the free queue slots.
  datatype Env = Env(addr: nat, role: Route.Role, duplicate: bool, nextHop: nat, parent: nat,
                     linked: seq<nat>, queueFree: nat)

  datatype Result = Result(delivered: bool, copies: seq<Data>)

  const DROPPED := Result(false, [])

  /** `lg_send_forward`: a broadcast is queued once for each neighbour there is room for, anything
      else once at most. */
  function SendForward(d: Data, env: Env): (copies: seq<Data>)
    ensures !d.broadcast ==> |copies| <= 1
    ensures forall c :: c in copies ==> c == if d.broadcast then d.(final := c.final) else d
    ensures d.broadcast ==> forall c :: c in copies ==> c.final in env.linked
  {
    if |d.payload| > PAYLOAD_MAX then []
    else if d.broadcast then
      seq(Min(|env.linked|, env.queueFree), i requires 0 <= i < |env.linked| => d.(final := env.linked[i]))
    else
      var nh := if d.upward then env.parent else env.nextHop;
      if nh == ADDR_INVALID || env.queueFree == 0 then [] else [d]
  }

  predicate ForUs(d: Data, env: Env) {
    d.final == env.addr || (d.upward && env.role == Route.Backhaul) || d.broadcast
  }

  // The copy sent on, if it can be.
  function Onward(d: Data, env: Env): (copies: seq<Data>)
    requires d.hops < HOPS_MAX
  {
    var specific := !d.upward && d.final != ADDR_BACKHAUL;
    if specific && env.nextHop == ADDR_INVALID then []
    else
      SendForward(d.(hops := d.hops + 1, downward := d.downward || (specific && env.nextHop != env.parent)), env)
  }

  /** `handle_data`, as a function. */
  function Handle(d: Data, env: Env): Result {
    if |d.payload| > PAYLOAD_MAX || env.duplicate then DROPPED
    else
      var here := ForUs(d, env);
      if here && (!d.broadcast || d.final == env.addr) then Result(true, [])
      else if env.role == Route.Leaf || d.hops >= HOPS_MAX then Result(here, [])
      else Result(here, Onward(d, env))
  }

  /** The part of a message that no hop changes. */
  predicate SameMessage(a: Data, b: Data) {
    a.origin == b.origin && a.msgId == b.msgId && a.port == b.port && a.payload == b.payload
    && a.upward == b.upward && a.broadcast == b.broadcast && (a.broadcast || a.final == b.final)
  }

  /** What one node does to one message, whatever its tables say: a unicast message is delivered or
      sent on once, never both; a copy sent on carries the same message one hop further. */
  lemma HandleOnce(d: Data, env: Env)
    ensures
      var r := Handle(d, env);
      && (forall c :: c in r.copies ==> SameMessage(c, d) && c.hops == d.hops + 1 <= HOPS_MAX)
      && (!d.broadcast ==> |r.copies| <= 1 && (r.delivered ==> r.copies == [] && ForUs(d, env)))
      && (d.broadcast && d.final == env.addr ==>
            r.copies == [] && (r.delivered <==> |d.payload| <= PAYLOAD_MAX && !env.duplicate))
      && (env.role == Route.Leaf ==> r.copies == [])
  {
  }

  /** A broadcast goes exactly one hop: one copy for each neighbour it was queued for, delivered
      there and sent no further. */
  lemma BroadcastGoesOneHop(d: Data, sender: Env, c: Data, receiver: Env)
    requires d.broadcast && c in SendForward(d, sender) && receiver.addr == c.final && !receiver.duplicate
    ensures c.final in sender.linked && SameMessage(c, d) && Handle(c, receiver) == Result(true, [])
  {
  }

  // ----- journeys -----

  /** Each copy came from the one before it, handled by some node with some tables. */
  ghost predicate Journey(copies: seq<Data>, envs: seq<Env>) {
    && |copies| == |envs| + 1
    && forall k :: 0 <= k < |envs| ==> copies[k + 1] in Handle(copies[k], envs[k]).copies
  }

  /** Every forward counts: along any path, through any loop, a message that set out at hop zero is
      sent on at most twelve times and arrives as it was sent. */
  lemma JourneyIsShort(copies: seq<Data>, envs: seq<Env>)
    requires Journey(copies, envs) && copies[0].hops == 0
    ensures |envs| <= HOPS_MAX
    ensures SameMessage(copies[|envs|], copies[0]) && copies[|envs|].hops == |envs|
  {
    HopsSoFar(copies, envs, |envs|);
  }

  lemma {:induction false} HopsSoFar(copies: seq<Data>, envs: seq<Env>, k: nat)
    requires Journey(copies, envs) && copies[0].hops == 0 && k <= |envs|
    ensures k <= HOPS_MAX && SameMessage(copies[k], copies[0]) && copies[k].hops == k
  {
    if k > 0 {
      HopsSoFar(copies, envs, k - 1);
      HandleOnce(copies[k - 1], envs[k - 1]);
      assert copies[k - 1 + 1] in Handle(copies[k - 1], envs[k - 1]).copies;
    }
  }

  // ----- a whole network -----

  // One copy in flight reaches a node and is handled there.
  datatype Arrival = Arrival(index: nat, env: Env)

  /** A broadcast copy is only ever sent to the neighbour it names. */
  predicate Possible(flight: seq<Data>, a: Arrival) {
    && a.index < |flight|
    && (flight[a.index].broadcast ==> a.env.addr == flight[a.index].final)
  }

  function Arrive(flight: seq<Data>, a: Arrival): seq<Data>
    requires Possible(flight, a)
  {
    flight[..a.index] + flight[a.index + 1..] + Handle(flight[a.index], a.env).copies
  }

  /** Handlings a copy can still cause. */
  function Life(d: Data): nat {
    if d.hops > HOPS_MAX then 1 else HOPS_MAX + 1 - d.hops
  }

  function Lives(flight: seq<Data>): nat {
    if flight == [] then 0 else Life(flight[0]) + Lives(flight[1..])
  }

  lemma {:induction false} LivesAdd(a: seq<Data>, b: seq<Data>)
    ensures Lives(a + b) == Lives(a) + Lives(b)
  {
    if a == [] {
      assert a + b == b;
    } else {
      LivesAdd(a[1..], b);
      assert (a + b)[1..] == a[1..] + b;
    }
  }

  lemma ArrivalUsesLife(flight: seq<Data>, a: Arrival)
    requires Possible(flight, a)
    ensures Lives(Arrive(flight, a)) < Lives(flight)
  {
    var d := flight[a.index];
    var before, after, copies := flight[..a.index], flight[a.index + 1..], Handle(d, a.env).copies;
    HandleOnce(d, a.env);
    assert flight == before + ([d] + after);
    LivesAdd(before, [d] + after);
    LivesAdd([d], after);
    LivesAdd(before + after, copies);
    LivesAdd(before, after);
    OneLife(d);
    if copies != [] {
      assert copies == [copies[0]];
      OneLife(copies[0]);
    }
  }

  lemma OneLife(d: Data)
    ensures Lives([d]) == Life(d)
  {
    assert [d][1..] == [];
  }

  /** A run of arrivals with nothing new sent. */
  ghost predicate IsRun(flights: seq<seq<Data>>, arrivals: seq<Arrival>) {
    && |flights| == |arrivals| + 1
    && forall k :: 0 <= k < |arrivals| ==>
         Possible(flights[k], arrivals[k]) && flights[k + 1] == Arrive(flights[k], arrivals[k])
  }

  /** Forwarding terminates: however the routing tables loop or change, the messages in flight
      cause at most thirteen handlings each before none is left to handle. */
  lemma ForwardingTerminates(flights: seq<seq<Data>>, arrivals: seq<Arrival>)
    requires IsRun(flights, arrivals)
    ensures |arrivals| + Lives(flights[|arrivals|]) <= Lives(flights[0]) <= (HOPS_MAX + 1) * |flights[0]|
  {
    LivesFall(flights, arrivals, |arrivals|);
    LivesAtMost(flights[0]);
  }

  lemma {:induction false} LivesFall(flights: seq<seq<Data>>, arrivals: seq<Arrival>, k: nat)
    requires IsRun(flights, arrivals) && k <= |arrivals|
    ensures k + Lives(flights[k]) <= Lives(flights[0])
  {
    if k > 0 {
      LivesFall(flights, arrivals, k - 1);
      ArrivalUsesLife(flights[k - 1], arrivals[k - 1]);
      assert flights[k - 1 + 1] == Arrive(flights[k - 1], arrivals[k - 1]);
    }
  }

  lemma {:induction false} LivesAtMost(flight: seq<Data>)
    ensures Lives(flight) <= (HOPS_MAX + 1) * |flight|
  {
    if flight != [] {
      LivesAtMost(flight[1..]);
    }
  }

  // ----- the handler as the firmware runs it -----

  class Handler {
    const cache: DupCache
    const addr: nat
    var role: Route.Role

    ghost predicate Valid()
      reads this, cache, cache.slots
    {
      cache.Valid()
    }

    constructor (addr: nat, role: Route.Role)
      ensures Valid() && fresh(cache) && fresh(cache.slots) && this.addr == addr && cache.accepted == []
    {
      this.addr, this.role := addr, role;
      cache := new DupCache();
    }

    /** `handle_data`. An over-long payload is dropped before it can enter the cache. */
    method HandleData(d: Data, nextHop: nat, parent: nat, linked: seq<nat>, queueFree: nat)
      returns (delivered: bool, copies: seq<Data>)
      requires Valid()
      modifies cache`next, cache`accepted, cache.slots
      ensures Valid()
      ensures Result(delivered, copies) ==
        Handle(d, Env(addr, role, d.Id() in Recent(old(cache.accepted)), nextHop, parent, linked, queueFree))
      ensures cache.accepted ==
        if |d.payload| > PAYLOAD_MAX || d.Id() in Recent(old(cache.accepted)) then old(cache.accepted)
        else old(cache.accepted) + [d.Id()]
    {
      if |d.payload| > PAYLOAD_MAX {
        return false, [];
      }
      var dup := cache.IsDuplicate(d.Id());
      if dup {
        return false, [];
      }
      var env := Env(addr, role, dup, nextHop, parent, linked, queueFree);
      delivered := d.final == addr || (d.upward && role == Route.Backhaul) || d.broadcast;
      if delivered {
        if !d.broadcast || d.final == addr {
          return true, [];
        }
      }
      if role == Route.Leaf || d.hops >= HOPS_MAX {
        return delivered, [];
      }
      var downward := d.downward;
      if !d.upward && d.final != ADDR_BACKHAUL {
        if nextHop == ADDR_INVALID {
          return delivered, [];
        }
        if nextHop != parent {
          downward := true;
        }
      }
      copies := SendForward(d.(hops := d.hops + 1, downward := downward), env);
    }
  }
}
