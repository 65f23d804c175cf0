/** The single radio slot: what wants it, and which candidate gets it. */
module Scheduler {
  import opened Config
  import opened Route

  const CONTEND_US: nat := 45_000

  const PRIO_SCAN: nat := 0
  const PRIO_NORMAL: nat := 1
  const PRIO_PARENT: nat := 2
  const PRIO_HANDSHAKE: nat := 3

  // The radio work that is not tied to a neighbour table entry comes to five candidates.
  const OTHERS: nat := 5

  datatype Kind = Link | Beacon | Scan | Track | JoinTx | JoinRx | ChanEval

  // `neigh` is an index into the neighbour table, -1 for none.
  datatype Candidate = Candidate(kind: Kind, anchorUs: nat, neigh: int, prio: nat)

  datatype Choice = Nothing | Chosen(c: Candidate)

  // ----- the choice -----

  /** `c` would take the slot from `d`: higher class first, then the earlier start. */
  predicate Beats(c: Candidate, d: Candidate) {
    c.prio > d.prio || (c.prio == d.prio && c.anchorUs < d.anchorUs)
  }

  ghost predicate Earliest(list: seq<Candidate>, e: int) {
    0 <= e < |list| && forall i :: 0 <= i < |list| ==> list[e].anchorUs <= list[i].anchorUs
  }

  /** No candidate close to the earliest beats the choice. */
  ghost predicate Unbeaten(list: seq<Candidate>, e: int, best: Candidate, n: int)
    requires Earliest(list, e) && 0 <= n <= |list|
  {
    forall i :: 0 <= i < n && list[i].anchorUs <= list[e].anchorUs + CONTEND_US ==> !Beats(list[i], best)
  }

  /** Every step up in class delays the start by a contention window at most. */
  predicate BoundedDelay(first: Candidate, best: Candidate) {
    best.prio >= first.prio && best.anchorUs <= first.anchorUs + CONTEND_US * (best.prio - first.prio)
  }

  /** The first of the earliest. */
  function First(list: seq<Candidate>): Candidate
    requires list != []
  {
    var n := |list| - 1;
    if n == 0 then list[0]
    else if list[n].anchorUs < First(list[..n]).anchorUs then list[n]
    else First(list[..n])
  }

  // `to` takes the slot from `from` when the scan comes to it.
  predicate Displaces(to: Candidate, from: Candidate) {
    to.anchorUs <= from.anchorUs + CONTEND_US && Beats(to, from)
  }

  /** Where a scan of the list ends that starts from `best`. */
  function Scanned(best: Candidate, list: seq<Candidate>): Candidate {
    if list == [] then best
    else
      var held := Scanned(best, list[..|list| - 1]);
      if Displaces(list[|list| - 1], held) then list[|list| - 1] else held
  }

  function Select(list: seq<Candidate>): Choice {
    if list == [] then Nothing else Chosen(Scanned(First(list), list))
  }

  /** `select_candidate`. */
  method SelectCandidate(list: seq<Candidate>) returns (choice: Choice)
    ensures choice == Select(list)
    ensures choice.Nothing? <==> list == []
    ensures choice.Chosen? ==> choice.c in list
    ensures choice.Chosen? ==>
      exists e :: Earliest(list, e) && Unbeaten(list, e, choice.c, |list|) && BoundedDelay(list[e], choice.c)
    ensures choice.Chosen? ==> forall e :: Earliest(list, e) ==> Unbeaten(list, e, choice.c, |list|)
  {
    if list == [] {
      return Nothing;
    }
    var e := 0;
    for i := 0 to |list|
      invariant 0 <= e < |list|
      invariant forall j :: 0 <= j < i ==> list[e].anchorUs <= list[j].anchorUs
      invariant if i == 0 then e == 0 else list[e] == First(list[..i])
    {
      assert list[..i + 1][..i] == list[..i] && list[..i + 1][i] == list[i];
      if list[i].anchorUs < list[e].anchorUs {
        e := i;
      }
    }
    assert list[..|list|] == list;
    var best := list[e];
    for i := 0 to |list|
      invariant best == Scanned(list[e], list[..i])
    {
      assert list[..i + 1][..i] == list[..i];
      var c := list[i];
      if c.anchorUs > best.anchorUs + CONTEND_US {
        continue;
      }
      if Beats(c, best) {
        best := c;
      }
    }
    ChoiceKeepsItsPromises(list, e);
    return Chosen(best);
  }

  lemma DelayGrows(first: Candidate, best: Candidate, next: Candidate)
    requires BoundedDelay(first, best) && Beats(next, best) && next.anchorUs <= best.anchorUs + CONTEND_US
    ensures BoundedDelay(first, next)
  {
    var k := next.prio - best.prio;
    assert CONTEND_US * (next.prio - first.prio) == CONTEND_US * (best.prio - first.prio) + CONTEND_US * k;
  }

  /** What any choice meeting the contract amounts to when everything is due close together: the
      highest class, and the earliest start in it. The order of the list then only breaks exact
      ties. */
  lemma CloseTogetherIsByClass(list: seq<Candidate>, e: int, a: Candidate, b: Candidate)
    requires Earliest(list, e) && a in list && b in list
    requires forall i :: 0 <= i < |list| ==> list[i].anchorUs <= list[e].anchorUs + CONTEND_US
    requires Unbeaten(list, e, a, |list|) && Unbeaten(list, e, b, |list|)
    ensures a.prio == b.prio && a.anchorUs == b.anchorUs
    ensures forall i :: 0 <= i < |list| ==> list[i].prio <= a.prio
  {
    var i :| 0 <= i < |list| && list[i] == a;
    var j :| 0 <= j < |list| && list[j] == b;
  }

  lemma {:induction false} ScanBounded(best: Candidate, list: seq<Candidate>)
    ensures Scanned(best, list) == best || Scanned(best, list) in list
    ensures BoundedDelay(best, Scanned(best, list))
  {
    if list != [] {
      var before := list[..|list| - 1];
      ScanBounded(best, before);
      if Displaces(list[|list| - 1], Scanned(best, before)) {
        DelayGrows(best, Scanned(best, before), list[|list| - 1]);
      }
    }
  }

  lemma ChoiceKeepsItsPromises(list: seq<Candidate>, e: nat)
    requires e < |list| && list[e] == First(list)
    ensures Scanned(list[e], list) in list
    ensures Earliest(list, e) && Unbeaten(list, e, Scanned(list[e], list), |list|)
    ensures BoundedDelay(list[e], Scanned(list[e], list))
    ensures forall d :: Earliest(list, d) ==> Unbeaten(list, d, Scanned(list[e], list), |list|)
  {
    FirstIsEarliest(list);
    ScanBounded(list[e], list);
    ScanUnbeaten(list[e], list);
  }

  // ----- when the order of the list matters -----

  predicate Permuted(a: seq<Candidate>, b: seq<Candidate>) {
    multiset(a) == multiset(b)
  }

  // The same class and start: an exact tie.
  predicate Ties(a: Choice, b: Choice) {
    if a.Chosen? && b.Chosen? then a.c.prio == b.c.prio && a.c.anchorUs == b.c.anchorUs else a == b
  }

  /** Every order of the same candidates gives the same choice, up to exact ties. */
  ghost predicate OrderFree(list: seq<Candidate>) {
    forall other :: Permuted(list, other) ==> Ties(Select(list), Select(other))
  }

  /** Candidates each of which displaces the one before, starting from one of the earliest. */
  ghost predicate IsChain(list: seq<Candidate>, chain: seq<Candidate>) {
    && chain != []
    && (forall c :: c in chain ==> c in list)
    && (forall c :: c in list ==> chain[0].anchorUs <= c.anchorUs)
    && forall k :: 0 <= k < |chain| - 1 ==> Displaces(chain[k + 1], chain[k])
  }

  /** A chain that ends above everything in the window of the earliest. */
  ghost predicate Overtakes(list: seq<Candidate>, chain: seq<Candidate>) {
    && IsChain(list, chain)
    && forall c :: c in list && c.anchorUs <= chain[0].anchorUs + CONTEND_US ==> Beats(chain[|chain| - 1], c)
  }

  lemma {:induction false} FirstIsEarliest(list: seq<Candidate>)
    requires list != []
    ensures First(list) in list && forall c :: c in list ==> First(list).anchorUs <= c.anchorUs
    ensures (forall c :: c in list ==> list[0].anchorUs <= c.anchorUs) ==> First(list) == list[0]
  {
    var n := |list| - 1;
    if n > 0 {
      var before := list[..n];
      FirstIsEarliest(before);
      forall c | c in list
        ensures First(list).anchorUs <= c.anchorUs
      {
        if c !in before {
          assert c == list[n];
        }
      }
    }
  }

  /** The scan follows a chain, and loses to nothing in the window. */
  lemma {:induction false} ScanFollowsChain(list: seq<Candidate>, n: nat) returns (chain: seq<Candidate>)
    requires list != [] && n <= |list|
    ensures IsChain(list, chain) && chain[|chain| - 1] == Scanned(First(list), list[..n])
    ensures chain[0] == First(list)
  {
    FirstIsEarliest(list);
    if n == 0 {
      return [First(list)];
    }
    chain := ScanFollowsChain(list, n - 1);
    assert list[..n][..n - 1] == list[..n - 1];
    if Displaces(list[n - 1], chain[|chain| - 1]) {
      chain := chain + [list[n - 1]];
    }
  }

  lemma {:induction false} ScanUnbeaten(best: Candidate, list: seq<Candidate>)
    requires forall c :: c in list ==> best.anchorUs <= c.anchorUs
    ensures !Beats(best, Scanned(best, list)) && best.anchorUs <= Scanned(best, list).anchorUs
    ensures forall c :: c in list && c.anchorUs <= best.anchorUs + CONTEND_US ==> !Beats(c, Scanned(best, list))
  {
    if list != [] {
      var before, last := list[..|list| - 1], list[|list| - 1];
      assert list == before + [last];
      ScanUnbeaten(best, before);
    }
  }

  lemma {:induction false} ScanOnlyRises(best: Candidate, list: seq<Candidate>)
    ensures !Beats(best, Scanned(best, list))
  {
    if list != [] {
      ScanOnlyRises(best, list[..|list| - 1]);
    }
  }

  lemma {:induction false} ScanTwoParts(best: Candidate, a: seq<Candidate>, b: seq<Candidate>)
    ensures Scanned(best, a + b) == Scanned(Scanned(best, a), b)
  {
    if b == [] {
      assert a + b == a;
    } else {
      ScanTwoParts(best, a, b[..|b| - 1]);
      assert (a + b)[..|a + b| - 1] == a + b[..|b| - 1];
    }
  }

  /** Two choices no window candidate beats, neither above the whole window, tie. */
  lemma NoOvertakingMeansTies(list: seq<Candidate>, other: seq<Candidate>)
    requires list != [] && Permuted(list, other) && !exists chain :: Overtakes(list, chain)
    ensures Ties(Select(list), Select(other))
  {
    assert forall c :: c in list <==> c in other by {
      assert forall c :: c in list <==> c in multiset(list);
      assert forall c :: c in other <==> c in multiset(other);
    }
    assert |list| == |multiset(list)| == |multiset(other)| == |other|;
    FirstIsEarliest(list);
    FirstIsEarliest(other);
    var c1 := ScanFollowsChain(list, |list|);
    var c2 := ScanFollowsChain(other, |other|);
    assert list[..|list|] == list && other[..|other|] == other;
    ScanUnbeaten(First(list), list);
    ScanUnbeaten(First(other), other);
    assert IsChain(list, c2);
    assert !Overtakes(list, c1) && !Overtakes(list, c2);
  }

  /** In the order "late ones first" the choice stays in the window. */
  function Late(list: seq<Candidate>, t: nat): (r: seq<Candidate>)
    ensures forall c :: c in r ==> c.anchorUs > t
  {
    if list == [] then []
    else if list[0].anchorUs > t then [list[0]] + Late(list[1..], t)
    else Late(list[1..], t)
  }

  function Near(list: seq<Candidate>, t: nat): (r: seq<Candidate>)
    ensures forall c :: c in r ==> c.anchorUs <= t
  {
    if list == [] then []
    else if list[0].anchorUs > t then Near(list[1..], t)
    else [list[0]] + Near(list[1..], t)
  }

  lemma {:induction false} LateAndNear(list: seq<Candidate>, t: nat)
    ensures Permuted(list, Late(list, t) + Near(list, t))
  {
    if list != [] {
      LateAndNear(list[1..], t);
      assert list == [list[0]] + list[1..];
    }
  }

  lemma {:induction false} LateIsSkipped(best: Candidate, list: seq<Candidate>)
    requires forall c :: c in list ==> c.anchorUs > best.anchorUs + CONTEND_US
    ensures Scanned(best, list) == best
  {
    if list != [] {
      LateIsSkipped(best, list[..|list| - 1]);
    }
  }

  lemma {:induction false} ScanStaysIn(best: Candidate, list: seq<Candidate>, t: nat)
    requires best.anchorUs <= t && forall c :: c in list ==> c.anchorUs <= t
    ensures Scanned(best, list).anchorUs <= t && (Scanned(best, list) == best || Scanned(best, list) in list)
  {
    if list != [] {
      ScanStaysIn(best, list[..|list| - 1], t);
    }
  }

  /** The list without one occurrence of a candidate. */
  function Without(list: seq<Candidate>, c: Candidate): (r: seq<Candidate>)
    requires c in list
    ensures multiset(list) == multiset(r) + multiset{c}
  {
    if list[0] == c then
      assert list == [list[0]] + list[1..];
      list[1..]
    else
      assert list == [list[0]] + list[1..];
      [list[0]] + Without(list[1..], c)
  }

  lemma {:induction false} ChainRises(list: seq<Candidate>, chain: seq<Candidate>, i: nat, j: nat)
    requires IsChain(list, chain) && i < j < |chain|
    ensures Beats(chain[j], chain[i])
  {
    assert Displaces(chain[j - 1 + 1], chain[j - 1]);
    if i < j - 1 {
      ChainRises(list, chain, i, j - 1);
    }
  }

  /** What is left of the list when a chain's candidates are taken out. */
  lemma {:induction false} TakeOut(list: seq<Candidate>, chain: seq<Candidate>) returns (rest: seq<Candidate>)
    requires forall k :: 0 <= k < |chain| ==> chain[k] in list
    requires forall i, j :: 0 <= i < j < |chain| ==> chain[i] != chain[j]
    ensures Permuted(list, chain + rest)
    decreases |chain|
  {
    if chain == [] {
      rest := list;
      assert chain + rest == list;
    } else {
      var n := |chain| - 1;
      var less := Without(list, chain[n]);
      forall k | 0 <= k < n
        ensures chain[..n][k] in less
      {
        assert chain[k] in multiset(list) && chain[k] != chain[n];
      }
      rest := TakeOut(less, chain[..n]);
      assert chain == chain[..n] + [chain[n]];
    }
  }

  lemma {:induction false} ChainIsScanned(list: seq<Candidate>, chain: seq<Candidate>, n: nat)
    requires IsChain(list, chain) && n < |chain|
    ensures Scanned(chain[0], chain[..n + 1]) == chain[n]
  {
    assert chain[..n + 1][..n] == chain[..n];
    if n > 0 {
      ChainIsScanned(list, chain, n - 1);
      assert Displaces(chain[n - 1 + 1], chain[n - 1]);
    }
  }

  /** A chain that overtakes the window splits the orders: in one it is followed, in another the
      window decides. */
  lemma OvertakingSplitsOrders(list: seq<Candidate>, chain: seq<Candidate>)
    returns (a: seq<Candidate>, b: seq<Candidate>)
    requires Overtakes(list, chain)
    ensures Permuted(list, a) && Permuted(list, b) && !Ties(Select(a), Select(b))
  {
    a := ChainFirst(list, chain);
    b := LateFirst(list, chain);
  }

  lemma ChainFirst(list: seq<Candidate>, chain: seq<Candidate>) returns (a: seq<Candidate>)
    requires Overtakes(list, chain)
    ensures Permuted(list, a) && Select(a).Chosen? && !Beats(chain[|chain| - 1], Select(a).c)
  {
    forall i, j | 0 <= i < j < |chain|
      ensures chain[i] != chain[j]
    {
      ChainRises(list, chain, i, j);
    }
    var rest := TakeOut(list, chain);
    a := chain + rest;
    SameMembers(list, a);
    FirstIsEarliest(a);
    ScanTwoParts(chain[0], chain, rest);
    ChainIsScanned(list, chain, |chain| - 1);
    assert chain[..|chain|] == chain;
    ScanOnlyRises(chain[|chain| - 1], rest);
  }

  lemma SameMembers(list: seq<Candidate>, other: seq<Candidate>)
    requires Permuted(list, other)
    ensures forall c :: c in list <==> c in other
    ensures |list| == |other|
  {
    assert forall c :: c in list <==> c in multiset(list);
    assert forall c :: c in other <==> c in multiset(other);
    assert |multiset(list)| == |multiset(other)|;
  }

  lemma LateFirst(list: seq<Candidate>, chain: seq<Candidate>) returns (b: seq<Candidate>)
    requires Overtakes(list, chain)
    ensures Permuted(list, b) && Select(b).Chosen? && Beats(chain[|chain| - 1], Select(b).c)
  {
    var t := chain[0].anchorUs + CONTEND_US;
    var late, near := Late(list, t), Near(list, t);
    b := late + near;
    LateAndNear(list, t);
    SameMembers(list, b);
    FirstIsEarliest(b);
    assert chain[0] in list;
    ScanTwoParts(First(b), late, near);
    LateIsSkipped(First(b), late);
    ScanStaysIn(First(b), near, t);
  }

  /** The choice depends on the order of the list, beyond exact ties, if and only if some chain of
      displacements from one of the earliest candidates ends above everything in their window. */
  lemma OrderFreeIff(list: seq<Candidate>)
    requires list != []
    ensures OrderFree(list) <==> !exists chain :: Overtakes(list, chain)
  {
    if chain :| Overtakes(list, chain) {
      var a, b := OvertakingSplitsOrders(list, chain);
      assert Ties(Select(list), Select(a)) && Ties(Select(list), Select(b)) ==> Ties(Select(a), Select(b));
    } else {
      forall other | Permuted(list, other)
        ensures Ties(Select(list), Select(other))
      {
        NoOvertakingMeansTies(list, other);
      }
    }
  }

  // ----- the candidates -----

  datatype Neighbour = Neighbour(state: NeighState, nextUs: nat, isParent: bool)

  datatype Times = Times(joinWindowUs: nat, beaconUs: nat, scanUs: nat, chanEvalUs: nat, trackUs: nat, tracked: int)

  function Offer(kind: Kind, atUs: nat, neigh: int, prio: nat): (o: seq<Candidate>)
    ensures |o| <= 1
  {
    if atUs == TIME_NEVER then [] else [Candidate(kind, atUs, neigh, prio)]
  }

  // What the neighbour at index `i` asks for.
  function Wish(n: Neighbour, i: nat, ourTurn: bool): seq<Candidate> {
    match n.state
    case Linked => Offer(Link, n.nextUs, i, if n.isParent then PRIO_PARENT else PRIO_NORMAL)
    case Joining => Offer(if ourTurn then JoinTx else JoinRx, n.nextUs, i, PRIO_HANDSHAKE)
    case _ => []
  }

  function Wishes(neigh: seq<Neighbour>, ourTurn: bool): (w: seq<Candidate>)
    ensures |w| <= |neigh|
  {
    if neigh == [] then []
    else Wishes(neigh[..|neigh| - 1], ourTurn) + Wish(neigh[|neigh| - 1], |neigh| - 1, ourTurn)
  }

  function Fixed(t: Times): seq<Candidate> {
    Offer(JoinRx, t.joinWindowUs, -1, PRIO_NORMAL) + Offer(Beacon, t.beaconUs, -1, PRIO_NORMAL)
    + Offer(Scan, t.scanUs, -1, PRIO_SCAN) + Offer(ChanEval, t.chanEvalUs, -1, PRIO_SCAN)
    + Offer(Track, t.trackUs, t.tracked, PRIO_NORMAL)
  }

  // ----- what becomes of the choice -----

  const LEAD_US: nat := 100
  const TRACK_MARGIN_US: nat := 1_500
  const LISTEN_MARGIN_US: nat := 2_000
  const MIN_HORIZON_US: nat := 400

  datatype Outcome =
    | Kept
    | Idle
    | Unstaged(c: Candidate)
    | TooLate(c: Candidate)
    | TurnedDown(c: Candidate)
    | Requested(c: Candidate, atUs: int)

  /** How long before its anchor an event needs the radio: `event_plan`. */
  function Lead(kind: Kind, initiator: bool, windowUs: nat): (lead: nat)
    ensures lead >= LEAD_US
  {
    match kind
    case Link => if initiator then LEAD_US else windowUs + LEAD_US
    case Track => TRACK_MARGIN_US + LEAD_US
    case JoinRx => LEAD_US + LISTEN_MARGIN_US
    case _ => LEAD_US
  }

  function Verdict(choice: Choice, canStage: bool, initiator: bool, windowUs: nat, nowUs: nat, accepted: bool): Outcome
  {
    if choice == Nothing then Idle
    else
      var atUs := choice.c.anchorUs - Lead(choice.c.kind, initiator, windowUs);
      if choice.c.kind == Link && !canStage then Unstaged(choice.c)
      else if atUs < nowUs + MIN_HORIZON_US then TooLate(choice.c)
      else if !accepted then TurnedDown(choice.c)
      else Requested(choice.c, atUs)
  }

  class Slot {
    const capacity: nat
    var list: seq<Candidate>
    var running: bool
    var owner: Choice

    constructor (neighbours: nat)
      ensures capacity == neighbours + OTHERS && list == [] && !running && owner == Nothing
    {
      capacity := neighbours + OTHERS;
      list, running, owner := [], false, Nothing;
    }

    /** `add_candidate`. */
    method Add(kind: Kind, atUs: nat, neigh: int, prio: nat)
      modifies this`list
      ensures list == if |old(list)| >= capacity then old(list) else old(list) + Offer(kind, atUs, neigh, prio)
    {
      if atUs == TIME_NEVER || |list| >= capacity {
        return;
      }
      list := list + [Candidate(kind, atUs, neigh, prio)];
    }

    /** The candidates `sched_pick` gathers: nothing that wants the radio is ever left out for
        want of room. */
    method Gather(neigh: seq<Neighbour>, ourTurn: bool, t: Times)
      requires |neigh| + OTHERS == capacity
      modifies this`list
      ensures list == Wishes(neigh, ourTurn) + Fixed(t)
    {
      list := [];
      for i := 0 to |neigh|
        invariant list == Wishes(neigh[..i], ourTurn)
      {
        assert neigh[..i + 1][..i] == neigh[..i];
        match neigh[i].state
        case Linked => Add(Link, neigh[i].nextUs, i, if neigh[i].isParent then PRIO_PARENT else PRIO_NORMAL);
        case Joining => Add(if ourTurn then JoinTx else JoinRx, neigh[i].nextUs, i, PRIO_HANDSHAKE);
        case _ =>
      }
      assert neigh[..|neigh|] == neigh;
      GatherFixed(t);
    }

    // The candidates that are not links.
    method GatherFixed(t: Times)
      requires |list| + OTHERS <= capacity
      modifies this`list
      ensures list == old(list) + Fixed(t)
    {
      ghost var start := list;
      ghost var all := Offer(JoinRx, t.joinWindowUs, -1, PRIO_NORMAL);
      Add(JoinRx, t.joinWindowUs, -1, PRIO_NORMAL);
      all := AddFixed(Beacon, t.beaconUs, -1, PRIO_NORMAL, start, all, 1);
      all := AddFixed(Scan, t.scanUs, -1, PRIO_SCAN, start, all, 2);
      all := AddFixed(ChanEval, t.chanEvalUs, -1, PRIO_SCAN, start, all, 3);
      all := AddFixed(Track, t.trackUs, t.tracked, PRIO_NORMAL, start, all, 4);
    }

    method AddFixed(kind: Kind, atUs: nat, neigh: int, prio: nat, ghost start: seq<Candidate>,
                    ghost before: seq<Candidate>, ghost n: nat) returns (ghost all: seq<Candidate>)
      requires list == start + before && |before| <= n < OTHERS && |start| + OTHERS <= capacity
      modifies this`list
      ensures all == before + Offer(kind, atUs, neigh, prio)
      ensures list == start + all && |all| <= n + 1
    {
      Add(kind, atUs, neigh, prio);
      all := before + Offer(kind, atUs, neigh, prio);
      assert list == start + all;
    }

    /** `sched_pick`. An event that owns the slot keeps it. Otherwise the choice among everything that
        wants the radio takes the slot, unless it has no frame to send, is too late to start on time,
        or the arbiter turns the request down; then the slot stays free. */
    method Pick(neigh: seq<Neighbour>, ourTurn: bool, t: Times, busy: bool, canStage: bool, initiator: bool,
                windowUs: nat, nowUs: nat, accepted: bool) returns (o: Outcome)
      requires |neigh| + OTHERS == capacity
      modifies this`list, this`owner
      ensures !running || old(owner) != Nothing || busy ==> o == Kept && owner == old(owner)
      ensures running && old(owner) == Nothing && !busy ==>
        && o == Verdict(Select(Wishes(neigh, ourTurn) + Fixed(t)), canStage, initiator, windowUs, nowUs, accepted)
        && owner == if o.Requested? then Chosen(o.c) else Nothing
    {
      if !running || owner != Nothing || busy {
        return Kept;
      }
      Gather(neigh, ourTurn, t);
      var choice := SelectCandidate(list);
      if choice == Nothing {
        return Idle;
      }
      if choice.c.kind == Link && !canStage {
        return Unstaged(choice.c);
      }
      owner := choice;
      var atUs := choice.c.anchorUs - Lead(choice.c.kind, initiator, windowUs);
      if atUs < nowUs + MIN_HORIZON_US {
        owner := Nothing;
        return TooLate(choice.c);
      }
      if !accepted {
        owner := Nothing;
        return TurnedDown(choice.c);
      }
      return Requested(choice.c, atUs);
    }
  }

  /** Radio time asked for starts at least 400 microseconds from now and before the event it is for;
      it is the choice, and the choice is at most three contention windows behind the earliest. */
  lemma RequestsAreOnTime(neigh: seq<Neighbour>, ourTurn: bool, t: Times, canStage: bool, initiator: bool,
                          windowUs: nat, nowUs: nat, accepted: bool)
    ensures
      var all := Wishes(neigh, ourTurn) + Fixed(t);
      var o := Verdict(Select(all), canStage, initiator, windowUs, nowUs, accepted);
      o.Requested? ==>
        && nowUs + MIN_HORIZON_US <= o.atUs < o.c.anchorUs && o.c in all
        && forall d :: d in all ==> o.c.anchorUs <= d.anchorUs + 3 * CONTEND_US
  {
    var all := Wishes(neigh, ourTurn) + Fixed(t);
    if all != [] {
      FirstIsEarliest(all);
      var e :| 0 <= e < |all| && all[e] == First(all);
      ChoiceKeepsItsPromises(all, e);
      Priorities(neigh, ourTurn, t);
    }
  }

  lemma {:induction false} WishesPriorities(neigh: seq<Neighbour>, ourTurn: bool)
    ensures forall c :: c in Wishes(neigh, ourTurn) ==>
      c.prio <= PRIO_HANDSHAKE && (c.prio == PRIO_HANDSHAKE <==> c.kind in {JoinTx, JoinRx})
  {
    if neigh != [] {
      WishesPriorities(neigh[..|neigh| - 1], ourTurn);
    }
  }

  lemma Priorities(neigh: seq<Neighbour>, ourTurn: bool, t: Times)
    ensures forall c :: c in Wishes(neigh, ourTurn) + Fixed(t) ==>
      c.prio <= PRIO_HANDSHAKE && (c.prio == PRIO_HANDSHAKE ==> c.kind in {JoinTx, JoinRx})
  {
    WishesPriorities(neigh, ourTurn);
    assert forall c :: c in Fixed(t) ==> c.prio <= PRIO_NORMAL;
  }

  /** A handshake slot due within a contention window of the earliest candidate loses only to
      another handshake slot; and nothing chosen starts more than three windows late. */
  lemma HandshakeIsNotDisplaced(neigh: seq<Neighbour>, ourTurn: bool, t: Times, e: int, h: Candidate, best: Candidate)
    requires
      var all := Wishes(neigh, ourTurn) + Fixed(t);
      && Earliest(all, e) && Unbeaten(all, e, best, |all|) && BoundedDelay(all[e], best)
      && best in all && h in all && h.prio == PRIO_HANDSHAKE && h.anchorUs <= all[e].anchorUs + CONTEND_US
    ensures best.kind in {JoinTx, JoinRx} && best.prio == PRIO_HANDSHAKE && best.anchorUs <= h.anchorUs
    ensures best.anchorUs <= (Wishes(neigh, ourTurn) + Fixed(t))[e].anchorUs + 3 * CONTEND_US
  {
    var all := Wishes(neigh, ourTurn) + Fixed(t);
    Priorities(neigh, ourTurn, t);
    var i :| 0 <= i < |all| && all[i] == h;
    assert !Beats(all[i], best);
    assert best.prio <= PRIO_HANDSHAKE;
  }

  /** It does happen: a joining and a linked neighbour, 80 and 40 ms after a scan. In one order of the
      neighbour table the link gets the slot, in the other the handshake. */
  lemma OrderCanMatter(ourTurn: bool, joining: Neighbour, linked: Neighbour, t: Times)
    requires joining == Neighbour(Joining, 1_080_000, false) && linked == Neighbour(Linked, 1_040_000, false)
    requires t == Times(TIME_NEVER, TIME_NEVER, 1_000_000, TIME_NEVER, TIME_NEVER, -1)
    ensures
      && Select(Wishes([joining, linked], ourTurn) + Fixed(t)) == Chosen(Candidate(Link, 1_040_000, 1, PRIO_NORMAL))
      && Select(Wishes([linked, joining], ourTurn) + Fixed(t)) ==
           Chosen(Candidate(if ourTurn then JoinTx else JoinRx, 1_080_000, 1, PRIO_HANDSHAKE))
  {
    TwoWishes(joining, linked, ourTurn);
    TwoWishes(linked, joining, ourTurn);
    var scan := Candidate(Scan, 1_000_000, -1, PRIO_SCAN);
    assert Fixed(t) == [scan];
    var kind := if ourTurn then JoinTx else JoinRx;
    assert Wishes([joining, linked], ourTurn) ==
      [Candidate(kind, 1_080_000, 0, PRIO_HANDSHAKE), Candidate(Link, 1_040_000, 1, PRIO_NORMAL)];
    assert Wishes([linked, joining], ourTurn) ==
      [Candidate(Link, 1_040_000, 0, PRIO_NORMAL), Candidate(kind, 1_080_000, 1, PRIO_HANDSHAKE)];
    SelectThree(Candidate(kind, 1_080_000, 0, PRIO_HANDSHAKE), Candidate(Link, 1_040_000, 1, PRIO_NORMAL), scan);
    SelectThree(Candidate(Link, 1_040_000, 0, PRIO_NORMAL), Candidate(kind, 1_080_000, 1, PRIO_HANDSHAKE), scan);
  }

  lemma TwoWishes(a: Neighbour, b: Neighbour, ourTurn: bool)
    ensures Wishes([a, b], ourTurn) == Wish(a, 0, ourTurn) + Wish(b, 1, ourTurn)
  {
    assert [a, b][..1] == [a];
    assert [a][..0] == [];
    assert Wishes([a], ourTurn) == Wishes([], ourTurn) + Wish(a, 0, ourTurn);
  }

  // A scan of three whose last is the earliest.
  lemma SelectThree(a: Candidate, b: Candidate, first: Candidate)
    requires first.anchorUs < a.anchorUs && first.anchorUs < b.anchorUs
    ensures
      var one := if Displaces(a, first) then a else first;
      var two := if Displaces(b, one) then b else one;
      Select([a, b] + [first]) == Chosen(if Displaces(first, two) then first else two)
  {
    var list := [a, b] + [first];
    FirstIsEarliest(list);
    assert list[0] == a && list[1] == b && list[2] == first;
    assert forall c :: c in list ==> c == a || c == b || c == first;
    assert First(list) == first;
    ScanTwoParts(first, [a, b], [first]);
    ScanTwoParts(first, [a], [b]);
    assert [a] + [b] == [a, b];
    ScanOne(first, a);
    ScanOne(if Displaces(a, first) then a else first, b);
    ScanOne(Scanned(first, [a, b]), first);
  }

  lemma ScanOne(best: Candidate, c: Candidate)
    ensures Scanned(best, [c]) == if Displaces(c, best) then c else best
  {
    assert [c][..0] == [];
  }
}
