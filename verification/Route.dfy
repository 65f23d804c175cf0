/** One node's rank and parent set: `rank_through` and `lg_route_recompute`. */
module Route {
  import opened Config

  // A rival must beat the current parent by more than this.
  const RANK_HYSTERESIS: nat := 4

  datatype Role = Leaf | Router | Backhaul

  datatype NeighState = Free | Heard | Joining | Linked | Lost

  // The part of a neighbour table entry that routing reads or writes.
  datatype Neigh = Neigh(state: NeighState, addr: nat, peerRank: nat, linkCost: nat,
                         isParent: bool, advDone: bool)

  type Table = seq<Neigh>

  /** Cost of routing through `n`; anything at or past the ceiling is unreachable. */
  function RankThrough(n: Neigh): nat {
    if n.state != Linked || n.peerRank == RANK_INFINITE then RANK_INFINITE
    else if n.peerRank + n.linkCost >= MAX_RANK then RANK_INFINITE
    else n.peerRank + n.linkCost
  }

  predicate Eligible(n: Neigh) {
    RankThrough(n) < RANK_INFINITE && n.peerRank < RankThrough(n)
  }

  /** Table order breaks ties. */
  predicate Before(t: Table, i: int, j: int)
    requires 0 <= i < |t| && 0 <= j < |t|
  {
    RankThrough(t[i]) < RankThrough(t[j]) || (RankThrough(t[i]) == RankThrough(t[j]) && i < j)
  }

  /** Eligible entries strictly preferred to entry `i`. */
  ghost function Ahead(t: Table, i: int): set<int>
    requires 0 <= i < |t|
  {
    set j | 0 <= j < |t| && Eligible(t[j]) && Before(t, j, i)
  }

  /** Entry `i` is one of the `k` most preferred eligible entries. */
  ghost predicate InTop(t: Table, i: int, k: nat)
    requires 0 <= i < |t|
  {
    Eligible(t[i]) && |Ahead(t, i)| < k
  }

  ghost predicate IsLeader(t: Table, i: int) {
    0 <= i < |t| && Eligible(t[i]) && forall j :: 0 <= j < |t| && Eligible(t[j]) ==> !Before(t, j, i)
  }

  // An entry in use for that address.
  predicate Is(n: Neigh, addr: nat) {
    n.state != Free && n.addr == addr
  }

  /** Index of the first entry in use with that address, -1 if there is none. */
  function Find(t: Table, addr: nat): (r: int)
    ensures -1 <= r < |t|
    ensures r >= 0 ==> Is(t[r], addr) && forall j :: 0 <= j < r ==> !Is(t[j], addr)
    ensures r < 0 ==> addr == ADDR_INVALID || forall j :: 0 <= j < |t| ==> !Is(t[j], addr)
  {
    if addr == ADDR_INVALID then -1 else FindFrom(t, addr, 0)
  }

  function FindFrom(t: Table, addr: nat, i: nat): (r: int)
    requires i <= |t|
    ensures -1 <= r < |t|
    ensures r >= 0 ==> i <= r && Is(t[r], addr) && forall j :: i <= j < r ==> !Is(t[j], addr)
    ensures r < 0 ==> forall j :: i <= j < |t| ==> !Is(t[j], addr)
    decreases |t| - i
  {
    if i == |t| then -1
    else if Is(t[i], addr) then i
    else FindFrom(t, addr, i + 1)
  }

  /** Address of the first flagged, linked entry: what `lg_parent` reports. */
  function ParentAddr(t: Table): nat {
    if t == [] then ADDR_INVALID
    else if t[0].isParent && t[0].state == Linked then t[0].addr
    else ParentAddr(t[1..])
  }

  /** The incumbent `i` stays primary although `l` is cheaper. */
  ghost predicate Keeps(t: Table, i: int, l: int)
    requires IsLeader(t, l)
  {
    && ParentAddr(t) != ADDR_INVALID && t[l].addr != ParentAddr(t)
    && i == Find(t, ParentAddr(t)) && i >= 0 && InTop(t, i, MAX_PARENTS)
    && RankThrough(t[i]) <= RankThrough(t[l]) + RANK_HYSTERESIS
  }

  /** The one entry the rank is taken from. */
  ghost predicate IsPrimary(t: Table, p: int) {
    exists l :: IsLeader(t, l) && (Keeps(t, p, l) || (p == l && forall i :: !Keeps(t, i, l)))
  }

  /** What any recompute guarantees about the rank; the network theorems use only this. */
  ghost predicate RankRule(t: Table, rank: nat) {
    || (rank == RANK_INFINITE && forall m :: 0 <= m < |t| ==> !Eligible(t[m]))
    || exists p :: RankedBy(t, rank, p)
  }

  ghost predicate RankedBy(t: Table, rank: nat, p: int) {
    && 0 <= p < |t| && Eligible(t[p]) && rank == RankThrough(t[p])
    && forall m :: 0 <= m < |t| && Eligible(t[m]) ==> rank <= RankThrough(t[m]) + RANK_HYSTERESIS
  }

  /** The tables differ in nothing a rank depends on: a recompute rewrites only flags. */
  ghost predicate SameLinks(a: Table, b: Table) {
    |a| == |b| && forall k :: 0 <= k < |a| ==> b[k] == a[k].(isParent := b[k].isParent, advDone := b[k].advDone)
  }

  /** The link cost floor that `lg_neigh_update_cost` maintains. */
  ghost predicate CostFloor(t: Table) {
    forall i :: 0 <= i < |t| && t[i].state == Linked ==> t[i].linkCost >= ETX_ONE
  }

  // ----- the acyclicity test -----

  /** With positive link costs the acyclicity test excludes nobody the ceiling admits. */
  lemma AcyclicityTestIsVacuous(n: Neigh)
    requires n.linkCost > 0
    ensures Eligible(n) <==> RankThrough(n) < RANK_INFINITE
  {
  }

  /** A rank is infinite exactly when nothing is eligible, and otherwise at least one
      perfect hop and below the ceiling. */
  lemma RankRuleRange(t: Table, rank: nat)
    requires RankRule(t, rank) && CostFloor(t)
    ensures rank == RANK_INFINITE <==> forall m :: 0 <= m < |t| ==> !Eligible(t[m])
    ensures rank != RANK_INFINITE ==> ETX_ONE <= rank < MAX_RANK
  {
    if p :| RankedBy(t, rank, p) {
      assert Eligible(t[p]);
    }
  }

  // ----- the sorted order the parent array is a prefix of -----

  /** `order` lists the eligible entries among the first `n`, most preferred first. */
  ghost predicate Ranking(t: Table, n: nat, order: seq<int>)
    requires n <= |t|
  {
    && (forall p :: 0 <= p < |order| ==> 0 <= order[p] < n && Eligible(t[order[p]]))
    && (forall p, q :: 0 <= p < q < |order| ==> Before(t, order[p], order[q]))
    && (forall j :: 0 <= j < n && Eligible(t[j]) ==> j in order)
  }

  ghost predicate InTable(t: Table, order: seq<int>) {
    forall p :: 0 <= p < |order| ==> 0 <= order[p] < |t| && Eligible(t[order[p]])
  }

  /** First position whose entry costs strictly more than `c`. */
  ghost function Pos(t: Table, order: seq<int>, c: nat): (r: nat)
    requires InTable(t, order)
    ensures r <= |order|
    ensures forall q :: 0 <= q < r ==> RankThrough(t[order[q]]) <= c
    ensures r < |order| ==> RankThrough(t[order[r]]) > c
  {
    if order == [] || RankThrough(t[order[0]]) > c then 0
    else
      assert forall p :: 0 <= p < |order[1..]| ==> order[1..][p] == order[p + 1];
      1 + Pos(t, order[1..], c)
  }

  ghost function Insert(t: Table, order: seq<int>, i: int): seq<int>
    requires InTable(t, order) && 0 <= i < |t|
  {
    var p := Pos(t, order, RankThrough(t[i]));
    order[..p] + [i] + order[p..]
  }

  /** Inserting the next eligible entry keeps the list a ranking. */
  lemma InsertRanks(t: Table, n: nat, order: seq<int>)
    requires n < |t| && Ranking(t, n, order) && Eligible(t[n])
    ensures Ranking(t, n + 1, Insert(t, order, n))
  {
    var p := Pos(t, order, RankThrough(t[n]));
    var r := Insert(t, order, n);
    forall a, b | 0 <= a < b < |r|
      ensures 0 <= r[a] < n + 1 && 0 <= r[b] < n + 1 && Before(t, r[a], r[b])
    {
      InsertPair(t, n, order, a, b);
    }
    forall a | 0 <= a < |r|
      ensures 0 <= r[a] < n + 1 && Eligible(t[r[a]])
    {
      assert r[a] == if a < p then order[a] else if a == p then n else order[a - 1];
    }
    forall j | 0 <= j < n + 1 && Eligible(t[j])
      ensures j in r
    {
      if j < n {
        var q :| 0 <= q < |order| && order[q] == j;
        assert r[if q < p then q else q + 1] == j;
      } else {
        assert r[p] == n;
      }
    }
  }

  lemma InsertPair(t: Table, n: nat, order: seq<int>, a: nat, b: nat)
    requires n < |t| && Ranking(t, n, order) && Eligible(t[n])
    requires a < b <= |order|
    ensures
      var r := Insert(t, order, n);
      |r| == |order| + 1 && 0 <= r[a] <= n && 0 <= r[b] <= n && Before(t, r[a], r[b])
  {
    var p := Pos(t, order, RankThrough(t[n]));
    var r := Insert(t, order, n);
    assert r[a] == if a < p then order[a] else if a == p then n else order[a - 1];
    assert r[b] == if b < p then order[b] else if b == p then n else order[b - 1];
    if a == p && b > p + 1 {
      assert Before(t, order[p], order[b - 1]);
    }
  }

  lemma RankingIsStrict(t: Table, n: nat, order: seq<int>, p: nat, q: nat)
    requires n <= |t| && Ranking(t, n, order) && p < |order| && q < |order|
    ensures Before(t, order[p], order[q]) <==> p < q
    ensures order[p] == order[q] <==> p == q
  {
  }

  ghost function Prefix(order: seq<int>, p: nat): set<int>
    requires p <= |order|
  {
    if p == 0 then {} else Prefix(order, p - 1) + {order[p - 1]}
  }

  lemma {:induction false} PrefixMembers(order: seq<int>, p: nat)
    requires p <= |order|
    ensures forall j :: j in Prefix(order, p) <==> exists q :: 0 <= q < p && order[q] == j
  {
    if p > 0 {
      PrefixMembers(order, p - 1);
    }
  }

  lemma {:induction false} PrefixSize(t: Table, order: seq<int>, p: nat)
    requires Ranking(t, |t|, order) && p <= |order|
    ensures |Prefix(order, p)| == p
  {
    if p > 0 {
      PrefixSize(t, order, p - 1);
      PrefixMembers(order, p - 1);
      forall q | 0 <= q < p - 1
        ensures order[q] != order[p - 1]
      {
        RankingIsStrict(t, |t|, order, q, p - 1);
      }
    }
  }

  /** In a full ranking an entry's position is the number of entries ahead of it. */
  lemma PositionCounts(t: Table, order: seq<int>, p: nat)
    requires Ranking(t, |t|, order) && p < |order|
    ensures |Ahead(t, order[p])| == p
  {
    PrefixSize(t, order, p);
    PrefixMembers(order, p);
    forall j
      ensures j in Ahead(t, order[p]) <==> j in Prefix(order, p)
    {
      if q :| 0 <= q < |order| && order[q] == j {
        RankingIsStrict(t, |t|, order, q, p);
      }
    }
    assert Prefix(order, p) == Ahead(t, order[p]);
  }

  /** The first `k` of a full ranking are exactly the top `k` entries. */
  lemma PrefixIsTop(t: Table, order: seq<int>, k: nat)
    requires Ranking(t, |t|, order)
    ensures forall i :: 0 <= i < |t| ==> (InTop(t, i, k) <==> i in order[..Min(k, |order|)])
    ensures order != [] ==> IsLeader(t, order[0])
    ensures order == [] <==> forall m :: 0 <= m < |t| ==> !Eligible(t[m])
  {
    var top := order[..Min(k, |order|)];
    forall i | 0 <= i < |t|
      ensures InTop(t, i, k) <==> i in top
    {
      if Eligible(t[i]) {
        var p :| 0 <= p < |order| && order[p] == i;
        PositionCounts(t, order, p);
        if p < |top| {
          assert top[p] == i;
        } else {
          forall q | 0 <= q < |top|
            ensures top[q] != i
          {
            RankingIsStrict(t, |t|, order, q, p);
          }
        }
      }
    }
    if order != [] {
      forall j | 0 <= j < |t| && Eligible(t[j])
        ensures !Before(t, j, order[0])
      {
        var q :| 0 <= q < |order| && order[q] == j;
        assert q == 0 || Before(t, order[0], order[q]);
      }
      assert Eligible(t[order[0]]);
    }
  }

  // ----- which parent is reported -----

  /** The entry the rank is taken from is one of the parents and within the hysteresis of
      every eligible entry. */
  lemma PrimaryIsParent(t: Table, p: int)
    requires IsPrimary(t, p)
    ensures 0 <= p < |t| && InTop(t, p, MAX_PARENTS)
    ensures forall m :: 0 <= m < |t| && Eligible(t[m]) ==> RankThrough(t[p]) <= RankThrough(t[m]) + RANK_HYSTERESIS
  {
    var l :| IsLeader(t, l) && (Keeps(t, p, l) || (p == l && forall i :: !Keeps(t, i, l)));
    LeaderUnique(t, l);
    assert Ahead(t, l) == {};
  }

  lemma {:induction false} FirstFlagged(t: Table, i: nat)
    requires i < |t| && t[i].isParent && t[i].state == Linked
    requires forall j :: 0 <= j < i ==> !(t[j].isParent && t[j].state == Linked)
    ensures ParentAddr(t) == t[i].addr
  {
    if i > 0 {
      FirstFlagged(t[1..], i - 1);
    }
  }

  /** The table as a recompute leaves it. */
  ghost predicate Flagged(t: Table, t': Table) {
    && |t'| == |t|
    && forall i :: 0 <= i < |t| ==>
         t'[i] == t[i].(isParent := InTop(t, i, MAX_PARENTS), advDone := t'[i].advDone)
  }

  /** No two entries in use have one address; `lg_neigh_alloc` sees to that. */
  ghost predicate DistinctNeighbours(t: Table) {
    forall i, j :: 0 <= i < j < |t| && t[i].state != Free && t[j].state != Free ==> t[i].addr != t[j].addr
  }

  /** The entry `lg_parent` reports. */
  ghost predicate Reported(t: Table, i: int) {
    && 0 <= i < |t| && t[i].isParent && t[i].state == Linked
    && forall j :: 0 <= j < i ==> !(t[j].isParent && t[j].state == Linked)
  }

  lemma ReportedExists(t: Table, p: nat) returns (i: nat)
    requires p < |t| && t[p].isParent && t[p].state == Linked
    ensures i <= p && Reported(t, i) && ParentAddr(t) == t[i].addr
  {
    i := 0;
    while !(t[i].isParent && t[i].state == Linked)
      invariant i <= p && forall j :: 0 <= j < i ==> !(t[j].isParent && t[j].state == Linked)
      decreases p - i
    {
      i := i + 1;
    }
    FirstFlagged(t, i);
  }

  /** The reported parent is the entry the rank comes from exactly when no parent precedes that
      entry in the table. */
  lemma ReportedIsPrimaryIff(t: Table, t': Table, p: int)
    requires IsPrimary(t, p) && Flagged(t, t') && DistinctNeighbours(t)
    ensures ParentAddr(t') == t[p].addr <==> forall j :: 0 <= j < p ==> !InTop(t, j, MAX_PARENTS)
  {
    PrimaryIsParent(t, p);
    var i := ReportedExists(t', p);
    assert InTop(t, i, MAX_PARENTS);
  }

  /** With a single parent slot that is always so. */
  lemma SingleParentIsPrimary(t: Table, t': Table, p: int)
    requires MAX_PARENTS == 1 && IsPrimary(t, p) && Flagged(t, t')
    ensures ParentAddr(t') == t[p].addr
  {
    PrimaryIsParent(t, p);
    forall j | 0 <= j < |t| && InTop(t, j, 1)
      ensures j == p
    {
      assert Ahead(t, j) == {} && Ahead(t, p) == {};
      assert j !in Ahead(t, p) && p !in Ahead(t, j);
    }
    FirstFlagged(t', p);
  }

  /** With more, the reported parent can be much dearer than the entry the rank comes from. */
  lemma ReportedParentMayNotBePrimary(a: nat, b: nat)
    requires MAX_PARENTS >= 2 && a != b
    ensures
      var t := [Neigh(Linked, a, 0, 40, false, false), Neigh(Linked, b, 0, 16, false, false)];
      var t' := [t[0].(isParent := true), t[1].(isParent := true)];
      && IsPrimary(t, 1) && Flagged(t, t') && ParentAddr(t') == a
  {
    var t := [Neigh(Linked, a, 0, 40, false, false), Neigh(Linked, b, 0, 16, false, false)];
    assert RankThrough(t[0]) == 40 && RankThrough(t[1]) == 16;
    assert Ahead(t, 1) == {};
    assert Ahead(t, 0) == {1};
    assert IsLeader(t, 1);
    assert ParentAddr(t) == ADDR_INVALID by {
      assert t[1..] == [t[1]];
      assert t[1..][1..] == [];
      assert ParentAddr(t) == ParentAddr(t[1..]) && ParentAddr(t[1..]) == ParentAddr(t[1..][1..]);
    }
    FirstFlagged([t[0].(isParent := true), t[1].(isParent := true)], 0);
  }

  // ----- how stable the primary is -----

  lemma OneSlotIsLeader(t: Table, i: int, l: int)
    requires IsLeader(t, l) && 0 <= i < |t|
    ensures InTop(t, i, 1) ==> i == l
  {
    if InTop(t, i, 1) {
      assert Ahead(t, i) == {};
      assert l !in Ahead(t, i);
    }
  }

  /** With a single parent slot hysteresis never acts: an incumbent that is not the cheapest has
      already lost the slot. */
  lemma HysteresisIdleWithOneSlot(t: Table, i: int, l: int)
    requires MAX_PARENTS == 1 && IsLeader(t, l)
    ensures !Keeps(t, i, l)
  {
    var r := Find(t, ParentAddr(t));
    if 0 <= r < |t| {
      OneSlotIsLeader(t, r, l);
    }
  }

  /** Table `u` is what `t` has become by the next recompute: flags and addresses as they were left,
      ranks, costs and states as they may be by now. */
  ghost predicate Later(t: Table, u: Table) {
    |u| == |t| && forall i :: 0 <= i < |t| ==>
      u[i].isParent == InTop(t, i, MAX_PARENTS) && u[i].addr == t[i].addr
  }

  /** A rival that is not clearly better should not displace the primary. It does not, exactly when
      the primary is the reported parent and still among the parents; or, if it is not the one
      reported, when it is the cheapest and the one reported is out of contention. */
  lemma PrimaryStaysIff(t: Table, p: int, u: Table, l: int)
    requires IsPrimary(t, p) && Later(t, u) && DistinctNeighbours(u)
    requires IsLeader(u, l) && u[l].addr != ADDR_INVALID
    requires Eligible(u[p]) && u[p].addr != ADDR_INVALID
    requires RankThrough(u[p]) <= RankThrough(u[l]) + RANK_HYSTERESIS
    ensures IsPrimary(u, p) <==>
      if forall j :: 0 <= j < p && u[j].state == Linked ==> !InTop(t, j, MAX_PARENTS) then InTop(u, p, MAX_PARENTS)
      else p == l && forall r :: Reported(u, r) ==> !Contends(u, r, l)
  {
    PrimaryIsParent(t, p);
    var r := ReportedExists(u, p);
    assert Reported(u, p) <==> forall j :: 0 <= j < p && u[j].state == Linked ==> !InTop(t, j, MAX_PARENTS);
    assert forall i :: Reported(u, i) ==> i == r;
    PrimaryIff(u, r, l, p);
    if l == p {
      LeaderUnique(u, l);
      assert Ahead(u, l) == {};
    }
  }

  /** The primary is the reported entry while that can hold its place, else the cheapest. */
  lemma PrimaryIff(u: Table, r: int, l: int, p: int)
    requires DistinctNeighbours(u) && IsLeader(u, l) && Reported(u, r) && ParentAddr(u) == u[r].addr
    requires u[l].addr != ADDR_INVALID
    ensures IsPrimary(u, p) <==> p == if Contends(u, r, l) then r else l
  {
    LeaderUnique(u, l);
    FindsIt(u, r);
    assert u[r].addr == u[l].addr <==> r == l;
    assert forall i :: Keeps(u, i, l) <==> i == r && r != l && Contends(u, r, l);
    assert IsPrimary(u, p) <==> Keeps(u, p, l) || (p == l && forall i :: !Keeps(u, i, l));
    assert !Keeps(u, r, l) ==> forall i :: !Keeps(u, i, l);
  }

  /** A primary can be lost to a rival only two sixteenths cheaper: the reported parent is another one, too
      dear to protect itself, and nothing protects the primary. */
  lemma PrimaryMayNotStay(a: nat, b: nat, c: nat)
    requires MAX_PARENTS >= 2 && a != b && b != c && a != c && ADDR_INVALID !in {a, b, c}
    ensures
      var t := [Neigh(Linked, a, 0, 40, false, false), Neigh(Linked, b, 0, 20, false, false),
                Neigh(Heard, c, 0, 18, false, false)];
      var u := [t[0].(isParent := true), t[1].(isParent := true), t[2].(state := Linked)];
      && IsPrimary(t, 1) && Later(t, u) && DistinctNeighbours(u)
      && RankThrough(u[1]) <= RankThrough(u[2]) + RANK_HYSTERESIS && IsPrimary(u, 2) && !IsPrimary(u, 1)
  {
    var t := [Neigh(Linked, a, 0, 40, false, false), Neigh(Linked, b, 0, 20, false, false),
              Neigh(Heard, c, 0, 18, false, false)];
    var u := [t[0].(isParent := true), t[1].(isParent := true), t[2].(state := Linked)];
    assert RankThrough(t[0]) == 40 && RankThrough(t[1]) == 20 && RankThrough(t[2]) == RANK_INFINITE;
    assert Ahead(t, 0) == {1} && Ahead(t, 1) == {};
    assert IsLeader(t, 1);
    NothingFlagged(t);
    assert RankThrough(u[0]) == 40 && RankThrough(u[1]) == 20 && RankThrough(u[2]) == 18;
    assert IsLeader(u, 2);
    var r := ReportedExists(u, 0);
    PrimaryIff(u, 0, 2, 1);
    PrimaryIff(u, 0, 2, 2);
  }

  lemma {:induction false} NothingFlagged(t: Table)
    requires forall i :: 0 <= i < |t| ==> !t[i].isParent
    ensures ParentAddr(t) == ADDR_INVALID
  {
    if t != [] {
      NothingFlagged(t[1..]);
    }
  }

  // The entry can still hold its place against the cheapest.
  ghost predicate Contends(u: Table, r: int, l: int)
    requires IsLeader(u, l) && 0 <= r < |u|
  {
    u[r].addr != ADDR_INVALID && InTop(u, r, MAX_PARENTS) && RankThrough(u[r]) <= RankThrough(u[l]) + RANK_HYSTERESIS
  }

  lemma FindsIt(u: Table, r: int)
    requires DistinctNeighbours(u) && 0 <= r < |u| && u[r].state != Free
    ensures u[r].addr != ADDR_INVALID ==> Find(u, u[r].addr) == r
  {
  }

  // ----- the node -----

  class Node {
    var role: Role
    var rank: nat
    const neigh: array<Neigh>
    var advUrgent: bool
    var parentSwitches: nat

    constructor (role: Role, size: nat)
      ensures this.role == role && rank == (if role == Backhaul then 0 else RANK_INFINITE)
      ensures fresh(neigh) && neigh.Length == size && !advUrgent
      ensures forall i :: 0 <= i < size ==> neigh[i].state == Free
    {
      this.role := role;
      rank := if role == Backhaul then 0 else RANK_INFINITE;
      neigh := new Neigh[size](_ => Neigh(Free, 0, 0, 0, false, false));
      advUrgent := false;
      parentSwitches := 0;
    }

    /** Place entry `i` into the parent array, which holds a prefix of `order`. */
    method PlaceCandidate(best: array<int>, bestCost: array<nat>, i: int, ghost order: seq<int>)
      requires best != neigh as object && bestCost != best as object && bestCost != neigh as object
      requires best.Length == bestCost.Length == MAX_PARENTS
      requires 0 <= i < neigh.Length && Eligible(neigh[i]) && InTable(neigh[..], order)
      requires Holds(neigh[..], best[..], bestCost[..], order)
      modifies best, bestCost
      ensures InTable(neigh[..], Insert(neigh[..], order, i))
      ensures Holds(neigh[..], best[..], bestCost[..], Insert(neigh[..], order, i))
    {
      var cost := RankThrough(neigh[i]);
      ghost var t := neigh[..];
      ghost var p := Pos(t, order, cost);
      var s := 0;
      while s < MAX_PARENTS && cost >= bestCost[s]
        invariant 0 <= s <= MAX_PARENTS
        invariant forall q :: 0 <= q < s ==> cost >= bestCost[q]
      {
        s := s + 1;
      }
      SlotIsPosition(t, best[..], bestCost[..], order, i, s);
      if s < MAX_PARENTS {
        ShiftIn(best, bestCost, s, i, cost);
      }
      ShiftHolds(t, old(best[..]), old(bestCost[..]), order, i, p, best[..], bestCost[..]);
    }

    /** Move everything from slot `s` on down by one and put entry `i` there. */
    method ShiftIn(best: array<int>, bestCost: array<nat>, s: nat, i: int, cost: nat)
      requires best != neigh as object && bestCost != best as object && bestCost != neigh as object
      requires best.Length == bestCost.Length == MAX_PARENTS && s < MAX_PARENTS
      modifies best, bestCost
      ensures forall q :: 0 <= q < MAX_PARENTS ==>
        best[q] == if q < s then old(best[q]) else if q == s then i else old(best[q - 1])
      ensures forall q :: 0 <= q < MAX_PARENTS ==>
        bestCost[q] == if q < s then old(bestCost[q]) else if q == s then cost else old(bestCost[q - 1])
    {
      var k := MAX_PARENTS - 1;
      while k > s
        invariant s <= k < MAX_PARENTS
        invariant forall q :: 0 <= q <= k ==> best[q] == old(best[q]) && bestCost[q] == old(bestCost[q])
        invariant forall q :: k < q < MAX_PARENTS ==>
          best[q] == old(best[q - 1]) && bestCost[q] == old(bestCost[q - 1])
      {
        bestCost[k] := bestCost[k - 1];
        best[k] := best[k - 1];
        k := k - 1;
      }
      bestCost[s] := cost;
      best[s] := i;
    }

    /** Recompute the rank and the parent set; true when `lg_parent` changed. */
    method Recompute() returns (changed: bool, routeLost: bool)
      modifies this`rank, this`advUrgent, this`parentSwitches, neigh
      ensures role == Backhaul ==>
        && rank == 0 && !changed && !routeLost
        && advUrgent == old(advUrgent) && parentSwitches == old(parentSwitches)
        && forall i :: 0 <= i < neigh.Length ==> neigh[i] == old(neigh[i]).(isParent := false)
      ensures role != Backhaul ==>
        && RankRule(old(neigh[..]), rank)
        && (rank < RANK_INFINITE ==> exists p :: IsPrimary(old(neigh[..]), p) && rank == RankThrough(old(neigh[..])[p]))
        && (forall i :: 0 <= i < neigh.Length ==>
              neigh[i] == old(neigh[i]).(isParent := InTop(old(neigh[..]), i, MAX_PARENTS),
                                         advDone := rank == old(rank) && old(neigh[i]).advDone))
        && advUrgent == (old(advUrgent) || rank != old(rank))
        && changed == (ParentAddr(neigh[..]) != ParentAddr(old(neigh[..])))
        && parentSwitches == old(parentSwitches) + (if changed then 1 else 0)
        && routeLost == (old(rank) != RANK_INFINITE && rank == RANK_INFINITE)
    {
      var oldParent := ParentAddr(neigh[..]);
      var oldRank := rank;
      ghost var t := neigh[..];

      if role == Backhaul {
        rank := 0;
        ClearParents();
        return false, false;
      }

      SelectParents(oldParent);
      changed := ParentAddr(neigh[..]) != oldParent;
      if changed {
        parentSwitches := parentSwitches + 1;
      }
      if rank != oldRank {
        advUrgent := true;
        ghost var flagged := neigh[..];
        ClearAdvDone();
        SameFlagsSameParent(flagged, neigh[..]);
      }
      routeLost := oldRank != RANK_INFINITE && rank == RANK_INFINITE;
    }

    /** Choose the parent set and take the rank from its head. */
    method SelectParents(oldParent: nat)
      requires oldParent == ParentAddr(neigh[..])
      modifies this`rank, neigh
      ensures RankRule(old(neigh[..]), rank)
      ensures rank < RANK_INFINITE ==>
        exists p :: IsPrimary(old(neigh[..]), p) && rank == RankThrough(old(neigh[..])[p])
      ensures forall i :: 0 <= i < neigh.Length ==>
        neigh[i] == old(neigh[i]).(isParent := InTop(old(neigh[..]), i, MAX_PARENTS))
    {
      ghost var t := neigh[..];
      var best, bestCost;
      ghost var order;
      best, bestCost, order := RankCandidates();
      PrefixIsTop(t, order, MAX_PARENTS);
      HoldsMembers(t, best[..], bestCost[..], order);
      KeepIncumbent(best, bestCost, oldParent, order);
      if order != [] {
        HeadIsPrimary(t, order, best[0]);
      }
      ClearParents();
      SetParents(best, t);
      rank := if best[0] >= 0 then Min(bestCost[0], RANK_INFINITE - 1) else RANK_INFINITE;
    }

    /** Insertion sort of the candidates into the parent array. */
    method RankCandidates() returns (best: array<int>, bestCost: array<nat>, ghost order: seq<int>)
      ensures fresh(best) && fresh(bestCost) && best != bestCost as object
      ensures best.Length == bestCost.Length == MAX_PARENTS
      ensures Ranking(neigh[..], neigh.Length, order)
      ensures Holds(neigh[..], best[..], bestCost[..], order)
    {
      best := new int[MAX_PARENTS](_ => -1);
      bestCost := new nat[MAX_PARENTS](_ => RANK_INFINITE);
      order := [];
      var i := 0;
      while i < neigh.Length
        invariant 0 <= i <= neigh.Length
        invariant Ranking(neigh[..], i, order)
        invariant Holds(neigh[..], best[..], bestCost[..], order)
        modifies best, bestCost
      {
        var cost := RankThrough(neigh[i]);
        if cost < RANK_INFINITE && neigh[i].peerRank < cost {
          InsertRanks(neigh[..], i, order);
          PlaceCandidate(best, bestCost, i, order);
          order := Insert(neigh[..], order, i);
        }
        i := i + 1;
      }
    }

    /** Hysteresis: put the incumbent back at the head when it is close enough. */
    method KeepIncumbent(best: array<int>, bestCost: array<nat>, oldParent: nat, ghost order: seq<int>)
      requires best != neigh as object && bestCost != best as object && bestCost != neigh as object
      requires best.Length == bestCost.Length == MAX_PARENTS
      requires oldParent == ParentAddr(neigh[..])
      requires Ranking(neigh[..], neigh.Length, order)
      requires Holds(neigh[..], best[..], bestCost[..], order)
      modifies best, bestCost
      ensures forall j :: j in best[..] <==> j in old(best[..])
      ensures order == [] ==> best[0] == -1
      ensures order != [] ==> Head(neigh[..], order, best[0]) && bestCost[0] == RankThrough(neigh[best[0]])
    {
      if oldParent != ADDR_INVALID && best[0] >= 0 && neigh[best[0]].addr != oldParent {
        var cur := Find(neigh[..], oldParent);
        var curCost := if cur >= 0 then RankThrough(neigh[cur]) else RANK_INFINITE;
        if curCost < RANK_INFINITE && curCost <= bestCost[0] + RANK_HYSTERESIS {
          var s := 1;
          while s < MAX_PARENTS && best[s] != cur
            invariant 1 <= s <= MAX_PARENTS
            invariant forall q :: 1 <= q < s ==> best[q] != cur
          {
            s := s + 1;
          }
          if s < MAX_PARENTS {
            SwapMembers(best[..], s);
            assert order[s] == cur;
            best[s] := best[0];
            bestCost[s] := bestCost[0];
            best[0] := cur;
            bestCost[0] := curCost;
            assert best[..] == old(best[..])[s := old(best[0])][0 := cur];
          } else {
            assert forall q :: 0 <= q < Min(MAX_PARENTS, |order|) ==> order[q] == best[q] && best[q] != cur;
          }
        }
      }
    }

    method ClearParents()
      modifies neigh
      ensures forall i :: 0 <= i < neigh.Length ==> neigh[i] == old(neigh[i]).(isParent := false)
    {
      for i := 0 to neigh.Length
        invariant forall j :: 0 <= j < i ==> neigh[j] == old(neigh[j]).(isParent := false)
        invariant forall j :: i <= j < neigh.Length ==> neigh[j] == old(neigh[j])
      {
        neigh[i] := neigh[i].(isParent := false);
      }
    }

    method ClearAdvDone()
      modifies neigh
      ensures forall i :: 0 <= i < neigh.Length ==> neigh[i] == old(neigh[i]).(advDone := false)
    {
      for i := 0 to neigh.Length
        invariant forall j :: 0 <= j < i ==> neigh[j] == old(neigh[j]).(advDone := false)
        invariant forall j :: i <= j < neigh.Length ==> neigh[j] == old(neigh[j])
      {
        neigh[i] := neigh[i].(advDone := false);
      }
    }

    method SetParents(best: array<int>, ghost t: Table)
      requires best != neigh as object && |t| == neigh.Length
      requires forall j :: j in best[..] ==> j < neigh.Length
      requires forall i :: 0 <= i < neigh.Length ==> neigh[i] == t[i].(isParent := false)
      modifies neigh
      ensures forall i :: 0 <= i < neigh.Length ==> neigh[i] == t[i].(isParent := i in best[..])
    {
      for s := 0 to best.Length
        invariant forall i :: 0 <= i < neigh.Length ==> neigh[i] == t[i].(isParent := i in best[..s])
      {
        assert best[..s + 1] == best[..s] + [best[s]];
        assert best[s] in best[..];
        if best[s] >= 0 {
          neigh[best[s]] := neigh[best[s]].(isParent := true);
        }
      }
      assert best[..best.Length] == best[..];
    }
  }

  /** The parent array is the first MAX_PARENTS of `order`, padded with "none". */
  ghost predicate Holds(t: Table, best: seq<int>, bestCost: seq<nat>, order: seq<int>) {
    && |best| == |bestCost| == MAX_PARENTS && InTable(t, order)
    && (forall s :: 0 <= s < MAX_PARENTS ==> best[s] == if s < |order| then order[s] else -1)
    && (forall s :: 0 <= s < MAX_PARENTS ==>
          bestCost[s] == if s < |order| then RankThrough(t[order[s]]) else RANK_INFINITE)
  }

  /** The scan stops at the insertion position, or runs off the end when that is past it. */
  lemma SlotIsPosition(t: Table, best: seq<int>, bestCost: seq<nat>, order: seq<int>, i: int, s: nat)
    requires 0 <= i < |t| && Eligible(t[i]) && Holds(t, best, bestCost, order)
    requires s <= MAX_PARENTS && forall q :: 0 <= q < s ==> RankThrough(t[i]) >= bestCost[q]
    requires s < MAX_PARENTS ==> RankThrough(t[i]) < bestCost[s]
    ensures s == Min(Pos(t, order, RankThrough(t[i])), MAX_PARENTS)
  {
    forall q | 0 <= q < s
      ensures q < |order| && RankThrough(t[order[q]]) <= RankThrough(t[i])
    {
      assert bestCost[q] <= RankThrough(t[i]);
    }
  }

  /** Shifting at an insertion position keeps the array a prefix of the longer list. */
  lemma ShiftHolds(t: Table, best: seq<int>, bestCost: seq<nat>, order: seq<int>, i: int, p: nat,
                   newBest: seq<int>, newCost: seq<nat>)
    requires 0 <= i < |t| && Eligible(t[i]) && Holds(t, best, bestCost, order) && p <= |order|
    requires |newBest| == |newCost| == MAX_PARENTS
    requires forall q {:trigger newBest[q]} :: 0 <= q < MAX_PARENTS ==>
      newBest[q] == if q < p then best[q] else if q == p then i else best[q - 1]
    requires forall q {:trigger newCost[q]} :: 0 <= q < MAX_PARENTS ==>
      newCost[q] == if q < p then bestCost[q] else if q == p then RankThrough(t[i]) else bestCost[q - 1]
    ensures Holds(t, newBest, newCost, order[..p] + [i] + order[p..])
  {
    var r := order[..p] + [i] + order[p..];
    assert forall q {:trigger r[q]} :: 0 <= q < |r| ==>
      r[q] == if q < p then order[q] else if q == p then i else order[q - 1];
    forall q | 0 <= q < MAX_PARENTS
      ensures newBest[q] == if q < |r| then r[q] else -1
      ensures newCost[q] == if q < |r| then RankThrough(t[r[q]]) else RANK_INFINITE
    {
    }
  }

  lemma HoldsMembers(t: Table, best: seq<int>, bestCost: seq<nat>, order: seq<int>)
    requires Holds(t, best, bestCost, order)
    ensures forall j :: j in best ==> -1 <= j < |t|
    ensures forall j :: 0 <= j ==> (j in best <==> j in order[..Min(MAX_PARENTS, |order|)])
  {
    var top := order[..Min(MAX_PARENTS, |order|)];
    forall j | 0 <= j && j in top
      ensures j in best
    {
      var q :| 0 <= q < |top| && top[q] == j;
      assert best[q] == j;
    }
  }

  /** The head of the parent array once hysteresis has had its say. */
  ghost predicate Head(t: Table, order: seq<int>, h: int)
    requires InTable(t, order) && order != []
  {
    var top := order[..Min(MAX_PARENTS, |order|)];
    var inc := Find(t, ParentAddr(t));
    var swap := ParentAddr(t) != ADDR_INVALID && t[order[0]].addr != ParentAddr(t) && inc >= 0 && inc in top
      && RankThrough(t[inc]) <= RankThrough(t[order[0]]) + RANK_HYSTERESIS;
    h == if swap then inc else order[0]
  }

  lemma HeadIsPrimary(t: Table, order: seq<int>, h: int)
    requires Ranking(t, |t|, order) && order != [] && Head(t, order, h)
    ensures IsPrimary(t, h) && RankedBy(t, RankThrough(t[h]), h)
  {
    PrefixIsTop(t, order, MAX_PARENTS);
    var l := order[0];
    LeaderUnique(t, l);
    var inc := Find(t, ParentAddr(t));
    assert inc >= 0 ==> (InTop(t, inc, MAX_PARENTS) <==> inc in order[..Min(MAX_PARENTS, |order|)]);
    if h != l {
      assert Keeps(t, h, l);
    } else {
      assert forall i :: Keeps(t, i, l) ==> i == inc;
    }
  }

  lemma {:induction false} SameFlagsSameParent(a: Table, b: Table)
    requires |a| == |b| && forall i :: 0 <= i < |a| ==> b[i] == a[i].(advDone := false)
    ensures ParentAddr(a) == ParentAddr(b)
  {
    if a != [] {
      SameFlagsSameParent(a[1..], b[1..]);
    }
  }

  lemma SwapMembers(a: seq<int>, s: nat)
    requires 0 < s < |a|
    ensures forall j :: j in a[s := a[0]][0 := a[s]] <==> j in a
  {
    var b := a[s := a[0]][0 := a[s]];
    forall j | j in a
      ensures j in b
    {
      var q :| 0 <= q < |a| && a[q] == j;
      assert b[if q == 0 then s else if q == s then 0 else q] == j;
    }
  }

  lemma LeaderUnique(t: Table, l: int)
    requires IsLeader(t, l)
    ensures forall m :: IsLeader(t, m) ==> m == l
    ensures RankedBy(t, RankThrough(t[l]), l)
  {
    forall m | IsLeader(t, m)
      ensures m == l
    {
      assert !Before(t, l, m) && !Before(t, m, l);
    }
  }
}
