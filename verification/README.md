# LockGrid: a verified model

LockGrid is a mesh MAC: nodes keep a rank towards the nearest backhaul, hold scheduled links to
their neighbours, and hop over a shared channel map. This project models its protocols in Dafny
and proves what they keep. `dafny verify dfyconfig.toml` checks all of it.

Code that updates state in place is a class or a method with loops, proved against a specification
over values; what the protocol promises is then proved about that specification, over every input,
every run or every network.

| module | what it covers |
|---|---|
| `Config`, `Arith`, `Bytes` | build-time configuration (each option a constant of its legal range, so results hold for every configuration), arithmetic facts, buffers |
| `Route`, `Walks`, `Network` | one node's parent selection; walks to a backhaul; a converged grid |
| `Collapse`, `Convergence` | advertisement rounds in a grid that has lost its last backhaul; and in one with backhauls, links standing still |
| `Metric`, `Role` | link quality and cost; leaf, router and backhaul |
| `Schedule`, `Agreement`, `Subrate` | event numbers; parameter changes agreed over a lossy link; subrating and supervision |
| `Handshake`, `Fragments` | turn-taking in the join handshake, whatever is heard; its messages in fragments |
| `Assembly`, `Exchange` | what is heard: fragments of several responses put together; a whole handshake on the air, with its keys |
| `Words`, `Hop`, `ChanMap` | the hop sequence and its spread; upkeep of the channel map |
| `Replay`, `Ring`, `Scheduler` | replay window and nonces; the receive ring; the single radio slot |
| `Beacon`, `Forward`, `Downward` | what beacons promise; forwarding and duplicates; the downward routing table |

## What the model found

Where the code does less than its comments say, the model follows the code. Each item names the lemma
that gives the exact condition.

- The acyclicity test in `lg_route_recompute` excludes nobody, since link costs are positive
  (`Route.AcyclicityTestIsVacuous`). What makes ranks fall along primaries is the cost floor of 16.
- `lg_parent` reports the first flagged entry of the table. That is the primary, the one the rank comes
  from, exactly when no parent precedes it (`Route.ReportedIsPrimaryIff`). The grid theorems follow the
  primary.
- Hysteresis protects the reported parent, not the primary, and nothing at all with one parent slot
  (`Route.PrimaryStaysIff`; `Route.PrimaryMayNotStay` is an input).
- `anchor_catch_up` ends exactly when the last active event of the sixteen-bit range meets the deadline
  (`Schedule.CatchUpEndsIff`). An end that a change of subrate leaves past that event wraps and lands on an
  earlier-numbered one (`Schedule.LandsEarlierIff`, `Schedule.WrapIsReachable`).
- A parameter change splits the ends exactly when its frame arrived, no reply to it was ever heard,
  and it falls due while it would move the link (`Agreement.EventAgreement`).
- An end of a handshake that is refused a transmit slot, comes too late for one or lets it pass keeps its
  turn while the other takes its own, and then both owe or neither. Turns are kept exactly when the number
  of such slots is even (`Handshake.TurnTaking`); after an odd number, left alone, the exchange fails. The
  header comment of `lg_join.c` says a dropped slot is harmless.
- Fragments of a half-received message can mix with those of a later one of the same type. Reassembly is
  exact from a given buffer under the condition of `Fragments.ExactIffSafe`, and always from fragment 0 on.
- The window that opens after a beacon is the one it promised exactly when all three copies were sealed
  and granted (`Beacon.WindowIff`). `join_offset_us` is documented as measured from the end of the beacon;
  the code measures it from the start of the copy, at both ends.
- A retune that moves a beacon moves what listeners predict by as much (`Beacon.Predicted`); otherwise a
  prediction is right exactly when the event is settled in time (`Beacon.EveryListenerIsRight`).
- The supervision timeout travels in a sixteen-bit field. Two misses in a row are survived exactly when the
  timeout, as sent, holds three intervals (`Subrate.TwoMissesDoNotSupervise`,
  `Subrate.WithoutRoomTwoMissesSupervise`). An accepted tuning has that room unless its timeout overflows the
  field; a configured one need not (`Subrate.ConfiguredTuningHasRoomIff`).
- A full handshake survives up to three lost messages exactly when the final one is not among them and the
  joiner never completes a response out of two. Each repeated request draws a new response, and reassembly starts afresh
  only on fragment 0, so fragment 0 of one response and the rest of the next complete as an invalid
  message, which is fatal (`Exchange.BothUpIff`; `Exchange.MixtureFails` is an input).
- No resumption brings its joiner up: the response is sealed under a key only the router derives, and
  `lg_sec_decrypt` refuses it for want of a key. The router is up once it has sent it
  (`Exchange.ResumptionSplits`). The comments of `lg_join.c` and `lg_link.c` call resumption the fast way back.
- Counters restart with every installation of a key, also of the key in use. A response that comes again after
  a lost confirmation is installed again, and the next confirmation repeats the nonce of the first
  (`Exchange.JoinerRepeatsIff`, `Replay.KeyRepeatsIff`; `Exchange.LostConfirmationRepeats` is an input).
- The probe flag of a retired channel never decides whether it returns (`ChanMap.ReturnNeedsMeasurement`).
- Which candidate the scheduler picks can depend on the order of its list, exactly when a chain of
  contenders leads out of the earliest one's window to something above all in it (`Scheduler.OrderFreeIff`).
- `LOCKGRID_REPLAY_WINDOW` may be configured up to 64, but a counter 32 or more behind the highest is always
  turned away (`Replay.LinkKey.ReplayCheck`, with `Replay.Window` as the smaller of the two).

## Model

| member | source | states |
|---|---|---|
| Route.Node.Recompute | subsys/lockgrid/lg_route.c:115-227 | A backhaul gets rank 0 and no parents. Otherwise exactly the MAX_PARENTS most preferred eligible entries are flagged, the rank is the cost through the primary or infinite, and the change, urgency and route-lost signals say exactly what changed. |
| Route.Node.RankCandidates | subsys/lockgrid/lg_route.c:131-163 | The insertion loops leave the parent array holding the head of the full ranking of eligible entries, ties in table order. |
| Route.Node.PlaceCandidate | subsys/lockgrid/lg_route.c:152-162 | One candidate is put at its place in the ranking, or dropped because it lies past the array. |
| Route.Node.ShiftIn | subsys/lockgrid/lg_route.c:154-159 | Entries from the slot on move down one, the last falls out, the candidate takes the slot. |
| Route.Node.KeepIncumbent | subsys/lockgrid/lg_route.c:165-185 | The head is the reported parent if it is in the set and within the hysteresis of the leader, else the leader; no member is added or lost. |
| Route.Node.SelectParents | subsys/lockgrid/lg_route.c:131-197 | The three stages together choose the parent set and the rank. |
| Route.Find | subsys/lockgrid/lg_neigh.c:45-51 | The first entry in use with an address, if there is one. |
| Route.Node.SetParents | subsys/lockgrid/lg_route.c:187-194 | Exactly the members of the parent array are flagged. |
| Route.PositionCounts | subsys/lockgrid/lg_route.c:135-163 | An entry's place in the ranking is the number of eligible entries preferred to it. |
| Route.ShiftHolds | subsys/lockgrid/lg_route.c:153-160 | Shifting at an insertion position keeps the array the head of the longer ranking. |
| Route.LeaderUnique | subsys/lockgrid/lg_route.c:135-163 | There is one cheapest entry once table order breaks ties. |
| Route.InsertRanks | subsys/lockgrid/lg_route.c:135-163 | Inserting the next eligible entry keeps the list of candidates a ranking of all seen so far. |
| Route.PrefixIsTop | subsys/lockgrid/lg_route.c:152-162 | The first k of the ranking are exactly the k cheapest eligible entries, ties by table order. |
| Route.HeadIsPrimary | subsys/lockgrid/lg_route.c:165-197 | The head after hysteresis is the primary, and its cost is within RANK_HYSTERESIS of every eligible entry. |
| Route.PrimaryIsParent | subsys/lockgrid/lg_route.c:165-197 | The entry the rank comes from is one of the flagged parents with bounded regret. |
| Route.ReportedIsPrimaryIff | subsys/lockgrid/lg_route.c:229-237 | The reported parent is the entry the rank comes from iff no parent precedes that entry in the table. |
| Route.PrimaryIff | subsys/lockgrid/lg_route.c:165-197 | The primary is the reported entry while it is among the parents and within the hysteresis, else the cheapest. |
| Route.PrimaryStaysIff | subsys/lockgrid/lg_route.c:40-43 | Across two recomputes a primary no rival clearly beats stays iff it is the reported parent and still among the parents, or it is the cheapest and the reported one is out of contention. |
| Route.PrimaryMayNotStay | subsys/lockgrid/lg_route.c:165-185 | An input: a rival two sixteenths cheaper takes over, because the reported parent is another one and too dear to protect itself. |
| Route.HysteresisIdleWithOneSlot | subsys/lockgrid/lg_route.c:165-185 | With one parent slot hysteresis never acts. |
| Route.RankRuleRange | subsys/lockgrid/lg_route.c:101-129 | A recomputed rank is infinite iff nothing is eligible, and otherwise at least one perfect hop and below the ceiling. |
| Route.AcyclicityTestIsVacuous | subsys/lockgrid/lg_route.c:144-150 | With positive link costs the acyclicity test excludes nobody that the ceiling admits, although its comment says otherwise. |
| Route.SingleParentIsPrimary | subsys/lockgrid/lg_route.c:229-237 | With one parent slot the reported parent is always the primary. |
| Route.ReportedParentMayNotBePrimary | subsys/lockgrid/lg_route.c:229-237 | A table, flagged by a recompute, whose reported parent is much dearer than the entry the rank comes from. |
| Network.ForestRootedAtBackhauls | subsys/lockgrid/lg_route.c:101-197 | In a converged grid, following primaries from any routed node loses at least 16 rank a hop, ends at a backhaul, and is as short as the rank says. |
| Network.ClimbIsAcyclic | subsys/lockgrid/lg_route.c:101-197 | The climb never repeats a node and takes fewer than MAX_RANK / 16 + 1 hops. |
| Network.PrimaryStep | subsys/lockgrid/lg_route.c:101-113 | A primary is a linked, routed node, and the rank is its rank plus the cost of the link. |
| Network.RankBelowCeiling | subsys/lockgrid/lg_route.c:101-129 | Finite ranks lie below the ceiling, and only a backhaul has rank 0. |
| Network.RankNearlyShortest | subsys/lockgrid/lg_route.c:165-197 | No walk to a backhaul is cheaper than the rank by more than the hysteresis per hop. |
| Network.RankIsAttained | subsys/lockgrid/lg_route.c:101-197 | The rank of a routed node is the exact cost of some walk to a backhaul. |
| Network.UnroutedMeansFar | subsys/lockgrid/lg_route.c:101-113 | A node without a route has no walk to a backhaul below the ceiling, hysteresis per hop included. |
| Collapse.StepKeepsRound | subsys/lockgrid/lg_route.c:453-497 | Every step of a grid without backhauls - build, loss, advertisement, beacon, link up or down, recompute, cost change - keeps the bounds of the current advertisement round. |
| Collapse.RoundRaises | subsys/lockgrid/lg_route.c:101-227 | A complete round raises the least finite rank, stored or in flight, by at least 16. |
| Collapse.NoSinkCollapse | subsys/lockgrid/lg_route.c:75-113 | After ceil(MAX_RANK / 16) complete rounds in any order with any loss and churn every rank is infinite, and stays so. |
| Collapse.RecomputeClimbs | subsys/lockgrid/lg_route.c:101-113 | A recompute over entries at or above a bound yields a rank one perfect hop above it, or none. |
| Collapse.RoundsRaise | subsys/lockgrid/lg_route.c:453-497 | k complete rounds raise every bound by 16 k. |
| Collapse.BuildKeepsRound | subsys/lockgrid/lg_route.c:345-377 | An advertisement carries its builder's rank of that moment. |
| Collapse.EntryKeepsRound | subsys/lockgrid/lg_route.c:453-497 | Storing a peer's rank, or losing a link, and recomputing keeps the bounds of the round. |
| Collapse.BeaconKeepsRound | subsys/lockgrid/lg_disc.c:887-901 | So does storing a beacon's rank without recomputing. |
| Convergence.RanksConverge | subsys/lockgrid/lg_route.c:75-227 | With links standing still, after ceil(MAX_RANK / 16) complete rounds from any stored ranks and any own ranks, infinite or below the ceiling, and for good, a finite rank is at least the cost of some walk to a backhaul, and no affordable walk is cheaper by more than the hysteresis of its hops. |
| Convergence.RanksAfterRounds | subsys/lockgrid/lg_route.c:453-497 | After k complete rounds every rank is at least the true distance, or 16 k while that is less, and at most the price of the best walk of up to k hops. |
| Convergence.RoutedWithinHysteresis | subsys/lockgrid/lg_route.c:101-113 | In the end a node with an affordable walk is routed, and a routed node has a walk below the ceiling; between the two lies only the hysteresis of the hops. |
| Convergence.AnythingIsBounded | subsys/lockgrid/lg_disc.c:887-901 | Whatever ranks are stored or in flight, such a state is one the rounds can start from; no recompute need have happened. |
| Convergence.RecomputeImproves | subsys/lockgrid/lg_route.c:115-197 | From entries good for k - 1 rounds a recompute takes a rank good for k. |
| Convergence.RoundImproves | subsys/lockgrid/lg_route.c:453-497 | A complete round makes every rank, stored or in flight, one level better. |
| Convergence.StepKeepsRound | subsys/lockgrid/lg_route.c:453-497 | Every build, loss, advertisement, beacon and recompute keeps the bounds of the current round. |
| Convergence.WalkCostFloor | subsys/lockgrid/lg_neigh.c:138-147 | A walk costs at least 16 for each of its hops. |
| Metric.Quality.TxResult | subsys/lockgrid/lg_neigh.c:98-131 | One attempt: the estimate is that of the whole history, the cost follows it, misses count or clear, the error rate is that of the attempts in the window. |
| Metric.Quality.UpdateCost | subsys/lockgrid/lg_neigh.c:138-147 | An updated cost lies in 16..135, so the cap below infinity is never needed. |
| Metric.Quality.RxRssi | subsys/lockgrid/lg_neigh.c:133-136 | The first sample seeds the average; once known, strength stays known and moves no further than the sample. |
| Metric.Quality.constructor | subsys/lockgrid/lg_neigh.c:61-73 | A new record has a perfect estimate, no signal strength and no cost. |
| Metric.Quality.CountAttempt | subsys/lockgrid/lg_neigh.c:100-128 | Misses and the error rate count this attempt, and the counters stay below 128. |
| Metric.EtxAfter | subsys/lockgrid/lg_neigh.c:110-114 | Over every history of successes and losses the estimate stays in 16..57. |
| Metric.ClampIsIdle | subsys/lockgrid/lg_neigh.c:110-114 | The upper clamp at 128 never acts. |
| Metric.OneMore | subsys/lockgrid/lg_neigh.c:110-114 | A success strictly lowers the estimate unless it is 16, a loss strictly raises it unless it is 57. |
| Metric.EighteenSettle | subsys/lockgrid/lg_neigh.c:110-114 | Eighteen equal outcomes bring the estimate to 16 or 57 from any history. |
| Metric.SeventeenMayNotSettle | subsys/lockgrid/lg_neigh.c:110-114 | Seventeen successes are not always enough. |
| Metric.BetterNeverLooksWorse | subsys/lockgrid/lg_neigh.c:98-114 | A history with successes where another has losses never yields a higher estimate. |
| Role.RoleKeeper.Evaluate | subsys/lockgrid/lg_role.c:156-211 | Without a change of the uplink only leaf and router trade places, only after the dwell time, and exactly as the surroundings decide. |
| Role.RoleKeeper.EvaluateNow | subsys/lockgrid/lg_role.c:156-211 | The evaluation, both as a periodic review and on a change of the uplink. |
| Role.RoleKeeper.Apply | subsys/lockgrid/lg_role.c:96-134 | A change takes the role, logs its time and recomputes the rank, which then fits the role. |
| Role.RoleKeeper.Refresh | subsys/lockgrid/lg_role.c:108-121 | Recomputing makes the rank fit the role. |
| Role.RoleKeeper.NoteUnrouted | subsys/lockgrid/lg_role.c:213-216 | Notes when a node without a route was heard. |
| Role.RoleKeeper.BackhaulSet | subsys/lockgrid/lg_role.c:218-233 | The role follows the uplink at once: backhaul when it comes up, router when it goes. |
| Role.RoleKeeper.Start | subsys/lockgrid/lg_role.c:136-154 | A start takes backhaul at rank 0 or leaf without a rank. |
| Role.RoleKeeper.NeighbourChanged | subsys/lockgrid/lg_route.c:115-129 | Whatever changes in the table, rank 0 stays the backhaul's and any other rank lies in 16..MAX_RANK-1 or is infinite. |
| Role.RoleKeeper.RoutersHeard | subsys/lockgrid/lg_role.c:57-73 | Counts the entries in use that are not leaves and have a rank. |
| Role.RoleKeeper.HasChildren | subsys/lockgrid/lg_role.c:76-86 | Says whether a live downward route exists. |
| Role.UnforcedChangesAreRare | subsys/lockgrid/lg_role.c:178-181 | In any run of unforced changes the k-th comes at least k dwell times of 15 s after the first. |
| Role.ChoiceStands | subsys/lockgrid/lg_role.c:185-210 | In the same surroundings, or with one router more or less, a choice is not reversed. |
| Role.DecisionsDoNotChase | subsys/lockgrid/lg_role.c:201-210 | No surroundings, nor two that differ by one router, call for both promotion and demotion. |
| Schedule.NextActiveIsLeast | subsys/lockgrid/lg_link.c:146-151 | The next active event is the least multiple of the subrate after the present one, short of wrap. |
| Schedule.LinkClock.CounterIsEvent | subsys/lockgrid/lg_link.c:117-123 | On the grid, the event number derived from time is the event loaded. |
| Schedule.LinkClock.Establish | subsys/lockgrid/lg_link.c:228-235 | Event zero is the anchor both ends took from the JOIN_ACK frame. |
| Schedule.LinkClock.Advance | subsys/lockgrid/lg_link.c:191-193 | An advance loads the next active event and stays on the grid epoch + c * interval. |
| Schedule.LinkClock.Resync | subsys/lockgrid/lg_link.c:601-608 | Re-anchoring on a frame never changes which event it is. |
| Schedule.LinkClock.CatchUp | subsys/lockgrid/lg_link.c:154-175 | Whenever the loop ends it ends at the first active event from the start on that meets the deadline, or, from past the last active event, at one below the start. |
| Schedule.SkipsDoNotDiverge | subsys/lockgrid/lg_link.c:125-175 | Two ends with deadlines in the same gap load the same event, whatever each had skipped. |
| Schedule.CommonDeadline | subsys/lockgrid/lg_link.c:153-175 | Two ends that start at or before a common deadline load the same event, the least active one at or after it. |
| Schedule.EndsMeet | subsys/lockgrid/lg_link.c:117-175 | Over whole runs of skips, loads, re-anchoring and new subrates, two ends on one grid that catch up with a common deadline under one subrate load the same event, the least active one at or after it, at the same instant. |
| Schedule.HeardRestoresSkew | subsys/lockgrid/lg_link.c:601-609 | A frame heard puts the grids back in step however far the clocks had drifted. |
| Schedule.RunStaysOnGrid | subsys/lockgrid/lg_link.c:125-217 | No run leaves the grid, and only a frame heard moves it. |
| Schedule.SameEventSameInstant | subsys/lockgrid/lg_join.c:899-913 | Ends anchored on one frame mean the same instant by the same event number and by no other, whatever their clocks differ by. |
| Schedule.LinkClock.AnchorSet | subsys/lockgrid/lg_link.c:131-135 | Loading an event puts the anchor on the grid. |
| Schedule.LastActive | subsys/lockgrid/lg_link.c:146-151 | The largest active event of the sixteen-bit range. |
| Schedule.NextWithin | subsys/lockgrid/lg_link.c:146-151 | Event numbers never pass it: they wrap below a step. |
| Schedule.HorizonExact | subsys/lockgrid/lg_link.c:171-174 | An event at or after where an end stands that meets the deadline exists within sixteen bits iff the last active one is not behind it and meets the deadline. |
| Schedule.CatchUpNeverEnds | subsys/lockgrid/lg_link.c:164-174 | While the last active event misses the deadline no number of turns of the loop reaches it. |
| Schedule.CatchUpEndsIff | subsys/lockgrid/lg_link.c:164-174 | From any event and for any deadline, catching up ends iff the last active event of the sixteen-bit range meets the deadline. |
| Schedule.ReachesLastActive | subsys/lockgrid/lg_link.c:171-174 | Enough advances load the last active event from anywhere: at most one wraps, the others climb. |
| Schedule.Climbs | subsys/lockgrid/lg_link.c:146-151 | Below the last active event an advance climbs to the least active one above. |
| Schedule.PastLastActive | subsys/lockgrid/lg_link.c:146-151 | Nothing past the last active event is active. |
| Schedule.LandsWhereItEnds | subsys/lockgrid/lg_link.c:157-175 | The event the loop ends at, after its least number of advances, is the one `LandsOn` describes, and no other is. |
| Schedule.LandsEarlierIff | subsys/lockgrid/lg_link.c:164-174 | The loop ends at an event numbered below its start iff it started past the last active event. |
| Schedule.WrapIsReachable | subsys/lockgrid/lg_link.c:164-174 | Such a start is reached by a change of subrate from 16 to 22 on event 65520; catching up then ends at an earlier-numbered event although none from there on would do. |
| Agreement.EventAgreement | subsys/lockgrid/lg_link.c:191-217 | After any event the ends are in step iff it was not the split: a change fell due, had been delivered, would move the link, and no reply was ever heard. |
| Agreement.InitiatorAppliesTogether | subsys/lockgrid/lg_link.c:203-216 | When the initiator applies a change, the responder applies the same value at the same event. |
| Agreement.RunAgreement | subsys/lockgrid/lg_link.c:663-683 | Over every run of losses and proposals the ends agree for ever, or some event was the split. |
| Agreement.SplitIsReachable | subsys/lockgrid/lg_link.c:203-216 | The split happens: one map frame arrives and everything after it is lost. |
| Agreement.EchoIsHarmless | subsys/lockgrid/lg_link.c:357-381 | A responder echoing a pending change never alters the initiator. |
| Agreement.SettleBeforeDue | subsys/lockgrid/lg_link.c:663-683 | Before the instant an open change stays open and restaged at both ends. |
| Agreement.SettleWhenDue | subsys/lockgrid/lg_link.c:191-217 | At the instant the initiator applies iff it heard a reply, the responder iff it got the frame. |
| Agreement.SettleFresh | subsys/lockgrid/lg_link.c:663-683 | After a change is closed both ends are in step again, and a new one may open, unless they split. |
| Agreement.ProposingKeeps | subsys/lockgrid/lg_sched.c:423-438 | Proposing a new map keeps the ends agreed. |
| Agreement.ExchangeKeeps | subsys/lockgrid/lg_link.c:581-590 | An exchange changes only what each end has learned: the frame at one, the reply at the other. |
| Agreement.LinkEnd.AdvanceEvent | subsys/lockgrid/lg_link.c:191-217 | The in-place update is the step the agreement theorems speak about. |
| Agreement.LinkEnd.CatchUp | subsys/lockgrid/lg_link.c:164-169 | An event the subrate does not select is passed over. |
| Agreement.LinkEnd.UpdateSubrate | subsys/lockgrid/lg_link.c:469-499 | The in-place update is the step the agreement theorems speak about. |
| Agreement.LinkEnd.StageTx | subsys/lockgrid/lg_link.c:357-382 | A pending map goes before a pending subrate, either before anything else. |
| Agreement.LinkEnd.ReceiveCtrl | subsys/lockgrid/lg_link.c:697-717 | A control frame opens the change it names, alike at both ends. |
| Agreement.LinkEnd.EventFinish | subsys/lockgrid/lg_link.c:676-683 | Advance, then subrate, then staging: a staged frame always speaks of the event it is sent in. |
| Subrate.MeetAtLcmMultiples | subsys/lockgrid/lg_link.c:140-151 | Ends with subrates s and t are awake together exactly at the multiples of lcm(s, t). |
| Subrate.LcmExists | subsys/lockgrid/lg_link.c:140-151 | They do meet, at the latest every s * t events. |
| Subrate.CeilingIsLargest | subsys/lockgrid/lg_core.c:360-378 | The ceiling is the largest subrate up to 32 for which three active events fit in the timeout, or 1. |
| Subrate.Tuning.Set | subsys/lockgrid/lg_core.c:405-427 | Any request becomes settings that fit together: intervals clamped, timeout four intervals, the largest subrate that fits, scan and beacon settings at their floors or above. |
| Subrate.LimitFits | subsys/lockgrid/lg_link.c:225-239 | The limit a link is established with fits its timeout iff the timeout as sent holds three intervals, and is 1 otherwise. |
| Subrate.AcceptedTuningNeverStarves | subsys/lockgrid/lg_join.c:255-269 | From any accepted tuning whose timeout fits its sixteen-bit field, the initiator's limit satisfies 3 * subrate * interval <= timeout. |
| Subrate.OverflowedTimeoutStarves | subsys/lockgrid/lg_join.c:263 | A timeout too long for the field can arrive as none, and then nothing fits. |
| Subrate.SubrateStaysWithin | subsys/lockgrid/lg_link.c:469-499 | Over every run neither end's subrate passes the limit, split or not. |
| Subrate.TwoMissesDoNotSupervise | subsys/lockgrid/lg_link.c:311-334 | On every link whose timeout, as sent, holds three intervals, in every run and at either end, two active events missed in a row never trigger supervision, with a change of subrate falling due in the gap included. |
| Subrate.WithoutRoomTwoMissesSupervise | subsys/lockgrid/lg_link.c:311-334 | Without that room the same two misses do trigger it in every run when the second is noticed one interval late. |
| Subrate.ConfiguredTuningHasRoomIff | subsys/lockgrid/lg_core.c:380-396 | The tuning a node boots with has that room iff the configured timeout, in whole centiseconds, holds three intervals. |
| Subrate.SecondIsTwoOn | subsys/lockgrid/lg_link.c:191-217 | A link that may not subrate takes every event. |
| Subrate.TwoMissesAreNear | subsys/lockgrid/lg_link.c:154-217 | From an event heard to the second one missed after it is less than three steps of the largest subrate, change and catching up included. |
| Subrate.LoadNext | subsys/lockgrid/lg_link.c:191-217 | An event on is one step, and less than one step of the new subrate more if it changes; an end that heard nothing since cannot change again. |
| Subrate.TwoMissesAtOneSubrate | subsys/lockgrid/lg_link.c:329-333 | While the subrate stays, the second miss may be noticed at any time before the third event. |
| Subrate.Tuning.constructor | subsys/lockgrid/lg_core.c:380-396 | A node boots with its configured settings, the subrate the largest configured one that fits; they are as good as accepted ones iff nothing in them needs raising. |
| Handshake.TurnTaking | subsys/lockgrid/lg_join.c:834-967 | From the router's first reply until an end is done, exactly one end owes iff an even number of turns was held - transmit slots refused, slots dropped late, slots let pass - under any loss and any refused receive slots. |
| Handshake.NeverBothOwe | subsys/lockgrid/lg_join.c:915-927 | Without held turns the ends never both owe. |
| Handshake.TurnStep | subsys/lockgrid/lg_join.c:834-854 | A turn held by one end flips between one end owing and both or neither. |
| Handshake.DialogueNeverReopens | subsys/lockgrid/lg_join.c:885-913 | Once an end has come up or failed the dialogue is over for good. |
| Handshake.OddRefusalsAreFatal | subsys/lockgrid/lg_join.c:940-958 | After an odd number of held turns, without another, the joiner fails within eight slots. |
| Handshake.OneRefusalStalls | subsys/lockgrid/lg_join.c:834-854 | One refused transmit slot does leave both ends owing. |
| Handshake.StalledSlot | subsys/lockgrid/lg_join.c:915-944 | While both or neither owe and no turn is held, nothing gets across and idle slots count up. |
| Handshake.SlotKeepsValid | subsys/lockgrid/lg_join.c:875-967 | Every slot keeps the two ends' messages matching, their counts below the limits, and a joiner up only with its router. |
| Handshake.JoinerIsHeard | subsys/lockgrid/lg_join.c:1038-1061 | In an undisturbed slot the router takes in the message and owes the answer. |
| Handshake.RouterIsHeard | subsys/lockgrid/lg_join.c:1047-1085 | In a full handshake, the joiner takes in the router's message too; the last one brings both up in the same slot. |
| Handshake.EndsWithinSlotLimit | subsys/lockgrid/lg_join.c:952-962 | An end has come up or failed once it has settled slot_limit slots. |
| Handshake.SlotRises | subsys/lockgrid/lg_join.c:952 | The slot number rises with every slot settled. |
| Handshake.JoinerUpMeansRouterUp | subsys/lockgrid/lg_join.c:899-913 | A joiner that is up has a router that is up. |
| Handshake.UndisturbedCompletes | subsys/lockgrid/lg_join.c:1038-1111 | Four undisturbed slots of a full handshake bring both ends up. |
| Handshake.UpIffUnspoiled | subsys/lockgrid/lg_join.c:875-967 | Whatever is heard: with at most three messages lost, each costing two slots, both ends come up iff nothing complete was invalid and the final message was not lost. |
| Handshake.SpoiledIsDoomed | subsys/lockgrid/lg_join.c:890-913 | A slot that spoils a handshake leaves it beyond repair: an end has failed, or the router is up without its joiner. |
| Handshake.DoomedStays | subsys/lockgrid/lg_join.c:875-967 | And it stays so under every later slot. |
| Handshake.CourseStep | subsys/lockgrid/lg_join.c:915-962 | A slot that spoils nothing brings the end one nearer, or costs one slot and patience for a loss, or is the last. |
| Handshake.FourLossesAreFatal | subsys/lockgrid/lg_join.c:940-958 | Four lost requests in a row make the joiner give up. |
| Handshake.FinalLossIsFatal | subsys/lockgrid/lg_join.c:890-913 | Losing the final message always fails the joiner: the router comes up on sending it and does not send it again. |
| Handshake.Driver.EventFinish | subsys/lockgrid/lg_join.c:875-967 | The in-place settling is the step the theorems speak about, failures included. |
| Handshake.Driver.BeginSlot | subsys/lockgrid/lg_join.c:750-854 | Transmit if something is owed, else listen; a refused slot clears the marks of both; a dropped one begins nothing. |
| Handshake.Driver.ReceiveMessage | subsys/lockgrid/lg_join.c:979-1112 | A whole valid message stages the answer or completes the exchange, an invalid one fails it. |
| Assembly.FragmentCount | subsys/lockgrid/lg_join.c:275-288 | Requests take two fragments, responses three and every other handshake message one, whatever tag length is configured. |
| Assembly.TakeRefines | subsys/lockgrid/lg_join.c:320-367 | The marks with message tags stand for the real buffer, bits and length: both complete on the same fragment, and what is complete is the message sent if all marks name it. |
| Assembly.ResponseHeard | subsys/lockgrid/lg_join.c:351-366 | A response completes invalid iff its first fragment is missing, the one held is of an older response, and what arrives completes that; all fragments arriving always completes it. |
| Exchange.BothUpIff | subsys/lockgrid/lg_join.c:320-1112 | Over every pattern of lost fragments with at most three messages lost in whole or part, both ends come up iff fragment 0 of the final message arrived and no reception completed out of two responses. |
| Exchange.SpoilsIff | subsys/lockgrid/lg_join.c:979-1112 | On course a slot spoils the handshake iff it completes a response out of two at the joiner or loses the final message; every other reception is valid. |
| Exchange.LossLosesAFragment | subsys/lockgrid/lg_join.c:320-367 | A message whose every fragment arrives is never lost; secured ones find the key they need. |
| Exchange.MixtureFails | subsys/lockgrid/lg_join.c:1053-1058 | An input: the request, fragment 0 of its response, the request again, fragments 1 and 2 of the new response. At most one message is lost of the three allowed, and the joiner fails. |
| Exchange.SoundStep | subsys/lockgrid/lg_join.c:420-565 | Every slot keeps the marks ordered by generation, and both ends' keys equal whenever the joiner confirms. |
| Exchange.RunsAgree | subsys/lockgrid/lg_join.c:875-1112 | A run on the air is a run of the handshake driver that hears what the fragments and keys give it. |
| Exchange.ResumptionSplits | subsys/lockgrid/lg_join.c:601-624 | In every resumption the joiner never comes up and fails once its slots are used up, while the router is up iff it has sent its answer: only the router derives the key that answer is sealed under. |
| Exchange.UndisturbedResumption | subsys/lockgrid/lg_join.c:601-624 | An input: two undisturbed slots of a resumption leave the router up and the joiner not. |
| Exchange.RouterNeverRepeats | subsys/lockgrid/lg_join.c:420-499 | The router seals at most one frame in a handshake, and repeats no nonce under any key. |
| Exchange.JoinerRepeatsIff | subsys/lockgrid/lg_join.c:501-565 | Over every run, the joiner repeats a nonce under one key iff it confirms again after taking in the response again. |
| Exchange.ConfirmationsAreFresh | subsys/lockgrid/lg_sec.c:168-197 | The replay filter admits every confirmation that reaches the router, although the joiner starts its counters again. |
| Exchange.LostConfirmationRepeats | subsys/lockgrid/lg_join.c:501-565 | An input: one lost confirmation makes the joiner install the same key again and repeat a nonce. |
| Fragments.OnlyTheMessage | subsys/lockgrid/lg_join.c:351-366 | Once fragment 0 has arrived, whatever the buffer held, only exactly the message is ever completed. |
| Fragments.ExactIffSafe | subsys/lockgrid/lg_join.c:320-367 | From any buffer, every sequence of a message's fragments completes exactly the message or nothing iff the type differs, one fragment is all, fragment 0 is unseen, a mark past the end is set, or what will not be written again is the message's. |
| Fragments.SafeMeansExact | subsys/lockgrid/lg_join.c:344-366 | Losses, repeats, reordering and partial passes from a safe buffer complete only the message. |
| Fragments.UnsafeMeansInexact | subsys/lockgrid/lg_join.c:344-366 | From any other buffer some sequence completes something else. |
| Fragments.AcceptSafe | subsys/lockgrid/lg_join.c:351-366 | A fragment keeps a safe buffer safe. |
| Fragments.FullPassCompletes | subsys/lockgrid/lg_join.c:291-367 | A pass delivered in full completes the message, whatever the buffer held. |
| Fragments.StaleHalfMixes | subsys/lockgrid/lg_join.c:351-366 | An input: the first half of one message and the second of another are taken for a third. |
| Fragments.AcceptHolds | subsys/lockgrid/lg_join.c:344-366 | One fragment keeps everything stored part of the message, and completeness is having seen all. |
| Fragments.Coverage | subsys/lockgrid/lg_join.c:275-305 | Fragments cover the message exactly, all but the last full, never more than four. |
| Fragments.FrameRoundTrip | subsys/lockgrid/lg_join.c:291-342 | The frame of a fragment fits the radio, sealed or not, and opens to the same fragment. |
| Fragments.HeaderRoundTrip | subsys/lockgrid/lg_frame.c:10-41 | A header written is read back by its own network if the frame is long enough, and by no other. |
| Fragments.HeaderPut | subsys/lockgrid/lg_frame.c:10-20 | Writes exactly the eight header bytes and reports the header length. |
| Fragments.BuildFragment | subsys/lockgrid/lg_join.c:291-305 | The buffer starts with exactly the frame of that fragment. |
| Fragments.PutFragment | subsys/lockgrid/lg_join.c:301-304 | Index, total and data go behind the frame header, which stays. |
| Fragments.Reassembler.Reassemble | subsys/lockgrid/lg_join.c:320-367 | The in-place buffer, marks and length are those of the specification, malformed frames included. |
| Fragments.Reassembler.Take | subsys/lockgrid/lg_join.c:344-366 | A fragment is taken, or rejected for its index, total or place, exactly as specified. |
| Fragments.Reassembler.Put | subsys/lockgrid/lg_join.c:356-360 | The data goes to its place and nowhere else, its bit is set, and the last fragment sets the length. |
| Fragments.Reassembler.Clear | subsys/lockgrid/lg_join.c:351-354 | Clearing empties buffer, marks and length and takes the new type. |
| Bytes.CopyIn | subsys/lockgrid/lg_join.c:304 | Copying changes exactly the bytes it covers. |
| Fragments.PatchKeeps | subsys/lockgrid/lg_join.c:356 | Storing one fragment leaves the others' bytes alone. |
| Hop.HopWordInjective | subsys/lockgrid/lg_chan.c:96-138 | Under any seed two counters give two hop words. |
| Hop.HopNumberBijective | subsys/lockgrid/lg_chan.c:130-138 | For every seed, counter to hop word is a bijection on sixteen-bit values. |
| Hop.HopEquidistribution | subsys/lockgrid/lg_chan.c:74-141 | Each of n channels in the map is used floor or ceil of 65536 / n times over all counters, any other never. |
| Hop.HopChannel | subsys/lockgrid/lg_chan.c:130-141 | The loop computes the hop word and picks that position of the map. |
| Hop.Remap | subsys/lockgrid/lg_chan.c:74-93 | The scan finds the channel with exactly index mod n members of the map below it, or the first channel if the map is empty. |
| Hop.PickIsUnique | subsys/lockgrid/lg_chan.c:84-91 | A position picks one channel. |
| Hop.RoundsInjective | subsys/lockgrid/lg_chan.c:134-137 | The rounds of the hop sequence lose no information. |
| Words.PermuteInjective | subsys/lockgrid/lg_chan.c:96-103 | The permutation with its byte swap is injective. |
| Words.Times17Injective | subsys/lockgrid/lg_chan.c:105-108 | So is the multiplication by 17 modulo 2^16. |
| Words.Times1Injective | subsys/lockgrid/lg_chan.c:123 | So is the first multiplier of the mixing step. |
| Words.Times2Injective | subsys/lockgrid/lg_chan.c:125 | So is the second. |
| Words.Fold7Injective | subsys/lockgrid/lg_chan.c:124 | So is each xor with a shifted self. |
| ChanMap.Channels.Reevaluate | subsys/lockgrid/lg_chan.c:204-272 | One evaluation decides each channel in turn; the map keeps its minimum, so the fallback is never taken, and blacklisted stays absence from the map. |
| ChanMap.Channels.Result | subsys/lockgrid/lg_chan.c:143-168 | A frame is counted on its channel and nowhere else; totals stay below 64, rates within 0..1000. |
| ChanMap.Channels.Noise | subsys/lockgrid/lg_chan.c:170-183 | A noise floor moves no further than the sample and never reads as unmeasured again. |
| ChanMap.Channels.constructor | subsys/lockgrid/lg_chan.c:51-67 | All channels in the map, nothing measured. |
| ChanMap.Counted | subsys/lockgrid/lg_chan.c:153-167 | Counting a frame keeps totals below 64 and rates within 0..1000. |
| Arith.PermilleBounds | subsys/lockgrid/lg_chan.c:164-167 | A rate is at most 1000, and is 1000 when every frame was lost. |
| ChanMap.Tally | subsys/lockgrid/lg_chan.c:153-167 | The counters and the rate after one frame are those of the specification. |
| ChanMap.DecidedInOrder | subsys/lockgrid/lg_chan.c:208-255 | Below the bit being decided the map is final, above untouched, and never under the minimum. |
| ChanMap.BitDecided | subsys/lockgrid/lg_chan.c:215-254 | A channel is retired iff bad while the map has room, and returns iff retried and clean. |
| ChanMap.StaysConsistent | subsys/lockgrid/lg_chan.c:204-272 | Evaluation keeps every invariant of the map and its records. |
| ChanMap.KeptOnlyAtMinimum | subsys/lockgrid/lg_chan.c:198-219 | A bad channel is kept iff the map was down to the minimum at its turn; apart from channels that returned after that the map is then no larger. |
| ChanMap.ReturnNeedsMeasurement | subsys/lockgrid/lg_chan.c:230-245 | The probe flag decides nothing: a channel returns iff its noise is measured, low, and its errors few. |
| ChanMap.QuietChannelReturns | subsys/lockgrid/lg_chan.c:233-253 | A quiet retired channel is back after two evaluations at most. |
| ChanMap.DeadChannelIsSeen | subsys/lockgrid/lg_chan.c:159-167 | A channel that loses every frame shows the full error rate within 229 frames, whatever came before. |
| Replay.LinkKey.ReplayCheck | subsys/lockgrid/lg_sec.c:168-197 | Over every sequence of calls a counter is accepted iff nonzero, never accepted before and less than the window behind every accepted one. |
| Replay.LinkKey.Decrypt | subsys/lockgrid/lg_sec.c:199-238 | A frame is accepted iff there is a key, it is long enough, authentic and fresh; a forged one leaves the filter alone. |
| Replay.LinkKey.Encrypt | subsys/lockgrid/lg_sec.c:125-162 | Each sealing draws the next nonce and writes its counter, also when sealing then fails; the ciphertext takes the body's place only on success, and without a key or with a bad length nothing changes. |
| Replay.LinkKey.InstallKey | subsys/lockgrid/lg_sec.c:585-610 | Every installation that succeeds restarts counters and window, also of the key already in use; one that fails leaves no key and the counters as they were. |
| Replay.LinkKey.ForgetKey | subsys/lockgrid/lg_sec.c:612-620 | Without a key nothing is sealed or opened. |
| Replay.PutCounter | subsys/lockgrid/lg_sec.c:146 | The counter goes into its four bytes, low byte first, and nothing else changes. |
| Replay.AheadTracks | subsys/lockgrid/lg_sec.c:174-184 | Moving the window up keeps the mask the set of accepted counters of the last 32. |
| Replay.BehindTracks | subsys/lockgrid/lg_sec.c:187-196 | Behind the highest, the test accepts exactly what the set admits. |
| Replay.AcceptedOnce | subsys/lockgrid/lg_sec.c:168-197 | Between installations no counter is accepted twice. |
| Replay.LateFrameAccepted | subsys/lockgrid/lg_sec.c:187-196 | A late frame is accepted on first arrival if none a window or more ahead got in first. |
| Replay.NonceReuse | subsys/lockgrid/lg_sec.c:86-92 | Between two installations a sender repeats a nonce iff two frames lie a multiple of 2^32 apart. |
| Replay.KeyRepeatsIff | subsys/lockgrid/lg_sec.c:585-610 | Over any history of installations and frames, a nonce is repeated under one key iff a key that has sealed seals again after an installation, or seals more than 2^32 frames since one. |
| Replay.SettledRepeatsIff | subsys/lockgrid/lg_sec.c:585-610 | Where a key that has sealed is the only one installed later, that is iff frames are sealed before and after some installation. |
| Replay.NonceInjective | subsys/lockgrid/lg_sec.c:86-92 | A nonce determines the sender and the counter. |
| Replay.DirectionsApart | subsys/lockgrid/lg_sec.c:77-92 | The two ends' nonces never meet. |
| Ring.DispatchedIsPrefix | subsys/lockgrid/lg_core.c:103-128 | Under every interleaving and any wrap, what was dispatched is a prefix of what was accepted, whole and once each. |
| Ring.NeverOverwrittenWhileRead | subsys/lockgrid/lg_core.c:191-201 | The record being read is never the one being written and does not change under the reader. |
| Ring.RejectedOnlyWhenFull | subsys/lockgrid/lg_core.c:106-112 | A frame is turned away iff it is too long or all eight slots were taken when the tail was read. |
| Ring.DrainedMeansAll | subsys/lockgrid/lg_core.c:195 | When the handler stops, everything published has been dispatched. |
| Ring.StepKeepsValid | subsys/lockgrid/lg_core.c:103-128 | Every atomic step of either side keeps the invariant. |
| Ring.Difference | subsys/lockgrid/lg_core.c:110 | The wrapped difference of the counters is the number of records between. |
| Ring.RxRing.LoadHead | subsys/lockgrid/lg_core.c:106 | The first load. |
| Ring.RxRing.LoadTailCounter | subsys/lockgrid/lg_core.c:107 | The second load, which may be stale by the time of the test. |
| Ring.RxRing.FinishWrite | subsys/lockgrid/lg_core.c:114-124 | The end of the copy. |
| Ring.RxRing.PeekTail | subsys/lockgrid/lg_core.c:195 | The consumer's load of the tail. |
| Ring.RxRing.RetireTail | subsys/lockgrid/lg_core.c:199 | The consumer's increment, wrapping at 32 bits. |
| Ring.RxRing.CheckRoom | subsys/lockgrid/lg_core.c:110-118 | The test and the start of the copy, as one step of the protocol. |
| Ring.RxRing.Compare | subsys/lockgrid/lg_core.c:195-198 | The loop test; what a dispatch reads is the next accepted record. |
| Ring.RxRing.PublishHead | subsys/lockgrid/lg_core.c:125 | The increment, wrapping at 32 bits. |
| Scheduler.SelectCandidate | subsys/lockgrid/lg_sched.c:128-153 | The two scans: the choice beats or ties every candidate within 45 ms of the earliest, and starts within 45 ms per class step of it. |
| Scheduler.Slot.Gather | subsys/lockgrid/lg_sched.c:270-299 | Every candidate is gathered; none is lost for want of room. |
| Scheduler.Slot.Pick | subsys/lockgrid/lg_sched.c:251-368 | An event that owns the slot keeps it; otherwise the choice takes it unless it has no frame, is too late, or is turned down. |
| Scheduler.Slot.Add | subsys/lockgrid/lg_sched.c:111-122 | Appends a candidate that has a time while there is room. |
| Scheduler.Slot.GatherFixed | subsys/lockgrid/lg_sched.c:288-299 | The five candidates that are not links, in order. |
| Scheduler.WishesPriorities | subsys/lockgrid/lg_sched.c:270-286 | Only handshake slots have the highest class. |
| Scheduler.CloseTogetherIsByClass | subsys/lockgrid/lg_sched.c:124-127 | When all are due close together the choice is the highest class, earliest first, whatever the order. |
| Scheduler.OrderCanMatter | subsys/lockgrid/lg_sched.c:141-151 | A neighbour table whose order decides: the same two neighbours and scan give the link or the handshake. |
| Scheduler.OrderFreeIff | subsys/lockgrid/lg_sched.c:128-153 | The choice depends on the order of the list, beyond exact ties, iff a chain of displacements from one of the earliest ends above everything in their window. |
| Scheduler.OvertakingSplitsOrders | subsys/lockgrid/lg_sched.c:141-151 | Such a chain gives two orders of the same candidates with different choices. |
| Scheduler.NoOvertakingMeansTies | subsys/lockgrid/lg_sched.c:141-151 | Without one, all orders tie. |
| Scheduler.ChoiceKeepsItsPromises | subsys/lockgrid/lg_sched.c:124-153 | The choice is on the list, unbeaten near every earliest candidate, and bounded in delay. |
| Scheduler.ScanFollowsChain | subsys/lockgrid/lg_sched.c:141-151 | The scan ends where a chain of displacements from the first of the earliest ends. |
| Scheduler.RequestsAreOnTime | subsys/lockgrid/lg_sched.c:330-361 | Radio time asked for starts at least 400 us ahead and before its event, which is at most three windows behind the earliest. |
| Scheduler.Lead | subsys/lockgrid/lg_sched.c:164-240 | Every event needs the radio before its anchor, by its kind. |
| Scheduler.HandshakeIsNotDisplaced | subsys/lockgrid/lg_sched.c:75-99 | A handshake slot within 45 ms of the earliest loses only to another; nothing chosen is more than three windows late. |
| Beacon.Beaconer.Stage | subsys/lockgrid/lg_disc.c:326-391 | Three copies of one promise for the next beacon, from the loops over the air time left. |
| Beacon.Beaconer.Send | subsys/lockgrid/lg_disc.c:474-525 | What goes out is every copy up to the first unsealed or refused; the window every copy on air promised is the one that opens iff all three were sealed and granted, otherwise it comes early by one step per copy short. |
| Beacon.Beaconer.TxDone | subsys/lockgrid/lg_disc.c:496-525 | Sends the next copy or opens the window, only if one was promised. |
| Beacon.Beaconer.TxStart | subsys/lockgrid/lg_disc.c:474-494 | Sends the first copy unless suppressed, unsealed or refused. |
| Beacon.Beaconer.Finish | subsys/lockgrid/lg_disc.c:587-606 | The planned time becomes the next one unless past or imminent, and the copies are staged for it. |
| Beacon.Beaconer.Retune | subsys/lockgrid/lg_disc.c:207-211 | Beaconing stops or resumes without staging the copies again. |
| Beacon.OffsetsMeet | subsys/lockgrid/lg_disc.c:349-365 | Air time left, from the start of any copy, reaches the same instant. |
| Beacon.EveryListenerIsRight | subsys/lockgrid/lg_disc.c:587-606 | Over every run without retunes, at every beacon a listener of any copy predicts the planned time or nothing, the former iff the gap is one it accepts; and the next beacon comes there iff the event was settled 2 ms before it, coincidence aside. |
| Beacon.RunPromises | subsys/lockgrid/lg_disc.c:367-371 | From the first settling on, staged copies carry the promise now planned; without a retune they are staged for the beacon that is next. |
| Beacon.StepPromises | subsys/lockgrid/lg_disc.c:587-606 | Settling or retuning keeps copies and promise together. |
| Beacon.Predicted | subsys/lockgrid/lg_disc.c:893-899 | A listener predicts the planned time, shifted by as much as a retune moved the beacon, iff the offset is neither zero, wrapped nor too long. |
| Beacon.WindowMovesAlong | subsys/lockgrid/lg_disc.c:355-365 | A moved beacon still points at its own join window. |
| Beacon.GapsStayNearInterval | subsys/lockgrid/lg_disc.c:597-602 | Consecutive beacons of a timely run keep their distance to a quarter of the interval. |
| Beacon.WindowIff | subsys/lockgrid/lg_disc.c:505-521 | The window that opens is the one promised iff every copy was sealed and granted. |
| Beacon.Sent | subsys/lockgrid/lg_disc.c:482-512 | All copies go out iff the event was not suppressed and each was sealed and granted. |
| Beacon.JitterBounds | subsys/lockgrid/lg_disc.c:118-127 | Jitter stays within a quarter of the nominal time. |
| Beacon.SubSlotsDisjoint | subsys/lockgrid/lg_disc.c:928-931 | Joiners that pick different sub-slots cannot overlap, and every pick fits the window. |
| Forward.ForwardingTerminates | subsys/lockgrid/lg_link.c:783-816 | However routing tables loop or change, messages in flight cause at most thirteen handlings each. |
| Forward.JourneyIsShort | subsys/lockgrid/lg_link.c:783-809 | Along any path a message is sent on at most twelve times and arrives as it was sent. |
| Forward.HandleOnce | subsys/lockgrid/lg_link.c:739-816 | One node delivers a unicast message or sends it on once, never both. |
| Forward.SendForward | subsys/lockgrid/lg_core.c:253-320 | A broadcast is queued once for each linked neighbour there is room for, anything else at most once. |
| Forward.ArrivalUsesLife | subsys/lockgrid/lg_link.c:786 | Every handling uses up life that no copy gets back. |
| Forward.BroadcastGoesOneHop | subsys/lockgrid/lg_core.c:266-296 | Each broadcast copy is delivered where it was sent and goes no further. |
| Forward.Handler.HandleData | subsys/lockgrid/lg_link.c:739-816 | The in-place handler is the function the theorems speak about, duplicates by the cache. |
| Forward.DupCache.IsDuplicate | subsys/lockgrid/lg_route.c:518-530 | A key is a duplicate iff it is among the last sixteen accepted; the cache is always those. |
| Forward.RepeatIsDropped | subsys/lockgrid/lg_route.c:518-530 | A message repeated before sixteen others were accepted is dropped. |
| Forward.OnlyRecentAreDropped | subsys/lockgrid/lg_route.c:518-530 | And only such a message is. |
| Downward.RouteTable.Add | subsys/lockgrid/lg_route.c:263-300 | One slot is written, the destination's own, a free or expired one, or the soonest to expire. |
| Downward.RouteTable.FlushVia | subsys/lockgrid/lg_route.c:302-309 | Routes through a lost neighbour go, and no others. |
| Downward.RouteTable.NextHop | subsys/lockgrid/lg_route.c:311-339 | The next hop is a linked neighbour or none: the destination itself, its live route, else the parent. |
| Downward.RouteTable.Find | subsys/lockgrid/lg_route.c:253-261 | The first entry for the destination, if any. |
| Downward.RouteTable.constructor | subsys/lockgrid/lg_route.c:57-63 | All slots free. |
| Downward.RouteTable.Victim | subsys/lockgrid/lg_route.c:274-284 | A free or expired slot, else the soonest to expire. |
| Downward.AddedRouteIsBest | subsys/lockgrid/lg_route.c:290-299 | After adding, the route lives a full lifetime and is no longer than the claim or the route before. |
| Downward.AddingEvictsTheOldest | subsys/lockgrid/lg_route.c:272-288 | Another destination loses its route only from a full live table, and then it would have expired first. |

## Left out

- Registers, timers and the radio arbiter: a grant, a refusal or a lost frame is a free choice of the
  environment. Time is unbounded microseconds; 64-bit wrap is not modelled.
- Ciphers, key derivation, signatures and certificates: a frame is authentic or not, a message valid or
  not, and a ciphertext is whatever bytes the cipher returns.
- Exchange.BothUpIff: a mixture of two responses is taken to fail its signature, and a whole message to pass;
  keys are generations, equal or not. Both ends take every turn, in time; without that `Handshake.TurnTaking`
  and `Handshake.OddRefusalsAreFatal` say what happens.
- Exchange.ResumptionSplits: what a joiner does after a resumption has failed. It still holds a long term key,
  so it resumes again the next time.
- The late-drop path of `sched_pick` for links: it advances a link without restaging its frame. Agreement
  assumes every link event is settled by its own finish.
- `lg_sched_expedite` and LG_CTRL_INTERVAL: they move the anchor or the interval at one end only.
- Transmit queue delivery: the frame released after an event is looked up again rather than remembered,
  and its flag is not cleared when another kind of frame is staged.
- Receive window width: it is fixed when an event is planned, so a claim that it covers the drift at the
  event itself does not hold in the code.
- ChanMap.Channels.Reevaluate: the map is a set of bit indices rather than a word; statistics and the
  time of the last measurement are not kept.
- Replay.LinkKey.ReplayCheck: the 32-bit mask is a sequence of bits and its shift is spelled out; counters
  are numbers below 2^32.
- Schedule.LinkClock.CatchUp: requires the condition under which the loop ends (`CatchUpEndsIff`).
- Agreement.RunAgreement: both ends settle every event. An end that skips one while a change is open applies
  it when it next settles one, and what follows from that is not modelled.
- Role.RoleKeeper.Evaluate: neighbours' roles and the downward routes are given to it rather than read
  from the tables of the other modules.
- Forward.Handler.HandleData: the answer of the routing tables is an input, so that termination holds
  for any of them; the message queue is its number of free slots.
- Scheduler.Slot.Pick: the length, channel and urgency of the reservation are not modelled, and what a
  skipped or late event leads to is left to the modules it belongs to.
- Route advertisements and registrations as bytes, gossip and targeted scans, neighbour displacement,
  beacon suppression and rates: they would add only easy members.
- The notification ring: several contexts post to it, and its records may be lost by design.
- Energy accounting, statistics, tracing, provisioning, and the samples, tests and tools.
