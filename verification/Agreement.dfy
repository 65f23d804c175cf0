/** Changing a channel map or subrate at a shared event, over a link that loses frames.

    The two ends of a link, stepped one event at a time. In each event the
    initiator's staged frame is delivered or not and, if it was, the responder's
    staged reply is delivered or not; then both ends settle the event.
 */
module Agreement {
  import opened Config
  import opened Schedule

  // Events between proposing a change and its taking effect.
  const CHANGE_LEAD: nat := 6

  type ChannelMap = set<nat>

  // What a staged frame says about parameters. Plain is a keepalive, data or advertisement.
  datatype Frame = CtrlMap(chanMap: ChannelMap, instant: nat) | CtrlSubrate(subrate: nat, instant: nat) | Plain

  // The fields of one end of a link that a parameter change reads or writes.
  datatype End = End(initiator: bool, counter: nat, subrate: nat, chanMap: ChannelMap,
                     pendMap: bool, pendSubrate: bool, newMap: ChannelMap, newSubrate: nat, instant: nat,
                     acked: bool, tx: Frame, txWasCtrl: bool)
  {
    predicate Pending() {
      pendMap || pendSubrate
    }
  }

  // ----- one end -----

  /** `lg_link_advance`: load the next active event and apply or abandon a change now due. */
  function Advance(e: End): End {
    var c := NextActive(e.subrate, e.counter);
    if e.Pending() && c >= e.instant then
      var use := !e.initiator || e.acked;
      e.(counter := c,
         chanMap := if use && e.pendMap then e.newMap else e.chanMap,
         subrate := if use && e.pendSubrate then Max(e.newSubrate, 1) else e.subrate,
         pendMap := false, pendSubrate := false, acked := false)
    else e.(counter := c)
  }

  /** `subrate_update`: an idle initiator backs off, a busy or losing one returns to one. */
  function SubrateUpdate(e: End, subrateMax: nat, busy: bool, losing: bool): End {
    if !e.initiator || subrateMax <= 1 then e
    else
      var want := if busy || e.Pending() || losing then 1 else Min(e.subrate * 2, subrateMax);
      if want == e.subrate || e.Pending() then e
      else e.(newSubrate := want, instant := (e.counter + CHANGE_LEAD) % EVENT_MODULUS,
              acked := false, pendSubrate := true)
  }

  function CtrlOf(e: End): Frame {
    if e.pendMap then CtrlMap(e.newMap, e.instant)
    else if e.pendSubrate then CtrlSubrate(e.newSubrate, e.instant)
    else Plain
  }

  /** The control part of `lg_link_stage_tx`: a pending change goes first. */
  function Stage(e: End): End {
    e.(tx := CtrlOf(e), txWasCtrl := e.Pending())
  }

  /** `handle_ctrl`, which runs alike at either end. */
  function HandleCtrl(e: End, f: Frame): End {
    match f
    case CtrlMap(m, instant) => e.(newMap := m, instant := instant, pendMap := true)
    case CtrlSubrate(s, instant) => e.(newSubrate := s, instant := instant, pendSubrate := true)
    case Plain => e
  }

  // What the environment decides about one settled event at the initiator.
  datatype Local = Local(subrateMax: nat, busy: bool, losing: bool)

  /** `lg_link_event_finish`. */
  function Settle(e: End, l: Local): End {
    Stage(SubrateUpdate(Advance(e), l.subrateMax, l.busy, l.losing))
  }

  /** The event an end takes part in: `anchor_catch_up` passes over a loaded event that its subrate, just
      changed, does not select. */
  function Meeting(e: End): nat {
    if Active(e.subrate, e.counter) then e.counter else NextActive(e.subrate, e.counter)
  }

  function Catch(e: End): End {
    e.(counter := Meeting(e))
  }

  /** `sched_finish` after a channel evaluation: offer the new map unless a change is open. The next
      event may have been planned, and caught up with, by then or not. */
  function ProposeMap(e: End, m: ChannelMap, planned: bool): End {
    if e.initiator && !e.Pending() then
      e.(newMap := m, instant := ((if planned then Meeting(e) else e.counter) + CHANGE_LEAD) % EVENT_MODULUS,
         acked := false, pendMap := true)
    else e
  }

  // ----- the pair -----

  // `delivered`: a frame carrying the open change arrived. `heard`: a reply to one did.
  datatype Pair = Pair(ini: End, rsp: End, delivered: bool, heard: bool)

  datatype Input =
    | NewMap(m: ChannelMap, planned: bool)
    | Event(forward: bool, reply: bool, local: Local, rspLocal: Local)

  /** What each end knows before settling: the responder handles the frame on arrival, and
      any reply licenses a change the initiator's frame carried. */
  function Exchange(p: Pair, forward: bool, reply: bool): Pair {
    var rsp := if forward then HandleCtrl(p.rsp, p.ini.tx) else p.rsp;
    var ini :=
      if forward && reply then HandleCtrl(p.ini.(acked := p.ini.acked || p.ini.txWasCtrl), p.rsp.tx)
      else p.ini;
    Pair(ini, rsp, p.delivered || (forward && p.ini.tx != Plain), p.heard || (forward && reply && p.ini.tx != Plain))
  }

  /** The exchange settled at both ends. */
  function Settled(p: Pair, forward: bool, reply: bool, local: Local, rspLocal: Local): Pair {
    var q := Exchange(p, forward, reply);
    var closes := Closes(q);
    Pair(Settle(q.ini, local), Settle(q.rsp, rspLocal), q.delivered && !closes, q.heard && !closes)
  }

  function Next(p: Pair, input: Input): Pair {
    match input
    case NewMap(m, planned) => p.(ini := ProposeMap(p.ini, m, planned))
    case Event(forward, reply, local, rspLocal) =>
      Settled(Caught(p), forward, reply, local, rspLocal)
  }

  /** Both ends at the event they take part in. */
  function Caught(p: Pair): Pair {
    p.(ini := Catch(p.ini), rsp := Catch(p.rsp))
  }

  /** Settling this exchange closes the open change. */
  predicate Closes(q: Pair) {
    q.ini.Pending() && NextActive(q.ini.subrate, q.ini.counter) >= q.ini.instant
  }

  /** Event numbers that matter next still fit in sixteen bits. */
  predicate WithinHorizon(p: Pair) {
    Fits(p.ini.subrate, p.ini.counter) && Fits(p.ini.subrate, Meeting(p.ini))
  }

  predicate Fits(subrate: nat, c: nat) {
    c + CHANGE_LEAD < EVENT_MODULUS && (c / Step(subrate) + 1) * Step(subrate) + CHANGE_LEAD < EVENT_MODULUS
  }

  /** The ends agree on everything that decides when and where they meet. */
  predicate InStep(p: Pair) {
    p.ini.counter == p.rsp.counter && p.ini.subrate == p.rsp.subrate && p.ini.chanMap == p.rsp.chanMap
  }

  predicate SameChange(a: End, b: End) {
    && a.pendMap == b.pendMap && a.pendSubrate == b.pendSubrate && a.instant == b.instant
    && (a.pendMap ==> a.newMap == b.newMap) && (a.pendSubrate ==> a.newSubrate == b.newSubrate)
  }

  /** Kept by every event until a split: an open change is still ahead of the event loaded, though the
      ends may catch up past it. */
  predicate Agreed(p: Pair) {
    Aligned(p) && (p.ini.Pending() ==> p.ini.counter < p.ini.instant)
  }

  predicate Aligned(p: Pair) {
    && InStep(p) && p.ini.initiator && !p.rsp.initiator && p.ini.subrate >= 1
    && !(p.ini.pendMap && p.ini.pendSubrate)
    && (p.ini.pendSubrate ==> p.ini.newSubrate >= 1)
    && (p.rsp.Pending() ==> SameChange(p.rsp, p.ini))
    && (p.ini.tx != Plain ==> p.ini.Pending() && p.ini.tx == CtrlOf(p.ini))
    && (p.rsp.tx != Plain ==> p.rsp.Pending() && p.rsp.tx == CtrlOf(p.rsp))
    && p.ini.txWasCtrl == (p.ini.tx != Plain)
    && p.delivered == p.rsp.Pending() && p.heard == p.ini.acked && (p.heard ==> p.delivered)
  }

  /** The change would move the link: applying it at one end only makes the ends differ. */
  predicate Moves(e: End) {
    (e.pendMap && e.newMap != e.chanMap) || (e.pendSubrate && e.newSubrate != e.subrate)
  }

  /** The one bad ending: the change arrived, no reply to it was ever heard, and it is due. */
  predicate SplitsNow(p: Pair, input: Input) {
    input.Event? &&
    var q := Exchange(Caught(p), input.forward, input.reply);
    Closes(q) && q.delivered && !q.heard && Moves(q.ini)
  }

  lemma ExchangeKeeps(p: Pair, forward: bool, reply: bool)
    requires Aligned(p)
    ensures
      var q := Exchange(p, forward, reply);
      && InStep(q) && q.ini.initiator && !q.rsp.initiator
      && q.ini == p.ini.(acked := q.heard)
      && q.delivered == q.rsp.Pending() && (q.rsp.Pending() ==> SameChange(q.rsp, q.ini) && q.ini.Pending())
      && (q.heard ==> q.delivered)
  {
  }

  /** What the initiator's settling does after the advance: nothing but restage an open
      change, or possibly open a subrate change and stage it. */
  lemma InitiatorRestages(e: End, l: Local)
    requires e.initiator && e.subrate >= 1 && !(e.pendMap && e.pendSubrate) && e.counter + CHANGE_LEAD < EVENT_MODULUS
    ensures
      var e' := Stage(SubrateUpdate(e, l.subrateMax, l.busy, l.losing));
      && e'.tx == CtrlOf(e') && e'.txWasCtrl == e'.Pending()
      && (if e.Pending() || !e'.Pending() then e' == e.(tx := e'.tx, txWasCtrl := e'.txWasCtrl)
          else e'.newSubrate >= 1 && e' == e.(pendSubrate := true, newSubrate := e'.newSubrate, acked := false,
                 instant := e.counter + CHANGE_LEAD, tx := e'.tx, txWasCtrl := true))
  {
  }

  /** Ends that agree still agree once both have restaged. */
  lemma RestagedAgree(ini: End, rsp: End, l: Local, delivered: bool)
    requires ini.initiator && !rsp.initiator && ini.subrate >= 1 && ini.counter + CHANGE_LEAD < EVENT_MODULUS
    requires ini.counter == rsp.counter && ini.subrate == rsp.subrate && ini.chanMap == rsp.chanMap
    requires !(ini.pendMap && ini.pendSubrate) && (ini.pendSubrate ==> ini.newSubrate >= 1)
    requires ini.Pending() ==> ini.counter < ini.instant
    requires rsp.Pending() ==> SameChange(rsp, ini)
    requires delivered == rsp.Pending() && (ini.acked ==> delivered)
    ensures
      var ini' := Stage(SubrateUpdate(ini, l.subrateMax, l.busy, l.losing));
      Agreed(Pair(ini', Stage(rsp), delivered, ini.acked))
  {
    InitiatorRestages(ini, l);
    assert Stage(rsp) == rsp.(tx := CtrlOf(rsp), txWasCtrl := rsp.Pending());
  }

  /** Settling before the change is due: both ends keep it open, or a new one is opened. */
  lemma SettleBeforeDue(p: Pair, forward: bool, reply: bool, local: Local, rspLocal: Local)
    requires Aligned(p) && Fits(p.ini.subrate, p.ini.counter) && !Closes(Exchange(p, forward, reply))
    ensures Agreed(Settled(p, forward, reply, local, rspLocal))
  {
    ExchangeKeeps(p, forward, reply);
    NextActiveIsLeast(p.ini.subrate, p.ini.counter);
    var q := Exchange(p, forward, reply);
    var c := NextActive(p.ini.subrate, p.ini.counter);
    assert Advance(q.ini) == q.ini.(counter := c);
    assert Advance(q.rsp) == q.rsp.(counter := c);
    RestagedAgree(q.ini.(counter := c), q.rsp.(counter := c), local, q.delivered);
  }

  // What `lg_link_advance` leaves of an end when a change falls due.
  ghost function Closed(e: End, c: nat, applied: bool): End {
    e.(counter := c,
       chanMap := if applied && e.pendMap then e.newMap else e.chanMap,
       subrate := if applied && e.pendSubrate then Max(e.newSubrate, 1) else e.subrate,
       pendMap := false, pendSubrate := false, acked := false)
  }

  /** Settling when the change is due: the initiator applies it if it heard a reply, the
      responder if it has it. */
  lemma SettleWhenDue(p: Pair, forward: bool, reply: bool)
    requires Aligned(p) && Fits(p.ini.subrate, p.ini.counter) && Closes(Exchange(p, forward, reply))
    ensures
      var q := Exchange(p, forward, reply);
      var c := NextActive(p.ini.subrate, p.ini.counter);
      && c > p.ini.counter && Advance(q.ini) == Closed(q.ini, c, q.heard)
      && Advance(q.rsp).counter == c && !Advance(q.rsp).Pending() && !Advance(q.rsp).initiator
      && (!q.delivered ==> Advance(q.rsp) == q.rsp.(counter := c))
      && (q.delivered ==> Advance(q.rsp).chanMap == Closed(q.ini, c, true).chanMap)
      && (q.delivered ==> Advance(q.rsp).subrate == Closed(q.ini, c, true).subrate)
  {
    ExchangeKeeps(p, forward, reply);
    NextActiveIsLeast(p.ini.subrate, p.ini.counter);
  }

  lemma SettleFresh(p: Pair, forward: bool, reply: bool, local: Local, rspLocal: Local)
    requires Aligned(p) && Fits(p.ini.subrate, p.ini.counter) && Closes(Exchange(p, forward, reply))
    ensures
      var q := Exchange(p, forward, reply);
      var p' := Settled(p, forward, reply, local, rspLocal);
      && p'.ini.counter == p'.rsp.counter
      && p'.ini.chanMap == Advance(q.ini).chanMap && p'.rsp.chanMap == Advance(q.rsp).chanMap
      && p'.ini.subrate == Advance(q.ini).subrate && p'.rsp.subrate == Advance(q.rsp).subrate
      && (InStep(p') ==> Agreed(p'))
  {
    SettleWhenDue(p, forward, reply);
    var q := Exchange(p, forward, reply);
    InitiatorRestages(Advance(q.ini), local);
    assert Settle(q.rsp, rspLocal) == Stage(Advance(q.rsp));
    if Advance(q.ini).chanMap == Advance(q.rsp).chanMap && Advance(q.ini).subrate == Advance(q.rsp).subrate {
      RestagedAgree(Advance(q.ini), Advance(q.rsp), local, false);
    }
  }

  /** The agreement theorem for one event. The ends are out of step afterwards exactly when
      the open change fell due, had been delivered, and had never been heard replied to;
      otherwise everything agreed before is agreed again. */
  lemma EventAgreement(p: Pair, input: Input)
    requires Agreed(p) && WithinHorizon(p)
    ensures InStep(Next(p, input)) <==> !SplitsNow(p, input)
    ensures !SplitsNow(p, input) ==> Agreed(Next(p, input))
  {
    if input.Event? {
      var p := Caught(p);
      if Closes(Exchange(p, input.forward, input.reply)) {
        ExchangeKeeps(p, input.forward, input.reply);
        SettleWhenDue(p, input.forward, input.reply);
        SettleFresh(p, input.forward, input.reply, input.local, input.rspLocal);
      } else {
        SettleBeforeDue(p, input.forward, input.reply, input.local, input.rspLocal);
      }
    } else {
      ProposingKeeps(p, input.m, input.planned);
    }
  }

  lemma ProposingKeeps(p: Pair, m: ChannelMap, planned: bool)
    requires Agreed(p) && WithinHorizon(p)
    ensures Agreed(Next(p, NewMap(m, planned)))
  {
    NextActiveIsLeast(p.ini.subrate, p.ini.counter);
  }

  /** Whenever the initiator applies a change, the responder applies the same values while
      loading the same event, the first one at or after the instant they agreed on. */
  lemma InitiatorAppliesTogether(p: Pair, input: Input)
    requires Agreed(p) && WithinHorizon(p) && input.Event?
    requires
      var q := Exchange(Caught(p), input.forward, input.reply);
      Closes(q) && q.ini.acked
    ensures
      var p' := Next(p, input);
      && Agreed(p') && p'.rsp.counter == p'.ini.counter >= p.ini.instant > p.rsp.counter
      && (p.ini.pendMap ==> p'.rsp.chanMap == p'.ini.chanMap == p.ini.newMap)
      && (p.ini.pendSubrate ==> p'.rsp.subrate == p'.ini.subrate == p.ini.newSubrate)
      && !p'.rsp.Pending()
  {
    var q := Caught(p);
    ExchangeKeeps(q, input.forward, input.reply);
    SettleWhenDue(q, input.forward, input.reply);
    SettleFresh(q, input.forward, input.reply, input.local, input.rspLocal);
  }

  /** The responder echoing a pending change back never alters the initiator. */
  lemma EchoIsHarmless(p: Pair)
    requires Agreed(p)
    ensures HandleCtrl(p.ini, p.rsp.tx) == p.ini
  {
  }

  // ----- whole runs -----

  function Run(p: Pair, inputs: seq<Input>): Pair {
    if inputs == [] then p else Next(Run(p, inputs[..|inputs| - 1]), inputs[|inputs| - 1])
  }

  /** A link as `lg_link_establish` leaves it at both ends. */
  predicate Established(p: Pair) {
    && p.ini.initiator && !p.rsp.initiator && p.ini.counter == p.rsp.counter
    && p.ini.subrate == p.rsp.subrate == 1 && p.ini.chanMap == p.rsp.chanMap
    && !p.ini.Pending() && !p.rsp.Pending() && !p.ini.acked
    && p.ini.tx == p.rsp.tx == Plain && !p.ini.txWasCtrl && !p.delivered && !p.heard
  }

  predicate RunWithinHorizon(p: Pair, inputs: seq<Input>) {
    forall k :: 0 <= k <= |inputs| ==> WithinHorizon(Run(p, inputs[..k]))
  }

  /** Over every run of events, losses and proposals the ends stay agreed for ever, unless
      some event was the named split: the first event after which they are out of step. */
  lemma {:induction false} RunAgreement(p: Pair, inputs: seq<Input>)
    requires Established(p) && RunWithinHorizon(p, inputs)
    ensures Agreed(Run(p, inputs)) || exists k :: FirstSplit(p, inputs, k)
  {
    var n := |inputs|;
    if n > 0 {
      var most := inputs[..n - 1];
      assert forall k :: 0 <= k <= n - 1 ==> most[..k] == inputs[..k];
      RunAgreement(p, most);
      if Agreed(Run(p, most)) {
        assert inputs[..n - 1] == most && inputs[..n] == inputs;
        EventAgreement(Run(p, most), inputs[n - 1]);
        if SplitsNow(Run(p, most), inputs[n - 1]) {
          assert FirstSplit(p, inputs, n - 1);
        }
      } else {
        var k :| FirstSplit(p, most, k);
        assert most[..k] == inputs[..k];
        assert FirstSplit(p, inputs, k);
      }
    }
  }

  ghost predicate FirstSplit(p: Pair, inputs: seq<Input>, k: int) {
    && 0 <= k < |inputs| && Agreed(Run(p, inputs[..k])) && SplitsNow(Run(p, inputs[..k]), inputs[k])
    && !InStep(Next(Run(p, inputs[..k]), inputs[k]))
  }

  // One map change open at both ends of a pair at event `c`, due at event six.
  ghost predicate OneSided(p: Pair, c: nat, m: ChannelMap, arrived: bool) {
    && p.ini.initiator && !p.rsp.initiator && p.ini.counter == p.rsp.counter == c
    && p.ini.subrate == p.rsp.subrate == 1 && p.ini.chanMap == p.rsp.chanMap
    && p.ini.pendMap && !p.ini.pendSubrate && p.ini.newMap == m && p.ini.instant == 6 && !p.ini.acked
    && (if arrived then p.rsp.pendMap && p.rsp.newMap == m && p.rsp.instant == 6 else !p.rsp.pendMap)
    && !p.rsp.pendSubrate && (c > 0 ==> p.ini.tx == CtrlMap(m, 6))
  }

  lemma OneSidedEvent(p: Pair, c: nat, m: ChannelMap, arrived: bool, forward: bool)
    requires OneSided(p, c, m, arrived) && c < 6 && (c == 0 ==> !forward)
    ensures
      var idle := Local(1, false, false);
      var p' := Next(p, Event(forward, false, idle, idle));
      && (c < 5 ==> OneSided(p', c + 1, m, arrived || forward))
      && (c == 5 && arrived ==> p'.ini.counter == p'.rsp.counter == 6 && p'.rsp.chanMap == m)
      && p'.ini.chanMap == p.ini.chanMap
  {
    assert NextActive(1, c) == c + 1;
  }

  /** The split does happen: one map frame arrives, its reply and everything after are lost. */
  lemma SplitIsReachable(p: Pair, m: ChannelMap, inputs: seq<Input>)
    requires Established(p) && p.ini.counter == 0 && m != p.ini.chanMap
    requires |inputs| == 7 && inputs[0] == NewMap(m, false)
    requires forall k :: 1 <= k < 7 ==>
      inputs[k] == Event(k == 2, false, Local(1, false, false), Local(1, false, false))
    ensures
      var p' := Run(p, inputs);
      p'.ini.counter == p'.rsp.counter == 6 && p'.rsp.chanMap == m != p'.ini.chanMap
  {
    RunStep(p, inputs, 0);
    for k := 1 to 6
      invariant OneSided(Run(p, inputs[..k]), k - 1, m, k > 2)
      invariant Run(p, inputs[..k]).ini.chanMap == p.ini.chanMap
    {
      RunStep(p, inputs, k);
      OneSidedEvent(Run(p, inputs[..k]), k - 1, m, k > 2, k == 2);
    }
    RunStep(p, inputs, 6);
    OneSidedEvent(Run(p, inputs[..6]), 5, m, true, false);
    assert inputs[..7] == inputs;
  }

  lemma RunStep(p: Pair, inputs: seq<Input>, k: nat)
    requires k < |inputs|
    ensures Run(p, inputs[..k + 1]) == Next(Run(p, inputs[..k]), inputs[k])
  {
    assert inputs[..k + 1][..k] == inputs[..k];
  }

  // ----- the end as the firmware holds it -----

  class LinkEnd {
    const initiator: bool
    var counter: nat
    var subrate: nat
    var chanMap: ChannelMap
    var pendMap: bool
    var pendSubrate: bool
    var newMap: ChannelMap
    var newSubrate: nat
    var instant: nat
    var acked: bool
    var tx: Frame
    var txWasCtrl: bool

    function State(): End
      reads this
    {
      End(initiator, counter, subrate, chanMap, pendMap, pendSubrate, newMap, newSubrate, instant, acked, tx, txWasCtrl)
    }

    constructor (initiator: bool, chanMap: ChannelMap)
      ensures State() == End(initiator, 0, 1, chanMap, false, false, {}, 0, 0, false, Plain, false)
    {
      this.initiator := initiator;
      counter, subrate, this.chanMap := 0, 1, chanMap;
      pendMap, pendSubrate, newMap, newSubrate, instant := false, false, {}, 0, 0;
      acked, tx, txWasCtrl := false, Plain, false;
    }

    /** `anchor_catch_up`, as far as it depends on the subrate and not on the clock. */
    method CatchUp()
      modifies this`counter
      ensures State() == Catch(old(State()))
    {
      if counter % Step(subrate) != 0 {
        counter := NextActive(subrate, counter);
      }
    }

    method AdvanceEvent()
      modifies this
      ensures State() == Advance(old(State()))
    {
      counter := NextActive(subrate, counter);
      if (pendMap || pendSubrate) && counter >= instant {
        if !initiator || acked {
          if pendMap {
            chanMap := newMap;
          }
          if pendSubrate {
            subrate := Max(newSubrate, 1);
          }
        }
        pendMap, pendSubrate := false, false;
        acked := false;
      }
    }

    method UpdateSubrate(subrateMax: nat, busy: bool, losing: bool)
      modifies this
      ensures State() == SubrateUpdate(old(State()), subrateMax, busy, losing)
    {
      if !initiator || subrateMax <= 1 {
        return;
      }
      var want;
      if busy || pendMap || pendSubrate {
        want := 1;
      } else if losing {
        want := 1;
      } else {
        want := Min(subrate * 2, subrateMax);
      }
      if want == subrate || pendMap || pendSubrate {
        return;
      }
      newSubrate := want;
      instant := (counter + CHANGE_LEAD) % EVENT_MODULUS;
      acked := false;
      pendSubrate := true;
    }

    method StageTx()
      modifies this
      ensures State() == Stage(old(State()))
    {
      if pendMap {
        tx, txWasCtrl := CtrlMap(newMap, instant), true;
      } else if pendSubrate {
        tx, txWasCtrl := CtrlSubrate(newSubrate, instant), true;
      } else {
        tx, txWasCtrl := Plain, false;
      }
    }

    method EventFinish(l: Local)
      modifies this
      ensures State() == Settle(old(State()), l)
    {
      AdvanceEvent();
      UpdateSubrate(l.subrateMax, l.busy, l.losing);
      StageTx();
    }

    method ReceiveCtrl(f: Frame)
      modifies this
      ensures State() == HandleCtrl(old(State()), f)
    {
      match f
      case CtrlMap(m, i) =>
        newMap, instant, pendMap := m, i, true;
      case CtrlSubrate(s, i) =>
        newSubrate, instant, pendSubrate := s, i, true;
      case Plain =>
    }
  }
}
