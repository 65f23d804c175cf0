/** A whole join handshake on the air: fragments, generations of the response, and keys.

    What a listening end hears is not the environment's choice here. It follows from which fragments of which
    message arrive, now and earlier, and from who holds which key. Every request that reaches the router
    makes it draw a new response.
 */
module Exchange {
  import opened Config
  import opened Assembly
  import opened Handshake
  import opened Replay

  // ----- the two ends -----

  // `gen` counts responses; `ltk` says that the router holds the long term key a resumption needs.
  datatype State = State(p: Pair, gen: nat, ltk: bool, jKey: Keyed, rKey: Keyed, jRx: Marks, rRx: Marks,
                         jUses: seq<KeyUse>, rUses: seq<KeyUse>)

  // One slot: how the ends fare, and which fragments of what is sent arrive.
  datatype Air = Air(jTurn: Turn, rTurn: Turn, arrives: seq<bool>, jClock: nat, rClock: nat)

  function Begun(resuming: bool, ltk: bool): State {
    State(Start(resuming), 0, ltk, Unkeyed, Unkeyed, NO_MARKS, NO_MARKS, [], [])
  }

  /** What the listener makes of a message: one that is secured takes the sender's key to open. */
  function Reaches(rx: Marks, key: Keyed, sender: Keyed, m: Msg, tag: nat, arrives: seq<bool>): (Marks, Heard) {
    if Secured(m) && (key == Unkeyed || key != sender) then (rx, Nothing)
    else Receive(rx, m, tag, arrives, 0)
  }

  // Which of its messages the router has staged: only responses are drawn more than once.
  function Tag(x: State): nat {
    if x.p.r.staged == JoinRsp then x.gen else 0
  }

  predicate RouterListensTo(x: State, a: Air) {
    Sends(Begin(x.p.j, a.jTurn), a.jTurn) && Listens(Begin(x.p.r, a.rTurn), a.rTurn)
  }

  predicate JoinerListensTo(x: State, a: Air) {
    Sends(Begin(x.p.r, a.rTurn), a.rTurn) && Listens(Begin(x.p.j, a.jTurn), a.jTurn)
  }

  function AtRouter(x: State, a: Air): (Marks, Heard) {
    if !RouterListensTo(x, a) then (x.rRx, Nothing)
    else
      var (rx, heard) := Reaches(x.rRx, x.rKey, x.jKey, x.p.j.staged, 0, a.arrives);
      (rx, if x.p.j.staged == ResumeReq && heard == Whole(true) then Whole(x.ltk) else heard)
  }

  function AtJoiner(x: State, a: Air): (Marks, Heard) {
    if !JoinerListensTo(x, a) then (x.jRx, Nothing)
    else Reaches(x.jRx, x.jKey, x.rKey, x.p.r.staged, Tag(x), a.arrives)
  }

  function HeardIn(x: State, a: Air): Heard {
    if RouterListensTo(x, a) then AtRouter(x, a).1 else AtJoiner(x, a).1
  }

  /** The slot as the handshake driver sees it. */
  function SlotOf(x: State, a: Air): Slot {
    Slot(a.jTurn, a.rTurn, HeardIn(x, a), a.jClock, a.rClock)
  }

  predicate RequestTaken(x: State, a: Air) {
    AtRouter(x, a).1 == Whole(true) && x.p.j.staged == JoinReq
  }

  function SealsIn(s: Side, turn: Turn, key: Keyed): seq<KeyUse> {
    if Sends(Begin(s, turn), turn) && Secured(s.staged) && key != Unkeyed then [Seals] else []
  }

  /** The router derives a key from each request: a new one with each response, one and the same from a
      repeated resumption. */
  function RouterUse(x: State, a: Air): (use: seq<KeyUse>)
    ensures |use| <= 1
  {
    if AtRouter(x, a).1 == Whole(true) && x.p.j.staged == JoinReq then [Installs(x.gen + 1)]
    else if AtRouter(x, a).1 == Whole(true) && x.p.j.staged == ResumeReq then [Installs(0)]
    else SealsIn(x.p.r, a.rTurn, x.rKey)
  }

  /** The joiner derives a key from a response and from nothing else. */
  function JoinerUse(x: State, a: Air): (use: seq<KeyUse>)
    ensures |use| <= 1
  {
    if AtJoiner(x, a).1 == Whole(true) && x.p.r.staged == JoinRsp then [Installs(x.gen)]
    else SealsIn(x.p.j, a.jTurn, x.jKey)
  }

  // An end that fails forgets its key.
  function KeyNow(key: Keyed, use: seq<KeyUse>, phase: Phase): Keyed {
    if phase == Failed then Unkeyed
    else if use != [] && use[0].Installs? then Keyed(use[0].key)
    else key
  }

  function Step(x: State, a: Air): State {
    var q := Next(x.p, SlotOf(x, a));
    State(q, if RequestTaken(x, a) then x.gen + 1 else x.gen, x.ltk,
          KeyNow(x.jKey, JoinerUse(x, a), q.j.phase), KeyNow(x.rKey, RouterUse(x, a), q.r.phase),
          AtJoiner(x, a).0, AtRouter(x, a).0, x.jUses + JoinerUse(x, a), x.rUses + RouterUse(x, a))
  }

  function After(x: State, airs: seq<Air>): State {
    if airs == [] then x else Step(After(x, airs[..|airs| - 1]), airs[|airs| - 1])
  }

  /** The same run as the handshake driver sees it. */
  function SlotsOf(x: State, airs: seq<Air>): (slots: seq<Slot>)
    ensures |slots| == |airs|
  {
    if airs == [] then []
    else
      var before := airs[..|airs| - 1];
      SlotsOf(x, before) + [SlotOf(After(x, before), airs[|airs| - 1])]
  }

  lemma {:induction false} RunsAgree(x: State, airs: seq<Air>)
    ensures After(x, airs).p == Run(x.p, SlotsOf(x, airs))
  {
    if airs != [] {
      var before := airs[..|airs| - 1];
      RunsAgree(x, before);
      RunOne(x.p, SlotsOf(x, before), SlotOf(After(x, before), airs[|airs| - 1]));
    }
  }

  // ----- what every slot keeps -----

  /** A router with an answer staged holds the key of its latest response, and so does a joiner that confirms;
      a resuming joiner holds none. */
  predicate KeysSound(x: State) {
    if x.p.j.resuming then x.jKey == Unkeyed && x.jUses == []
    else
      && (x.p.r.phase == Active && x.p.r.staged != NoMsg ==> x.rKey == Keyed(x.gen))
      && (x.p.r.phase == Active && x.p.j.phase == Active && x.p.j.staged == JoinCfm ==> x.jKey == Keyed(x.gen))
  }

  predicate Sound(x: State) {
    Valid(x.p) && JoinerMarks(x.jRx, x.gen) && RouterMarks(x.rRx) && KeysSound(x)
  }

  lemma SoundStep(x: State, a: Air)
    requires Sound(x)
    ensures Sound(Step(x, a))
  {
    SlotKeepsValid(x.p, SlotOf(x, a));
    if RouterListensTo(x, a) {
      RouterTakes(x, a);
    } else if JoinerListensTo(x, a) {
      JoinerTakes(x, a);
    }
  }

  lemma RouterTakes(x: State, a: Air)
    requires Sound(x) && RouterListensTo(x, a) && Valid(Step(x, a).p)
    ensures Sound(Step(x, a))
  {
    if x.p.j.staged == JoinReq {
      RequestHeard(x.rRx, a.arrives);
    } else {
      ShortHeard(x.rRx, x.p.j.staged, a.arrives);
    }
  }

  lemma JoinerTakes(x: State, a: Air)
    requires Sound(x) && JoinerListensTo(x, a) && Valid(Step(x, a).p)
    ensures Sound(Step(x, a))
  {
    if x.p.r.staged == JoinRsp {
      ResponseHeard(x.jRx, x.gen, a.arrives);
    } else {
      ShortHeard(x.jRx, x.p.r.staged, a.arrives);
    }
  }

  lemma SoundAfter(x: State, a: Air, x': State)
    requires Sound(x) && x' == Step(x, a)
    ensures Sound(x')
  {
    SoundStep(x, a);
  }

  lemma {:induction false} AlwaysSound(x: State, airs: seq<Air>)
    requires Sound(x)
    ensures Sound(After(x, airs))
  {
    if airs != [] {
      AlwaysSound(x, airs[..|airs| - 1]);
      SoundAfter(After(x, airs[..|airs| - 1]), airs[|airs| - 1], After(x, airs));
    }
  }

  // ----- a full handshake on the air -----

  /** The router's response completes at the joiner out of two of them. */
  predicate Splices(x: State, a: Air) {
    OnCourse(x.p) && JoinerListensTo(x, a) && x.p.r.staged == JoinRsp && Splice(x.jRx, x.gen, a.arrives)
  }

  /** The final message does not arrive. */
  predicate FinalLost(x: State, a: Air) {
    OnCourse(x.p) && x.p.r.staged == JoinAck && !Arrives(a.arrives, 0)
  }

  // What is being sent.
  function Spoken(p: Pair): Msg {
    if p.j.phase == Active && p.j.owe then p.j.staged
    else if p.r.phase == Active && p.r.owe then p.r.staged
    else NoMsg
  }

  /** In a full handshake that takes its turns, a reception fails its checks only by splicing. */
  lemma SpoilsIff(x: State, a: Air)
    requires Sound(x) && (OnCourse(x.p) ==> Timely(x.p, SlotOf(x, a)))
    ensures Spoils(x.p, SlotOf(x, a)) <==> Splices(x, a) || FinalLost(x, a)
  {
    if OnCourse(x.p) {
      HeardOnCourse(x, a);
    }
  }

  lemma HeardOnCourse(x: State, a: Air)
    requires Sound(x) && OnCourse(x.p) && Timely(x.p, SlotOf(x, a))
    ensures Speaking(x.p) ==> (HeardIn(x, a) == Whole(false) <==> Splices(x, a))
    ensures ToGo(x.p) == 1 <==> x.p.r.staged == JoinAck
    ensures ToGo(x.p) == 1 ==> HeardIn(x, a) == if Arrives(a.arrives, 0) then Whole(true) else Nothing
    ensures Speaking(x.p) && AllArrive(Spoken(x.p), a.arrives) ==> HeardIn(x, a) == Whole(true)
  {
    if RouterListensTo(x, a) {
      RouterHearsOnCourse(x, a);
    } else if JoinerListensTo(x, a) {
      JoinerHearsOnCourse(x, a);
    }
  }

  lemma RouterHearsOnCourse(x: State, a: Air)
    requires Sound(x) && OnCourse(x.p) && RouterListensTo(x, a)
    ensures HeardIn(x, a) != Whole(false)
    ensures AllArrive(x.p.j.staged, a.arrives) ==> HeardIn(x, a) == Whole(true)
  {
    if x.p.j.staged == JoinReq {
      RequestHeard(x.rRx, a.arrives);
    } else {
      ShortHeard(x.rRx, x.p.j.staged, a.arrives);
    }
  }

  lemma JoinerHearsOnCourse(x: State, a: Air)
    requires Sound(x) && OnCourse(x.p) && JoinerListensTo(x, a)
    ensures HeardIn(x, a) == Whole(false) <==> Splices(x, a)
    ensures x.p.r.staged == JoinAck ==> HeardIn(x, a) == if Arrives(a.arrives, 0) then Whole(true) else Nothing
    ensures AllArrive(x.p.r.staged, a.arrives) ==> HeardIn(x, a) == Whole(true)
  {
    if x.p.r.staged == JoinRsp {
      ResponseHeard(x.jRx, x.gen, a.arrives);
    } else {
      ShortHeard(x.jRx, x.p.r.staged, a.arrives);
    }
  }

  /** A message is lost only with one of its fragments. */
  lemma LossLosesAFragment(x: State, a: Air)
    requires Sound(x) && Timely(x.p, SlotOf(x, a)) && Loses(x.p, SlotOf(x, a))
    ensures !AllArrive(Spoken(x.p), a.arrives)
  {
    HeardOnCourse(x, a);
  }

  /** Some slot splices two responses or loses the final message. */
  predicate Ruined(x: State, airs: seq<Air>) {
    airs != [] &&
    var before, last := airs[..|airs| - 1], airs[|airs| - 1];
    Ruined(x, before) || Splices(After(x, before), last) || FinalLost(After(x, before), last)
  }

  lemma {:induction false} RuinedIffSpoiled(x: State, airs: seq<Air>)
    requires Sound(x) && TimelyRun(x.p, SlotsOf(x, airs))
    ensures Ruined(x, airs) <==> Spoiled(x.p, SlotsOf(x, airs))
  {
    if airs != [] {
      var before, last := airs[..|airs| - 1], airs[|airs| - 1];
      var slots := SlotsOf(x, airs);
      assert slots[..|slots| - 1] == SlotsOf(x, before);
      RunsAgree(x, before);
      RuinedIffSpoiled(x, before);
      AlwaysSound(x, before);
      SpoilsIff(After(x, before), last);
    }
  }

  lemma BegunIsSound(resuming: bool, ltk: bool)
    ensures Sound(Begun(resuming, ltk)) && Begun(resuming, ltk).p == Start(resuming)
  {
  }

  /** A full handshake over lossy air: with any three messages lost, in whole or in part, each costing two
      slots, both ends come up exactly when the final message arrives and no reception completes out of two
      responses. */
  lemma BothUpIff(x: State, airs: seq<Air>)
    requires x == Begun(false, x.ltk) && TimelyRun(x.p, SlotsOf(x, airs))
    requires Losses(x.p, SlotsOf(x, airs)) <= LOSS_LIMIT
    requires |airs| >= MESSAGES + 2 * Losses(x.p, SlotsOf(x, airs))
    ensures Up(After(x, airs).p) <==> !Ruined(x, airs)
  {
    BegunIsSound(false, x.ltk);
    RuinedIffSpoiled(x, airs);
    RunsAgree(x, airs);
    UpIffUnspoiled(x.p, SlotsOf(x, airs));
  }

  lemma AfterOne(x: State, airs: seq<Air>, a: Air)
    ensures After(x, airs + [a]) == Step(After(x, airs), a)
    ensures SlotsOf(x, airs + [a]) == SlotsOf(x, airs) + [SlotOf(After(x, airs), a)]
  {
    assert (airs + [a])[..|airs|] == airs;
  }

  // ----- resuming -----

  /** The router has sent an answer in some slot. */
  predicate Answered(x: State, airs: seq<Air>) {
    airs != [] &&
    var before, last := airs[..|airs| - 1], airs[|airs| - 1];
    Answered(x, before) || Sends(Begin(After(x, before).p.r, last.rTurn), last.rTurn)
  }

  /** A resuming joiner is not up, and its router is up if and only if it has answered. */
  predicate Resuming(x: State, answered: bool) {
    && Sound(x) && x.p.j.resuming && x.p.j.phase in {Active, Failed} && x.p.r.staged in {NoMsg, ResumeRsp}
    && (x.p.r.phase == Linked <==> answered)
  }

  lemma ResumingStep(x: State, answered: bool, a: Air, x': State, answered': bool)
    requires Resuming(x, answered) && x' == Step(x, a)
    requires answered' <==> answered || Sends(Begin(x.p.r, a.rTurn), a.rTurn)
    ensures Resuming(x', answered')
  {
    SoundStep(x, a);
    ResumingPair(x.p, SlotOf(x, a));
  }

  lemma ResumingPair(p: Pair, slot: Slot)
    requires Valid(p) && p.j.resuming && p.j.phase in {Active, Failed} && p.r.staged in {NoMsg, ResumeRsp}
    requires Sends(Begin(p.r, slot.rTurn), slot.rTurn) ==> slot.heard == Nothing
    ensures
      var q := Next(p, slot);
      && q.j.resuming && q.j.phase in {Active, Failed} && q.r.staged in {NoMsg, ResumeRsp}
      && (q.r.phase == Linked <==> p.r.phase == Linked || Sends(Begin(p.r, slot.rTurn), slot.rTurn))
  {
  }

  lemma {:induction false} ResumingThroughout(x: State, airs: seq<Air>)
    requires Resuming(x, false)
    ensures Resuming(After(x, airs), Answered(x, airs))
  {
    if airs != [] {
      var before, last := airs[..|airs| - 1], airs[|airs| - 1];
      ResumingThroughout(x, before);
      ResumingStep(After(x, before), Answered(x, before), last, After(x, airs), Answered(x, airs));
    }
  }

  /** No resumption brings its joiner up: the answer is sealed under a key that only the router has derived. The
      router comes up exactly when it sends that answer, and the joiner fails once its slots are used up. */
  lemma ResumptionSplits(x: State, airs: seq<Air>)
    requires x == Begun(true, x.ltk)
    ensures After(x, airs).p.j.phase in {Active, Failed}
    ensures After(x, airs).p.r.phase == Linked <==> Answered(x, airs)
    ensures SettledSlots(SlotsOf(x, airs), true) >= SLOT_LIMIT_RESUME ==> After(x, airs).p.j.phase == Failed
  {
    BegunIsSound(true, x.ltk);
    ResumingThroughout(x, airs);
    RunsAgree(x, airs);
    EndsWithinSlotLimit(x.p, SlotsOf(x, airs));
  }

  // Everything sent in the slot arrives.
  predicate Undisturbed(a: Air) {
    a.jTurn == Took && a.rTurn == Took && a.jClock == 0 && a.rClock == 0
    && Arrives(a.arrives, 0) && Arrives(a.arrives, 1) && Arrives(a.arrives, 2)
  }

  /** Even two undisturbed slots leave the router up and the joiner waiting. */
  lemma UndisturbedResumption(x: State, a: Air)
    requires x == Begun(true, true) && Undisturbed(a)
    ensures var y := Step(Step(x, a), a); y.p.r.phase == Linked && y.p.j.phase == Active
  {
    ShortHeard(x.rRx, ResumeReq, a.arrives);
    assert Step(x, a).p.r == Side(Active, false, true, true, ResumeRsp, 1, 0, false, false, false);
  }

  // ----- which nonces the keys have used -----

  /** The router seals its last message and is done. */
  predicate RouterLog(x: State) {
    Sound(x) && x.p.r.staged != JoinCfm && SealCount(x.rUses) <= if x.p.r.phase in {Waiting, Active} then 0 else 1
  }

  lemma RouterLogStep(x: State, a: Air, x': State)
    requires RouterLog(x) && x' == Step(x, a)
    ensures RouterLog(x')
  {
    SoundStep(x, a);
    SealCountGrows(x.rUses, RouterUse(x, a));
    RouterSealsLast(x.p, SlotOf(x, a));
  }

  lemma RouterSealsLast(p: Pair, slot: Slot)
    requires Valid(p) && p.r.staged != JoinCfm
    ensures
      var q := Next(p, slot);
      && q.r.staged != JoinCfm && (q.r.phase in {Waiting, Active} ==> p.r.phase in {Waiting, Active})
      && (Sends(Begin(p.r, slot.rTurn), slot.rTurn) ==>
            p.r.phase == Active && (Secured(p.r.staged) ==> q.r.phase == Linked))
  {
  }

  lemma {:induction false} RouterLogAlways(x: State, airs: seq<Air>)
    requires RouterLog(x)
    ensures RouterLog(After(x, airs))
  {
    if airs != [] {
      RouterLogAlways(x, airs[..|airs| - 1]);
      RouterLogStep(After(x, airs[..|airs| - 1]), airs[|airs| - 1], After(x, airs));
    }
  }

  /** The router seals one frame of a handshake at most, so it repeats no nonce, whatever it installs. */
  lemma RouterNeverRepeats(x: State, airs: seq<Air>, src: nat, a: nat, b: nat, key: nat)
    requires x == Begun(x.p.j.resuming, x.ltk)
    ensures SealCount(After(x, airs).rUses) <= 1
    ensures !Repeats(src, After(x, airs).rUses, a, b, key)
  {
    BegunIsSound(x.p.j.resuming, x.ltk);
    RouterLogAlways(x, airs);
    if Repeats(src, After(x, airs).rUses, a, b, key) {
      TwoSealed(After(x, airs).rUses, a, b);
    }
  }

  /** A joiner confirms under the key of the one response it took in, and under no other. */
  predicate JoinerLog(x: State) {
    && Sound(x) && !x.p.j.resuming && x.p.j.staged in {JoinReq, JoinCfm} && Settled(x.jUses)
    && (x.jKey != Unkeyed ==> KeyAfter(x.jUses) == x.jKey)
    && (x.p.j.phase == Active && x.p.j.staged != JoinCfm ==> SealCount(x.jUses) == 0)
    && |x.jUses| <= if x.p.j.phase == Active then x.p.j.slot else SLOT_LIMIT
  }

  lemma JoinerLogStep(x: State, a: Air, x': State)
    requires JoinerLog(x) && x' == Step(x, a)
    ensures JoinerLog(x')
  {
    SoundStep(x, a);
    SealCountGrows(x.jUses, JoinerUse(x, a));
    UseAdded(x.jUses, JoinerUse(x, a));
    JoinerGoesOn(x, a);
  }

  lemma JoinerGoesOn(x: State, a: Air)
    requires Sound(x) && x.p.j.staged in {JoinReq, JoinCfm}
    ensures
      var q, use := Next(x.p, SlotOf(x, a)), JoinerUse(x, a);
      && (q.j.phase == Active ==> x.p.j.phase == Active && q.j.slot >= x.p.j.slot + |use|)
      && (use != [] ==> x.p.j.phase == Active && x.p.j.slot < SlotLimit(x.p.j.resuming))
      && q.j.staged in {JoinReq, JoinCfm} && (use == [Seals] ==> x.p.j.staged == JoinCfm)
      && (x.p.j.phase == Active && x.p.j.staged == JoinCfm && q.j.phase == Active ==> q.j.staged == JoinCfm)
      && (use != [] && use[0].Installs? ==>
            use[0] == Installs(x.gen) && q.j.phase != Linked && (q.j.phase == Active ==> q.j.staged == JoinCfm)
            && (x.p.j.staged == JoinCfm && !x.p.j.resuming ==> x.jKey == Keyed(x.gen)))
  {
    SlotRises(x.p, SlotOf(x, a));
  }

  lemma {:induction false} JoinerLogAlways(x: State, airs: seq<Air>)
    requires JoinerLog(x)
    ensures JoinerLog(After(x, airs))
  {
    if airs != [] {
      JoinerLogAlways(x, airs[..|airs| - 1]);
      JoinerLogStep(After(x, airs[..|airs| - 1]), airs[|airs| - 1], After(x, airs));
    }
  }

  /** The joiner seals two frames under one key and nonce exactly when it confirms again after taking in the
      response again, which installs the same key once more. */
  lemma JoinerRepeatsIff(x: State, airs: seq<Air>, src: nat)
    requires x == Begun(false, x.ltk) && src < WORD16
    ensures (exists a, b, key :: Repeats(src, After(x, airs).jUses, a, b, key)) <==>
      SealsAgain(After(x, airs).jUses)
  {
    BegunIsSound(false, x.ltk);
    JoinerLogAlways(x, airs);
    SettledRepeatsIff(After(x, airs).jUses, src);
  }

  // ----- the replay filter -----

  /** The counters the router has taken since it last installed a key. */
  ghost function Taken(x: State, airs: seq<Air>): set<nat> {
    if airs == [] then {}
    else
      var before, last := airs[..|airs| - 1], airs[|airs| - 1];
      TakenNext(After(x, before), last, Taken(x, before))
  }

  ghost function TakenNext(x: State, a: Air, taken: set<nat>): set<nat> {
    if RouterUse(x, a) != [] && RouterUse(x, a)[0].Installs? then {}
    else if AtRouter(x, a).1.Whole? && Secured(x.p.j.staged) then taken + {SealedSince(x.jUses) + 1}
    else taken
  }

  /** The joiner starts its counters again only while the router has taken none of them. */
  ghost predicate CountersSound(x: State, taken: set<nat>) {
    && Sound(x) && !x.p.j.resuming
    && (x.p.r.phase in {Waiting, Active} ==>
          (x.p.r.staged != JoinAck ==> taken == {}) && forall d :: d in taken ==> d <= SealedSince(x.jUses))
  }

  lemma CountersStep(x: State, a: Air, taken: set<nat>, x': State, taken': set<nat>)
    requires CountersSound(x, taken) && x' == Step(x, a) && taken' == TakenNext(x, a, taken)
    ensures CountersSound(x', taken')
  {
    SoundStep(x, a);
    UseCounted(x.jUses, JoinerUse(x, a));
    RouterGoesOn(x, a);
  }

  lemma UseCounted(uses: seq<KeyUse>, use: seq<KeyUse>)
    requires |use| <= 1
    ensures SealedSince(uses + use) ==
      if use == [] then SealedSince(uses) else if use[0].Installs? then 0 else SealedSince(uses) + 1
  {
    if use == [] {
      assert uses + use == uses;
    } else {
      assert uses + use == uses + [use[0]];
      SinceGrows(uses, use[0]);
    }
  }

  lemma RouterGoesOn(x: State, a: Air)
    requires Sound(x) && !x.p.j.resuming
    ensures
      var q, took := Next(x.p, SlotOf(x, a)), AtRouter(x, a).1.Whole?;
      && (q.r.phase in {Waiting, Active} ==> x.p.r.phase in {Waiting, Active})
      && (x.p.r.phase == Active && x.p.r.staged == JoinAck && q.r.phase == Active ==> q.r.staged == JoinAck)
      && (took && Secured(x.p.j.staged) && q.r.phase == Active ==>
            q.r.staged == JoinAck && JoinerUse(x, a) == [Seals])
      && (JoinerUse(x, a) != [] && JoinerUse(x, a)[0].Installs? ==> x.p.r.staged == JoinRsp && !took)
      && (took ==> x.p.j.staged in {JoinReq, JoinCfm})
      && (!took && q.r.phase in {Waiting, Active} ==> q.r.staged == x.p.r.staged || q.r.staged == NoMsg)
  {
    if RouterListensTo(x, a) {
      RouterTakes(x, a);
    }
  }

  lemma {:induction false} CountersAlways(x: State, airs: seq<Air>)
    requires CountersSound(x, {})
    ensures CountersSound(After(x, airs), Taken(x, airs))
  {
    if airs != [] {
      var before, last := airs[..|airs| - 1], airs[|airs| - 1];
      CountersAlways(x, before);
      CountersStep(After(x, before), last, Taken(x, before), After(x, airs), Taken(x, airs));
    }
  }

  /** The replay filter turns no confirmation away, although the joiner may start its counters again: whichever
      reaches the router has a counter that the filter admits. */
  lemma ConfirmationsAreFresh(x: State, airs: seq<Air>, a: Air)
    requires x == Begun(false, x.ltk)
    requires RouterListensTo(After(x, airs), a)
    ensures Admits(Taken(x, airs), SealedSince(After(x, airs).jUses) + 1)
  {
    BegunIsSound(false, x.ltk);
    CountersAlways(x, airs);
  }

  // ----- two inputs -----

  // One more slot on a run that has reached `y`.
  lemma Onwards(x: State, airs: seq<Air>, y: State, slots: seq<Slot>, a: Air, airs': seq<Air>, y': State)
    requires airs' == airs + [a]
    ensures After(x, airs) == y && SlotsOf(x, airs) == slots && y' == Step(y, a) ==>
      After(x, airs') == y' && SlotsOf(x, airs') == slots + [SlotOf(y, a)]
  {
    AfterOne(x, airs, a);
  }

  lemma RunOfFour(x: State, airs: seq<Air>, x1: State, x2: State, x3: State, x4: State)
    requires |airs| == 4 && x1 == Step(x, airs[0]) && x2 == Step(x1, airs[1])
    requires x3 == Step(x2, airs[2]) && x4 == Step(x3, airs[3])
    ensures After(x, airs) == x4
    ensures
      SlotsOf(x, airs) == [SlotOf(x, airs[0]), SlotOf(x1, airs[1]), SlotOf(x2, airs[2]), SlotOf(x3, airs[3])]
  {
    Onwards(x, airs[..0], x, [], airs[0], airs[..1], x1);
    Onwards(x, airs[..1], x1, SlotsOf(x, airs[..1]), airs[1], airs[..2], x2);
    Onwards(x, airs[..2], x2, SlotsOf(x, airs[..2]), airs[2], airs[..3], x3);
    Onwards(x, airs[..3], x3, SlotsOf(x, airs[..3]), airs[3], airs, x4);
  }

  // Both ends take their turns and these fragments arrive.
  function On(arrives: seq<bool>): Air {
    Air(Took, Took, arrives, 0, 0)
  }

  /** The joiner has `m` staged and the router its response, one of them owing, with `n` slots behind them. */
  predicate At(x: State, m: Msg, joinerOwes: bool, n: nat) {
    && Sound(x) && !x.p.j.resuming && x.p.j.phase == Active && x.p.r.phase == Active && n < 6
    && x.p.j.staged == m && x.p.r.staged == JoinRsp && x.p.j.owe == joinerOwes && x.p.r.owe == !joinerOwes
    && x.p.j.slot <= n && x.p.r.slot <= n && x.p.j.idle <= n && x.p.r.idle <= n
  }

  lemma FirstRequest(x: State, arrives: seq<bool>)
    requires x == Begun(false, x.ltk) && AllArrive(JoinReq, arrives)
    ensures
      var y := Step(x, On(arrives));
      At(y, JoinReq, false, 1) && y.gen == 1 && y.jRx == NO_MARKS && y.jUses == []
    ensures HeardIn(x, On(arrives)) == Whole(true)
  {
    RequestHeard(x.rRx, arrives);
    SoundStep(x, On(arrives));
  }

  lemma RequestAgain(x: State, n: nat, arrives: seq<bool>)
    requires At(x, JoinReq, true, n) && n < 5 && AllArrive(JoinReq, arrives)
    ensures
      var y := Step(x, On(arrives));
      At(y, JoinReq, false, n + 1) && y.gen == x.gen + 1 && y.jRx == x.jRx
    ensures HeardIn(x, On(arrives)) == Whole(true)
  {
    RequestHeard(x.rRx, arrives);
    SoundStep(x, On(arrives));
  }

  lemma ResponseSent(x: State, m: Msg, n: nat, arrives: seq<bool>)
    requires At(x, m, false, n) && n < 5
    ensures
      var y, (rx, heard) := Step(x, On(arrives)), Receive(x.jRx, JoinRsp, x.gen, arrives, 0);
      && y.jRx == rx && y.gen == x.gen && HeardIn(x, On(arrives)) == heard
      && (heard == Whole(true) ==> At(y, JoinCfm, true, n + 1) && y.jUses == x.jUses + [Installs(x.gen)])
      && (heard == Whole(false) ==> y.p.j.phase == Failed)
      && (!heard.Whole? ==> At(y, m, true, n + 1))
  {
    SoundStep(x, On(arrives));
  }

  lemma ConfirmationSent(x: State, n: nat, arrives: seq<bool>)
    requires At(x, JoinCfm, true, n) && n < 5
    ensures
      var y := Step(x, On(arrives));
      && y.gen == x.gen && y.jUses == x.jUses + [Seals] && y.jRx == x.jRx
      && (!Arrives(arrives, 0) ==> At(y, JoinCfm, false, n + 1))
  {
    ShortHeard(x.rRx, JoinCfm, arrives);
    SoundStep(x, On(arrives));
  }

  lemma FirstOnly(gen: nat, first: seq<bool>)
    requires Arrives(first, 0) && !Arrives(first, 1) && !Arrives(first, 2)
    ensures Receive(NO_MARKS, JoinRsp, gen, first, 0) == (Marks(JoinRsp, [Seen(gen), Unseen, Unseen]), Part)
  {
    var rx := Take(NO_MARKS, JoinRsp, gen, 0).0;
    assert rx == Marks(JoinRsp, [Seen(gen), Unseen, Unseen]);
    assert Receive(rx, JoinRsp, gen, first, 2) == (rx, Nothing);
    assert Receive(rx, JoinRsp, gen, first, 1) == (rx, Nothing);
  }

  lemma MixtureBegins(x: State, all: seq<bool>, first: seq<bool>, x1: State, x2: State)
    requires x == Begun(false, x.ltk) && AllArrive(JoinReq, all)
    requires Arrives(first, 0) && !Arrives(first, 1) && !Arrives(first, 2)
    ensures x1 == Step(x, On(all)) && x2 == Step(x1, On(first)) ==>
      && At(x2, JoinReq, true, 2) && x2.gen == 1 && x2.jRx == Marks(JoinRsp, [Seen(1), Unseen, Unseen])
      && HeardIn(x, On(all)) == Whole(true) && HeardIn(x1, On(first)) == Part
  {
    if x1 == Step(x, On(all)) {
      FirstRequest(x, all);
      FirstOnly(1, first);
      ResponseSent(x1, JoinReq, 1, first);
    }
  }

  lemma MixtureEnds(x: State, all: seq<bool>, rest: seq<bool>, x1: State)
    requires At(x, JoinReq, true, 2) && x.gen == 1 && x.jRx == Marks(JoinRsp, [Seen(1), Unseen, Unseen])
    requires AllArrive(JoinReq, all) && !Arrives(rest, 0) && Arrives(rest, 1) && Arrives(rest, 2)
    requires x1 == Step(x, On(all))
    ensures Step(x1, On(rest)).p.j.phase == Failed
    ensures HeardIn(x, On(all)) == Whole(true) && HeardIn(x1, On(rest)) == Whole(false)
  {
    RequestAgain(x, 2, all);
    ResponseHeard(x1.jRx, x1.gen, rest);
    ResponseSent(x1, JoinReq, 3, rest);
  }

  lemma OneLossOfFour(p: Pair, a: Slot, b: Slot, c: Slot, d: Slot)
    requires a.heard.Whole? && c.heard.Whole? && d.heard.Whole?
    ensures Losses(p, [a, b, c, d]) <= 1
  {
    LossesOne(p, [], a);
    LossesOne(p, [a], b);
    LossesOne(p, [a, b], c);
    LossesOne(p, [a, b, c], d);
    assert [] + [a] == [a] && [a] + [b] == [a, b] && [a, b] + [c] == [a, b, c] && [a, b, c] + [d] == [a, b, c, d];
  }

  lemma LossesOne(p: Pair, slots: seq<Slot>, slot: Slot)
    ensures Losses(p, slots + [slot]) <= Losses(p, slots) + if slot.heard.Whole? then 0 else 1
  {
    assert (slots + [slot])[..|slots|] == slots;
  }

  /** The request arrives; of the response its first fragment; the request again; and of the new response the
      other two. At most one message was lost, and the joiner fails. */
  lemma MixtureFails(x: State, airs: seq<Air>, all: seq<bool>, first: seq<bool>, rest: seq<bool>)
    requires x == Begun(false, x.ltk) && AllArrive(JoinReq, all)
    requires Arrives(first, 0) && !Arrives(first, 1) && !Arrives(first, 2)
    requires !Arrives(rest, 0) && Arrives(rest, 1) && Arrives(rest, 2)
    requires |airs| == 4 && airs[0] == airs[2] == On(all) && airs[1] == On(first) && airs[3] == On(rest)
    ensures After(x, airs).p.j.phase == Failed && Losses(x.p, SlotsOf(x, airs)) <= 1
  {
    var x1 := Step(x, airs[0]);
    var x2 := Step(x1, airs[1]);
    var x3 := Step(x2, airs[2]);
    RunOfFour(x, airs, x1, x2, x3, Step(x3, airs[3]));
    MixtureBegins(x, all, first, x1, x2);
    MixtureEnds(x2, all, rest, x3);
    OneLossOfFour(x.p, SlotOf(x, airs[0]), SlotOf(x1, airs[1]), SlotOf(x2, airs[2]), SlotOf(x3, airs[3]));
  }

  lemma ConfirmationLost(x: State, all: seq<bool>, lost: seq<bool>, x1: State, x2: State, x3: State)
    requires x == Begun(false, x.ltk) && AllArrive(JoinReq, all) && AllArrive(JoinRsp, all) && !Arrives(lost, 0)
    ensures x1 == Step(x, On(all)) && x2 == Step(x1, On(all)) && x3 == Step(x2, On(lost)) ==>
      At(x3, JoinCfm, false, 3) && x3.gen == 1 && x3.jUses == [Installs(1), Seals]
  {
    if x1 == Step(x, On(all)) && x2 == Step(x1, On(all)) {
      FirstRequest(x, all);
      ResponseHeard(x1.jRx, x1.gen, all);
      ResponseSent(x1, JoinReq, 1, all);
      ConfirmationSent(x2, 2, lost);
    }
  }

  lemma ConfirmationRepeated(x: State, all: seq<bool>, x1: State, x2: State)
    requires At(x, JoinCfm, false, 3) && AllArrive(JoinRsp, all)
    ensures x1 == Step(x, On(all)) && x2 == Step(x1, On(all)) ==> x2.jUses == x.jUses + [Installs(x.gen), Seals]
  {
    if x1 == Step(x, On(all)) {
      ResponseHeard(x.jRx, x.gen, all);
      ResponseSent(x, JoinCfm, 3, all);
      ConfirmationSent(x1, 4, all);
    }
  }

  /** One lost confirmation in an exchange that is otherwise undisturbed: the response comes again and the second
      confirmation repeats the nonce of the first. */
  lemma LostConfirmationRepeats(x: State, all: seq<bool>, lost: seq<bool>, src: nat)
    requires x == Begun(false, x.ltk) && AllArrive(JoinReq, all) && AllArrive(JoinRsp, all) && !Arrives(lost, 0)
    ensures
      var y := Step(Step(Step(x, On(all)), On(all)), On(lost));
      Repeats(src, Step(Step(y, On(all)), On(all)).jUses, 1, 3, 1)
  {
    var x1 := Step(x, On(all));
    var x2 := Step(x1, On(all));
    var x3 := Step(x2, On(lost));
    var x4 := Step(x3, On(all));
    ConfirmationLost(x, all, lost, x1, x2, x3);
    ConfirmationRepeated(x3, all, x4, Step(x4, On(all)));
    TwiceUnderOneKey(Step(x4, On(all)).jUses, src, 1);
  }

  lemma TwiceUnderOneKey(uses: seq<KeyUse>, src: nat, key: nat)
    requires uses == [Installs(key), Seals] + [Installs(key), Seals]
    ensures Repeats(src, uses, 1, 3, key)
  {
    UseAt(uses, 0);
    UseAt(uses, 1);
    UseAt(uses, 2);
    UseAt(uses, 3);
  }
}
