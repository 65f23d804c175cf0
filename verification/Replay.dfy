/** Frame counters on a secured link: the replay window and the nonces. */
module Replay {
  import opened Bytes
  import opened Config
  import opened Arith

  // Counters are `uint32_t`; the replay mask is one too, kept here as its bits, lowest first.
  const MASK_BITS: nat := 32

  type Mask = m: seq<bool> | |m| == 32 witness seq(32, i => false)

  const NO_BITS: Mask := seq(32, i => false)

  function Window(): nat {
    Min(REPLAY_WINDOW, MASK_BITS)
  }

  function ShiftLeft(mask: Mask, shift: nat): Mask
    requires shift < MASK_BITS
  {
    seq(shift, i => false) + mask[..MASK_BITS - shift]
  }

  // ----- the replay filter -----

  datatype Filter = Filter(highest: nat, mask: Mask)

  const FRESH_FILTER := Filter(0, NO_BITS)

  /** What the filter promises, in terms of the set of counters accepted so far. */
  ghost predicate Admits(seen: set<nat>, ctr: nat) {
    ctr != 0 && ctr !in seen && forall d :: d in seen && d > ctr ==> d - ctr < Window()
  }

  ghost function After(seen: set<nat>, ctr: nat): set<nat> {
    if Admits(seen, ctr) then seen + {ctr} else seen
  }

  /** The two words stand for the set: the mask remembers it exactly 32 counters back. */
  ghost predicate Tracks(f: Filter, seen: set<nat>) {
    && 0 !in seen && (forall d :: d in seen ==> d <= f.highest)
    && (f.highest != 0 ==> f.highest in seen)
    && (forall b :: 0 <= b < MASK_BITS ==> (f.mask[b] <==> b < f.highest && f.highest - b in seen))
  }

  lemma NothingTracked()
    ensures Tracks(FRESH_FILTER, {})
  {
  }

  lemma AheadTracks(f: Filter, seen: set<nat>, ctr: nat, mask: Mask)
    requires Tracks(f, seen) && ctr > f.highest
    requires mask == (if ctr - f.highest >= MASK_BITS then NO_BITS else ShiftLeft(f.mask, ctr - f.highest))[0 := true]
    ensures Admits(seen, ctr) && Tracks(Filter(ctr, mask), After(seen, ctr))
  {
    var shift := ctr - f.highest;
    forall b | 0 <= b < MASK_BITS
      ensures mask[b] <==> b < ctr && ctr - b in seen + {ctr}
    {
      if shift <= b {
        assert mask[b] == f.mask[b - shift];
      } else if 0 < b {
        assert !mask[b];
      }
    }
  }

  lemma BehindTracks(f: Filter, seen: set<nat>, behind: nat)
    requires Tracks(f, seen) && behind < f.highest
    ensures Admits(seen, f.highest - behind) <==> behind < Window() && !f.mask[behind]
    ensures Admits(seen, f.highest - behind) ==>
      Tracks(Filter(f.highest, f.mask[behind := true]), After(seen, f.highest - behind))
  {
    if behind < Window() && !f.mask[behind] {
      var mask := f.mask[behind := true];
      forall b | 0 <= b < MASK_BITS
        ensures mask[b] <==> b < f.highest && f.highest - b in seen + {f.highest - behind}
      {
      }
    }
  }

  /** Counters accepted over a sequence of calls, by the promise alone. */
  ghost function Accepted(calls: seq<nat>): (seen: set<nat>) {
    if calls == [] then {} else After(Accepted(calls[..|calls| - 1]), calls[|calls| - 1])
  }

  /** Having been accepted lasts. */
  lemma {:induction false} StaysAccepted(calls: seq<nat>, i: nat, j: nat)
    requires i <= j <= |calls|
    ensures Accepted(calls[..i]) <= Accepted(calls[..j])
    decreases j
  {
    if j > i {
      StaysAccepted(calls, i, j - 1);
      assert calls[..j][..j - 1] == calls[..j - 1];
    }
  }

  /** No counter is accepted twice, however often and however late it is replayed. */
  lemma AcceptedOnce(calls: seq<nat>, i: nat, j: nat)
    requires i < j < |calls| && calls[i] == calls[j]
    requires Admits(Accepted(calls[..i]), calls[i])
    ensures !Admits(Accepted(calls[..j]), calls[j])
  {
    assert calls[..i + 1][..i] == calls[..i];
    StaysAccepted(calls, i + 1, j);
  }

  /** A sender numbers its frames from one upward. A frame that arrives late is accepted on its
      first arrival as long as no frame a window or more ahead of it got in first. */
  lemma LateFrameAccepted(calls: seq<nat>, ctr: nat)
    requires ctr != 0 && ctr !in calls
    requires forall d :: d in calls ==> d < ctr + Window()
    ensures Admits(Accepted(calls), ctr)
  {
    AcceptedWereCalled(calls);
  }

  lemma {:induction false} AcceptedWereCalled(calls: seq<nat>)
    ensures forall d :: d in Accepted(calls) ==> d in calls
  {
    if calls != [] {
      AcceptedWereCalled(calls[..|calls| - 1]);
    }
  }

  // ----- nonces -----

  const NONCE_FORMAT_V1: Byte := 1
  const NONCE_LEN: nat := 13

  function Le32(v: nat): seq<Byte> {
    [v % 256, v / 256 % 256, v / 65536 % 256, v / 16777216 % 256]
  }

  function Nonce(src: nat, ctr: nat): seq<Byte> {
    Le16(src) + [NONCE_FORMAT_V1] + Le32(ctr) + seq(6, i => 0)
  }

  lemma Le32Value(v: nat)
    requires v < WORD32
    ensures v == v % 256 + 256 * (v / 256 % 256) + 65536 * (v / 65536 % 256) + 16777216 * (v / 16777216 % 256)
  {
  }

  /** Two nonces are one only if both the sender and the counter are. */
  lemma NonceInjective(src: nat, ctr: nat, src': nat, ctr': nat)
    requires src < WORD16 && src' < WORD16 && ctr < WORD32 && ctr' < WORD32
    ensures |Nonce(src, ctr)| == NONCE_LEN
    ensures Nonce(src, ctr) == Nonce(src', ctr') <==> src == src' && ctr == ctr'
  {
    var a, b := Nonce(src, ctr), Nonce(src', ctr');
    if a == b {
      assert a[0] == src % 256 && a[1] == src / 256 % 256 && b[0] == src' % 256 && b[1] == src' / 256 % 256;
      assert a[3..7] == Le32(ctr) && b[3..7] == Le32(ctr');
      Le32Value(ctr);
      Le32Value(ctr');
      assert Le32(ctr)[0] == Le32(ctr')[0] && Le32(ctr)[1] == Le32(ctr')[1]
        && Le32(ctr)[2] == Le32(ctr')[2] && Le32(ctr)[3] == Le32(ctr')[3];
    }
  }

  /** The nonces of the first `n` frames an address seals after an installation: the counter is raised
      before use and wraps with its type. */
  function Sealed(src: nat, n: nat): (nonces: seq<seq<Byte>>) {
    seq(n, i => Nonce(src, (i + 1) % WORD32))
  }

  /** Between two installations a sender repeats a nonce exactly when two frames lie a multiple of 2^32
      apart, so never within the first 2^32 frames. */
  lemma NonceReuse(src: nat, n: nat, i: nat, j: nat)
    requires src < WORD16 && i < j < n
    ensures Sealed(src, n)[i] == Sealed(src, n)[j] <==> (j - i) % WORD32 == 0
    ensures n <= WORD32 ==> Sealed(src, n)[i] != Sealed(src, n)[j]
  {
    NonceInjective(src, (i + 1) % WORD32, src, (j + 1) % WORD32);
    SameResidue(i + 1, j + 1);
  }

  lemma SameResidue(a: nat, b: nat)
    requires a < b
    ensures a % WORD32 == b % WORD32 <==> (b - a) % WORD32 == 0
    ensures b - a < WORD32 ==> a % WORD32 != b % WORD32
  {
    assert a == a / WORD32 * WORD32 + a % WORD32 && b == b / WORD32 * WORD32 + b % WORD32;
  }

  /** The two ends share a key but not an address, so their nonces never meet. */
  lemma DirectionsApart(src: nat, src': nat, n: nat, m: nat)
    requires src < WORD16 && src' < WORD16 && src != src'
    ensures forall x :: !(x in Sealed(src, n) && x in Sealed(src', m))
  {
    forall i, j | 0 <= i < n && 0 <= j < m
      ensures Sealed(src, n)[i] != Sealed(src', m)[j]
    {
      NonceInjective(src, (i + 1) % WORD32, src', (j + 1) % WORD32);
    }
  }

  // ----- one end's keys over time -----

  // A key, the same as before or not, is installed and the counters restart; or a frame is sealed.
  datatype KeyUse = Installs(key: nat) | Seals

  datatype Keyed = Unkeyed | Keyed(key: nat)

  /** The key in use after some uses. */
  function KeyAfter(uses: seq<KeyUse>): Keyed {
    if uses == [] then Unkeyed
    else
      var last := uses[|uses| - 1];
      if last.Installs? then Keyed(last.key) else KeyAfter(uses[..|uses| - 1])
  }

  /** Frames sealed since it was installed. */
  function SealedSince(uses: seq<KeyUse>): (n: nat)
    ensures n <= |uses|
  {
    if uses == [] || uses[|uses| - 1].Installs? then 0 else SealedSince(uses[..|uses| - 1]) + 1
  }

  /** Use `i` seals a frame, under this key. */
  predicate SealsUnder(uses: seq<KeyUse>, i: nat, key: nat) {
    i < |uses| && uses[i] == Seals && KeyAfter(uses[..i + 1]) == Keyed(key)
  }

  function NonceAt(src: nat, uses: seq<KeyUse>, i: nat): seq<Byte>
    requires i < |uses|
  {
    Nonce(src, SealedSince(uses[..i + 1]) % WORD32)
  }

  /** Two frames go out under one key and one nonce. */
  predicate Repeats(src: nat, uses: seq<KeyUse>, a: nat, b: nat, key: nat) {
    a < b && SealsUnder(uses, a, key) && SealsUnder(uses, b, key) && NonceAt(src, uses, a) == NonceAt(src, uses, b)
  }

  /** A key seals a frame, some key is installed, and the first one seals again. */
  predicate Returns(uses: seq<KeyUse>, a: nat, c: nat, b: nat, key: nat) {
    a < c < b && SealsUnder(uses, a, key) && SealsUnder(uses, b, key) && uses[c].Installs?
  }

  // One installation seals more frames than there are counters.
  predicate Overruns(uses: seq<KeyUse>, b: nat, key: nat) {
    SealsUnder(uses, b, key) && SealedSince(uses[..b + 1]) > WORD32
  }

  predicate NoInstall(uses: seq<KeyUse>, a: nat, b: nat) {
    forall c {:trigger uses[c]} :: a < c <= b && c < |uses| ==> uses[c] == Seals
  }

  lemma SinceGrows(uses: seq<KeyUse>, use: KeyUse)
    ensures SealedSince(uses + [use]) == if use.Installs? then 0 else SealedSince(uses) + 1
  {
    assert (uses + [use])[..|uses|] == uses;
  }

  lemma UseAt(uses: seq<KeyUse>, i: nat)
    requires i < |uses|
    ensures KeyAfter(uses[..i + 1]) == if uses[i].Installs? then Keyed(uses[i].key) else KeyAfter(uses[..i])
    ensures SealedSince(uses[..i + 1]) == if uses[i].Installs? then 0 else SealedSince(uses[..i]) + 1
  {
    assert uses[..i + 1][..i] == uses[..i];
  }

  lemma {:induction false} SealsInARow(uses: seq<KeyUse>, a: nat, b: nat)
    requires a <= b < |uses| && NoInstall(uses, a, b)
    ensures KeyAfter(uses[..b + 1]) == KeyAfter(uses[..a + 1])
    ensures SealedSince(uses[..b + 1]) == SealedSince(uses[..a + 1]) + (b - a)
    decreases b
  {
    if a < b {
      SealsInARow(uses, a, b - 1);
      UseAt(uses, b);
    }
  }

  /** Every count up to the present one was some frame's, since the installation. */
  lemma {:induction false} CountMet(uses: seq<KeyUse>, i: nat, n: nat) returns (f: nat)
    requires i < |uses| && 1 <= n <= SealedSince(uses[..i + 1])
    ensures f <= i && uses[f] == Seals && NoInstall(uses, f, i)
    ensures SealedSince(uses[..f + 1]) == n && KeyAfter(uses[..f + 1]) == KeyAfter(uses[..i + 1])
  {
    UseAt(uses, i);
    if n == SealedSince(uses[..i + 1]) {
      f := i;
    } else {
      f := CountMet(uses, i - 1, n);
    }
  }

  lemma ReturnRepeats(src: nat, uses: seq<KeyUse>, a: nat, c: nat, b: nat, key: nat)
    requires Returns(uses, a, c, b, key)
    ensures exists a', b' :: Repeats(src, uses, a', b', key)
  {
    UseAt(uses, a);
    UseAt(uses, b);
    var f := CountMet(uses, a, 1);
    var g := CountMet(uses, b, 1);
    assert Repeats(src, uses, f, g, key);
  }

  lemma OverrunRepeats(src: nat, uses: seq<KeyUse>, b: nat, key: nat)
    requires Overruns(uses, b, key)
    ensures exists a, b' :: Repeats(src, uses, a, b', key)
  {
    var n := SealedSince(uses[..b + 1]);
    var f := CountMet(uses, b, n - WORD32);
    SameResidue(n - WORD32, n);
    assert Repeats(src, uses, f, b, key);
  }

  lemma RepeatReturns(src: nat, uses: seq<KeyUse>, a: nat, b: nat, key: nat)
    requires src < WORD16 && Repeats(src, uses, a, b, key)
    ensures (exists c :: Returns(uses, a, c, b, key)) || Overruns(uses, b, key)
  {
    if NoInstall(uses, a, b) {
      var m, n := SealedSince(uses[..a + 1]), SealedSince(uses[..b + 1]);
      SealsInARow(uses, a, b);
      UseAt(uses, a);
      NonceInjective(src, m % WORD32, src, n % WORD32);
      SameResidue(m, n);
    } else {
      var c :| a < c <= b && c < |uses| && uses[c] != Seals;
      assert Returns(uses, a, c, b, key);
    }
  }

  /** Over any history of installations, a nonce is repeated under a key exactly when a key that has sealed
      a frame seals another after an installation in between, or seals more than 2^32 since one. */
  lemma KeyRepeatsIff(src: nat, uses: seq<KeyUse>, key: nat)
    requires src < WORD16
    ensures (exists a, b :: Repeats(src, uses, a, b, key)) <==>
      (exists a, c, b :: Returns(uses, a, c, b, key)) || (exists b :: Overruns(uses, b, key))
  {
    if a, c, b :| Returns(uses, a, c, b, key) {
      ReturnRepeats(src, uses, a, c, b, key);
    }
    if b :| Overruns(uses, b, key) {
      OverrunRepeats(src, uses, b, key);
    }
    if a, b :| Repeats(src, uses, a, b, key) {
      RepeatReturns(src, uses, a, b, key);
    }
  }

  /** Frames sealed in all. */
  function SealCount(uses: seq<KeyUse>): (n: nat)
    ensures n <= |uses|
  {
    if uses == [] then 0
    else SealCount(uses[..|uses| - 1]) + if uses[|uses| - 1] == Seals then 1 else 0
  }

  lemma SealCountGrows(uses: seq<KeyUse>, use: seq<KeyUse>)
    requires |use| <= 1
    ensures SealCount(uses + use) == SealCount(uses) + if use == [Seals] then 1 else 0
  {
    if use == [] {
      assert uses + use == uses;
    } else {
      assert (uses + use)[..|uses|] == uses;
    }
  }

  lemma {:induction false} TwoSealed(uses: seq<KeyUse>, a: nat, b: nat)
    requires a < b < |uses| && uses[a] == Seals && uses[b] == Seals
    ensures SealCount(uses) >= 2
  {
    var before := uses[..|uses| - 1];
    if b < |before| {
      TwoSealed(before, a, b);
    } else {
      SealedOnce(before, a);
    }
  }

  lemma {:induction false} SealedOnce(uses: seq<KeyUse>, a: nat)
    requires a < |uses| && uses[a] == Seals
    ensures SealCount(uses) >= 1
  {
    if a < |uses| - 1 {
      SealedOnce(uses[..|uses| - 1], a);
    }
  }

  /** A key that has sealed is the only one installed afterwards. */
  predicate Settled(uses: seq<KeyUse>) {
    uses == [] ||
    var before, last := uses[..|uses| - 1], uses[|uses| - 1];
    Settled(before) && if last == Seals then KeyAfter(before).Keyed?
                       else SealCount(before) == 0 || KeyAfter(before) == Keyed(last.key)
  }

  /** Where the frames before were sealed under some key, all later ones are under it. */
  lemma {:induction false} SettledKey(uses: seq<KeyUse>, a: nat)
    requires Settled(uses) && a < |uses| && uses[a] == Seals
    ensures KeyAfter(uses).Keyed? && KeyAfter(uses[..a + 1]) == KeyAfter(uses)
  {
    var before := uses[..|uses| - 1];
    if a == |before| {
      assert uses[..a + 1] == uses;
    } else {
      SettledKey(before, a);
      SealedOnce(before, a);
      assert before[..a + 1] == uses[..a + 1];
    }
  }

  // One use is added to the log, or none.
  lemma UseAdded(uses: seq<KeyUse>, use: seq<KeyUse>)
    requires |use| <= 1
    ensures use == [] ==> uses + use == uses
    ensures use != [] ==> KeyAfter(uses + use) == if use[0].Installs? then Keyed(use[0].key) else KeyAfter(uses)
    ensures use == [Seals] && Settled(uses) && KeyAfter(uses).Keyed? ==> Settled(uses + use)
    ensures use != [] && use[0].Installs? && Settled(uses) ==>
      (Settled(uses + use) <==> SealCount(uses) == 0 || KeyAfter(uses) == Keyed(use[0].key))
  {
    if use != [] {
      assert (uses + use)[..|uses|] == uses;
    }
  }

  /** Sealing, an installation, and sealing again. */
  ghost predicate SealsAgain(uses: seq<KeyUse>) {
    exists a: nat, c: nat, b: nat :: SealsAgainAt(uses, a, c, b)
  }

  predicate SealsAgainAt(uses: seq<KeyUse>, a: nat, c: nat, b: nat) {
    a < c < b < |uses| && uses[a] == Seals && uses[c].Installs? && uses[b] == Seals
  }

  /** Then a nonce is repeated exactly when a frame is sealed before and after some installation. */
  lemma SettledRepeatsIff(uses: seq<KeyUse>, src: nat)
    requires Settled(uses) && |uses| <= WORD32 && src < WORD16
    ensures (exists a, b, key :: Repeats(src, uses, a, b, key)) <==> SealsAgain(uses)
  {
    if a, b, key :| Repeats(src, uses, a, b, key) {
      RepeatReturns(src, uses, a, b, key);
      var c :| Returns(uses, a, c, b, key);
      assert SealsAgainAt(uses, a, c, b);
    }
    if a, c, b :| SealsAgainAt(uses, a, c, b) {
      SettledKey(uses, a);
      SettledKey(uses, b);
      assert Returns(uses, a, c, b, KeyAfter(uses).key);
      ReturnRepeats(src, uses, a, c, b, KeyAfter(uses).key);
    }
  }

  // ----- the key of one link -----

  datatype Status = Ok | NoKey | Invalid | TooLong | CipherFailed | BadTag | Replayed

  const OFF_FCTR: nat := 8

  /** These are the nonces drawn since the last installation, and `ctr` is where the counter stands. */
  ghost predicate Drawn(addr: nat, ctr: nat, nonces: seq<seq<Byte>>, uses: seq<KeyUse>) {
    |nonces| == SealedSince(uses) && ctr == |nonces| % WORD32 && nonces == Sealed(addr, |nonces|)
  }

  lemma NoneDrawn(addr: nat, uses: seq<KeyUse>, key: nat)
    ensures Tracks(FRESH_FILTER, Accepted([])) && Drawn(addr, 0, [], uses + [Installs(key)])
    ensures Drawn(addr, 0, [], [])
  {
    NothingTracked();
    SinceGrows(uses, Installs(key));
  }

  lemma OneDrawn(addr: nat, ctr: nat, nonces: seq<seq<Byte>>, uses: seq<KeyUse>)
    requires Drawn(addr, ctr, nonces, uses)
    ensures
      Drawn(addr, (ctr + 1) % WORD32, nonces + [Nonce(addr, (ctr + 1) % WORD32)], uses + [Seals])
  {
    SinceGrows(uses, Seals);
    SealedGrows(addr, |nonces|);
    NextCounter(|nonces|);
  }

  // What the cipher makes of a frame.
  datatype Cipher = Ciphertext(bytes: seq<Byte>) | Failure

  class LinkKey {
    const addr: nat
    var hasKey: bool
    var txCtr: nat
    var rxCtr: nat
    var mask: Mask
    /** Counters taken from authentic frames since the last installation, in order of arrival. */
    ghost var heard: seq<nat>
    /** Nonces drawn since the last installation. */
    ghost var nonces: seq<seq<Byte>>
    /** Every installation and every nonce drawn. */
    ghost var uses: seq<KeyUse>

    ghost predicate Valid()
      reads this`rxCtr, this`mask, this`heard, this`txCtr, this`nonces, this`uses
    {
      && Tracks(Filter(rxCtr, mask), Accepted(heard))
      && Drawn(addr, txCtr, nonces, uses)
    }

    constructor (addr: nat)
      ensures Valid() && !hasKey && heard == [] && nonces == [] && uses == [] && this.addr == addr
    {
      this.addr := addr;
      hasKey, txCtr, rxCtr, mask := false, 0, 0, NO_BITS;
      heard, nonces, uses := [], [], [];
      new;
      NoneDrawn(addr, [], 0);
    }

    /** `lg_sec_install_key`: a key that cannot be imported leaves none. The counters restart with every
        installation, of a new key or of the one in use. */
    method InstallKey(key: nat, imported: bool)
      requires Valid()
      modifies this
      ensures Valid() && hasKey == imported
      ensures uses == if imported then old(uses) + [Installs(key)] else old(uses)
      ensures imported ==> txCtr == 0 && rxCtr == 0 && mask == NO_BITS && heard == [] && nonces == []
      ensures !imported ==> heard == old(heard) && nonces == old(nonces)
    {
      hasKey := imported;
      if imported {
        Restart(key);
      }
    }

    // The counters and the window start again.
    method Restart(key: nat)
      modifies this`txCtr, this`rxCtr, this`mask, this`heard, this`nonces, this`uses
      ensures Valid() && txCtr == 0 && rxCtr == 0 && mask == NO_BITS && heard == [] && nonces == []
      ensures uses == old(uses) + [Installs(key)]
    {
      txCtr, rxCtr, mask := 0, 0, NO_BITS;
      NoneDrawn(addr, uses, key);
      heard, nonces, uses := [], [], uses + [Installs(key)];
    }

    method ForgetKey()
      requires Valid()
      modifies this`hasKey
      ensures Valid() && !hasKey
    {
      hasKey := false;
    }

    /** `replay_check`. */
    method ReplayCheck(ctr: nat) returns (accepted: bool)
      requires Valid() && ctr < WORD32
      modifies this`rxCtr, this`mask, this`heard
      ensures Valid() && heard == old(heard) + [ctr]
      ensures accepted <==> Admits(Accepted(old(heard)), ctr)
    {
      ghost var f, seen := Filter(rxCtr, mask), Accepted(heard);
      heard := heard + [ctr];
      assert heard[..|heard| - 1] == old(heard);
      if ctr == 0 {
        return false;
      }
      if ctr > rxCtr {
        var shift := ctr - rxCtr;
        mask := if shift >= MASK_BITS then NO_BITS else ShiftLeft(mask, shift);
        mask := mask[0 := true];
        rxCtr := ctr;
        AheadTracks(f, seen, ctr, mask);
        return true;
      }
      var behind := rxCtr - ctr;
      BehindTracks(f, seen, behind);
      if behind >= Window() {
        return false;
      }
      if mask[behind] {
        return false;
      }
      mask := mask[behind := true];
      return true;
    }

    /** `lg_sec_decrypt`: the counter is looked at only once the tag has verified, so a forged
        frame leaves the filter alone. */
    method Decrypt(len: nat, ctr: nat, authentic: bool) returns (status: Status)
      requires Valid() && ctr < WORD32
      modifies this`rxCtr, this`mask, this`heard
      ensures Valid()
      ensures status == Ok <==>
        hasKey && len >= HDR_LEN_SEC + MIC_LEN && authentic && Admits(Accepted(old(heard)), ctr)
      ensures status in {Ok, Replayed} ==> heard == old(heard) + [ctr]
      ensures status !in {Ok, Replayed} ==> heard == old(heard) && rxCtr == old(rxCtr) && mask == old(mask)
      ensures !authentic ==> status !in {Ok, Replayed}
    {
      if !hasKey {
        return NoKey;
      }
      if len < HDR_LEN_SEC + MIC_LEN {
        return Invalid;
      }
      if !authentic {
        return BadTag;
      }
      var accepted := ReplayCheck(ctr);
      return if accepted then Ok else Replayed;
    }

    /** `lg_sec_encrypt`: a counter once drawn is never drawn again, not even when sealing the
        frame then fails. The ciphertext and its tag take the place of the body. */
    method Encrypt(pdu: array<Byte>, hdrLen: nat, len: nat, sealed: Cipher) returns (status: Status, newLen: nat)
      requires Valid() && pdu.Length == PDU_MAX && HDR_LEN_SEC <= hdrLen
      requires hdrLen <= len && sealed.Ciphertext? ==> |sealed.bytes| == len - hdrLen + MIC_LEN
      modifies this`txCtr, this`nonces, this`uses, pdu
      ensures Valid()
      ensures uses == if nonces != old(nonces) then old(uses) + [Seals] else old(uses)
      ensures status == NoKey <==> !hasKey
      ensures status == Invalid <==> hasKey && len < hdrLen
      ensures status == TooLong <==> hasKey && hdrLen <= len && len + MIC_LEN > PDU_MAX
      ensures status == CipherFailed <==>
        hasKey && hdrLen <= len && len + MIC_LEN <= PDU_MAX && sealed == Failure
      ensures status in {Ok, TooLong, CipherFailed} <==> nonces != old(nonces)
      ensures newLen == if status == Ok then len + MIC_LEN else len
      ensures nonces != old(nonces) ==> nonces == old(nonces) + [Nonce(addr, txCtr)]
      ensures var headed := old(pdu[..OFF_FCTR]) + Le32(txCtr) + old(pdu[OFF_FCTR + 4..]);
        pdu[..] ==
          if status == Ok then headed[..hdrLen] + sealed.bytes + headed[newLen..]
          else if nonces != old(nonces) then headed
          else old(pdu[..])
    {
      newLen := len;
      if !hasKey {
        return NoKey, newLen;
      }
      if len < hdrLen {
        return Invalid, newLen;
      }
      OneDrawn(addr, txCtr, nonces, uses);
      txCtr := (txCtr + 1) % WORD32;
      nonces, uses := nonces + [Nonce(addr, txCtr)], uses + [Seals];
      PutCounter(pdu, txCtr);
      if len + MIC_LEN > PDU_MAX {
        return TooLong, newLen;
      }
      if sealed == Failure {
        return CipherFailed, newLen;
      }
      newLen := len + MIC_LEN;
      CopyIn(pdu, hdrLen, sealed.bytes);
      return Ok, newLen;
    }
  }

  lemma SealedGrows(src: nat, n: nat)
    ensures Sealed(src, n + 1) == Sealed(src, n) + [Nonce(src, (n + 1) % WORD32)]
  {
  }

  lemma NextCounter(n: nat)
    ensures (n % WORD32 + 1) % WORD32 == (n + 1) % WORD32
  {
    var q, r := n / WORD32, n % WORD32;
    assert n + 1 == q * WORD32 + (r + 1);
    if r + 1 < WORD32 {
      DivModUnique(n + 1, WORD32, q, r + 1);
    } else {
      DivModUnique(n + 1, WORD32, q + 1, 0);
    }
  }

  method PutCounter(pdu: array<Byte>, ctr: nat)
    requires pdu.Length >= HDR_LEN_SEC
    modifies pdu
    ensures pdu[..] == old(pdu[..OFF_FCTR]) + Le32(ctr) + old(pdu[OFF_FCTR + 4..])
  {
    var b := Le32(ctr);
    pdu[OFF_FCTR], pdu[OFF_FCTR + 1] := b[0], b[1];
    pdu[OFF_FCTR + 2], pdu[OFF_FCTR + 3] := b[2], b[3];
  }
}
