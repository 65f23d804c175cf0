/** Which channel an event uses: the hop sequence and its spread over the map. */
module Hop {
  import opened Arith
  import opened Config
  import opened Words

  const CHAN_FIRST: nat := 11
  const CHAN_COUNT: nat := 16

  // Bit indices set in the sixteen-bit channel map.
  type ChannelMap = m: set<int> | forall i :: i in m ==> 0 <= i < CHAN_COUNT witness {}

  // ----- the arithmetic, on sixteen-bit words -----

  function MultiplyAdd(a: bv16, b: bv16): bv16 {
    Plus(Times17(a), b)
  }

  function Mix(x: bv16): bv16 {
    Fold9(Times2(Fold7(Times1(Fold8(x)))))
  }

  function Rounds(seed: bv16, w: bv16, n: nat): bv16
    decreases n
  {
    if n == 0 then w else MultiplyAdd(Permute(Rounds(seed, w, n - 1)), seed)
  }

  /** The sixteen-bit value that is reduced to a channel index. */
  function HopWord(seed: bv16, counter: bv16): bv16 {
    Mix(Xor(Rounds(seed, Xor(counter, seed), 3), seed))
  }

  // ----- it loses nothing -----

  lemma MixInjective(x: bv16, y: bv16)
    requires Mix(x) == Mix(y)
    ensures x == y
  {
    Fold9Injective(Times2(Fold7(Times1(Fold8(x)))), Times2(Fold7(Times1(Fold8(y)))));
    Times2Injective(Fold7(Times1(Fold8(x))), Fold7(Times1(Fold8(y))));
    Fold7Injective(Times1(Fold8(x)), Times1(Fold8(y)));
    Times1Injective(Fold8(x), Fold8(y));
    Fold8Injective(x, y);
  }

  lemma {:induction false} RoundsInjective(seed: bv16, x: bv16, y: bv16, n: nat)
    requires Rounds(seed, x, n) == Rounds(seed, y, n)
    ensures x == y
    decreases n
  {
    if n > 0 {
      var p, q := Rounds(seed, x, n - 1), Rounds(seed, y, n - 1);
      PlusInjective(Times17(Permute(p)), Times17(Permute(q)), seed);
      Times17Injective(Permute(p), Permute(q));
      PermuteInjective(p, q);
      RoundsInjective(seed, x, y, n - 1);
    }
  }

  /** Under any seed two different counters give two different hop words. */
  lemma HopWordInjective(seed: bv16, c: bv16, d: bv16)
    requires HopWord(seed, c) == HopWord(seed, d)
    ensures c == d
  {
    var p, q := Rounds(seed, Xor(c, seed), 3), Rounds(seed, Xor(d, seed), 3);
    MixInjective(Xor(p, seed), Xor(q, seed));
    XorInjective(p, q, seed);
    RoundsInjective(seed, Xor(c, seed), Xor(d, seed), 3);
    XorInjective(c, d, seed);
  }

  // ----- words as numbers -----

  /** Value of the low `k` bits. */
  function LowBits(w: bv16, k: nat): nat
    decreases k
  {
    if k == 0 then 0 else (if Odd(w) then 1 else 0) + 2 * LowBits(Half(w), k - 1)
  }

  function FromLow(n: nat, k: nat): bv16
    decreases k
  {
    if k == 0 then 0 else Join(FromLow(n / 2, k - 1), n % 2 == 1)
  }

  /** A sixteen-bit word as a number, and a number as a word. */
  function Value(w: bv16): nat {
    LowBits(w, 16)
  }

  function Word(n: nat): bv16 {
    FromLow(n, 16)
  }

  // The word with the low `k` bits set.
  function Mask(k: nat): bv16 {
    if k == 0 then 0 else Join(Mask(k - 1), true)
  }

  lemma MaskShort(k: nat)
    requires k <= 15
    ensures Outside(Mask(k), 0x7FFF) == 0
  {
    assert Mask(1) == 1 && Mask(2) == 3 && Mask(3) == 7 && Mask(4) == 0xF && Mask(5) == 0x1F;
    assert Mask(6) == 0x3F && Mask(7) == 0x7F && Mask(8) == 0xFF && Mask(9) == 0x1FF && Mask(10) == 0x3FF;
    assert Mask(11) == 0x7FF && Mask(12) == 0xFFF && Mask(13) == 0x1FFF && Mask(14) == 0x3FFF && Mask(15) == 0x7FFF;
  }

  lemma {:induction false} FromLowFits(n: nat, k: nat)
    ensures Outside(FromLow(n, k), Mask(k)) == 0
    decreases k
  {
    if k > 0 {
      FromLowFits(n / 2, k - 1);
      JoinParts(FromLow(n / 2, k - 1), n % 2 == 1, Mask(k - 1));
    }
  }

  /** Every number below 2^k is the value of its word. */
  lemma {:induction false} FromLowValue(n: nat, k: nat)
    requires k <= 16 && n < Power(k)
    ensures LowBits(FromLow(n, k), k) == n
    decreases k
  {
    if k > 0 {
      FromLowValue(n / 2, k - 1);
      FromLowFits(n / 2, k - 1);
      MaskShort(k - 1);
      JoinParts(FromLow(n / 2, k - 1), n % 2 == 1, Mask(k - 1));
    }
  }

  lemma {:induction false} LowBitsBelow(w: bv16, k: nat)
    ensures LowBits(w, k) < Power(k)
    decreases k
  {
    if k > 0 {
      LowBitsBelow(Half(w), k - 1);
    }
  }

  lemma {:induction false} LowBitsInjective(w: bv16, v: bv16, k: nat)
    requires LowBits(w, k) == LowBits(v, k) && Outside(w, Mask(k)) == 0 && Outside(v, Mask(k)) == 0
    ensures w == v
    decreases k
  {
    if k > 0 {
      SplitParts(w);
      SplitParts(v);
      HalfOutside(w, Mask(k - 1));
      HalfOutside(v, Mask(k - 1));
      LowBitsInjective(Half(w), Half(v), k - 1);
    } else {
      OutsideNothing(w);
      OutsideNothing(v);
    }
  }

  lemma OutsideEverything(w: bv16)
    ensures Outside(w, Mask(16)) == 0
  {
    assert Mask(8) == 0xFF;
    assert Mask(16) == 0xFFFF;
  }

  /** Words and the numbers below 65536 are the same thing. */
  lemma WordsAreNumbers(n: nat, w: bv16)
    requires n < WORD16
    ensures Value(Word(n)) == n
    ensures Value(w) < WORD16 && Word(Value(w)) == w
  {
    assert Power(8) == 256;
    assert Power(16) == WORD16;
    FromLowValue(n, 16);
    LowBitsBelow(w, 16);
    FromLowValue(Value(w), 16);
    OutsideEverything(w);
    OutsideEverything(Word(Value(w)));
    LowBitsInjective(Word(Value(w)), w, 16);
  }

  // ----- picking a channel -----

  /** Members of the map below bit `i`. */
  function Below(map_: ChannelMap, i: int): set<int> {
    set j | j in map_ && j < i
  }

  /** The channel of the map with exactly `index % n` members below it. */
  ghost predicate IsPick(map_: ChannelMap, index: nat, chan: nat) {
    && chan - CHAN_FIRST in map_
    && |Below(map_, chan - CHAN_FIRST)| == index % |map_|
  }

  /** `lg_chan_remap`: scan for the channel at position `index % n`. */
  method Remap(map_: ChannelMap, index: nat) returns (chan: nat)
    ensures map_ == {} ==> chan == CHAN_FIRST
    ensures map_ != {} ==> IsPick(map_, index, chan)
  {
    var n := |map_|;
    var seen := 0;
    if n == 0 {
      return CHAN_FIRST;
    }
    var target := index % n;
    for i := 0 to CHAN_COUNT
      invariant seen == |Below(map_, i)| <= target
    {
      BelowGrows(map_, i);
      if i in map_ {
        if seen == target {
          return CHAN_FIRST + i;
        }
        seen := seen + 1;
      }
    }
    BelowAll(map_);
    assert false;
    return CHAN_FIRST;
  }

  lemma BelowAll(map_: ChannelMap)
    ensures Below(map_, CHAN_COUNT) == map_
  {
  }

  lemma BelowGrows(map_: ChannelMap, i: int)
    ensures Below(map_, i + 1) == if i in map_ then Below(map_, i) + {i} else Below(map_, i)
    ensures |Below(map_, i + 1)| == |Below(map_, i)| + (if i in map_ then 1 else 0)
  {
    assert Below(map_, i + 1) == if i in map_ then Below(map_, i) + {i} else Below(map_, i);
  }

  /** A channel is picked by at most one position, and every position below n picks one. */
  lemma PickIsUnique(map_: ChannelMap, index: nat, a: nat, b: nat)
    requires map_ != {} && IsPick(map_, index, a) && IsPick(map_, index, b)
    ensures a == b
  {
    if a < b {
      FewerBelow(map_, a - CHAN_FIRST, b - CHAN_FIRST);
    } else if b < a {
      FewerBelow(map_, b - CHAN_FIRST, a - CHAN_FIRST);
    }
  }

  lemma FewerBelow(map_: ChannelMap, i: int, j: int)
    requires i in map_ && i < j
    ensures |Below(map_, i)| < |Below(map_, j)|
  {
    assert Below(map_, i) + {i} <= Below(map_, j);
    Subset(Below(map_, i) + {i}, Below(map_, j));
  }

  lemma Subset(a: set<int>, b: set<int>)
    requires a <= b
    ensures |a| <= |b|
  {
    assert b == a + (b - a);
  }

  /** `lg_chan_hop`: the channel both ends derive for event `counter`. */
  method HopChannel(map_: ChannelMap, seed: bv16, counter: bv16) returns (chan: nat)
    ensures map_ != {} ==> IsPick(map_, Value(HopWord(seed, counter)), chan)
    ensures map_ == {} ==> chan == CHAN_FIRST
  {
    var prn := Xor(counter, seed);
    for i := 0 to 3
      invariant prn == Rounds(seed, Xor(counter, seed), i)
    {
      prn := Permute(prn);
      prn := MultiplyAdd(prn, seed);
    }
    prn := Xor(prn, seed);
    chan := Remap(map_, Value(Mix(prn)));
  }

  // ----- how often each channel is used -----

  /** Counters, out of all 65536, whose event falls on `chan`. */
  ghost function CountersOn(map_: ChannelMap, seed: bv16, chan: nat): set<int>
    requires map_ != {}
  {
    set c | 0 <= c < WORD16 && IsPick(map_, Value(HopWord(seed, Word(c))), chan)
  }

  /** Numbers below `m` that leave remainder `k`. */
  ghost function Residues(m: nat, n: nat, k: nat): set<int>
    requires n >= 1
  {
    set y | 0 <= y < m && y % n == k
  }

  lemma {:induction false} ResidueCount(m: nat, n: nat, k: nat)
    requires n >= 1 && k < n
    ensures |Residues(m, n, k)| == (m + n - 1 - k) / n
    decreases m
  {
    if m == 0 {
      assert Residues(0, n, k) == {};
      DivModUnique(n - 1 - k, n, 0, n - 1 - k);
    } else {
      ResidueCount(m - 1, n, k);
      var y := m - 1;
      assert Residues(m, n, k) == if y % n == k then Residues(y, n, k) + {y} else Residues(y, n, k);
      CeilingStep(y, n, k);
    }
  }

  lemma CeilingStep(y: nat, n: nat, k: nat)
    requires n >= 1 && k < n
    ensures (y + 1 + n - 1 - k) / n == (y + n - 1 - k) / n + (if y % n == k then 1 else 0)
  {
    DivMod(y, n);
    var q, r := y / n, y % n;
    assert (q + 1) * n == q * n + n;
    if r < k {
      DivModUnique(y + n - 1 - k, n, q, r + n - 1 - k);
      DivModUnique(y + n - k, n, q, r + n - k);
    } else if r == k {
      DivModUnique(y + n - 1 - k, n, q, n - 1);
      DivModUnique(y + n - k, n, q + 1, 0);
    } else {
      DivModUnique(y + n - 1 - k, n, q + 1, r - 1 - k);
      DivModUnique(y + n - k, n, q + 1, r - k);
    }
  }

  ghost function Chosen(p: int -> bool, n: nat): set<int> {
    if n == 0 then {} else if p(n - 1) then Chosen(p, n - 1) + {n - 1} else Chosen(p, n - 1)
  }

  ghost function Image(p: int -> bool, f: int -> int, n: nat): set<int> {
    if n == 0 then {} else if p(n - 1) then Image(p, f, n - 1) + {f(n - 1)} else Image(p, f, n - 1)
  }

  ghost predicate Reaches(p: int -> bool, f: int -> int, n: nat, x: int, y: int) {
    0 <= x < n && p(x) && f(x) == y
  }

  lemma {:induction false} ImageMembers(p: int -> bool, f: int -> int, n: nat, y: int)
    ensures y in Image(p, f, n) <==> exists x :: Reaches(p, f, n, x, y)
  {
    if n > 0 {
      var m := n - 1;
      ImageMembers(p, f, m, y);
      if x :| Reaches(p, f, n, x, y) {
        assert x == m || Reaches(p, f, m, x, y);
      }
      if x :| Reaches(p, f, m, x, y) {
        assert Reaches(p, f, n, x, y);
      } else if p(m) && f(m) == y {
        assert Reaches(p, f, n, m, y);
      }
    }
  }

  lemma {:induction false} ChosenMembers(p: int -> bool, n: nat, x: int)
    ensures x in Chosen(p, n) <==> 0 <= x < n && p(x)
  {
    if n > 0 {
      ChosenMembers(p, n - 1, x);
    }
  }

  ghost predicate InjectiveBelow(f: int -> int, n: nat) {
    forall x, y :: 0 <= x < y < n ==> f(x) != f(y)
  }

  lemma {:induction false} ImageSize(p: int -> bool, f: int -> int, n: nat)
    requires InjectiveBelow(f, n)
    ensures |Image(p, f, n)| == |Chosen(p, n)|
  {
    if n > 0 {
      ImageSize(p, f, n - 1);
      ImageMembers(p, f, n - 1, f(n - 1));
      ChosenMembers(p, n - 1, n - 1);
    }
  }

  /** The hop word of a counter, both as numbers. */
  ghost function HopNumber(seed: bv16, c: int): int {
    if c < 0 then c else Value(HopWord(seed, Word(c)))
  }

  lemma HopNumberInjective(seed: bv16, c: int, d: int)
    requires 0 <= c < WORD16 && 0 <= d < WORD16
    ensures 0 <= HopNumber(seed, c) < WORD16
    ensures HopNumber(seed, c) == HopNumber(seed, d) ==> c == d
  {
    WordsAreNumbers(c, HopWord(seed, Word(c)));
    WordsAreNumbers(d, HopWord(seed, Word(d)));
    if HopNumber(seed, c) == HopNumber(seed, d) {
      HopWordInjective(seed, Word(c), Word(d));
    }
  }

  lemma HopNumberSpread(seed: bv16) returns (f: int -> int)
    ensures forall c :: f(c) == HopNumber(seed, c)
    ensures forall c :: 0 <= c < WORD16 ==> 0 <= f(c) < WORD16
    ensures InjectiveBelow(f, WORD16)
  {
    f := (c: int) => HopNumber(seed, c);
    forall c, d | 0 <= c < WORD16 && 0 <= d < WORD16
      ensures 0 <= f(c) < WORD16 && (f(c) == f(d) ==> c == d)
    {
      HopNumberInjective(seed, c, d);
    }
  }

  /** An injection of the numbers below `n` into themselves reaches all of them. */
  lemma Onto(f: int -> int, n: nat, y: int) returns (x: int)
    requires InjectiveBelow(f, n) && 0 <= y < n
    requires forall x :: 0 <= x < n ==> 0 <= f(x) < n
    ensures 0 <= x < n && f(x) == y
  {
    var p := (c: int) => true;
    var image, all := Image(p, f, n), Chosen(p, n);
    ImageSize(p, f, n);
    forall z: int
      ensures z in image ==> z in all
    {
      ImageMembers(p, f, n, z);
      ChosenMembers(p, n, z);
    }
    SameSizeSubset(image, all);
    ChosenMembers(p, n, y);
    ImageMembers(p, f, n, y);
    x :| Reaches(p, f, n, x, y);
  }

  /** For every seed, counter to hop word is a bijection on sixteen-bit values: besides being
      injective, every value is the hop word of some counter. */
  lemma HopNumberBijective(seed: bv16, y: int) returns (c: int)
    requires 0 <= y < WORD16
    ensures 0 <= c < WORD16 && HopNumber(seed, c) == y
    ensures forall d :: 0 <= d < WORD16 && HopNumber(seed, d) == y ==> d == c
  {
    var f := HopNumberSpread(seed);
    c := Onto(f, WORD16, y);
    forall d | 0 <= d < WORD16 && HopNumber(seed, d) == y
      ensures d == c
    {
      HopNumberInjective(seed, c, d);
    }
  }

  lemma SameSizeSubset(a: set<int>, b: set<int>)
    requires a <= b && |a| == |b|
    ensures a == b
  {
    assert b == a + (b - a);
  }

  /** Hop equidistribution. For every seed and every nonempty map of n channels, a channel of
      the map is used by floor(65536 / n) or ceil(65536 / n) of all counters, decided by its
      position alone, and a channel outside the map by none. */
  lemma HopEquidistribution(map_: ChannelMap, seed: bv16, chan: nat)
    requires map_ != {}
    ensures chan - CHAN_FIRST !in map_ ==> CountersOn(map_, seed, chan) == {}
    ensures chan - CHAN_FIRST in map_ ==>
      var n, k := |map_|, |Below(map_, chan - CHAN_FIRST)|;
      && k < n && |CountersOn(map_, seed, chan)| == (WORD16 + n - 1 - k) / n
      && WORD16 / n <= |CountersOn(map_, seed, chan)| <= (WORD16 + n - 1) / n
  {
    if chan - CHAN_FIRST in map_ {
      var n, k := |map_|, |Below(map_, chan - CHAN_FIRST)|;
      assert Below(map_, chan - CHAN_FIRST) + {chan - CHAN_FIRST} <= map_;
      Subset(Below(map_, chan - CHAN_FIRST) + {chan - CHAN_FIRST}, map_);
      CountersAreResidues(map_, seed, chan, n, k);
      ResidueCount(WORD16, n, k);
      Quotients(WORD16, WORD16 + n - 1 - k, n);
      Quotients(WORD16 + n - 1 - k, WORD16 + n - 1, n);
    }
  }

  lemma CountersAreResidues(map_: ChannelMap, seed: bv16, chan: nat, n: nat, k: nat)
    requires chan - CHAN_FIRST in map_ && n == |map_| && k == |Below(map_, chan - CHAN_FIRST)|
    ensures |CountersOn(map_, seed, chan)| == |Residues(WORD16, n, k)|
  {
    var f := HopNumberSpread(seed);
    var p := (c: int) => c >= 0 && HopNumber(seed, c) % n == k;
    ImageSize(p, f, WORD16);
    forall y: int
      ensures y in Residues(WORD16, n, k) <==> y in Image(p, f, WORD16)
      ensures y in CountersOn(map_, seed, chan) <==> y in Chosen(p, WORD16)
    {
      ImageMembers(p, f, WORD16, y);
      ChosenMembers(p, WORD16, y);
      if 0 <= y < WORD16 && y % n == k {
        var c := HopNumberBijective(seed, y);
        assert Reaches(p, f, WORD16, c, y);
      }
    }
    assert Image(p, f, WORD16) == Residues(WORD16, n, k);
    assert CountersOn(map_, seed, chan) == Chosen(p, WORD16);
  }

  lemma Quotients(a: nat, b: nat, n: nat)
    requires n >= 1 && a <= b
    ensures a / n <= b / n
  {
    MultiplesOrdered(b / n, a / n, n);
  }
}
