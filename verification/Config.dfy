/** Build-time configuration and wire constants.

    A Kconfig symbol is a constant of the range its option declares and has no
    value of its own here, so every theorem holds for every legal configuration.
 */
module Config {

  // One past the largest 16-bit and 32-bit values.
  const WORD16: nat := 0x1_0000
  const WORD32: nat := 0x1_0000_0000
  // A time that never comes.
  const TIME_NEVER: nat := 0xFFFF_FFFF_FFFF_FFFF

  // Frames
  const PDU_MAX: nat := 125
  const HDR_LEN: nat := 8
  const HDR_LEN_SEC: nat := 12

  // Signal and noise levels; INT8_MIN stands for one not yet measured.
  type Dbm = n: int | -128 <= n <= 127
  const UNKNOWN_DBM: int := -128

  // Rank that stands for "no path".
  const RANK_INFINITE: nat := 0xFFFF
  // Address zero never names a node.
  const ADDR_INVALID: nat := 0
  // A perfect link, in ETX sixteenths.
  const ETX_ONE: nat := 16

  // Topology
  type MaxRankRange = n: nat | 64 <= n <= 32768 witness 512
  const MAX_RANK: MaxRankRange
  type MaxParentsRange = n: nat | 1 <= n <= 4 witness 2
  const MAX_PARENTS: MaxParentsRange
  type DensityRange = n: nat | 1 <= n <= 8 witness 2
  const ROUTER_DENSITY_TARGET: DensityRange

  // Channels
  type MinGoodRange = n: nat | 2 <= n <= 16 witness 4
  const CHAN_MIN_GOOD: MinGoodRange
  type BadPerRange = n: nat | 10 <= n <= 900 witness 300
  const CHAN_BAD_PER_PERMILLE: BadPerRange
  type GoodPerRange = n: nat | 5 <= n <= 500 witness 150
  const CHAN_GOOD_PER_PERMILLE: GoodPerRange
  type NoiseFloorRange = n: int | -110 <= n <= -30 witness -75
  const CHAN_NOISE_FLOOR_DBM: NoiseFloorRange

  // Security
  type ReplayRange = n: nat | 1 <= n <= 64 witness 16
  const REPLAY_WINDOW: ReplayRange
  type MicRange = n: nat | 4 <= n <= 16 witness 4
  const MIC_LEN: MicRange

  // Timing
  type IntervalMinRange = n: nat | 10 <= n <= 4000 witness 50
  const CONN_INTERVAL_MIN_MS: IntervalMinRange
  type IntervalMaxRange = n: nat | 20 <= n <= 32000 witness 2000
  const CONN_INTERVAL_MAX_MS: IntervalMaxRange

  function Min(a: int, b: int): int {
    if a <= b then a else b
  }

  function Max(a: int, b: int): int {
    if a >= b then a else b
  }

  // The bound tests come in the order the C macro makes them.
  function Clamp(v: int, low: int, high: int): int {
    if v <= low then low else Min(v, high)
  }

  // Division as C does it: toward zero.
  function TruncDiv(a: int, b: int): int
    requires b > 0
  {
    if a >= 0 then a / b else -((-a) / b)
  }

  // Moving average with weight one eighth on the new sample.
  function Ewma(old_: int, sample: int): int {
    TruncDiv(old_ * 7 + sample, 8)
  }
}
