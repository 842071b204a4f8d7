/** Register map of the MPR121 touch controller as the driver uses it, and the
    integer arithmetic the driver applies to the values it writes: truncation to
    a signed 32-bit integer (`x | 0`), byte masking (`v & 0xFF`) and clamping
    (`Math.max(lo, Math.min(hi, x))`). */
module Registers {

  const REG_TOUCH_STATUS_L: int := 0x00
  const REG_TOUCH_STATUS_H: int := 0x01
  /** Electrode configuration register: writing 0x00 stops scanning, 0x8F runs
      all twelve electrodes with proximity sensing and calibration lock off. */
  const REG_ECR: int := 0x5E
  const ECR_STOP: int := 0x00
  const ECR_RUN: int := 0x8F

  /** An electrode channel, T0 .. T11. */
  type Key = k: int | 0 <= k < 12

  const NUM_KEYS: int := 12

  /** Touch-threshold register of a channel: the odd addresses 0x41, 0x43, .., 0x57. */
  function RegTTH(key: Key): (reg: int)
    ensures 0x41 <= reg <= 0x57 && reg % 2 == 1
    ensures (reg - 0x41) / 2 == key
  {
    0x41 + key * 2
  }

  /** Release-threshold register of a channel: the even addresses 0x42, 0x44, .., 0x58,
      each right after the channel's touch-threshold register. */
  function RegRTH(key: Key): (reg: int)
    ensures 0x42 <= reg <= 0x58 && reg % 2 == 0
    ensures reg == RegTTH(key) + 1
  {
    0x42 + key * 2
  }

  /** The 24 threshold registers are pairwise distinct, lie in [0x41, 0x58] and
      never alias the touch status or electrode configuration registers. */
  lemma ThresholdRegistersDistinct(j: Key, k: Key)
    ensures RegTTH(j) != RegRTH(k)
    ensures RegTTH(j) == RegTTH(k) <==> j == k
    ensures RegRTH(j) == RegRTH(k) <==> j == k
    ensures RegTTH(k) !in {REG_TOUCH_STATUS_L, REG_TOUCH_STATUS_H, REG_ECR}
    ensures RegRTH(k) !in {REG_TOUCH_STATUS_L, REG_TOUCH_STATUS_H, REG_ECR}
  {
  }

  /** `x | 0` on an integer: the signed 32-bit integer congruent to `x` modulo 2^32. */
  function ToInt32(x: int): (r: int)
    ensures -0x8000_0000 <= r < 0x8000_0000
    ensures (x - r) % 0x1_0000_0000 == 0
  {
    var m := x % 0x1_0000_0000;
    if m < 0x8000_0000 then m else m - 0x1_0000_0000
  }

  /** `v & 0xFF`: the operand is taken as a two's-complement 32-bit integer and
      its low byte kept. As 2^32 is a multiple of 256, that is the value in
      [0, 255] congruent to `v` modulo 256, whatever the truncation did. */
  function LowByte(v: int): (b: int)
    ensures 0 <= b <= 0xFF
    ensures (v - b) % 0x100 == 0
    ensures 0 <= v <= 0xFF ==> b == v
  {
    v % 0x100
  }

  /** `Math.max(lo, Math.min(hi, x))`. */
  function Clamp(lo: int, hi: int, x: int): (r: int)
    requires lo <= hi
    ensures lo <= r <= hi
    ensures lo <= x <= hi ==> r == x
    ensures x < lo ==> r == lo
    ensures hi < x ==> r == hi
  {
    var m := if hi < x then hi else x;
    if m < lo then lo else m
  }

  /** Clamping picks the value of [lo, hi] nearest to `x`. */
  lemma ClampIsNearest(lo: int, hi: int, x: int, y: int)
    requires lo <= hi && lo <= y <= hi
    ensures (if Clamp(lo, hi, x) <= x then x - Clamp(lo, hi, x) else Clamp(lo, hi, x) - x)
            <= (if y <= x then x - y else y - x)
  {
  }

  const MIN_POLL_MS: int := 5
  const MAX_POLL_MS: int := 200
  const DEFAULT_POLL_MS: int := 20

  /** The polling interval setPollingInterval stores for a requested `ms`. */
  function PollInterval(ms: int): (r: int)
    ensures MIN_POLL_MS <= r <= MAX_POLL_MS
    ensures MIN_POLL_MS <= ms <= MAX_POLL_MS ==> r == ms
    ensures -0x8000_0000 <= ms < MIN_POLL_MS ==> r == MIN_POLL_MS
    ensures MAX_POLL_MS < ms < 0x8000_0000 ==> r == MAX_POLL_MS
  {
    Clamp(MIN_POLL_MS, MAX_POLL_MS, ToInt32(ms))
  }

  /** The threshold value setThreshold and setAllThresholds write for a requested one. */
  function ThresholdValue(v: int): (r: int)
    ensures 0 <= r <= 0xFF
    ensures 0 <= v <= 0xFF ==> r == v
    ensures -0x8000_0000 <= v < 0 ==> r == 0
    ensures 0xFF < v < 0x8000_0000 ==> r == 0xFF
    ensures LowByte(r) == r
  {
    Clamp(0, 0xFF, ToInt32(v))
  }

  /** Out-of-range requests are pulled to the nearest end of the range. */
  lemma ClampExamples()
    ensures PollInterval(1) == 5 && PollInterval(1000) == 200
    ensures ThresholdValue(300) == 255 && ThresholdValue(-5) == 0
    ensures PollInterval(-1) == 5
    ensures ThresholdValue(0x1_0000_0000 + 12) == 12
  {
  }
}
