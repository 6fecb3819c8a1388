/**
 * The peripheral's simulated heart-rate sensor. `BLEDemo` keeps a `uint16_t`
 * bpm value that starts at 100; a one-second timer calls
 * `update_sensor_value`, which counts it up and resets 110 to 60, so the value
 * cycles through 60 .. 109 and is handed to the Heart Rate Service each tick.
 */
module Peripheral {

  newtype uint16 = x: int | 0 <= x < 0x1_0000

  /** `_heartrate_value(100)` in the constructor's initialiser list. */
  const InitialHeartRate: uint16 := 100
  const LowestBpm: uint16 := 60
  /** The first value that is out of range; it is reset to LowestBpm. */
  const BpmLimit: uint16 := 110

  /** The commented bound: 60 <= bpm value < 110. */
  predicate InBpmRange(v: uint16)
  {
    LowestBpm <= v < BpmLimit
  }

  /** One tick: the `uint16_t` increment (wrapping modulo 2^16), then the reset of 110 to 60. */
  function NextHeartRate(v: uint16): uint16
  {
    var incremented := ((v as int + 1) % 0x1_0000) as uint16;
    if incremented == BpmLimit then LowestBpm else incremented
  }

  /** The value after k ticks from v. */
  function HeartRateAfter(v: uint16, k: nat): uint16
  {
    if k == 0 then v else NextHeartRate(HeartRateAfter(v, k - 1))
  }

  /** Inside the range below its top, a tick adds exactly one, and the increment does not wrap. */
  lemma NextHeartRateCountsUp(v: uint16)
    requires LowestBpm <= v <= 108
    ensures NextHeartRate(v) == v + 1
  {
  }

  /** At the top of the range, the increment to 110 is reset at once to 60. */
  lemma NextHeartRateWraps()
    ensures NextHeartRate(109) == LowestBpm
  {
  }

  /** Every tick keeps the range, and within it the `uint16_t` increment never overflows. */
  lemma NextHeartRateKeepsRange(v: uint16)
    requires InBpmRange(v)
    ensures v as int + 1 < 0x1_0000
    ensures InBpmRange(NextHeartRate(v))
  {
  }

  /** Counting modulo 50 steps by one and wraps from 49 to 0. */
  lemma ModFiftyStep(a: nat)
    ensures (a + 1) % 50 == if a % 50 == 49 then 0 else a % 50 + 1
  {
  }

  /** From the initial 100, the value after k ticks is 60 + (40 + k) mod 50: a cycle of 50 ticks. */
  lemma {:induction false} HeartRateAfterTicks(k: nat)
    ensures HeartRateAfter(InitialHeartRate, k) as int == 60 + (40 + k) % 50
  {
    if k > 0 {
      HeartRateAfterTicks(k - 1);
      var prev := HeartRateAfter(InitialHeartRate, k - 1);
      ModFiftyStep(39 + k);
      if prev == 109 {
        NextHeartRateWraps();
      } else {
        NextHeartRateCountsUp(prev);
      }
    }
  }

  /** The commented bound holds on every tick after construction. */
  lemma HeartRateAlwaysInRange(k: nat)
    ensures InBpmRange(HeartRateAfter(InitialHeartRate, k))
  {
  }

  /** The part of `BLEDemo` that the timer updates. */
  class BleDemo {
    var heartrateValue: uint16

    constructor ()
      ensures heartrateValue == InitialHeartRate && InBpmRange(heartrateValue)
    {
      heartrateValue := InitialHeartRate;
    }

    /** `update_sensor_value`: advance the bpm and return what is passed to `updateHeartRate`. */
    method UpdateSensorValue() returns (sent: uint16)
      modifies this
      ensures heartrateValue == NextHeartRate(old(heartrateValue))
      ensures sent == heartrateValue
      ensures InBpmRange(old(heartrateValue)) ==> InBpmRange(heartrateValue)
    {
      heartrateValue := ((heartrateValue as int + 1) % 0x1_0000) as uint16;
      if heartrateValue == BpmLimit {
        heartrateValue := LowestBpm;
      }
      sent := heartrateValue;
    }
  }
}
