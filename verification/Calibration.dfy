/** calibration.c: the two accepted ranges, and the values used when nothing usable
    is stored. Out-of-range values are rejected, never clamped. */
module Calibration {
  import opened NvsStore

  // CONFIG_APP_METERING_DEFAULT_IMP_PER_KWH and CONFIG_APP_PULSE_MIN_WIDTH_US; Kconfig
  // confines each to the range below.
  const DEFAULT_IMP_PER_KWH: nat := 1000
  const DEFAULT_MIN_WIDTH_US: nat := 1000

  predicate IsValidImpPerKwh(v: nat) { 100 <= v <= 10000 }

  predicate IsValidMinWidthUs(v: nat) { 100 <= v <= 10000 }

  /** effective_min_width_us_at_init, and its twin in metering_attrs_init. */
  function EffectiveMinWidthUs(r: LoadResult): (us: nat)
    ensures IsValidMinWidthUs(us)
  {
    match r
    case Loaded(v) => if IsValidMinWidthUs(v) then v else DEFAULT_MIN_WIDTH_US
    case NotFound => DEFAULT_MIN_WIDTH_US
    case Failed => DEFAULT_MIN_WIDTH_US
  }

  function EffectiveDivisor(r: LoadResult): (d: nat)
    ensures IsValidImpPerKwh(d)
  {
    match r
    case Loaded(v) => if IsValidImpPerKwh(v) then v else DEFAULT_IMP_PER_KWH
    case NotFound => DEFAULT_IMP_PER_KWH
    case Failed => DEFAULT_IMP_PER_KWH
  }
}
