/**
 * Constant tables of the scripts. The DI-2008 and DI-245 share their gain table and
 * thermocouple offsets; their slopes differ because of their ADC resolutions.
 */
module Tables {

  /**
   * Full-scale volts by gain code 0 to 15 (DI-2008 and DI-245). Codes 6, 7, 14 and 15
   * are undefined on the instruments and hold 0 as a placeholder.
   */
  const AnalogRanges: seq<real> :=
    [0.5, 0.25, 0.1, 0.05, 0.025, 0.01, 0.0, 0.0, 50.0, 25.0, 10.0, 5.0, 2.5, 1.0, 0.0, 0.0]

  /** Rate-input full scale in Hz; entry k belongs to rate code k + 1. */
  const RateRanges: seq<real> :=
    [50000.0, 20000.0, 10000.0, 5000.0, 2000.0, 1000.0, 500.0, 200.0, 100.0, 50.0, 20.0, 10.0]

  /** Thermocouple slopes for the DI-2008, in type order B, E, J, K, N, R, S, T. */
  const TcSlopesDi2008: seq<real> :=
    [0.023956, 0.018311, 0.021515, 0.023987, 0.022888, 0.02774, 0.02774, 0.009155]

  /** Thermocouple slopes for the DI-245, in type order B, E, J, K, N, R, S, T. */
  const TcSlopesDi245: seq<real> :=
    [0.095825, 0.073242, 0.08606, 0.095947, 0.091553, 0.110962, 0.110962, 0.036621]

  /** Thermocouple offsets (both models), in type order B, E, J, K, N, R, S, T. */
  const TcOffsets: seq<real> :=
    [1035.0, 400.0, 495.0, 586.0, 550.0, 859.0, 859.0, 100.0]

  /** Whether a rate code indexes `RateRanges` as `rate_ranges[code - 1]`. */
  predicate RateCodeValid(code: int)
  {
    1 <= code <= |RateRanges|
  }

  /** `rate_ranges[code - 1]`: code 1 is the 50 kHz range, code 12 the 10 Hz range. */
  function RateRange(code: int): (hz: real)
    requires RateCodeValid(code)
    ensures 10.0 <= hz <= 50000.0
    ensures code == 1 ==> hz == 50000.0
    ensures code == 12 ==> hz == 10.0
  {
    RateRanges[code - 1]
  }

  /**
   * The lookup `rate_ranges[(item >> 8) - 1]` as Python evaluates it for any code up to
   * 12: index -1 of a Python sequence is its last entry.
   */
  function RateRangeAsWritten(code: int): (hz: real)
    requires 0 <= code <= |RateRanges|
    ensures RateCodeValid(code) ==> hz == RateRange(code)
    ensures code == 0 ==> hz == RateRanges[|RateRanges| - 1]
  {
    var index := code - 1;
    if index < 0 then RateRanges[|RateRanges| + index] else RateRanges[index]
  }

  /** Rate code 0 names no rate range, yet the lookup as written accepts it and picks 10 Hz. */
  lemma RateCodeZero()
    ensures !RateCodeValid(0)
    ensures RateRangeAsWritten(0) == 10.0 == RateRange(12)
  {
  }

  /** Each higher rate code selects a strictly smaller ceiling. */
  lemma RateRangeDescending(lower: int, higher: int)
    requires RateCodeValid(lower) && RateCodeValid(higher) && lower < higher
    ensures RateRange(lower) > RateRange(higher)
  {
  }

  /** No gain code selects a negative full scale. */
  lemma AnalogRangesNonNegative(code: int)
    requires 0 <= code < |AnalogRanges|
    ensures AnalogRanges[code] >= 0.0
    ensures AnalogRanges[code] == 0.0 <==> code in {6, 7, 14, 15}
  {
  }
}
