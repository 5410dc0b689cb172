/**
 * Converted values and the conversion formulas shared by the scripts. Python's float
 * arithmetic is modelled with exact reals; sentinel conditions are values of their own.
 */
module Readings {

  /** One entry of an output record. */
  datatype Reading =
    | Volts(volts: real)
    | Celsius(degrees: real)
    | CjcError          // the "cjc error" sentinel of a thermocouple channel
    | OpenCircuit       // the "open" sentinel of a thermocouple channel
    | Bits(bits: int)
    | Hertz(hertz: real)
    | Count(count: int)

  /**
   * `range * counts / fullScale`. For counts of a two's complement ADC of that full scale
   * the value lies within the channel's range, and the most negative count is -range.
   */
  function ScaleVolts(range: real, counts: int, fullScale: int): (v: real)
    requires fullScale > 0
    ensures range >= 0.0 && -fullScale <= counts < fullScale ==> -range <= v <= range
    ensures counts == -fullScale ==> v == -range
    ensures counts == 0 ==> v == 0.0
    ensures range == 0.0 ==> v == 0.0
  {
    range * counts as real / fullScale as real
  }

  /**
   * Thermocouple conversion: two reserved counts are reported as sentinels before any
   * scaling; every other count is linearized as `slope * counts + offset`.
   */
  function TcReading(slope: real, offset: real, counts: int, cjcCode: int, openCode: int): (r: Reading)
    requires cjcCode != openCode
    ensures r == CjcError <==> counts == cjcCode
    ensures r == OpenCircuit <==> counts == openCode
    ensures counts != cjcCode && counts != openCode ==> r == Celsius(slope * counts as real + offset)
  {
    if counts == cjcCode then CjcError
    else if counts == openCode then OpenCircuit
    else Celsius(slope * counts as real + offset)
  }

  /** `biased / 65535 * range`: a biased rate count in [0, 65535] maps into [0, range]. */
  function ScaleRate(biased: int, range: real): (hz: real)
    ensures 0 <= biased <= 0xFFFF && range >= 0.0 ==> 0.0 <= hz <= range
    ensures biased == 0 ==> hz == 0.0
    ensures biased == 0xFFFF ==> hz == range
  {
    ScaleRateBounds(biased, range);
    biased as real / 65535.0 * range
  }

  /** The scaling of a signed rate sample: `(raw + 32768) / 65535 * range`. */
  lemma ScaleRateOfSigned(raw: int, range: real)
    ensures ScaleRate(raw + 32768, range) == (raw + 32768) as real / 65535.0 * range
  {
  }

  lemma ScaleRateBounds(biased: int, range: real)
    ensures 0 <= biased <= 0xFFFF && range >= 0.0 ==> 0.0 <= biased as real / 65535.0 * range <= range
  {
    if 0 <= biased <= 0xFFFF && range >= 0.0 {
      FractionOfRange(biased as real / 65535.0, range);
    }
  }

  lemma FractionOfRange(x: real, y: real)
    requires 0.0 <= x <= 1.0 && y >= 0.0
    ensures 0.0 <= x * y <= y
  {
    assert y - x * y == (1.0 - x) * y;
  }

  /** `acc * 10 / 32768 / decimation_factor`: the average of `factor` ±10 V readings. */
  function AverageVolts(sum: int, factor: nat): (v: real)
    requires factor >= 1
    ensures sum == 0 ==> v == 0.0
    ensures factor == 1 ==> v == ScaleVolts(10.0, sum, 0x8000)
    ensures -0x8000 * factor <= sum <= 0x8000 * factor ==> -10.0 <= v <= 10.0
  {
    var mean := sum as real / factor as real;
    MeanBounds(sum, factor, 0x8000);
    mean * 10.0 / 32768.0
  }

  /** `rate_accum / 65535 * rate_range / decimation_factor`: the average of `factor` rate readings. */
  function AverageRate(total: int, range: real, factor: nat): (hz: real)
    requires factor >= 1
    ensures total == 0 ==> hz == 0.0
    ensures factor == 1 ==> hz == ScaleRate(total, range)
    ensures 0 <= total <= 0xFFFF * factor && range >= 0.0 ==> 0.0 <= hz <= range
  {
    AverageRateBounds(total, range, factor);
    total as real / 65535.0 * range / factor as real
  }

  lemma AverageRateBounds(total: int, range: real, factor: nat)
    requires factor >= 1
    ensures 0 <= total <= 0xFFFF * factor && range >= 0.0
        ==> 0.0 <= total as real / 65535.0 * range / factor as real <= range
  {
    if 0 <= total <= 0xFFFF * factor && range >= 0.0 {
      var d := factor as real;
      var fraction := total as real / 65535.0;
      assert 0.0 <= fraction <= d by {
        assert fraction * 65535.0 == total as real;
        assert total as real <= 65535.0 * d;
      }
      var x := fraction * range;
      assert 0.0 <= x <= d * range by {
        ScaleMonotone(fraction, d, range);
      }
      var hz := x / d;
      assert hz * d == x;
      if hz > range {
        ScaleMonotone(range, hz, d);
        assert false;
      }
      if hz < 0.0 {
        ScaleMonotone(hz, 0.0, d);
        assert false;
      }
    }
  }

  lemma ScaleMonotone(x: real, y: real, c: real)
    requires x <= y && c >= 0.0
    ensures x * c <= y * c && 0.0 * c == 0.0
  {
    assert y * c - x * c == (y - x) * c;
  }

  /** A sum of `factor` values within [-bound, bound] has its mean within the same interval. */
  lemma MeanBounds(sum: int, factor: nat, bound: int)
    requires factor >= 1 && bound >= 0
    ensures -bound * factor <= sum <= bound * factor
        ==> -bound as real <= sum as real / factor as real <= bound as real
    ensures 0 <= sum <= bound * factor ==> 0.0 <= sum as real / factor as real <= bound as real
  {
    var mean := sum as real / factor as real;
    assert mean * factor as real == sum as real;
    if mean > bound as real {
      assert mean * factor as real > bound as real * factor as real;
    }
    if mean < -bound as real {
      assert mean * factor as real < -bound as real * factor as real;
    }
  }
}
