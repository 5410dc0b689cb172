/**
 * The DI-2008 script: a range table built from the scan list, then one record per pass
 * in which every position's sample is decoded by its function (voltage, thermocouple,
 * digital inputs, rate, counter).
 */
module Di2008 {
  import opened Wrappers
  import opened Words
  import opened Channels
  import opened Tables
  import opened Readings
  import Frames
  import Arith

  /** What the range-table lookups of `config_scn_lst` need of a code to stay inside their tables. */
  predicate CodeValid(item: Word)
  {
    match ClassifyDi2008(item)
    case Voltage => GainCode(item) < |AnalogRanges|
    case RateIn => RateCodeValid(GainCode(item))
    case _ => true
  }

  /**
   * The range-table entry of one code: the full-scale volts of a voltage channel, the
   * full-scale Hz of the rate channel, and the placeholder 0 for every other function.
   */
  function RangeEntry(item: Word): (r: real)
    requires CodeValid(item)
    ensures r >= 0.0
    ensures r != 0.0 ==> ClassifyDi2008(item) == Voltage || ClassifyDi2008(item) == RateIn
    ensures ClassifyDi2008(item) == RateIn ==> r >= 10.0
  {
    match ClassifyDi2008(item)
    case Voltage => AnalogRanges[GainCode(item)]
    case RateIn => RateRange(GainCode(item))
    case _ => 0.0
  }

  /** `config_scn_lst`: one range-table entry per scan-list code, in scan-list order. */
  method ConfigScanList(slist: seq<Word>) returns (rangeTable: seq<real>)
    requires forall i | 0 <= i < |slist| :: CodeValid(slist[i])
    ensures |rangeTable| == |slist|
    ensures forall i | 0 <= i < |slist| :: rangeTable[i] == RangeEntry(slist[i])
  {
    rangeTable := [];
    var position := 0;
    while position < |slist|
      invariant position <= |slist|
      invariant |rangeTable| == position
      invariant forall i | 0 <= i < position :: rangeTable[i] == RangeEntry(slist[i])
    {
      var item := slist[position];
      position := position + 1;
      if Nibble(item) < 8 && !ModeBit(item) {
        rangeTable := rangeTable + [AnalogRanges[GainCode(item)]];
      } else if Nibble(item) < 8 && ModeBit(item) {
        rangeTable := rangeTable + [0.0];
      } else if Nibble(item) == 8 {
        rangeTable := rangeTable + [0.0];
      } else if Nibble(item) == 9 {
        rangeTable := rangeTable + [RateRanges[GainCode(item) - 1]];
      } else {
        rangeTable := rangeTable + [0.0];
      }
    }
  }

  /**
   * Decoding of one sample at a position with code `item` and range-table entry
   * `range`. The function is chosen by the same rule as at configuration time.
   */
  function DecodeSample(item: Word, range: real, p: BytePair): (r: Reading)
    ensures ClassifyDi2008(item) == Voltage <==> r.Volts?
    ensures ClassifyDi2008(item) == Thermocouple <==> r.Celsius? || r == CjcError || r == OpenCircuit
    ensures ClassifyDi2008(item) == DigitalIn <==> r.Bits?
    ensures ClassifyDi2008(item) == RateIn <==> r.Hertz?
    ensures ClassifyDi2008(item) == CounterIn <==> r.Count?
    ensures r == CjcError <==> ClassifyDi2008(item) == Thermocouple && SignedLE(p) == 0x7FFF
    ensures r == OpenCircuit <==> ClassifyDi2008(item) == Thermocouple && SignedLE(p) == -0x8000
    ensures r.Volts? && range >= 0.0 ==> -range <= r.volts <= range
    ensures r.Bits? ==> 0 <= r.bits < 0x80
    ensures r.Hertz? && range >= 0.0 ==> 0.0 <= r.hertz <= range
    ensures r.Count? ==> 0 <= r.count <= 0xFFFF
  {
    var f := Nibble(item);
    if f < 8 && !ModeBit(item) then
      Volts(ScaleVolts(range, SignedLE(p), 0x8000))
    else if f < 8 then
      var t := TcType(item);
      TcReading(TcSlopesDi2008[t], TcOffsets[t], SignedLE(p), 0x7FFF, -0x8000)
    else if f == 8 then
      Bits(DigitalBits7(p))
    else if f == 9 then
      Hertz(ScaleRate(BiasedLE(p), range))
    else
      Count(BiasedLE(p))
  }

  /**
   * A voltage channel reads `analog_ranges[item >> 8] * signed16 / 32768`; a reserved
   * gain code (table entry 0) reads 0 volts whatever the sample.
   */
  lemma VoltageReading(item: Word, p: BytePair)
    requires CodeValid(item) && ClassifyDi2008(item) == Voltage
    ensures DecodeSample(item, RangeEntry(item), p)
         == Volts(AnalogRanges[GainCode(item)] * SignedLE(p) as real / 32768.0)
    ensures GainCode(item) in {6, 7, 14, 15} ==> DecodeSample(item, RangeEntry(item), p) == Volts(0.0)
  {
    var range := AnalogRanges[GainCode(item)];
    assert RangeEntry(item) == range;
    assert DecodeSample(item, range, p) == Volts(ScaleVolts(range, SignedLE(p), 0x8000));
  }

  /**
   * A thermocouple channel that reports no sentinel reads `tc_m[t] * raw + tc_b[t]`
   * with the type t taken from bits 8 to 10 of its code.
   */
  lemma ThermocoupleReading(item: Word, range: real, p: BytePair)
    requires ClassifyDi2008(item) == Thermocouple
    requires SignedLE(p) != 0x7FFF && SignedLE(p) != -0x8000
    ensures 0 <= TcType(item) < 8
    ensures DecodeSample(item, range, p)
         == Celsius(TcSlopesDi2008[TcType(item)] * SignedLE(p) as real + TcOffsets[TcType(item)])
  {
  }

  /** A rate channel reads `(raw + 32768) / 65535 * rate_ranges[code - 1]`, within [0, that range]. */
  lemma RateReading(item: Word, p: BytePair)
    requires CodeValid(item) && ClassifyDi2008(item) == RateIn
    ensures DecodeSample(item, RangeEntry(item), p)
         == Hertz((SignedLE(p) + 32768) as real / 65535.0 * RateRange(GainCode(item)))
    ensures 0.0 <= DecodeSample(item, RangeEntry(item), p).hertz <= RateRange(GainCode(item))
  {
    var range := RateRange(GainCode(item));
    assert RangeEntry(item) == range;
    RateDecode(item, range, p);
    ScaleRateOfSigned(SignedLE(p), range);
  }

  lemma RateDecode(item: Word, range: real, p: BytePair)
    requires ClassifyDi2008(item) == RateIn
    ensures DecodeSample(item, range, p) == Hertz(ScaleRate(SignedLE(p) + 32768, range))
  {
  }

  /** The decoder's configuration: the scan list and the range table built from it. */
  datatype Config = Config(slist: seq<Word>, rangeTable: seq<real>)

  predicate ValidConfig(cfg: Config)
  {
    && |cfg.slist| >= 1
    && |cfg.rangeTable| == |cfg.slist|
    && (forall i | 0 <= i < |cfg.slist| :: CodeValid(cfg.slist[i]))
    && (forall i | 0 <= i < |cfg.slist| :: cfg.rangeTable[i] == RangeEntry(cfg.slist[i]))
  }

  /** The reading of a sample that arrives at scan-list position `position`. */
  function DecodeAt(cfg: Config, position: nat, p: BytePair): Reading
    requires ValidConfig(cfg) && position < |cfg.slist|
  {
    DecodeSample(cfg.slist[position], cfg.rangeTable[position], p)
  }

  /** One iteration of the acquisition loop: decode the sample at the pointer and advance. */
  function Step(cfg: Config, c: Frames.Cursor<Reading>, p: BytePair): (r: (Frames.Cursor<Reading>, Option<seq<Reading>>))
    requires ValidConfig(cfg) && Frames.Valid(|cfg.slist|, c)
    ensures Frames.Valid(|cfg.slist|, r.0)
    ensures r.1.Some? <==> c.pointer == |cfg.slist| - 1
    ensures r.1.Some? ==> r.0.pointer == 0 && |r.1.value| == |cfg.slist|
  {
    Frames.Push(|cfg.slist|, c, DecodeAt(cfg, c.pointer, p))
  }

  /** The cursor and the emitted records after the samples `ps`, starting at position 0. */
  function Run(cfg: Config, ps: seq<BytePair>): (r: (Frames.Cursor<Reading>, seq<seq<Reading>>))
    requires ValidConfig(cfg)
    ensures Frames.Valid(|cfg.slist|, r.0)
  {
    if |ps| == 0 then (Frames.Cursor(0, []), [])
    else
      var (c, recs) := Run(cfg, ps[..|ps| - 1]);
      var (c', out) := Step(cfg, c, ps[|ps| - 1]);
      (c', recs + Emitted(out))
  }

  /** Each sample decoded by the position its flat index falls on. */
  function DecodedStream(cfg: Config, ps: seq<BytePair>): (vs: seq<Reading>)
    requires ValidConfig(cfg)
    ensures |vs| == |ps|
  {
    seq(|ps|, n requires 0 <= n < |ps| => DecodeAt(cfg, n % |cfg.slist|, ps[n]))
  }

  lemma DecodedStreamAt(cfg: Config, ps: seq<BytePair>, n: nat)
    requires ValidConfig(cfg) && n < |ps|
    ensures DecodedStream(cfg, ps)[n] == DecodeAt(cfg, n % |cfg.slist|, ps[n])
  {
  }

  lemma {:induction false} RunAssembles(cfg: Config, ps: seq<BytePair>)
    requires ValidConfig(cfg)
    ensures Run(cfg, ps) == Frames.Assemble(|cfg.slist|, DecodedStream(cfg, ps))
  {
    if |ps| > 0 {
      var init := ps[..|ps| - 1];
      RunAssembles(cfg, init);
      assert DecodedStream(cfg, ps)[..|ps| - 1] == DecodedStream(cfg, init);
      Frames.AssembleRecords(|cfg.slist|, DecodedStream(cfg, init));
    }
  }

  /**
   * The pointer wraps after every |slist| samples and exactly one record, of one
   * reading per position, is emitted per pass.
   */
  lemma RunPasses(cfg: Config, ps: seq<BytePair>)
    requires ValidConfig(cfg)
    ensures Run(cfg, ps).0.pointer == |ps| % |cfg.slist|
    ensures |Run(cfg, ps).1| == |ps| / |cfg.slist|
    ensures forall k | 0 <= k < |Run(cfg, ps).1| :: |Run(cfg, ps).1[k]| == |cfg.slist|
  {
    RunAssembles(cfg, ps);
    Frames.AssembleRecords(|cfg.slist|, DecodedStream(cfg, ps));
  }

  /** Value i of record k is sample k * |slist| + i, decoded at position i. */
  lemma RunRecord(cfg: Config, ps: seq<BytePair>, k: nat, i: nat)
    requires ValidConfig(cfg) && k < |Run(cfg, ps).1| && i < |cfg.slist|
    ensures |Run(cfg, ps).1[k]| == |cfg.slist|
    ensures 0 <= k * |cfg.slist| + i < |ps|
    ensures Run(cfg, ps).1[k][i] == DecodeSample(cfg.slist[i], cfg.rangeTable[i], ps[k * |cfg.slist| + i])
  {
    var width := |cfg.slist|;
    var vs := DecodedStream(cfg, ps);
    Arith.MulMonotone(0, k, width);
    var n: nat := k * width + i;
    assert |Run(cfg, ps).1[k]| == width && n < |ps| && Run(cfg, ps).1[k][i] == vs[n] by {
      RunAssembles(cfg, ps);
      Frames.AssembleRecord(width, vs, k, i);
    }
    assert vs[n] == DecodeAt(cfg, i, ps[n]) by {
      Arith.DivModUnique(n, width, k, i);
      DecodedStreamAt(cfg, ps, n);
    }
  }

  /** Two ±10 V channels (gain code 0x0A) with samples 16384 and -16384 give one record [5 V, -5 V]. */
  lemma VoltageScenario(p: BytePair, q: BytePair)
    requires SignedLE(p) == 16384 && SignedLE(q) == -16384
    ensures ValidConfig(Config([0x0A00, 0x0A01], [10.0, 10.0]))
    ensures Run(Config([0x0A00, 0x0A01], [10.0, 10.0]), [p, q]).1 == [[Volts(5.0), Volts(-5.0)]]
  {
    var cfg := Config([0x0A00, 0x0A01], [10.0, 10.0]);
    assert ValidConfig(cfg) by {
      assert RangeEntry(0x0A00) == 10.0 && RangeEntry(0x0A01) == 10.0;
    }
    assert DecodeAt(cfg, 0, p) == Volts(5.0) by {
      assert ClassifyDi2008(0x0A00) == Voltage;
    }
    assert DecodeAt(cfg, 1, q) == Volts(-5.0) by {
      assert ClassifyDi2008(0x0A01) == Voltage;
    }
    assert [p, q][..1] == [p] && [p][..0] == [];
    var start: Frames.Cursor<Reading> := Frames.Cursor(0, []);
    assert Run(cfg, []) == (start, []);
    var first := Step(cfg, start, p);
    assert first.1.None? && first.0.pointer == 1 && first.0.pending == [Volts(5.0)];
    assert Run(cfg, [p]).0 == first.0;
    assert Run(cfg, [p]).1 == [];
    var second := Step(cfg, first.0, q);
    assert second.1.Some? && second.1.value == [Volts(5.0), Volts(-5.0)];
  }

  /** A K-type thermocouple (code 0x1303) whose sample is -32768 reads "open". */
  lemma OpenThermocoupleScenario(p: BytePair)
    requires SignedLE(p) == -0x8000
    ensures ValidConfig(Config([0x1303], [0.0]))
    ensures Run(Config([0x1303], [0.0]), [p]).1 == [[OpenCircuit]]
  {
    var cfg := Config([0x1303], [0.0]);
    assert ClassifyDi2008(0x1303) == Thermocouple;
    assert DecodeAt(cfg, 0, p) == OpenCircuit;
    assert [p][..0] == [];
    var start: Frames.Cursor<Reading> := Frames.Cursor(0, []);
    assert Run(cfg, []) == (start, []);
    var first := Step(cfg, start, p);
    assert first.1.Some? && first.1.value == [OpenCircuit];
  }
}
