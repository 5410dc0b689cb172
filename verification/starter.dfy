/**
 * The starter-kit script for the DI-1120, DI-2108, DI-4108, DI-4208 and DI-4718B: the
 * DI-2008 record loop without thermocouples, over a gain table chosen per model.
 */
module StarterKit {
  import opened Wrappers
  import opened Words
  import opened Channels
  import opened Tables
  import opened Readings
  import Frames
  import Arith
  import Di2008

  /** The hardware whose `analog_ranges` table the script is edited to use. */
  datatype Model = Di4208 | Di1120 | Di4108 | Di2108 | Di4718B

  /** Full-scale volts by gain code, lowest code first. */
  function AnalogRangesOf(m: Model): (ranges: seq<real>)
    ensures |ranges| >= 1
    ensures forall g | 0 <= g < |ranges| :: ranges[g] > 0.0
    ensures m == Di2108 ==> ranges == [10.0]
    ensures m == Di4718B ==> ranges == [5.0]
  {
    match m
    case Di4208 => [100.0, 50.0, 20.0, 10.0, 5.0, 2.0]
    case Di1120 => [100.0, 50.0, 20.0, 10.0, 5.0, 2.0]
    case Di4108 => [10.0, 5.0, 2.0, 1.0, 0.5, 0.2]
    case Di2108 => [10.0]
    case Di4718B => [5.0]
  }

  /** What the range-table lookups of `config_scn_lst` need of a code to stay inside their tables. */
  predicate CodeValid(m: Model, item: Word)
  {
    match ClassifyByNibble(item)
    case Voltage => GainCode(item) < |AnalogRangesOf(m)|
    case RateIn => RateCodeValid(GainCode(item))
    case _ => true
  }

  /** A fixed-range model accepts an analog code only with gain code 0. */
  lemma FixedRangeModels(m: Model, item: Word)
    requires m == Di2108 || m == Di4718B
    requires ClassifyByNibble(item) == Voltage
    ensures CodeValid(m, item) <==> GainCode(item) == 0
  {
  }

  /** The range-table entry of one code: full-scale volts, full-scale Hz, or the placeholder 0. */
  function RangeEntry(m: Model, item: Word): (r: real)
    requires CodeValid(m, item)
    ensures ClassifyByNibble(item) == Voltage ==> r > 0.0
    ensures ClassifyByNibble(item) == RateIn ==> r >= 10.0
    ensures ClassifyByNibble(item) == DigitalIn || ClassifyByNibble(item) == CounterIn ==> r == 0.0
  {
    match ClassifyByNibble(item)
    case Voltage => AnalogRangesOf(m)[GainCode(item)]
    case RateIn => RateRange(GainCode(item))
    case _ => 0.0
  }

  /** `config_scn_lst`: one range-table entry per scan-list code, in scan-list order. */
  method ConfigScanList(m: Model, slist: seq<Word>) returns (rangeTable: seq<real>)
    requires forall i | 0 <= i < |slist| :: CodeValid(m, slist[i])
    ensures |rangeTable| == |slist|
    ensures forall i | 0 <= i < |slist| :: rangeTable[i] == RangeEntry(m, slist[i])
  {
    var analogRanges := AnalogRangesOf(m);
    rangeTable := [];
    var position := 0;
    while position < |slist|
      invariant position <= |slist|
      invariant |rangeTable| == position
      invariant forall i | 0 <= i < position :: rangeTable[i] == RangeEntry(m, slist[i])
    {
      var item := slist[position];
      position := position + 1;
      if Nibble(item) < 8 {
        rangeTable := rangeTable + [analogRanges[GainCode(item)]];
      } else if Nibble(item) == 8 {
        rangeTable := rangeTable + [0.0];
      } else if Nibble(item) == 9 {
        rangeTable := rangeTable + [RateRanges[GainCode(item) - 1]];
      } else {
        rangeTable := rangeTable + [0.0];
      }
    }
  }

  /** Decoding of one sample at a position with code `item` and range-table entry `range`. */
  function DecodeSample(item: Word, range: real, p: BytePair): (r: Reading)
    ensures ClassifyByNibble(item) == Voltage <==> r.Volts?
    ensures ClassifyByNibble(item) == DigitalIn <==> r.Bits?
    ensures ClassifyByNibble(item) == RateIn <==> r.Hertz?
    ensures ClassifyByNibble(item) == CounterIn <==> r.Count?
    ensures r.Volts? && range >= 0.0 ==> -range <= r.volts <= range
    ensures r.Bits? ==> 0 <= r.bits < 0x80
    ensures r.Hertz? && range >= 0.0 ==> 0.0 <= r.hertz <= range
    ensures r.Count? ==> 0 <= r.count <= 0xFFFF
  {
    var f := Nibble(item);
    if f < 8 then
      Volts(ScaleVolts(range, SignedLE(p), 0x8000))
    else if f == 8 then
      Bits(DigitalBits7(p))
    else if f == 9 then
      Hertz(ScaleRate(BiasedLE(p), range))
    else
      Count(BiasedLE(p))
  }

  /**
   * The starter kit decodes every code the DI-2008 does not treat as a thermocouple
   * exactly as the DI-2008 does; a DI-2008 thermocouple code is a voltage channel here.
   */
  lemma AgreesWithDi2008(item: Word, range: real, p: BytePair)
    ensures Di2008.DecodeSample(item, range, p).Volts? || Di2008.DecodeSample(item, range, p).Bits?
         || Di2008.DecodeSample(item, range, p).Hertz? || Di2008.DecodeSample(item, range, p).Count?
         ==> DecodeSample(item, range, p) == Di2008.DecodeSample(item, range, p)
    ensures ClassifyDi2008(item) == Thermocouple
         ==> DecodeSample(item, range, p) == Volts(range * SignedLE(p) as real / 32768.0)
  {
    Di2008RefinesNibble(item);
  }

  /** The decoder's configuration: the model's gain table, the scan list and its range table. */
  datatype Config = Config(model: Model, slist: seq<Word>, rangeTable: seq<real>)

  predicate ValidConfig(cfg: Config)
  {
    && |cfg.slist| >= 1
    && |cfg.rangeTable| == |cfg.slist|
    && (forall i | 0 <= i < |cfg.slist| :: CodeValid(cfg.model, cfg.slist[i]))
    && (forall i | 0 <= i < |cfg.slist| :: cfg.rangeTable[i] == RangeEntry(cfg.model, cfg.slist[i]))
  }

  /** The reading of a sample that arrives at scan-list position `position`. */
  function DecodeAt(cfg: Config, position: nat, p: BytePair): Reading
    requires ValidConfig(cfg) && position < |cfg.slist|
  {
    DecodeSample(cfg.slist[position], cfg.rangeTable[position], p)
  }

  /** One iteration of the acquisition loop: decode the sample at the pointer and advance. */
  function Step(cfg: Config, c: Frames.Cursor<Reading>, p: BytePair): (r: (Frames.Cursor<Reading>, Option<seq<Reading>>))
    requires ValidConfig(cfg) && Frames.Valid(|cfg.slist|, c)
    ensures Frames.Valid(|cfg.slist|, r.0)
    ensures r.1.Some? <==> c.pointer == |cfg.slist| - 1
    ensures r.1.Some? ==> r.0.pointer == 0 && |r.1.value| == |cfg.slist|
  {
    Frames.Push(|cfg.slist|, c, DecodeAt(cfg, c.pointer, p))
  }

  /** The cursor and the emitted records after the samples `ps`, starting at position 0. */
  function Run(cfg: Config, ps: seq<BytePair>): (r: (Frames.Cursor<Reading>, seq<seq<Reading>>))
    requires ValidConfig(cfg)
    ensures Frames.Valid(|cfg.slist|, r.0)
  {
    if |ps| == 0 then (Frames.Cursor(0, []), [])
    else
      var (c, recs) := Run(cfg, ps[..|ps| - 1]);
      var (c', out) := Step(cfg, c, ps[|ps| - 1]);
      (c', recs + Emitted(out))
  }

  /** Each sample decoded by the position its flat index falls on. */
  function DecodedStream(cfg: Config, ps: seq<BytePair>): (vs: seq<Reading>)
    requires ValidConfig(cfg)
    ensures |vs| == |ps|
  {
    seq(|ps|, n requires 0 <= n < |ps| => DecodeAt(cfg, n % |cfg.slist|, ps[n]))
  }

  lemma DecodedStreamAt(cfg: Config, ps: seq<BytePair>, n: nat)
    requires ValidConfig(cfg) && n < |ps|
    ensures DecodedStream(cfg, ps)[n] == DecodeAt(cfg, n % |cfg.slist|, ps[n])
  {
  }

  lemma {:induction false} RunAssembles(cfg: Config, ps: seq<BytePair>)
    requires ValidConfig(cfg)
    ensures Run(cfg, ps) == Frames.Assemble(|cfg.slist|, DecodedStream(cfg, ps))
  {
    if |ps| > 0 {
      var init := ps[..|ps| - 1];
      RunAssembles(cfg, init);
      assert DecodedStream(cfg, ps)[..|ps| - 1] == DecodedStream(cfg, init);
      Frames.AssembleRecords(|cfg.slist|, DecodedStream(cfg, init));
    }
  }

  /**
   * The pointer wraps after every |slist| samples and exactly one record, of one
   * reading per position, is emitted per pass.
   */
  lemma RunPasses(cfg: Config, ps: seq<BytePair>)
    requires ValidConfig(cfg)
    ensures Run(cfg, ps).0.pointer == |ps| % |cfg.slist|
    ensures |Run(cfg, ps).1| == |ps| / |cfg.slist|
    ensures forall k | 0 <= k < |Run(cfg, ps).1| :: |Run(cfg, ps).1[k]| == |cfg.slist|
  {
    RunAssembles(cfg, ps);
    Frames.AssembleRecords(|cfg.slist|, DecodedStream(cfg, ps));
  }

  /** Value i of record k is sample k * |slist| + i, decoded at position i. */
  lemma RunRecord(cfg: Config, ps: seq<BytePair>, k: nat, i: nat)
    requires ValidConfig(cfg) && k < |Run(cfg, ps).1| && i < |cfg.slist|
    ensures |Run(cfg, ps).1[k]| == |cfg.slist|
    ensures 0 <= k * |cfg.slist| + i < |ps|
    ensures Run(cfg, ps).1[k][i] == DecodeSample(cfg.slist[i], cfg.rangeTable[i], ps[k * |cfg.slist| + i])
  {
    var width := |cfg.slist|;
    var vs := DecodedStream(cfg, ps);
    Arith.MulMonotone(0, k, width);
    var n: nat := k * width + i;
    assert |Run(cfg, ps).1[k]| == width && n < |ps| && Run(cfg, ps).1[k][i] == vs[n] by {
      RunAssembles(cfg, ps);
      Frames.AssembleRecord(width, vs, k, i);
    }
    assert vs[n] == DecodeAt(cfg, i, ps[n]) by {
      Arith.DivModUnique(n, width, k, i);
      DecodedStreamAt(cfg, ps, n);
    }
  }

  /** A DI-2108 scanning channel 0 reads half scale as 5 V and the most negative count as -10 V. */
  lemma Di2108Scenario(p: BytePair, q: BytePair)
    requires SignedLE(p) == 16384 && SignedLE(q) == -0x8000
    ensures ValidConfig(Config(Di2108, [0x0000], [10.0]))
    ensures Run(Config(Di2108, [0x0000], [10.0]), [p, q]).1 == [[Volts(5.0)], [Volts(-10.0)]]
  {
    var cfg := Config(Di2108, [0x0000], [10.0]);
    assert DecodeAt(cfg, 0, p) == Volts(5.0);
    assert DecodeAt(cfg, 0, q) == Volts(-10.0);
    assert [p, q][..1] == [p] && [p][..0] == [];
    var start: Frames.Cursor<Reading> := Frames.Cursor(0, []);
    assert Run(cfg, []) == (start, []);
    var first := Step(cfg, start, p);
    assert first.1.Some? && first.1.value == [Volts(5.0)] && first.0 == start;
    assert Run(cfg, [p]).0 == start;
    assert Run(cfg, [p]).1 == [[Volts(5.0)]];
    var second := Step(cfg, start, q);
    assert second.1.Some? && second.1.value == [Volts(-10.0)];
  }
}
