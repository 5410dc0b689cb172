/**
 * The DI-245 script: voltage and thermocouple channels whose 14-bit ADC counts arrive
 * split over two bytes, each carrying a sync bit in its least significant bit, and an
 * optional digital-input word served after the last analog position of every pass.
 */
module Di245 {
  import opened Wrappers
  import opened Words
  import opened Channels
  import opened Tables
  import opened Readings
  import Frames
  import Arith

  /** `b ^ 0x80`: inverts the most significant bit of a byte. */
  function FlipSign(b: Byte): (r: Byte)
    ensures b < 0x80 <==> r >= 0x80
    ensures r % 0x80 == b % 0x80
  {
    (b + 0x80) % 0x100
  }

  /** Flipping twice restores the byte. */
  lemma FlipSignInvolution(b: Byte)
    ensures FlipSign(FlipSign(b)) == b
  {
  }

  /**
   * Inverting the sign bit of the high byte and reading signed little-endian gives the
   * unsigned reading shifted down by 32768: the sample is offset binary.
   */
  lemma OffsetBinary(p: BytePair)
    ensures SignedLE(BytePair(p.first, FlipSign(p.second))) == UnsignedLE(p) - 0x8000
  {
  }

  /**
   * The 14-bit ADC count of an analog sample, following the script's steps: flip the sign
   * bit, read signed little-endian, `>> 1` to drop the low sync bit, keep `& 0x7F`, `>> 8`
   * to drop the high sync bit, `<< 7`, and `|` the kept bits back in. The shifted part
   * has its seven low bits clear, so the `|` is an addition.
   */
  function Unpack14(p: BytePair): (counts: int)
    ensures -0x2000 <= counts < 0x2000
    ensures counts == 0x80 * (p.second / 2) + p.first / 2 - 0x2000
  {
    var signed := SignedLE(BytePair(p.first, FlipSign(p.second)));
    var shifted := signed / 2;
    var lsByte := shifted % 0x80;
    var msPart := (shifted / 0x100) * 0x80;
    Unpack14Steps(p);
    Unpack14Range(p);
    msPart + lsByte
  }

  lemma Unpack14Range(p: BytePair)
    ensures -0x2000 <= 0x80 * (p.second / 2) + p.first / 2 - 0x2000 < 0x2000
  {
    var hi, lo := p.second / 2, p.first / 2;
    assert 0 <= hi < 0x80 && 0 <= lo < 0x80;
    Arith.MulMonotone(hi, 0x7F, 0x80);
  }

  lemma Unpack14Steps(p: BytePair)
    ensures var shifted := SignedLE(BytePair(p.first, FlipSign(p.second))) / 2;
      (shifted / 0x100) * 0x80 + shifted % 0x80 == 0x80 * (p.second / 2) + p.first / 2 - 0x2000
  {
    OffsetBinary(p);
    var signed := SignedLE(BytePair(p.first, FlipSign(p.second)));
    var low := p.first / 2;
    // signed = 2 * (0x80 * second + low - 0x4000) + first % 2
    var shifted := 0x80 * p.second + low - 0x4000;
    Arith.DivModUnique(signed, 2, shifted, p.first % 2);
    // shifted = 0x80 * (second - 0x80) + low
    Arith.DivModUnique(shifted, 0x80, p.second - 0x80, low);
    // shifted = 0x100 * (second / 2 - 0x40) + (0x80 * (second % 2) + low)
    Arith.DivModUnique(shifted, 0x100, p.second / 2 - 0x40, 0x80 * (p.second % 2) + low);
  }

  /** Only the sync bits are lost: two samples give the same count iff their other bits agree. */
  lemma SyncBitsIgnored(p: BytePair, q: BytePair)
    ensures Unpack14(p) == Unpack14(q) <==> p.first / 2 == q.first / 2 && p.second / 2 == q.second / 2
  {
    if Unpack14(p) == Unpack14(q) {
      Arith.DivModUnique(Unpack14(p) + 0x2000, 0x80, p.second / 2, p.first / 2);
      Arith.DivModUnique(Unpack14(q) + 0x2000, 0x80, q.second / 2, q.first / 2);
    }
  }

  /** The instrument-side packing of a 14-bit count with the given sync bits. */
  function Pack14(counts: int, sync0: int, sync1: int): (p: BytePair)
    requires -0x2000 <= counts < 0x2000 && 0 <= sync0 < 2 && 0 <= sync1 < 2
    ensures p.first % 2 == sync0 && p.second % 2 == sync1
  {
    var u := counts + 0x2000;
    BytePair(2 * (u % 0x80) + sync0, 2 * (u / 0x80) + sync1)
  }

  /** Unpacking inverts packing, whatever the sync bits. */
  lemma Unpack14Pack14(counts: int, sync0: int, sync1: int)
    requires -0x2000 <= counts < 0x2000 && 0 <= sync0 < 2 && 0 <= sync1 < 2
    ensures Unpack14(Pack14(counts, sync0, sync1)) == counts
  {
    var p := Pack14(counts, sync0, sync1);
    var u := counts + 0x2000;
    Arith.DivModUnique(p.first, 2, u % 0x80, sync0);
    Arith.DivModUnique(p.second, 2, u / 0x80, sync1);
  }

  /** A sample is its count together with its two sync bits. */
  lemma Pack14Unpack14(p: BytePair)
    ensures Pack14(Unpack14(p), p.first % 2, p.second % 2) == p
  {
    var u := Unpack14(p) + 0x2000;
    Arith.DivModUnique(u, 0x80, p.second / 2, p.first / 2);
  }

  /**
   * The digital-input word: `>> 1` on the high byte, unsigned little-endian, `>> 7`.
   * Bit 0 is the top bit of the first byte and the higher bits are the second byte
   * without its sync bit.
   */
  function DigitalWord(p: BytePair): (d: int)
    ensures 0 <= d < 0x100
    ensures d == 2 * (p.second / 2) + p.first / 0x80
  {
    var combined := UnsignedLE(BytePair(p.first, p.second / 2));
    Arith.DivModUnique(combined, 0x80, 2 * (p.second / 2) + p.first / 0x80, p.first % 0x80);
    combined / 0x80
  }

  /** What the range-table lookup of `config_scn_lst` needs of a code to stay inside the table. */
  predicate CodeValid(item: Word)
  {
    ClassifyDi245(item) == Voltage ==> GainCode(item) < |AnalogRanges|
  }

  /** The range-table entry of one code: full-scale volts, or the placeholder 0 for a thermocouple. */
  function RangeEntry(item: Word): (r: real)
    requires CodeValid(item)
    ensures r >= 0.0
    ensures ClassifyDi245(item) == Thermocouple ==> r == 0.0
    ensures ClassifyDi245(item) == Voltage ==> r == AnalogRanges[GainCode(item)]
  {
    if !ModeBit(item) then AnalogRanges[GainCode(item)] else 0.0
  }

  /** `config_scn_lst`: one range-table entry per scan-list code, in scan-list order. */
  method ConfigScanList(slist: seq<Word>) returns (rangeTable: seq<real>)
    requires forall i | 0 <= i < |slist| :: CodeValid(slist[i])
    ensures |rangeTable| == |slist|
    ensures forall i | 0 <= i < |slist| :: rangeTable[i] == RangeEntry(slist[i])
  {
    rangeTable := [];
    var position := 0;
    while position < |slist|
      invariant position <= |slist|
      invariant |rangeTable| == position
      invariant forall i | 0 <= i < position :: rangeTable[i] == RangeEntry(slist[i])
    {
      var item := slist[position];
      position := position + 1;
      if !ModeBit(item) {
        rangeTable := rangeTable + [AnalogRanges[GainCode(item)]];
      } else {
        rangeTable := rangeTable + [0.0];
      }
    }
  }

  /**
   * Decoding of one analog sample at a position with code `item` and range-table entry
   * `range`: `range * counts / 8192` for a voltage channel; the sentinels 8191 and -8192
   * or the linearized temperature for a thermocouple.
   */
  function DecodeSample(item: Word, range: real, p: BytePair): (r: Reading)
    ensures ClassifyDi245(item) == Voltage <==> r.Volts?
    ensures ClassifyDi245(item) == Thermocouple <==> r.Celsius? || r == CjcError || r == OpenCircuit
    ensures r == CjcError <==> ClassifyDi245(item) == Thermocouple && Unpack14(p) == 0x1FFF
    ensures r == OpenCircuit <==> ClassifyDi245(item) == Thermocouple && Unpack14(p) == -0x2000
    ensures r.Volts? && range >= 0.0 ==> -range <= r.volts <= range
  {
    var counts := Unpack14(p);
    if !ModeBit(item) then
      Volts(ScaleVolts(range, counts, 0x2000))
    else
      var t := TcType(item);
      TcReading(TcSlopesDi245[t], TcOffsets[t], counts, 0x1FFF, -0x2000)
  }

  /** A voltage channel reads `analog_ranges[item >> 8] * counts / 8192`. */
  lemma VoltageReading(item: Word, p: BytePair)
    requires CodeValid(item) && ClassifyDi245(item) == Voltage
    ensures DecodeSample(item, RangeEntry(item), p)
         == Volts(AnalogRanges[GainCode(item)] * Unpack14(p) as real / 8192.0)
  {
    var range := AnalogRanges[GainCode(item)];
    assert RangeEntry(item) == range;
    assert DecodeSample(item, range, p) == Volts(ScaleVolts(range, Unpack14(p), 0x2000));
  }

  /**
   * A thermocouple channel that reports no sentinel reads `tc_m[t] * counts + tc_b[t]`
   * with the DI-245 slopes and the type t taken from bits 8 to 10 of its code.
   */
  lemma ThermocoupleReading(item: Word, range: real, p: BytePair)
    requires ClassifyDi245(item) == Thermocouple
    requires Unpack14(p) != 0x1FFF && Unpack14(p) != -0x2000
    ensures DecodeSample(item, range, p)
         == Celsius(TcSlopesDi245[TcType(item)] * Unpack14(p) as real + TcOffsets[TcType(item)])
  {
  }

  /**
   * The decoder's configuration: the scan list, its range table, and whether the
   * digital inputs are enabled (`dig_inputs`).
   */
  datatype Config = Config(slist: seq<Word>, rangeTable: seq<real>, digitalInputs: bool)

  predicate ValidConfig(cfg: Config)
  {
    && |cfg.slist| >= 1
    && |cfg.rangeTable| == |cfg.slist|
    && (forall i | 0 <= i < |cfg.slist| :: CodeValid(cfg.slist[i]))
    && (forall i | 0 <= i < |cfg.slist| :: cfg.rangeTable[i] == RangeEntry(cfg.slist[i]))
  }

  /** Samples per pass: one per scan-list position, plus the digital word when enabled. */
  function Width(cfg: Config): (w: nat)
    ensures w == |cfg.slist| + (if cfg.digitalInputs then 1 else 0)
  {
    if cfg.digitalInputs then |cfg.slist| + 1 else |cfg.slist|
  }

  /** The reading of the sample at pass position `position`; position |slist| is the digital word. */
  function DecodeAt(cfg: Config, position: nat, p: BytePair): (r: Reading)
    requires ValidConfig(cfg) && position < Width(cfg)
    ensures position == |cfg.slist| <==> r.Bits?
  {
    if position < |cfg.slist| then DecodeSample(cfg.slist[position], cfg.rangeTable[position], p)
    else Bits(DigitalWord(p))
  }

  /** One iteration of the acquisition loop: decode the sample at the pointer and advance. */
  function Step(cfg: Config, c: Frames.Cursor<Reading>, p: BytePair): (r: (Frames.Cursor<Reading>, Option<seq<Reading>>))
    requires ValidConfig(cfg) && Frames.Valid(Width(cfg), c)
    ensures Frames.Valid(Width(cfg), r.0)
    ensures r.1.Some? <==> c.pointer == Width(cfg) - 1
    ensures r.1.Some? ==> r.0.pointer == 0 && |r.1.value| == Width(cfg)
  {
    Frames.Push(Width(cfg), c, DecodeAt(cfg, c.pointer, p))
  }

  /** The cursor and the emitted records after the samples `ps`, starting at position 0. */
  function Run(cfg: Config, ps: seq<BytePair>): (r: (Frames.Cursor<Reading>, seq<seq<Reading>>))
    requires ValidConfig(cfg)
    ensures Frames.Valid(Width(cfg), r.0)
  {
    if |ps| == 0 then (Frames.Cursor(0, []), [])
    else
      var (c, recs) := Run(cfg, ps[..|ps| - 1]);
      var (c', out) := Step(cfg, c, ps[|ps| - 1]);
      (c', recs + Emitted(out))
  }

  /** Each sample decoded by the pass position its flat index falls on. */
  function DecodedStream(cfg: Config, ps: seq<BytePair>): (vs: seq<Reading>)
    requires ValidConfig(cfg)
    ensures |vs| == |ps|
  {
    seq(|ps|, n requires 0 <= n < |ps| => DecodeAt(cfg, n % Width(cfg), ps[n]))
  }

  lemma DecodedStreamAt(cfg: Config, ps: seq<BytePair>, n: nat)
    requires ValidConfig(cfg) && n < |ps|
    ensures DecodedStream(cfg, ps)[n] == DecodeAt(cfg, n % Width(cfg), ps[n])
  {
  }

  lemma {:induction false} RunAssembles(cfg: Config, ps: seq<BytePair>)
    requires ValidConfig(cfg)
    ensures Run(cfg, ps) == Frames.Assemble(Width(cfg), DecodedStream(cfg, ps))
  {
    if |ps| > 0 {
      var init := ps[..|ps| - 1];
      RunAssembles(cfg, init);
      assert DecodedStream(cfg, ps)[..|ps| - 1] == DecodedStream(cfg, init);
      Frames.AssembleRecords(Width(cfg), DecodedStream(cfg, init));
    }
  }

  /**
   * One record per pass of |slist| analog samples, plus the digital word when enabled;
   * the pointer wraps after every such pass.
   */
  lemma RunPasses(cfg: Config, ps: seq<BytePair>)
    requires ValidConfig(cfg)
    ensures Run(cfg, ps).0.pointer == |ps| % Width(cfg)
    ensures |Run(cfg, ps).1| == |ps| / Width(cfg)
    ensures forall k | 0 <= k < |Run(cfg, ps).1| :: |Run(cfg, ps).1[k]| == Width(cfg)
  {
    RunAssembles(cfg, ps);
    Frames.AssembleRecords(Width(cfg), DecodedStream(cfg, ps));
  }

  /**
   * Value i of record k is sample k * Width + i: an analog reading at a scan-list
   * position, and the digital word at the extra last position.
   */
  lemma RunRecord(cfg: Config, ps: seq<BytePair>, k: nat, i: nat)
    requires ValidConfig(cfg) && k < |Run(cfg, ps).1| && i < Width(cfg)
    ensures |Run(cfg, ps).1[k]| == Width(cfg)
    ensures 0 <= k * Width(cfg) + i < |ps|
    ensures i < |cfg.slist|
         ==> Run(cfg, ps).1[k][i] == DecodeSample(cfg.slist[i], cfg.rangeTable[i], ps[k * Width(cfg) + i])
    ensures i == |cfg.slist| ==> Run(cfg, ps).1[k][i] == Bits(DigitalWord(ps[k * Width(cfg) + i]))
  {
    var width := Width(cfg);
    var vs := DecodedStream(cfg, ps);
    Arith.MulMonotone(0, k, width);
    var n: nat := k * width + i;
    assert |Run(cfg, ps).1[k]| == width && n < |ps| && Run(cfg, ps).1[k][i] == vs[n] by {
      RunAssembles(cfg, ps);
      Frames.AssembleRecord(width, vs, k, i);
    }
    assert vs[n] == DecodeAt(cfg, i, ps[n]) by {
      Arith.DivModUnique(n, width, k, i);
      DecodedStreamAt(cfg, ps, n);
    }
  }

  /**
   * A ±10 V channel (gain code 0x0A) with digital inputs enabled: a sample whose packed
   * count is 4096 reads 5 V, and the digital word that follows closes the same record.
   */
  lemma DigitalInputsScenario(p: BytePair, q: BytePair)
    requires Unpack14(p) == 0x1000 && DigitalWord(q) == 3
    ensures ValidConfig(Config([0x0A00], [10.0], true))
    ensures Run(Config([0x0A00], [10.0], true), [p, q]).1 == [[Volts(5.0), Bits(3)]]
  {
    var cfg := Config([0x0A00], [10.0], true);
    assert DecodeAt(cfg, 0, p) == Volts(5.0);
    assert DecodeAt(cfg, 1, q) == Bits(3);
    assert [p, q][..1] == [p] && [p][..0] == [];
    var start: Frames.Cursor<Reading> := Frames.Cursor(0, []);
    assert Run(cfg, []) == (start, []);
    var first := Step(cfg, start, p);
    assert first.1.None? && first.0.pointer == 1 && first.0.pending == [Volts(5.0)];
    assert Run(cfg, [p]).0 == first.0;
    assert Run(cfg, [p]).1 == [];
    var second := Step(cfg, first.0, q);
    assert second.1.Some? && second.1.value == [Volts(5.0), Bits(3)];
  }
}
