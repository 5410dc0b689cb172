/**
 * The DI-1110 script: analog channels, one rate input, the digital inputs and the
 * counter, scanned continuously and reported once every `decimation_factor` passes.
 * Analog and rate readings are averaged over those passes; the digital inputs and the
 * counter are reported as read on the last pass.
 */
module Di1110 {
  import opened Wrappers
  import opened Words
  import opened Channels
  import opened Tables
  import opened Readings
  import opened Columns
  import Arith
  import Cycles

  predicate IsAnalog(item: Word)
  {
    ClassifyByNibble(item) == Voltage
  }

  predicate IsRate(item: Word)
  {
    ClassifyByNibble(item) == RateIn
  }

  /** The number of analog codes in `s`: the size of the accumulation table. */
  function AnalogCount(s: seq<Word>): (n: nat)
    ensures n <= |s|
  {
    if |s| == 0 then 0
    else AnalogCount(s[..|s| - 1]) + (if IsAnalog(s[|s| - 1]) then 1 else 0)
  }

  lemma AnalogCountNext(s: seq<Word>, i: nat)
    requires i < |s|
    ensures AnalogCount(s[..i + 1]) == AnalogCount(s[..i]) + (if IsAnalog(s[i]) then 1 else 0)
  {
    assert s[..i + 1][..i] == s[..i];
  }

  lemma {:induction false} AnalogCountMonotone(s: seq<Word>, i: nat, j: nat)
    requires i <= j <= |s|
    ensures AnalogCount(s[..i]) <= AnalogCount(s[..j])
  {
    if i < j {
      AnalogCountMonotone(s, i, j - 1);
      AnalogCountNext(s, j - 1);
    }
  }

  /**
   * The logical channel number of an analog position (`achan_number` when the pointer
   * is there) is the count of analog codes before it: distinct analog positions get
   * distinct accumulators, each inside the table.
   */
  lemma ChannelNumbering(s: seq<Word>, i: nat, j: nat)
    requires i < j <= |s| && IsAnalog(s[i])
    ensures AnalogCount(s[..i]) < AnalogCount(s[..j])
    ensures AnalogCount(s[..i]) < AnalogCount(s)
  {
    AnalogCountNext(s, i);
    AnalogCountMonotone(s, i + 1, j);
    AnalogCountMonotone(s, i + 1, |s|);
    assert s[..|s|] == s;
  }

  /** What `config_scn_lst` needs of a code: a rate code must index `rate_ranges`. */
  predicate CodeValid(item: Word)
  {
    IsRate(item) ==> RateCodeValid(GainCode(item))
  }

  /**
   * The global `rate_range` after `config_scn_lst`: set by every rate code in turn, so
   * the last one wins; unset when the scan list has no rate code.
   */
  function LastRateRange(s: seq<Word>): Option<real>
    requires forall i | 0 <= i < |s| :: CodeValid(s[i])
  {
    if |s| == 0 then None
    else if IsRate(s[|s| - 1]) then
      assert CodeValid(s[|s| - 1]);
      Some(RateRange(GainCode(s[|s| - 1])))
    else
      LastRateRange(s[..|s| - 1])
  }

  /** The rate range is set as soon as the scan list holds a rate code. */
  lemma {:induction false} RateRangeSet(s: seq<Word>, i: nat)
    requires forall k | 0 <= k < |s| :: CodeValid(s[k])
    requires i < |s| && IsRate(s[i])
    ensures LastRateRange(s).Some?
  {
    if i < |s| - 1 {
      RateRangeSet(s[..|s| - 1], i);
    }
  }

  /** Without a rate code the rate range stays unset. */
  lemma {:induction false} RateRangeUnset(s: seq<Word>)
    requires forall k | 0 <= k < |s| :: CodeValid(s[k])
    requires forall k | 0 <= k < |s| :: !IsRate(s[k])
    ensures LastRateRange(s).None?
  {
    if |s| > 0 {
      assert !IsRate(s[|s| - 1]);
      RateRangeUnset(s[..|s| - 1]);
    }
  }

  /** The rate range is that of the last rate code in the scan list. */
  lemma {:induction false} RateRangeIsLast(s: seq<Word>, i: nat)
    requires forall k | 0 <= k < |s| :: CodeValid(s[k])
    requires i < |s| && IsRate(s[i]) && forall k | i < k < |s| :: !IsRate(s[k])
    ensures RateCodeValid(GainCode(s[i]))
    ensures LastRateRange(s) == Some(RateRange(GainCode(s[i])))
  {
    assert CodeValid(s[i]);
    if i < |s| - 1 {
      assert !IsRate(s[|s| - 1]);
      RateRangeIsLast(s[..|s| - 1], i);
    }
  }

  /**
   * `config_scn_lst`: one zeroed accumulator per analog code, and the rate range of the
   * last rate code.
   */
  method ConfigScanList(slist: seq<Word>) returns (accumulators: seq<int>, rateRange: Option<real>)
    requires forall i | 0 <= i < |slist| :: CodeValid(slist[i])
    ensures |accumulators| == AnalogCount(slist)
    ensures forall k | 0 <= k < |accumulators| :: accumulators[k] == 0
    ensures rateRange == LastRateRange(slist)
  {
    accumulators := [];
    rateRange := None;
    var position := 0;
    while position < |slist|
      invariant position <= |slist|
      invariant accumulators == Zeros(AnalogCount(slist[..position]))
      invariant rateRange == LastRateRange(slist[..position])
    {
      var item := slist[position];
      if Nibble(item) < 8 {
        accumulators := accumulators + [0];
      }
      if Nibble(item) == 9 {
        rateRange := Some(RateRanges[GainCode(slist[position]) - 1]);
      }
      assert slist[..position + 1][..position] == slist[..position];
      position := position + 1;
    }
    assert slist[..position] == slist;
  }

  /**
   * The decoder's configuration: the scan list, the rate range `config_scn_lst` left
   * behind, and the decimation factor (a positive integer).
   */
  datatype Config = Config(slist: seq<Word>, rateRange: Option<real>, factor: nat)

  predicate ValidConfig(cfg: Config)
  {
    && |cfg.slist| >= 1
    && cfg.factor >= 1
    && (forall i | 0 <= i < |cfg.slist| :: CodeValid(cfg.slist[i]))
    && cfg.rateRange == LastRateRange(cfg.slist)
  }

  /**
   * The loop's variables: `slist_pointer`, `achan_number`, `dec_count`, the accumulation
   * table, `rate_accum`, and the readings of the output string built so far.
   */
  datatype State = State(pointer: nat, achan: nat, decCount: nat, acc: seq<int>, rateAccum: int, pending: seq<Reading>)

  predicate Inv(cfg: Config, s: State)
    requires ValidConfig(cfg)
  {
    && s.pointer < |cfg.slist|
    && s.achan == AnalogCount(cfg.slist[..s.pointer])
    && 1 <= s.decCount <= cfg.factor
    && |s.acc| == AnalogCount(cfg.slist)
    && |s.pending| == (if s.decCount == 1 then s.pointer else 0)
  }

  /** The state before the first sample, and after every reported pass. */
  function Initial(cfg: Config): (s: State)
    requires ValidConfig(cfg)
    ensures Inv(cfg, s)
    ensures s.pointer == 0 && s.achan == 0 && s.decCount == cfg.factor && s.pending == []
    ensures forall k | 0 <= k < |s.acc| :: s.acc[k] == 0
    ensures s.rateAccum == 0
  {
    State(0, 0, cfg.factor, Zeros(AnalogCount(cfg.slist)), 0, [])
  }

  /**
   * The per-sample part of the loop body: an analog sample goes to its channel's
   * accumulator and a rate sample to the rate accumulator; on the last pass of a
   * decimation cycle the position's reading is appended to the output.
   */
  function Absorb(cfg: Config, s: State, p: BytePair): (t: State)
    requires ValidConfig(cfg) && Inv(cfg, s)
    ensures t.pointer == s.pointer && t.decCount == s.decCount
    ensures t.achan == AnalogCount(cfg.slist[..s.pointer + 1])
    ensures |t.acc| == |s.acc|
    ensures |t.pending| == |s.pending| + (if s.decCount == 1 then 1 else 0)
  {
    var item := cfg.slist[s.pointer];
    var last := s.decCount == 1;
    AnalogCountNext(cfg.slist, s.pointer);
    if Nibble(item) < 8 then
      ChannelNumbering(cfg.slist, s.pointer, s.pointer + 1);
      var acc := s.acc[s.achan := s.acc[s.achan] + SignedLE(p)];
      var reading := Volts(AverageVolts(acc[s.achan], cfg.factor));
      s.(achan := s.achan + 1, acc := acc, pending := if last then s.pending + [reading] else s.pending)
    else if Nibble(item) == 8 then
      s.(pending := if last then s.pending + [Bits(DigitalBits7(p))] else s.pending)
    else if Nibble(item) == 9 then
      RateRangeSet(cfg.slist, s.pointer);
      var total := s.rateAccum + BiasedLE(p);
      var reading := Hertz(AverageRate(total, cfg.rateRange.value, cfg.factor));
      s.(rateAccum := total, pending := if last then s.pending + [reading] else s.pending)
    else
      s.(pending := if last then s.pending + [Count(BiasedLE(p))] else s.pending)
  }

  /**
   * One iteration of the acquisition loop. At the end of a pass the decimation count
   * goes down; at the end of the last pass the record is emitted and every accumulator,
   * the count and the output are reset.
   */
  function Step(cfg: Config, s: State, p: BytePair): (r: (State, Option<seq<Reading>>))
    requires ValidConfig(cfg) && Inv(cfg, s)
    ensures Inv(cfg, r.0)
    ensures r.1.Some? <==> s.pointer == |cfg.slist| - 1 && s.decCount == 1
    ensures r.1.Some? ==> r.0 == Initial(cfg) && |r.1.value| == |cfg.slist|
    ensures r.1.None? && s.pointer == |cfg.slist| - 1
         ==> r.0.pointer == 0 && r.0.decCount == s.decCount - 1
    ensures s.pointer < |cfg.slist| - 1 ==> r.0.pointer == s.pointer + 1 && r.0.decCount == s.decCount
  {
    var t := Absorb(cfg, s, p);
    var pointer := t.pointer + 1;
    if pointer + 1 > |cfg.slist| then
      assert cfg.slist[..pointer] == cfg.slist;
      if t.decCount == 1 then (Initial(cfg), Some(t.pending))
      else (t.(pointer := 0, achan := 0, decCount := t.decCount - 1), None)
    else
      (t.(pointer := pointer), None)
  }

  /** The state and the emitted records after the samples `ws`. */
  function Run(cfg: Config, ws: seq<BytePair>): (r: (State, seq<seq<Reading>>))
    requires ValidConfig(cfg)
    ensures Inv(cfg, r.0)
  {
    if |ws| == 0 then (Initial(cfg), [])
    else
      var (s, recs) := Run(cfg, ws[..|ws| - 1]);
      var (s', out) := Step(cfg, s, ws[|ws| - 1]);
      (s', recs + Emitted(out))
  }

  // ---- The reference: what a record holds, in terms of the samples of its cycle ----

  /** The signed readings of the samples. */
  function Signed(h: seq<BytePair>): (v: seq<int>)
    ensures |v| == |h|
    ensures forall n | 0 <= n < |h| :: v[n] == SignedLE(h[n])
  {
    seq(|h|, n requires 0 <= n < |h| => SignedLE(h[n]))
  }

  /** The biased (unsigned) readings of the samples. */
  function Biased(h: seq<BytePair>): (v: seq<int>)
    ensures |v| == |h|
    ensures forall n | 0 <= n < |h| :: v[n] == BiasedLE(h[n])
  {
    seq(|h|, n requires 0 <= n < |h| => BiasedLE(h[n]))
  }

  /** The shared rate accumulator's reference: the biased readings of every rate-position sample. */
  function RateTotal(slist: seq<Word>, h: seq<BytePair>): int
    requires |slist| >= 1
  {
    if |h| == 0 then 0
    else
      RateTotal(slist, h[..|h| - 1])
      + (if IsRate(slist[(|h| - 1) % |slist|]) then BiasedLE(h[|h| - 1]) else 0)
  }

  /** Samples in one decimation cycle. */
  function CycleLength(cfg: Config): (c: nat)
    requires ValidConfig(cfg)
    ensures c >= |cfg.slist|
  {
    Arith.MulMonotone(1, cfg.factor, |cfg.slist|);
    cfg.factor * |cfg.slist|
  }

  /**
   * The reading position j contributes to the record of a cycle whose samples begin
   * with `h`, read when the last pass reaches it (flat index n): the averages use the
   * samples up to and including n, the other functions sample n alone.
   */
  function Entry(cfg: Config, h: seq<BytePair>, j: nat): Reading
    requires ValidConfig(cfg) && j < |cfg.slist|
    requires (cfg.factor - 1) * |cfg.slist| + j < |h|
  {
    var L := |cfg.slist|;
    var n := (cfg.factor - 1) * L + j;
    var f := Nibble(cfg.slist[j]);
    if f < 8 then Volts(AverageVolts(ColumnSum(L, Signed(h[..n + 1]), j), cfg.factor))
    else if f == 8 then Bits(DigitalBits7(h[n]))
    else if f == 9 then
      RateRangeSet(cfg.slist, j);
      Hertz(AverageRate(RateTotal(cfg.slist, h[..n + 1]), cfg.rateRange.value, cfg.factor))
    else Count(BiasedLE(h[n]))
  }

  /** The record of one full cycle of samples. */
  function CycleRecord(cfg: Config, h: seq<BytePair>): (rec: seq<Reading>)
    requires ValidConfig(cfg) && |h| == CycleLength(cfg)
    ensures |rec| == |cfg.slist|
  {
    seq(|cfg.slist|, j requires 0 <= j < |cfg.slist| => Entry(cfg, h, j))
  }

  /**
   * The loop state after the samples `h` of the current cycle: pass and position are
   * |h| split by the scan-list length, each analog accumulator holds its column's sum,
   * the rate accumulator the rate total, and on the last pass the output holds the
   * entries of the positions already visited.
   */
  predicate CycleInv(cfg: Config, s: State, h: seq<BytePair>)
    requires ValidConfig(cfg)
  {
    && SumsInv(cfg, s, h)
    && (s.decCount == 1 ==> forall j | 0 <= j < s.pointer :: s.pending[j] == Entry(cfg, h, j))
  }

  /** The part of the cycle invariant about the position and the accumulators. */
  predicate SumsInv(cfg: Config, s: State, h: seq<BytePair>)
    requires ValidConfig(cfg)
  {
    && Inv(cfg, s)
    && |h| == (cfg.factor - s.decCount) * |cfg.slist| + s.pointer
    && (forall j | 0 <= j < |cfg.slist| && IsAnalog(cfg.slist[j]) ::
          ChannelIndex(cfg, j) < |s.acc| && s.acc[ChannelIndex(cfg, j)] == ColumnSum(|cfg.slist|, Signed(h), j))
    && s.rateAccum == RateTotal(cfg.slist, h)
  }

  /** The accumulator of analog position j. */
  function ChannelIndex(cfg: Config, j: nat): (k: nat)
    requires ValidConfig(cfg) && j < |cfg.slist| && IsAnalog(cfg.slist[j])
    ensures k < AnalogCount(cfg.slist)
  {
    ChannelNumbering(cfg.slist, j, j + 1);
    AnalogCount(cfg.slist[..j])
  }

  /** Distinct analog positions own distinct accumulators. */
  lemma ChannelIndexInjective(cfg: Config, i: nat, j: nat)
    requires ValidConfig(cfg) && i < |cfg.slist| && j < |cfg.slist|
    requires IsAnalog(cfg.slist[i]) && IsAnalog(cfg.slist[j])
    ensures ChannelIndex(cfg, i) == ChannelIndex(cfg, j) <==> i == j
  {
    if i < j {
      ChannelNumbering(cfg.slist, i, j);
    } else if j < i {
      ChannelNumbering(cfg.slist, j, i);
    }
  }

  lemma InitialCycle(cfg: Config)
    requires ValidConfig(cfg)
    ensures CycleInv(cfg, Initial(cfg), [])
  {
  }

  /** An entry only depends on the samples up to the one it is read from. */
  lemma EntryStable(cfg: Config, h: seq<BytePair>, p: BytePair, j: nat)
    requires ValidConfig(cfg) && j < |cfg.slist|
    requires (cfg.factor - 1) * |cfg.slist| + j < |h|
    ensures Entry(cfg, h + [p], j) == Entry(cfg, h, j)
  {
    var n := (cfg.factor - 1) * |cfg.slist| + j;
    assert (h + [p])[..n + 1] == h[..n + 1];
  }

  lemma SignedAppend(h: seq<BytePair>, p: BytePair)
    ensures Signed(h + [p]) == Signed(h) + [SignedLE(p)]
  {
  }

  lemma RateTotalAppend(slist: seq<Word>, h: seq<BytePair>, p: BytePair)
    requires |slist| >= 1
    ensures RateTotal(slist, h + [p])
         == RateTotal(slist, h) + (if IsRate(slist[|h| % |slist|]) then BiasedLE(p) else 0)
  {
    assert (h + [p])[..|h|] == h;
  }

  /** Absorbing a sample keeps every analog accumulator equal to its column sum. */
  lemma AbsorbAcc(cfg: Config, s: State, h: seq<BytePair>, p: BytePair)
    requires ValidConfig(cfg) && SumsInv(cfg, s, h)
    ensures forall j | 0 <= j < |cfg.slist| && IsAnalog(cfg.slist[j]) ::
              && ChannelIndex(cfg, j) < |Absorb(cfg, s, p).acc|
              && Absorb(cfg, s, p).acc[ChannelIndex(cfg, j)] == ColumnSum(|cfg.slist|, Signed(h + [p]), j)
  {
    var L := |cfg.slist|;
    var t := Absorb(cfg, s, p);
    Arith.MulMonotone(0, cfg.factor - s.decCount, L);
    Arith.DivModUnique(|h|, L, cfg.factor - s.decCount, s.pointer);
    SignedAppend(h, p);
    forall j | 0 <= j < L && IsAnalog(cfg.slist[j])
      ensures t.acc[ChannelIndex(cfg, j)] == ColumnSum(L, Signed(h + [p]), j)
    {
      ColumnSumAppend(L, Signed(h), SignedLE(p), j);
      if IsAnalog(cfg.slist[s.pointer]) {
        ChannelIndexInjective(cfg, j, s.pointer);
      }
    }
  }

  /** Absorbing a sample keeps the rate accumulator equal to the rate total. */
  lemma AbsorbRate(cfg: Config, s: State, h: seq<BytePair>, p: BytePair)
    requires ValidConfig(cfg) && SumsInv(cfg, s, h)
    ensures Absorb(cfg, s, p).rateAccum == RateTotal(cfg.slist, h + [p])
  {
    var L := |cfg.slist|;
    Arith.MulMonotone(0, cfg.factor - s.decCount, L);
    Arith.DivModUnique(|h|, L, cfg.factor - s.decCount, s.pointer);
    RateTotalAppend(cfg.slist, h, p);
  }

  /** On the last pass, the reading a sample appends is the entry of its position. */
  lemma AbsorbNewEntry(cfg: Config, s: State, h: seq<BytePair>, p: BytePair)
    requires ValidConfig(cfg) && SumsInv(cfg, s, h) && s.decCount == 1
    ensures (cfg.factor - 1) * |cfg.slist| + s.pointer == |h|
    ensures Absorb(cfg, s, p).pending[s.pointer] == Entry(cfg, h + [p], s.pointer)
  {
    var f := Nibble(cfg.slist[s.pointer]);
    if f < 8 {
      NewAnalogEntry(cfg, s, h, p);
    } else if f == 9 {
      NewRateEntry(cfg, s, h, p);
    } else {
      NewSampleEntry(cfg, s, h, p);
    }
  }

  lemma NewAnalogEntry(cfg: Config, s: State, h: seq<BytePair>, p: BytePair)
    requires ValidConfig(cfg) && SumsInv(cfg, s, h) && s.decCount == 1 && IsAnalog(cfg.slist[s.pointer])
    ensures Absorb(cfg, s, p).pending[s.pointer] == Entry(cfg, h + [p], s.pointer)
  {
    var L, j := |cfg.slist|, s.pointer;
    var t := Absorb(cfg, s, p);
    assert t.acc[ChannelIndex(cfg, j)] == ColumnSum(L, Signed(h + [p]), j) by {
      AbsorbAcc(cfg, s, h, p);
    }
    assert t.pending[j] == Volts(AverageVolts(t.acc[ChannelIndex(cfg, j)], cfg.factor));
    assert (h + [p])[..|h| + 1] == h + [p];
    EntryOfAnalog(cfg, h + [p], j);
  }

  lemma NewRateEntry(cfg: Config, s: State, h: seq<BytePair>, p: BytePair)
    requires ValidConfig(cfg) && SumsInv(cfg, s, h) && s.decCount == 1 && IsRate(cfg.slist[s.pointer])
    ensures Absorb(cfg, s, p).pending[s.pointer] == Entry(cfg, h + [p], s.pointer)
  {
    var j := s.pointer;
    var t := Absorb(cfg, s, p);
    assert t.rateAccum == RateTotal(cfg.slist, h + [p]) by {
      AbsorbRate(cfg, s, h, p);
    }
    RateRangeSet(cfg.slist, j);
    assert t.pending[j] == Hertz(AverageRate(t.rateAccum, cfg.rateRange.value, cfg.factor));
    assert (h + [p])[..|h| + 1] == h + [p];
    EntryOfRate(cfg, h + [p], j);
  }

  lemma NewSampleEntry(cfg: Config, s: State, h: seq<BytePair>, p: BytePair)
    requires ValidConfig(cfg) && SumsInv(cfg, s, h) && s.decCount == 1
    requires Nibble(cfg.slist[s.pointer]) == 8 || Nibble(cfg.slist[s.pointer]) >= 10
    ensures Absorb(cfg, s, p).pending[s.pointer] == Entry(cfg, h + [p], s.pointer)
  {
    assert (h + [p])[|h|] == p;
  }

  /** On the last pass, absorbing a sample appends the entry of its position. */
  lemma AbsorbOutput(cfg: Config, s: State, h: seq<BytePair>, p: BytePair)
    requires ValidConfig(cfg) && CycleInv(cfg, s, h) && s.decCount == 1
    ensures forall j | 0 <= j <= s.pointer :: Absorb(cfg, s, p).pending[j] == Entry(cfg, h + [p], j)
  {
    var t := Absorb(cfg, s, p);
    assert t.pending[..s.pointer] == s.pending;
    AbsorbNewEntry(cfg, s, h, p);
    forall j | 0 <= j < s.pointer
      ensures t.pending[j] == Entry(cfg, h + [p], j)
    {
      EntryStable(cfg, h, p, j);
    }
  }

  /** Absorbing a sample keeps the accumulators equal to their references over one more sample. */
  lemma AbsorbCycle(cfg: Config, s: State, h: seq<BytePair>, p: BytePair)
    requires ValidConfig(cfg) && CycleInv(cfg, s, h)
    ensures var t := Absorb(cfg, s, p);
      && (forall j | 0 <= j < |cfg.slist| && IsAnalog(cfg.slist[j]) ::
            ChannelIndex(cfg, j) < |t.acc| && t.acc[ChannelIndex(cfg, j)] == ColumnSum(|cfg.slist|, Signed(h + [p]), j))
      && t.rateAccum == RateTotal(cfg.slist, h + [p])
      && (s.decCount == 1 ==> forall j | 0 <= j <= s.pointer :: t.pending[j] == Entry(cfg, h + [p], j))
  {
    AbsorbAcc(cfg, s, h, p);
    AbsorbRate(cfg, s, h, p);
    if s.decCount == 1 {
      AbsorbOutput(cfg, s, h, p);
    }
  }

  /** The last sample of the last pass completes the cycle and emits its record. */
  lemma StepEmits(cfg: Config, s: State, h: seq<BytePair>, p: BytePair)
    requires ValidConfig(cfg) && CycleInv(cfg, s, h)
    requires s.pointer == |cfg.slist| - 1 && s.decCount == 1
    ensures |h| + 1 == CycleLength(cfg)
    ensures Step(cfg, s, p).0 == Initial(cfg)
    ensures Step(cfg, s, p).1 == Some(CycleRecord(cfg, h + [p]))
  {
    Arith.CyclePosition(cfg.factor, s.decCount, |cfg.slist|, s.pointer, |h|);
    AbsorbCycle(cfg, s, h, p);
    var t := Absorb(cfg, s, p);
    assert Step(cfg, s, p).1 == Some(t.pending);
    assert t.pending == CycleRecord(cfg, h + [p]);
  }

  /** The last sample of an earlier pass starts the next pass, one decimation count down. */
  lemma StepEndsPass(cfg: Config, s: State, h: seq<BytePair>, p: BytePair)
    requires ValidConfig(cfg) && CycleInv(cfg, s, h)
    requires s.pointer == |cfg.slist| - 1 && s.decCount > 1
    ensures |h| + 1 < CycleLength(cfg)
    ensures Step(cfg, s, p).1.None?
    ensures CycleInv(cfg, Step(cfg, s, p).0, h + [p])
  {
    Arith.CyclePosition(cfg.factor, s.decCount, |cfg.slist|, s.pointer, |h|);
    var t := Absorb(cfg, s, p);
    var next := t.(pointer := 0, achan := 0, decCount := t.decCount - 1);
    assert Step(cfg, s, p) == (next, None);
    assert CycleInv(cfg, next, h + [p]) by {
      AbsorbCycle(cfg, s, h, p);
      assert cfg.slist[..0] == [];
    }
  }

  /** Any other sample moves the pointer on within the pass. */
  lemma StepWithinPass(cfg: Config, s: State, h: seq<BytePair>, p: BytePair)
    requires ValidConfig(cfg) && CycleInv(cfg, s, h)
    requires s.pointer < |cfg.slist| - 1
    ensures |h| + 1 < CycleLength(cfg)
    ensures Step(cfg, s, p).1.None?
    ensures CycleInv(cfg, Step(cfg, s, p).0, h + [p])
  {
    Arith.CyclePosition(cfg.factor, s.decCount, |cfg.slist|, s.pointer, |h|);
    AbsorbCycle(cfg, s, h, p);
    var r := Step(cfg, s, p);
    assert r.0.pointer == s.pointer + 1 && r.0.decCount == s.decCount;
  }

  /**
   * One step of the loop from a cycle state: the record of the whole cycle is emitted
   * exactly when its last sample arrives, and the loop then starts the next cycle afresh.
   */
  lemma StepCycle(cfg: Config, s: State, h: seq<BytePair>, p: BytePair)
    requires ValidConfig(cfg) && CycleInv(cfg, s, h)
    ensures |h| < CycleLength(cfg)
    ensures Step(cfg, s, p).1.Some? <==> |h| + 1 == CycleLength(cfg)
    ensures Step(cfg, s, p).1.Some? ==>
              && Step(cfg, s, p).0 == Initial(cfg)
              && Step(cfg, s, p).1.value == CycleRecord(cfg, h + [p])
    ensures Step(cfg, s, p).1.None? ==> CycleInv(cfg, Step(cfg, s, p).0, h + [p])
  {
    Arith.CyclePosition(cfg.factor, s.decCount, |cfg.slist|, s.pointer, |h|);
    if s.pointer == |cfg.slist| - 1 && s.decCount == 1 {
      StepEmits(cfg, s, h, p);
    } else if s.pointer == |cfg.slist| - 1 {
      StepEndsPass(cfg, s, h, p);
    } else {
      StepWithinPass(cfg, s, h, p);
    }
  }

  // ---- The whole stream ----

  /** The loop body as a machine over samples, for the cycle argument of the Cycles module. */
  function Machine(cfg: Config): (State, BytePair) -> (State, Option<seq<Reading>>)
    requires ValidConfig(cfg)
  {
    (s: State, p: BytePair) => if Inv(cfg, s) then Step(cfg, s, p) else (s, None)
  }

  function Invariant(cfg: Config): (State, seq<BytePair>) -> bool
    requires ValidConfig(cfg)
  {
    (s: State, h: seq<BytePair>) => CycleInv(cfg, s, h)
  }

  function RecordOf(cfg: Config): seq<BytePair> -> seq<Reading>
    requires ValidConfig(cfg)
  {
    (h: seq<BytePair>) => if |h| == CycleLength(cfg) then CycleRecord(cfg, h) else []
  }

  /** The loop is a machine that emits the record of each cycle of `factor * |slist|` samples. */
  lemma MachineCyclic(cfg: Config)
    requires ValidConfig(cfg)
    ensures Cycles.Cyclic(Machine(cfg), Initial(cfg), Invariant(cfg), CycleLength(cfg), RecordOf(cfg))
  {
    InitialCycle(cfg);
    forall s, h | Invariant(cfg)(s, h)
      ensures |h| < CycleLength(cfg)
    {
      Arith.CyclePosition(cfg.factor, s.decCount, |cfg.slist|, s.pointer, |h|);
    }
    forall s, h, p | Invariant(cfg)(s, h)
      ensures Cycles.Advances(Machine(cfg), Invariant(cfg), CycleLength(cfg), RecordOf(cfg), s, h, p)
    {
      StepCycle(cfg, s, h, p);
    }
  }

  /** The script's loop and the machine agree on every stream. */
  lemma {:induction false} RunIsMachine(cfg: Config, ws: seq<BytePair>)
    requires ValidConfig(cfg)
    ensures Run(cfg, ws) == Cycles.Run(Machine(cfg), Initial(cfg), ws)
  {
    if |ws| > 0 {
      RunIsMachine(cfg, ws[..|ws| - 1]);
    }
  }

  /** Record k is the record of the k-th cycle of samples. */
  lemma RunRecord(cfg: Config, ws: seq<BytePair>, k: nat)
    requires ValidConfig(cfg) && k < |Run(cfg, ws).1|
    ensures 0 <= k * CycleLength(cfg) && (k + 1) * CycleLength(cfg) <= |ws|
    ensures Run(cfg, ws).1[k] == CycleRecord(cfg, ws[k * CycleLength(cfg)..(k + 1) * CycleLength(cfg)])
  {
    var C := CycleLength(cfg);
    RunIsMachine(cfg, ws);
    MachineCyclic(cfg);
    Cycles.RunRecord(Machine(cfg), Initial(cfg), Invariant(cfg), C, RecordOf(cfg), ws, k);
    Arith.BlockStart(k, C);
  }

  /** One record per `decimation_factor` passes: the count of records is |ws| / (factor * |slist|). */
  lemma RunRecordCount(cfg: Config, ws: seq<BytePair>)
    requires ValidConfig(cfg)
    ensures |Run(cfg, ws).1| == |ws| / CycleLength(cfg)
  {
    RunIsMachine(cfg, ws);
    MachineCyclic(cfg);
    Cycles.RunRecordCount(Machine(cfg), Initial(cfg), Invariant(cfg), CycleLength(cfg), RecordOf(cfg), ws);
  }

  // ---- What a record holds ----

  /** The rate total is the column sum of the one rate position, when there is only one. */
  lemma {:induction false} RateTotalSingle(slist: seq<Word>, h: seq<BytePair>, j: nat)
    requires j < |slist| && forall k | 0 <= k < |slist| :: IsRate(slist[k]) <==> k == j
    ensures RateTotal(slist, h) == ColumnSum(|slist|, Biased(h), j)
  {
    if |h| > 0 {
      var init := h[..|h| - 1];
      RateTotalSingle(slist, init, j);
      assert Biased(h) == Biased(init) + [BiasedLE(h[|h| - 1])];
      ColumnSumAppend(|slist|, Biased(init), BiasedLE(h[|h| - 1]), j);
    }
  }

  /** An analog position reports the mean of its `factor` readings of the cycle, as ±10 V. */
  lemma CycleRecordAnalog(cfg: Config, h: seq<BytePair>, j: nat)
    requires ValidConfig(cfg) && |h| == CycleLength(cfg) && j < |cfg.slist| && IsAnalog(cfg.slist[j])
    ensures CycleRecord(cfg, h)[j] == Volts(AverageVolts(PassSum(|cfg.slist|, Signed(h), j, cfg.factor), cfg.factor))
    ensures -10.0 <= CycleRecord(cfg, h)[j].volts <= 10.0
  {
    var L, D := |cfg.slist|, cfg.factor;
    var n := (D - 1) * L + j;
    var sum := PassSum(L, Signed(h), j, D);
    assert n < |h| && ColumnSum(L, Signed(h[..n + 1]), j) == sum by {
      ColumnThroughLastPass(L, Signed(h), j, D);
      assert Signed(h[..n + 1]) == Signed(h)[..n + 1];
    }
    assert -0x8000 * D <= sum <= 0x8000 * D by {
      Arith.MulMonotone(D, D, L);
      PassSumBounds(L, Signed(h), j, D, -0x8000, 0x8000);
    }
    CycleRecordAt(cfg, h, j);
    EntryOfAnalog(cfg, h, j);
  }

  lemma EntryOfAnalog(cfg: Config, h: seq<BytePair>, j: nat)
    requires ValidConfig(cfg) && j < |cfg.slist| && IsAnalog(cfg.slist[j])
    requires (cfg.factor - 1) * |cfg.slist| + j < |h|
    ensures Entry(cfg, h, j)
         == Volts(AverageVolts(ColumnSum(|cfg.slist|, Signed(h[..(cfg.factor - 1) * |cfg.slist| + j + 1]), j), cfg.factor))
  {
  }

  /**
   * A lone rate position reports the mean of its `factor` biased readings of the cycle,
   * scaled to the configured rate range, which keeps it within that range.
   */
  lemma CycleRecordRate(cfg: Config, h: seq<BytePair>, j: nat)
    requires ValidConfig(cfg) && |h| == CycleLength(cfg) && j < |cfg.slist|
    requires forall k | 0 <= k < |cfg.slist| :: IsRate(cfg.slist[k]) <==> k == j
    ensures RateCodeValid(GainCode(cfg.slist[j]))
    ensures cfg.rateRange == Some(RateRange(GainCode(cfg.slist[j])))
    ensures CycleRecord(cfg, h)[j]
         == Hertz(AverageRate(PassSum(|cfg.slist|, Biased(h), j, cfg.factor), cfg.rateRange.value, cfg.factor))
    ensures 0.0 <= CycleRecord(cfg, h)[j].hertz <= cfg.rateRange.value
  {
    RateRangeIsLast(cfg.slist, j);
    LoneRateEntry(cfg, h, j);
    var total := PassSum(|cfg.slist|, Biased(h), j, cfg.factor);
    assert 0 <= total <= 0xFFFF * cfg.factor by {
      LoneRateTotal(cfg.slist, cfg.factor, h, j);
    }
  }

  lemma LoneRateEntry(cfg: Config, h: seq<BytePair>, j: nat)
    requires ValidConfig(cfg) && |h| == CycleLength(cfg) && j < |cfg.slist|
    requires forall k | 0 <= k < |cfg.slist| :: IsRate(cfg.slist[k]) <==> k == j
    ensures cfg.rateRange.Some?
    ensures CycleRecord(cfg, h)[j]
         == Hertz(AverageRate(PassSum(|cfg.slist|, Biased(h), j, cfg.factor), cfg.rateRange.value, cfg.factor))
  {
    assert IsRate(cfg.slist[j]);
    assert |h| == cfg.factor * |cfg.slist|;
    LoneRateTotal(cfg.slist, cfg.factor, h, j);
    CycleRecordAt(cfg, h, j);
    EntryOfRate(cfg, h, j);
  }

  lemma CycleRecordAt(cfg: Config, h: seq<BytePair>, j: nat)
    requires ValidConfig(cfg) && |h| == CycleLength(cfg) && j < |cfg.slist|
    ensures (cfg.factor - 1) * |cfg.slist| + j < |h|
    ensures CycleRecord(cfg, h)[j] == Entry(cfg, h, j)
  {
    Arith.CyclePosition(cfg.factor, 1, |cfg.slist|, j, (cfg.factor - 1) * |cfg.slist| + j);
  }

  lemma EntryOfRate(cfg: Config, h: seq<BytePair>, j: nat)
    requires ValidConfig(cfg) && j < |cfg.slist| && IsRate(cfg.slist[j])
    requires (cfg.factor - 1) * |cfg.slist| + j < |h|
    ensures cfg.rateRange.Some?
    ensures Entry(cfg, h, j)
         == Hertz(AverageRate(RateTotal(cfg.slist, h[..(cfg.factor - 1) * |cfg.slist| + j + 1]), cfg.rateRange.value, cfg.factor))
  {
    RateRangeSet(cfg.slist, j);
  }

  /** With one rate position, the shared rate accumulator sums that position's column. */
  lemma LoneRateTotal(slist: seq<Word>, factor: nat, h: seq<BytePair>, j: nat)
    requires factor >= 1 && j < |slist| && |h| == factor * |slist|
    requires forall k | 0 <= k < |slist| :: IsRate(slist[k]) <==> k == j
    ensures (factor - 1) * |slist| + j < |h|
    ensures RateTotal(slist, h[..(factor - 1) * |slist| + j + 1]) == PassSum(|slist|, Biased(h), j, factor)
    ensures 0 <= PassSum(|slist|, Biased(h), j, factor) <= 0xFFFF * factor
  {
    var L, D := |slist|, factor;
    var n := (D - 1) * L + j;
    ColumnThroughLastPass(L, Biased(h), j, D);
    RateTotalSingle(slist, h[..n + 1], j);
    assert Biased(h[..n + 1]) == Biased(h)[..n + 1];
    Arith.MulMonotone(D, D, L);
    PassSumBounds(L, Biased(h), j, D, 0, 0xFFFF);
  }

  /** The digital inputs and the counter report their sample of the cycle's last pass. */
  lemma CycleRecordLastPass(cfg: Config, h: seq<BytePair>, j: nat)
    requires ValidConfig(cfg) && |h| == CycleLength(cfg) && j < |cfg.slist|
    ensures 0 <= (cfg.factor - 1) * |cfg.slist| + j < |h|
    ensures Nibble(cfg.slist[j]) == 8
        ==> CycleRecord(cfg, h)[j] == Bits(DigitalBits7(h[(cfg.factor - 1) * |cfg.slist| + j]))
    ensures Nibble(cfg.slist[j]) >= 10
        ==> CycleRecord(cfg, h)[j] == Count(BiasedLE(h[(cfg.factor - 1) * |cfg.slist| + j]))
  {
    Arith.CyclePosition(cfg.factor, 1, |cfg.slist|, j, (cfg.factor - 1) * |cfg.slist| + j);
  }

  /**
   * Decimating by 2 over one analog channel: any samples reading half scale and zero are
   * reported once, as their mean of 2.5 V.
   */
  lemma AveragingScenario(p: BytePair, q: BytePair)
    requires SignedLE(p) == 0x4000 && SignedLE(q) == 0
    ensures ValidConfig(Config([0x0000], None, 2))
    ensures Run(Config([0x0000], None, 2), [p, q]).1 == [[Volts(2.5)]]
  {
    AveragingFirstPass(p);
    AveragingLastPass(q);
    assert [p, q][..1] == [p];
  }

  /** The first of the two passes only accumulates. */
  lemma AveragingFirstPass(p: BytePair)
    requires SignedLE(p) == 0x4000
    ensures ValidConfig(Config([0x0000], None, 2))
    ensures Run(Config([0x0000], None, 2), [p]) == (State(0, 0, 1, [0x4000], 0, []), [])
  {
    var cfg := Config([0x0000], None, 2);
    var slist: seq<Word> := [0x0000];
    assert slist[..0] == [] && IsAnalog(slist[0]);
    assert AnalogCount(slist) == 1;
    assert [p][..0] == [];
    var start := Initial(cfg);
    assert start.acc == [0];
    assert Run(cfg, []) == (start, []);
    assert Absorb(cfg, start, p) == State(0, 1, 2, [0x4000], 0, []);
    assert Step(cfg, start, p) == (State(0, 0, 1, [0x4000], 0, []), None);
    assert Run(cfg, [p]).0 == State(0, 0, 1, [0x4000], 0, []);
    assert Run(cfg, [p]).1 == [];
  }

  /** The second pass reports the mean of both readings and starts the next cycle. */
  lemma AveragingLastPass(q: BytePair)
    requires SignedLE(q) == 0
    ensures ValidConfig(Config([0x0000], None, 2))
    ensures Inv(Config([0x0000], None, 2), State(0, 0, 1, [0x4000], 0, []))
    ensures Step(Config([0x0000], None, 2), State(0, 0, 1, [0x4000], 0, []), q).1 == Some([Volts(2.5)])
  {
    var cfg := Config([0x0000], None, 2);
    var slist: seq<Word> := [0x0000];
    assert slist[..0] == [] && IsAnalog(slist[0]);
    assert AnalogCount(slist) == 1;
    var mid := State(0, 0, 1, [0x4000], 0, []);
    assert AverageVolts(0x4000, 2) == 2.5;
    assert Absorb(cfg, mid, q).pending == [Volts(2.5)];
  }
}
