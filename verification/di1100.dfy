/**
 * The DI-1100 script: analog channels only, scanned continuously and reported once
 * every `decimation_factor` passes as the mean of each channel's readings. The two
 * digital inputs ride in the two least significant bits of the first position's
 * sample and are reported, as read on the last pass, after the analog values.
 */
module Di1100 {
  import opened Wrappers
  import opened Words
  import opened Readings
  import opened Columns
  import Arith
  import Cycles

  /** `config_scn_lst`: one zeroed accumulator per scan-list code. */
  method ConfigScanList(slist: seq<Word>) returns (accumulators: seq<int>)
    ensures |accumulators| == |slist|
    ensures forall k | 0 <= k < |accumulators| :: accumulators[k] == 0
  {
    accumulators := [];
    var position := 0;
    while position < |slist|
      invariant position <= |slist|
      invariant accumulators == Zeros(position)
    {
      accumulators := accumulators + [0];
      position := position + 1;
    }
  }

  /** The decoder's configuration: the scan list and the decimation factor (a positive integer). */
  datatype Config = Config(slist: seq<Word>, factor: nat)

  predicate ValidConfig(cfg: Config)
  {
    |cfg.slist| >= 1 && cfg.factor >= 1
  }

  /**
   * The loop's variables: `slist_pointer`, `achan_number`, `dec_count`, the accumulation
   * table, `dig_in`, and the readings of the output string built so far.
   */
  datatype State = State(pointer: nat, achan: nat, decCount: nat, acc: seq<int>, digIn: int, pending: seq<Reading>)

  predicate Inv(cfg: Config, s: State)
    requires ValidConfig(cfg)
  {
    && s.pointer < |cfg.slist|
    && s.achan == s.pointer
    && 1 <= s.decCount <= cfg.factor
    && |s.acc| == |cfg.slist|
    && |s.pending| == (if s.decCount == 1 then s.pointer else 0)
  }

  /**
   * The state before the first sample, and after every reported pass; `dig_in` keeps
   * its value across the reset.
   */
  function Initial(cfg: Config, digIn: int): (s: State)
    requires ValidConfig(cfg)
    ensures Inv(cfg, s) && s.digIn == digIn
    ensures s.pointer == 0 && s.achan == 0 && s.decCount == cfg.factor && s.pending == []
    ensures forall k | 0 <= k < |s.acc| :: s.acc[k] == 0
  {
    State(0, 0, cfg.factor, Zeros(|cfg.slist|), digIn, [])
  }

  /** What a sample adds to its accumulator: the first position's loses its two digital bits. */
  function Contribution(position: nat, p: BytePair): (c: int)
    ensures position == 0 ==> c == SignedLE(p) - SignedLE(p) % 4
    ensures position != 0 ==> c == SignedLE(p)
  {
    if position == 0 then StripLsbs(SignedLE(p)) else SignedLE(p)
  }

  /**
   * The per-sample part of the loop body, in the script's four cases: on the first
   * position the digital bits are split off (and kept on the last pass), every sample
   * is accumulated, and on the last pass the channel's mean is appended to the output.
   */
  function Absorb(cfg: Config, s: State, p: BytePair): (t: State)
    requires ValidConfig(cfg) && Inv(cfg, s)
    ensures t.pointer == s.pointer && t.decCount == s.decCount
    ensures t.achan == s.pointer + 1
    ensures |t.acc| == |s.acc|
    ensures |t.pending| == |s.pending| + (if s.decCount == 1 then 1 else 0)
  {
    var result := SignedLE(p);
    if s.decCount == 1 && s.pointer == 0 then
      var acc := s.acc[s.achan := StripLsbs(result) + s.acc[s.achan]];
      var reading := Volts(AverageVolts(acc[s.achan], cfg.factor));
      s.(digIn := result % 4, acc := acc, achan := s.achan + 1, pending := s.pending + [reading])
    else if s.decCount == 1 then
      var acc := s.acc[s.achan := result + s.acc[s.achan]];
      var reading := Volts(AverageVolts(acc[s.achan], cfg.factor));
      s.(acc := acc, achan := s.achan + 1, pending := s.pending + [reading])
    else if s.pointer == 0 then
      s.(acc := s.acc[s.achan := StripLsbs(result) + s.acc[s.achan]], achan := s.achan + 1)
    else
      s.(acc := s.acc[s.achan := result + s.acc[s.achan]], achan := s.achan + 1)
  }

  /**
   * One iteration of the acquisition loop. At the end of a pass the decimation count
   * goes down; at the end of the last pass the record, closed by the digital inputs, is
   * emitted and the accumulators, the count and the output are reset.
   */
  function Step(cfg: Config, s: State, p: BytePair): (r: (State, Option<seq<Reading>>))
    requires ValidConfig(cfg) && Inv(cfg, s)
    ensures Inv(cfg, r.0)
    ensures r.1.Some? <==> s.pointer == |cfg.slist| - 1 && s.decCount == 1
    ensures r.1.Some? ==> r.0 == Initial(cfg, r.0.digIn) && |r.1.value| == |cfg.slist| + 1
    ensures r.1.None? && s.pointer == |cfg.slist| - 1
         ==> r.0.pointer == 0 && r.0.decCount == s.decCount - 1
    ensures s.pointer < |cfg.slist| - 1 ==> r.0.pointer == s.pointer + 1 && r.0.decCount == s.decCount
  {
    var t := Absorb(cfg, s, p);
    var pointer := t.pointer + 1;
    if pointer + 1 > |cfg.slist| then
      if t.decCount == 1 then (Initial(cfg, t.digIn), Some(t.pending + [Bits(t.digIn)]))
      else (t.(pointer := 0, achan := 0, decCount := t.decCount - 1), None)
    else
      (t.(pointer := pointer), None)
  }

  /** The state and the emitted records after the samples `ws`; `dig_in` starts at 0. */
  function Run(cfg: Config, ws: seq<BytePair>): (r: (State, seq<seq<Reading>>))
    requires ValidConfig(cfg)
    ensures Inv(cfg, r.0)
  {
    if |ws| == 0 then (Initial(cfg, 0), [])
    else
      var (s, recs) := Run(cfg, ws[..|ws| - 1]);
      var (s', out) := Step(cfg, s, ws[|ws| - 1]);
      (s', recs + Emitted(out))
  }

  // ---- The reference: what a record holds, in terms of the samples of its cycle ----

  /** The accumulated value of each sample, by the position its flat index falls on. */
  function Contribs(width: nat, h: seq<BytePair>): (v: seq<int>)
    requires width >= 1
    ensures |v| == |h|
    ensures forall n | 0 <= n < |h| :: v[n] == Contribution(n % width, h[n])
  {
    seq(|h|, n requires 0 <= n < |h| => Contribution(n % width, h[n]))
  }

  /** Samples in one decimation cycle. */
  function CycleLength(cfg: Config): (c: nat)
    requires ValidConfig(cfg)
    ensures c >= |cfg.slist|
  {
    Arith.MulMonotone(1, cfg.factor, |cfg.slist|);
    cfg.factor * |cfg.slist|
  }

  /**
   * The reading position j contributes to the record of a cycle whose samples begin
   * with `h`: the mean of its column up to and including the last pass's sample.
   */
  function Entry(cfg: Config, h: seq<BytePair>, j: nat): Reading
    requires ValidConfig(cfg) && j < |cfg.slist|
    requires (cfg.factor - 1) * |cfg.slist| + j < |h|
  {
    var L := |cfg.slist|;
    var n := (cfg.factor - 1) * L + j;
    Volts(AverageVolts(ColumnSum(L, Contribs(L, h[..n + 1]), j), cfg.factor))
  }

  /** The digital inputs a cycle reports: the two low bits of its last pass's first sample. */
  function DigitalOf(cfg: Config, h: seq<BytePair>): (d: int)
    requires ValidConfig(cfg) && (cfg.factor - 1) * |cfg.slist| < |h|
    ensures 0 <= d < 4
  {
    SignedLE(h[(cfg.factor - 1) * |cfg.slist|]) % 4
  }

  /** The record of one full cycle of samples: one mean per position, then the digital inputs. */
  function CycleRecord(cfg: Config, h: seq<BytePair>): (rec: seq<Reading>)
    requires ValidConfig(cfg) && |h| == CycleLength(cfg)
    ensures |rec| == |cfg.slist| + 1
  {
    Arith.CyclePosition(cfg.factor, 1, |cfg.slist|, 0, (cfg.factor - 1) * |cfg.slist|);
    seq(|cfg.slist|, j requires 0 <= j < |cfg.slist| => Entry(cfg, h, j)) + [Bits(DigitalOf(cfg, h))]
  }

  /**
   * The loop state after the samples `h` of the current cycle: pass and position are
   * |h| split by the scan-list length, each accumulator holds its column's sum, and on
   * the last pass the output holds the entries already visited and `dig_in` the bits
   * of that pass's first sample.
   */
  predicate CycleInv(cfg: Config, s: State, h: seq<BytePair>)
    requires ValidConfig(cfg)
  {
    && SumsInv(cfg, s, h)
    && (s.decCount == 1 ==> forall j | 0 <= j < s.pointer :: s.pending[j] == Entry(cfg, h, j))
    && (s.decCount == 1 && s.pointer > 0 ==> s.digIn == DigitalOf(cfg, h))
  }

  /** The part of the cycle invariant about the position and the accumulators. */
  predicate SumsInv(cfg: Config, s: State, h: seq<BytePair>)
    requires ValidConfig(cfg)
  {
    && Inv(cfg, s)
    && |h| == (cfg.factor - s.decCount) * |cfg.slist| + s.pointer
    && (forall j | 0 <= j < |cfg.slist| :: s.acc[j] == ColumnSum(|cfg.slist|, Contribs(|cfg.slist|, h), j))
  }

  lemma InitialCycle(cfg: Config, digIn: int)
    requires ValidConfig(cfg)
    ensures CycleInv(cfg, Initial(cfg, digIn), [])
  {
  }

  /** An entry only depends on the samples up to the one it is read from. */
  lemma EntryStable(cfg: Config, h: seq<BytePair>, p: BytePair, j: nat)
    requires ValidConfig(cfg) && j < |cfg.slist|
    requires (cfg.factor - 1) * |cfg.slist| + j < |h|
    ensures Entry(cfg, h + [p], j) == Entry(cfg, h, j)
    ensures DigitalOf(cfg, h + [p]) == DigitalOf(cfg, h)
  {
    var n := (cfg.factor - 1) * |cfg.slist| + j;
    assert (h + [p])[..n + 1] == h[..n + 1];
  }

  lemma ContribsAppend(width: nat, h: seq<BytePair>, p: BytePair)
    requires width >= 1
    ensures Contribs(width, h + [p]) == Contribs(width, h) + [Contribution(|h| % width, p)]
  {
  }

  /**
   * The script's four cases come to one rule: every sample adds its contribution to its
   * position's accumulator; on the last pass the position's mean is appended to the
   * output, and the first position's sample sets `dig_in`.
   */
  lemma AbsorbEffect(cfg: Config, s: State, p: BytePair)
    requires ValidConfig(cfg) && Inv(cfg, s)
    ensures Absorb(cfg, s, p).acc == s.acc[s.pointer := s.acc[s.pointer] + Contribution(s.pointer, p)]
    ensures Absorb(cfg, s, p).pending
         == if s.decCount == 1
            then s.pending + [Volts(AverageVolts(Absorb(cfg, s, p).acc[s.pointer], cfg.factor))]
            else s.pending
    ensures Absorb(cfg, s, p).digIn == if s.decCount == 1 && s.pointer == 0 then SignedLE(p) % 4 else s.digIn
  {
  }

  /** Absorbing a sample keeps the accumulators equal to their column sums over one more sample. */
  lemma AbsorbAcc(cfg: Config, s: State, h: seq<BytePair>, p: BytePair)
    requires ValidConfig(cfg) && SumsInv(cfg, s, h)
    ensures forall j | 0 <= j < |cfg.slist| ::
              Absorb(cfg, s, p).acc[j] == ColumnSum(|cfg.slist|, Contribs(|cfg.slist|, h + [p]), j)
  {
    var L := |cfg.slist|;
    var t := Absorb(cfg, s, p);
    AbsorbEffect(cfg, s, p);
    Arith.MulMonotone(0, cfg.factor - s.decCount, L);
    Arith.DivModUnique(|h|, L, cfg.factor - s.decCount, s.pointer);
    ContribsAppend(L, h, p);
    forall j | 0 <= j < L
      ensures t.acc[j] == ColumnSum(L, Contribs(L, h + [p]), j)
    {
      ColumnSumAppend(L, Contribs(L, h), Contribution(|h| % L, p), j);
    }
  }

  /** On the last pass, the entry a sample appends is its position's mean over the cycle so far. */
  lemma AbsorbNewEntry(cfg: Config, s: State, h: seq<BytePair>, p: BytePair)
    requires ValidConfig(cfg) && SumsInv(cfg, s, h) && s.decCount == 1
    ensures (cfg.factor - 1) * |cfg.slist| + s.pointer < |h| + 1
    ensures s.pointer < |Absorb(cfg, s, p).pending|
    ensures Absorb(cfg, s, p).pending[s.pointer] == Entry(cfg, h + [p], s.pointer)
  {
    var t := Absorb(cfg, s, p);
    var L := |cfg.slist|;
    assert t.acc[s.pointer] == ColumnSum(L, Contribs(L, h + [p]), s.pointer) by {
      AbsorbAcc(cfg, s, h, p);
    }
    assert t.pending[s.pointer] == Volts(AverageVolts(t.acc[s.pointer], cfg.factor)) by {
      AbsorbEffect(cfg, s, p);
    }
    assert (h + [p])[..|h| + 1] == h + [p];
    EntryIs(cfg, h + [p], s.pointer);
  }

  /** On the last pass, absorbing a sample appends its entry and keeps `dig_in` the cycle's. */
  lemma AbsorbOutput(cfg: Config, s: State, h: seq<BytePair>, p: BytePair)
    requires ValidConfig(cfg) && CycleInv(cfg, s, h) && s.decCount == 1
    ensures forall j | 0 <= j <= s.pointer :: Absorb(cfg, s, p).pending[j] == Entry(cfg, h + [p], j)
    ensures Absorb(cfg, s, p).digIn == DigitalOf(cfg, h + [p])
  {
    var t := Absorb(cfg, s, p);
    AbsorbEffect(cfg, s, p);
    AbsorbNewEntry(cfg, s, h, p);
    forall j | 0 <= j < s.pointer
      ensures t.pending[j] == Entry(cfg, h + [p], j)
    {
      EntryStable(cfg, h, p, j);
    }
    if s.pointer > 0 {
      EntryStable(cfg, h, p, 0);
    }
  }

  /** Absorbing a sample keeps the cycle references over one more sample. */
  lemma AbsorbCycle(cfg: Config, s: State, h: seq<BytePair>, p: BytePair)
    requires ValidConfig(cfg) && CycleInv(cfg, s, h)
    ensures var t := Absorb(cfg, s, p);
      && (forall j | 0 <= j < |cfg.slist| :: t.acc[j] == ColumnSum(|cfg.slist|, Contribs(|cfg.slist|, h + [p]), j))
      && (s.decCount == 1 ==> forall j | 0 <= j <= s.pointer :: t.pending[j] == Entry(cfg, h + [p], j))
      && (s.decCount == 1 ==> t.digIn == DigitalOf(cfg, h + [p]))
  {
    AbsorbAcc(cfg, s, h, p);
    if s.decCount == 1 {
      AbsorbOutput(cfg, s, h, p);
    }
  }

  /** The last sample of the last pass completes the cycle and emits its record. */
  lemma StepEmits(cfg: Config, s: State, h: seq<BytePair>, p: BytePair)
    requires ValidConfig(cfg) && CycleInv(cfg, s, h)
    requires s.pointer == |cfg.slist| - 1 && s.decCount == 1
    ensures |h| + 1 == CycleLength(cfg)
    ensures Step(cfg, s, p).0 == Initial(cfg, DigitalOf(cfg, h + [p]))
    ensures Step(cfg, s, p).1 == Some(CycleRecord(cfg, h + [p]))
  {
    Arith.CyclePosition(cfg.factor, s.decCount, |cfg.slist|, s.pointer, |h|);
    AbsorbCycle(cfg, s, h, p);
    var t := Absorb(cfg, s, p);
    assert Step(cfg, s, p).1 == Some(t.pending + [Bits(t.digIn)]);
    assert t.pending + [Bits(t.digIn)] == CycleRecord(cfg, h + [p]);
  }

  /** The last sample of an earlier pass starts the next pass, one decimation count down. */
  lemma StepEndsPass(cfg: Config, s: State, h: seq<BytePair>, p: BytePair)
    requires ValidConfig(cfg) && CycleInv(cfg, s, h)
    requires s.pointer == |cfg.slist| - 1 && s.decCount > 1
    ensures |h| + 1 < CycleLength(cfg)
    ensures Step(cfg, s, p).1.None?
    ensures CycleInv(cfg, Step(cfg, s, p).0, h + [p])
  {
    Arith.CyclePosition(cfg.factor, s.decCount, |cfg.slist|, s.pointer, |h|);
    var t := Absorb(cfg, s, p);
    var next := t.(pointer := 0, achan := 0, decCount := t.decCount - 1);
    assert Step(cfg, s, p) == (next, None);
    assert CycleInv(cfg, next, h + [p]) by {
      AbsorbCycle(cfg, s, h, p);
    }
  }

  /** Any other sample moves the pointer on within the pass. */
  lemma StepWithinPass(cfg: Config, s: State, h: seq<BytePair>, p: BytePair)
    requires ValidConfig(cfg) && CycleInv(cfg, s, h)
    requires s.pointer < |cfg.slist| - 1
    ensures |h| + 1 < CycleLength(cfg)
    ensures Step(cfg, s, p).1.None?
    ensures CycleInv(cfg, Step(cfg, s, p).0, h + [p])
  {
    Arith.CyclePosition(cfg.factor, s.decCount, |cfg.slist|, s.pointer, |h|);
    AbsorbCycle(cfg, s, h, p);
    var r := Step(cfg, s, p);
    assert r.0.pointer == s.pointer + 1 && r.0.decCount == s.decCount;
  }

  /**
   * One step of the loop from a cycle state: the record of the whole cycle is emitted
   * exactly when its last sample arrives, and the loop then starts the next cycle afresh.
   */
  lemma StepCycle(cfg: Config, s: State, h: seq<BytePair>, p: BytePair)
    requires ValidConfig(cfg) && CycleInv(cfg, s, h)
    ensures |h| < CycleLength(cfg)
    ensures Step(cfg, s, p).1.Some? <==> |h| + 1 == CycleLength(cfg)
    ensures Step(cfg, s, p).1.Some? ==>
              && Step(cfg, s, p).0 == Initial(cfg, Step(cfg, s, p).0.digIn)
              && Step(cfg, s, p).1.value == CycleRecord(cfg, h + [p])
    ensures Step(cfg, s, p).1.None? ==> CycleInv(cfg, Step(cfg, s, p).0, h + [p])
  {
    Arith.CyclePosition(cfg.factor, s.decCount, |cfg.slist|, s.pointer, |h|);
    if s.pointer == |cfg.slist| - 1 && s.decCount == 1 {
      StepEmits(cfg, s, h, p);
    } else if s.pointer == |cfg.slist| - 1 {
      StepEndsPass(cfg, s, h, p);
    } else {
      StepWithinPass(cfg, s, h, p);
    }
  }

  // ---- The whole stream ----

  /** The loop body as a machine over samples, for the cycle argument of the Cycles module. */
  function Machine(cfg: Config): (State, BytePair) -> (State, Option<seq<Reading>>)
    requires ValidConfig(cfg)
  {
    (s: State, p: BytePair) => if Inv(cfg, s) then Step(cfg, s, p) else (s, None)
  }

  function Invariant(cfg: Config): (State, seq<BytePair>) -> bool
    requires ValidConfig(cfg)
  {
    (s: State, h: seq<BytePair>) => CycleInv(cfg, s, h)
  }

  function RecordOf(cfg: Config): seq<BytePair> -> seq<Reading>
    requires ValidConfig(cfg)
  {
    (h: seq<BytePair>) => if |h| == CycleLength(cfg) then CycleRecord(cfg, h) else []
  }

  /** The loop is a machine that emits the record of each cycle of `factor * |slist|` samples. */
  lemma MachineCyclic(cfg: Config)
    requires ValidConfig(cfg)
    ensures Cycles.Cyclic(Machine(cfg), Initial(cfg, 0), Invariant(cfg), CycleLength(cfg), RecordOf(cfg))
  {
    InitialCycle(cfg, 0);
    forall s, h | Invariant(cfg)(s, h)
      ensures |h| < CycleLength(cfg)
    {
      Arith.CyclePosition(cfg.factor, s.decCount, |cfg.slist|, s.pointer, |h|);
    }
    forall s, h, p | Invariant(cfg)(s, h)
      ensures Cycles.Advances(Machine(cfg), Invariant(cfg), CycleLength(cfg), RecordOf(cfg), s, h, p)
    {
      MachineAdvances(cfg, s, h, p);
    }
  }

  lemma MachineAdvances(cfg: Config, s: State, h: seq<BytePair>, p: BytePair)
    requires ValidConfig(cfg) && CycleInv(cfg, s, h)
    ensures Cycles.Advances(Machine(cfg), Invariant(cfg), CycleLength(cfg), RecordOf(cfg), s, h, p)
  {
    assert Machine(cfg)(s, p) == Step(cfg, s, p);
    StepCycle(cfg, s, h, p);
    InitialCycle(cfg, Step(cfg, s, p).0.digIn);
  }

  /** The script's loop and the machine agree on every stream. */
  lemma {:induction false} RunIsMachine(cfg: Config, ws: seq<BytePair>)
    requires ValidConfig(cfg)
    ensures Run(cfg, ws) == Cycles.Run(Machine(cfg), Initial(cfg, 0), ws)
  {
    if |ws| > 0 {
      RunIsMachine(cfg, ws[..|ws| - 1]);
    }
  }

  /** Record k is the record of the k-th cycle of samples. */
  lemma RunRecord(cfg: Config, ws: seq<BytePair>, k: nat)
    requires ValidConfig(cfg) && k < |Run(cfg, ws).1|
    ensures 0 <= k * CycleLength(cfg) && (k + 1) * CycleLength(cfg) <= |ws|
    ensures Run(cfg, ws).1[k] == CycleRecord(cfg, ws[k * CycleLength(cfg)..(k + 1) * CycleLength(cfg)])
  {
    var C := CycleLength(cfg);
    RunIsMachine(cfg, ws);
    MachineCyclic(cfg);
    Cycles.RunRecord(Machine(cfg), Initial(cfg, 0), Invariant(cfg), C, RecordOf(cfg), ws, k);
    Arith.BlockStart(k, C);
  }

  /** One record per `decimation_factor` passes: the count of records is |ws| / (factor * |slist|). */
  lemma RunRecordCount(cfg: Config, ws: seq<BytePair>)
    requires ValidConfig(cfg)
    ensures |Run(cfg, ws).1| == |ws| / CycleLength(cfg)
  {
    RunIsMachine(cfg, ws);
    MachineCyclic(cfg);
    Cycles.RunRecordCount(Machine(cfg), Initial(cfg, 0), Invariant(cfg), CycleLength(cfg), RecordOf(cfg), ws);
  }

  // ---- What a record holds ----

  /** Stripping the digital bits keeps a sample within the converter's signed range. */
  lemma ContributionBounds(position: nat, p: BytePair)
    ensures -0x8000 <= Contribution(position, p) <= 0x7FFF
  {
    var r := SignedLE(p);
    assert -0x8000 <= r <= 0x7FFF;
    if position == 0 {
      assert r / 4 >= -0x2000;
    }
  }

  /** Every accumulated value lies within the converter's signed range. */
  lemma ContribsBounds(width: nat, h: seq<BytePair>)
    requires width >= 1
    ensures forall m | 0 <= m < |h| :: -0x8000 <= Contribs(width, h)[m] <= 0x7FFF
  {
    forall m | 0 <= m < |h|
      ensures -0x8000 <= Contribs(width, h)[m] <= 0x7FFF
    {
      ContributionBounds(m % width, h[m]);
    }
  }

  /** Position j reports the mean of its `factor` accumulated values of the cycle, as ±10 V. */
  lemma CycleRecordAnalog(cfg: Config, h: seq<BytePair>, j: nat)
    requires ValidConfig(cfg) && |h| == CycleLength(cfg) && j < |cfg.slist|
    ensures CycleRecord(cfg, h)[j]
         == Volts(AverageVolts(PassSum(|cfg.slist|, Contribs(|cfg.slist|, h), j, cfg.factor), cfg.factor))
    ensures -10.0 <= CycleRecord(cfg, h)[j].volts <= 10.0
  {
    CycleRecordAt(cfg, h, j);
    EntryOfCycle(cfg, h, j);
  }

  lemma CycleRecordAt(cfg: Config, h: seq<BytePair>, j: nat)
    requires ValidConfig(cfg) && |h| == CycleLength(cfg) && j < |cfg.slist|
    ensures (cfg.factor - 1) * |cfg.slist| + j < |h|
    ensures CycleRecord(cfg, h)[j] == Entry(cfg, h, j)
  {
    Arith.CyclePosition(cfg.factor, 1, |cfg.slist|, j, (cfg.factor - 1) * |cfg.slist| + j);
  }

  lemma EntryOfCycle(cfg: Config, h: seq<BytePair>, j: nat)
    requires ValidConfig(cfg) && |h| == CycleLength(cfg) && j < |cfg.slist|
    ensures (cfg.factor - 1) * |cfg.slist| + j < |h|
    ensures Entry(cfg, h, j) == Volts(AverageVolts(PassSum(|cfg.slist|, Contribs(|cfg.slist|, h), j, cfg.factor), cfg.factor))
    ensures -0x8000 * cfg.factor <= PassSum(|cfg.slist|, Contribs(|cfg.slist|, h), j, cfg.factor) <= 0x8000 * cfg.factor
  {
    var L, D := |cfg.slist|, cfg.factor;
    assert |h| == D * L;
    ColumnOfCycle(L, D, h, j);
    EntryIs(cfg, h, j);
  }

  lemma EntryIs(cfg: Config, h: seq<BytePair>, j: nat)
    requires ValidConfig(cfg) && j < |cfg.slist| && (cfg.factor - 1) * |cfg.slist| + j < |h|
    ensures Entry(cfg, h, j)
         == Volts(AverageVolts(ColumnSum(|cfg.slist|, Contribs(|cfg.slist|, h[..(cfg.factor - 1) * |cfg.slist| + j + 1]), j), cfg.factor))
  {
  }

  /** The column sum an entry reads is the column's sum over the cycle's passes, within ±0x8000 per pass. */
  lemma ColumnOfCycle(L: nat, D: nat, h: seq<BytePair>, j: nat)
    requires L >= 1 && D >= 1 && j < L && |h| == D * L
    ensures (D - 1) * L + j < |h|
    ensures ColumnSum(L, Contribs(L, h[..(D - 1) * L + j + 1]), j) == PassSum(L, Contribs(L, h), j, D)
    ensures -0x8000 * D <= PassSum(L, Contribs(L, h), j, D) <= 0x8000 * D
  {
    var n := (D - 1) * L + j;
    var vals := Contribs(L, h);
    ColumnThroughLastPass(L, vals, j, D);
    assert Contribs(L, h[..n + 1]) == vals[..n + 1];
    ContribsBounds(L, h);
    Arith.MulMonotone(D, D, L);
    PassSumBounds(L, vals, j, D, -0x8000, 0x8000);
  }

  /** The record's last value is the digital input pair, two bits split off the first sample. */
  lemma CycleRecordDigital(cfg: Config, h: seq<BytePair>)
    requires ValidConfig(cfg) && |h| == CycleLength(cfg)
    ensures 0 <= (cfg.factor - 1) * |cfg.slist| < |h|
    ensures CycleRecord(cfg, h)[|cfg.slist|] == Bits(SignedLE(h[(cfg.factor - 1) * |cfg.slist|]) % 4)
    ensures 0 <= CycleRecord(cfg, h)[|cfg.slist|].bits < 4
    ensures Contribution(0, h[(cfg.factor - 1) * |cfg.slist|]) + CycleRecord(cfg, h)[|cfg.slist|].bits
         == SignedLE(h[(cfg.factor - 1) * |cfg.slist|])
  {
    Arith.CyclePosition(cfg.factor, 1, |cfg.slist|, 0, (cfg.factor - 1) * |cfg.slist|);
  }

  /**
   * Without decimation, one channel reading 0x4001: the digital bit 1 is split off, the
   * remaining half scale reads 5 V, and the record closes with the digital inputs.
   */
  lemma SingleChannelScenario(p: BytePair)
    requires SignedLE(p) == 0x4001
    ensures ValidConfig(Config([0x0000], 1))
    ensures Run(Config([0x0000], 1), [p]).1 == [[Volts(5.0), Bits(1)]]
  {
    var cfg := Config([0x0000], 1);
    assert [p][..0] == [];
    var start := Initial(cfg, 0);
    assert Run(cfg, []) == (start, []);
    var out := Step(cfg, start, p);
    assert Absorb(cfg, start, p).pending == [Volts(5.0)];
    assert out.1.Some? && out.1.value == [Volts(5.0), Bits(1)];
  }
}
