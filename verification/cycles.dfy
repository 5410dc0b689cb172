/**
 * The decimation loop in the abstract: a machine that consumes one sample per step and
 * completes a record every `period` samples. A cycle invariant relating the state to
 * the samples of the current cycle is enough to know every record of every stream.
 */
module Cycles {
  import opened Wrappers
  import Arith

  /** The state and the emitted records after the samples `ws`. */
  function Run<S, P, R>(step: (S, P) -> (S, Option<R>), init: S, ws: seq<P>): (S, seq<R>)
  {
    if |ws| == 0 then (init, [])
    else
      var (s, recs) := Run(step, init, ws[..|ws| - 1]);
      var (s', out) := step(s, ws[|ws| - 1]);
      (s', recs + Emitted(out))
  }

  /**
   * From a state holding the cycle so far `h`, sample p either completes the cycle,
   * emitting its record and starting a new one, or extends it.
   */
  ghost predicate Advances<S, P, R>(step: (S, P) -> (S, Option<R>), inv: (S, seq<P>) -> bool, period: nat,
                                    record: seq<P> -> R, s: S, h: seq<P>, p: P)
  {
    && (step(s, p).1.Some? <==> |h| + 1 == period)
    && (step(s, p).1.Some? ==> step(s, p).1.value == record(h + [p]) && inv(step(s, p).0, []))
    && (step(s, p).1.None? ==> inv(step(s, p).0, h + [p]))
  }

  /** `inv` is a cycle invariant of period `period` for the machine started in `init`. */
  ghost predicate Cyclic<S(!new), P(!new), R>(step: (S, P) -> (S, Option<R>), init: S, inv: (S, seq<P>) -> bool,
                                  period: nat, record: seq<P> -> R)
  {
    && period >= 1
    && inv(init, [])
    && (forall s, h :: inv(s, h) ==> |h| < period)
    && (forall s, h, p {:trigger Advances(step, inv, period, record, s, h, p)}
          :: inv(s, h) ==> Advances(step, inv, period, record, s, h, p))
  }

  /** After any samples: one record per completed cycle, and the cycle state of the rest. */
  ghost predicate RunInv<S, P, R>(step: (S, P) -> (S, Option<R>), init: S, inv: (S, seq<P>) -> bool,
                                  period: nat, ws: seq<P>)
  {
    && 0 <= |Run(step, init, ws).1| * period <= |ws|
    && inv(Run(step, init, ws).0, ws[|Run(step, init, ws).1| * period..])
  }

  /** One more sample is one more step. */
  lemma RunAppend<S, P, R>(step: (S, P) -> (S, Option<R>), init: S, ws: seq<P>, p: P)
    ensures Run(step, init, ws + [p]).0 == step(Run(step, init, ws).0, p).0
    ensures Run(step, init, ws + [p]).1 == Run(step, init, ws).1 + Emitted(step(Run(step, init, ws).0, p).1)
  {
    assert (ws + [p])[..|ws|] == ws;
  }

  /** A sample that completes the cycle emits its record and leaves the cycle state of no samples. */
  lemma RunEmits<S(!new), P(!new), R>(step: (S, P) -> (S, Option<R>), init: S, inv: (S, seq<P>) -> bool,
                                      period: nat, record: seq<P> -> R, ws: seq<P>, p: P)
    requires Cyclic(step, init, inv, period, record) && RunInv(step, init, inv, period, ws)
    requires step(Run(step, init, ws).0, p).1.Some?
    ensures |Run(step, init, ws).1| * period + period == |ws| + 1
    ensures Run(step, init, ws + [p]).1
         == Run(step, init, ws).1 + [record(ws[|Run(step, init, ws).1| * period..] + [p])]
    ensures RunInv(step, init, inv, period, ws + [p])
  {
    var s, recs := Run(step, init, ws).0, Run(step, init, ws).1;
    var q := |recs|;
    var h := ws[q * period..];
    assert Advances(step, inv, period, record, s, h, p);
    RunAppend(step, init, ws, p);
    Arith.BlockStart(q, period);
    var ws' := ws + [p];
    assert (q + 1) * period == |ws'|;
    assert ws'[(q + 1) * period..] == [];
  }

  /** A sample that does not complete the cycle emits nothing and extends the cycle state. */
  lemma RunContinues<S(!new), P(!new), R>(step: (S, P) -> (S, Option<R>), init: S, inv: (S, seq<P>) -> bool,
                                          period: nat, record: seq<P> -> R, ws: seq<P>, p: P)
    requires Cyclic(step, init, inv, period, record) && RunInv(step, init, inv, period, ws)
    requires step(Run(step, init, ws).0, p).1.None?
    ensures Run(step, init, ws + [p]).1 == Run(step, init, ws).1
    ensures RunInv(step, init, inv, period, ws + [p])
  {
    var s, recs := Run(step, init, ws).0, Run(step, init, ws).1;
    var q := |recs|;
    var h := ws[q * period..];
    assert Advances(step, inv, period, record, s, h, p);
    RunAppend(step, init, ws, p);
    assert (ws + [p])[q * period..] == h + [p];
  }

  /**
   * One more sample keeps the records emitted so far and emits at most one more: the
   * record of the cycle it completes.
   */
  lemma RunExtend<S(!new), P(!new), R>(step: (S, P) -> (S, Option<R>), init: S, inv: (S, seq<P>) -> bool,
                           period: nat, record: seq<P> -> R, ws: seq<P>, p: P)
    requires Cyclic(step, init, inv, period, record) && RunInv(step, init, inv, period, ws)
    ensures RunInv(step, init, inv, period, ws + [p])
    ensures var (recs, recs') := (Run(step, init, ws).1, Run(step, init, ws + [p]).1);
      && |recs| <= |recs'| <= |recs| + 1
      && recs'[..|recs|] == recs
      && (|recs'| > |recs| ==>
            && |recs| * period + period == |ws| + 1
            && recs'[|recs|] == record(ws[|recs| * period..] + [p]))
  {
    if step(Run(step, init, ws).0, p).1.Some? {
      RunEmits(step, init, inv, period, record, ws, p);
    } else {
      RunContinues(step, init, inv, period, record, ws, p);
    }
  }

  lemma {:induction false} RunShape<S(!new), P(!new), R>(step: (S, P) -> (S, Option<R>), init: S, inv: (S, seq<P>) -> bool,
                                             period: nat, record: seq<P> -> R, ws: seq<P>)
    requires Cyclic(step, init, inv, period, record)
    ensures RunInv(step, init, inv, period, ws)
  {
    if |ws| == 0 {
      Arith.BlockStart(0, period);
    } else {
      var init', p := ws[..|ws| - 1], ws[|ws| - 1];
      RunShape(step, init, inv, period, record, init');
      assert init' + [p] == ws;
      RunExtend(step, init, inv, period, record, init', p);
    }
  }

  /** Record k of a stream is record k of every longer stream. */
  lemma RecordKept<S(!new), P(!new), R>(step: (S, P) -> (S, Option<R>), init: S, inv: (S, seq<P>) -> bool,
                                        period: nat, record: seq<P> -> R, ws: seq<P>, p: P, k: nat)
    requires Cyclic(step, init, inv, period, record) && RunInv(step, init, inv, period, ws)
    requires k < |Run(step, init, ws).1|
    ensures k < |Run(step, init, ws + [p]).1| && Run(step, init, ws + [p]).1[k] == Run(step, init, ws).1[k]
  {
    RunExtend(step, init, inv, period, record, ws, p);
    var q := |Run(step, init, ws).1|;
    assert Run(step, init, ws + [p]).1[k] == Run(step, init, ws + [p]).1[..q][k];
  }

  /** The record a sample adds is the record of the cycle that sample completes. */
  lemma RecordAdded<S(!new), P(!new), R>(step: (S, P) -> (S, Option<R>), init: S, inv: (S, seq<P>) -> bool,
                                         period: nat, record: seq<P> -> R, ws: seq<P>, p: P, k: nat)
    requires Cyclic(step, init, inv, period, record) && RunInv(step, init, inv, period, ws)
    requires |Run(step, init, ws).1| <= k < |Run(step, init, ws + [p]).1|
    ensures k * period + period == |ws| + 1
    ensures Run(step, init, ws + [p]).1[k] == record(ws[k * period..] + [p])
  {
    RunExtend(step, init, inv, period, record, ws, p);
  }

  /** Record k is the record of the k-th cycle of samples. */
  lemma {:induction false} RunRecord<S(!new), P(!new), R>(step: (S, P) -> (S, Option<R>), init: S, inv: (S, seq<P>) -> bool,
                                              period: nat, record: seq<P> -> R, ws: seq<P>, k: nat)
    requires Cyclic(step, init, inv, period, record) && k < |Run(step, init, ws).1|
    ensures 0 <= k * period && (k + 1) * period <= |ws|
    ensures Run(step, init, ws).1[k] == record(ws[k * period..(k + 1) * period])
  {
    var prefix, p := ws[..|ws| - 1], ws[|ws| - 1];
    assert prefix + [p] == ws;
    RunShape(step, init, inv, period, record, prefix);
    Arith.BlockStart(k, period);
    var start, end := k * period, (k + 1) * period;
    if k < |Run(step, init, prefix).1| {
      RecordKept(step, init, inv, period, record, prefix, p, k);
      RunRecord(step, init, inv, period, record, prefix, k);
      assert ws[start..end] == prefix[start..end];
    } else {
      RecordAdded(step, init, inv, period, record, prefix, p, k);
      assert ws[start..end] == prefix[start..] + [p];
    }
  }

  /** One record per completed cycle: |ws| / period records. */
  lemma RunRecordCount<S(!new), P(!new), R>(step: (S, P) -> (S, Option<R>), init: S, inv: (S, seq<P>) -> bool,
                                period: nat, record: seq<P> -> R, ws: seq<P>)
    requires Cyclic(step, init, inv, period, record)
    ensures |Run(step, init, ws).1| == |ws| / period
  {
    RunShape(step, init, inv, period, record, ws);
    var q := |Run(step, init, ws).1|;
    Arith.DivModUnique(|ws|, period, q, |ws| - q * period);
  }
}
