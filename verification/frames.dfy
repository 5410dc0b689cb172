/**
 * The pass cursor shared by the scripts that emit one record per pass (DI-2008, DI-245,
 * starter kit): `slist_pointer` walks the positions of a pass, each decoded value is
 * appended to the pending record, and when the pointer runs past the last position the
 * record is emitted and the pointer returns to 0.
 */
module Frames {
  import opened Wrappers
  import Arith
  import Cycles

  datatype Cursor<T> = Cursor(pointer: nat, pending: seq<T>)

  /** The pointer is inside the pass and the pending record holds one value per earlier position. */
  predicate Valid<T>(width: nat, c: Cursor<T>)
  {
    c.pointer < width && |c.pending| == c.pointer
  }

  /** Appends the value decoded at the pointer's position and advances the pointer. */
  function Push<T>(width: nat, c: Cursor<T>, v: T): (r: (Cursor<T>, Option<seq<T>>))
    requires Valid(width, c)
    ensures Valid(width, r.0)
    ensures r.1.Some? <==> c.pointer == width - 1
    ensures r.1.Some? ==> r.0.pointer == 0 && |r.1.value| == width && r.1.value == c.pending + [v]
    ensures r.1.None? ==> r.0.pointer == c.pointer + 1 && r.0.pending == c.pending + [v]
  {
    var pointer := c.pointer + 1;
    var pending := c.pending + [v];
    if pointer + 1 > width then (Cursor(0, []), Some(pending))
    else (Cursor(pointer, pending), None)
  }

  /** The cursor and the records after pushing the values `vs` from the start of a pass. */
  function Assemble<T>(width: nat, vs: seq<T>): (r: (Cursor<T>, seq<seq<T>>))
    requires width >= 1
    ensures Valid(width, r.0)
  {
    if |vs| == 0 then (Cursor(0, []), [])
    else
      var (c, recs) := Assemble(width, vs[..|vs| - 1]);
      var (c', out) := Push(width, c, vs[|vs| - 1]);
      (c', recs + Emitted(out))
  }

  // ---- The cursor as a cyclic machine ----

  function Pusher<T>(width: nat): (Cursor<T>, T) -> (Cursor<T>, Option<seq<T>>)
  {
    (c: Cursor<T>, v: T) => if Valid(width, c) then Push(width, c, v) else (c, None)
  }

  /** The cursor of a pass holds exactly the values pushed so far in that pass. */
  ghost function Holds<T>(width: nat): (Cursor<T>, seq<T>) -> bool
  {
    (c: Cursor<T>, h: seq<T>) => Valid(width, c) && c.pending == h
  }

  function Whole<T>(): seq<T> -> seq<T>
  {
    (h: seq<T>) => h
  }

  /** The cursor emits, every `width` values, the values of that pass as they came. */
  lemma PusherCyclic<T(!new)>(width: nat)
    requires width >= 1
    ensures Cycles.Cyclic(Pusher<T>(width), Cursor(0, []), Holds<T>(width), width, Whole<T>())
  {
    forall c: Cursor<T>, h: seq<T>, v: T | Holds(width)(c, h)
      ensures Cycles.Advances(Pusher(width), Holds(width), width, Whole(), c, h, v)
    {
      assert Pusher(width)(c, v) == Push(width, c, v);
    }
  }

  lemma {:induction false} AssembleIsRun<T>(width: nat, vs: seq<T>)
    requires width >= 1
    ensures Assemble(width, vs) == Cycles.Run(Pusher(width), Cursor(0, []), vs)
  {
    if |vs| > 0 {
      AssembleIsRun(width, vs[..|vs| - 1]);
    }
  }

  /** One record per `width` values; the pointer and the pending values are the unfinished pass. */
  lemma AssembleTail<T(!new)>(width: nat, vs: seq<T>)
    requires width >= 1
    ensures |Assemble(width, vs).1| == |vs| / width
    ensures 0 <= |vs| / width * width <= |vs|
    ensures Assemble(width, vs).0.pending == vs[|vs| / width * width..]
    ensures Assemble(width, vs).0.pointer == |vs| % width
  {
    var (c, recs) := Assemble(width, vs);
    var q := |recs|;
    assert 0 <= q * width <= |vs| && Holds(width)(c, vs[q * width..]) by {
      AssembleIsRun(width, vs);
      PusherCyclic<T>(width);
      Cycles.RunShape(Pusher(width), Cursor(0, []), Holds(width), width, Whole(), vs);
    }
    Arith.DivModUnique(|vs|, width, q, |vs| - q * width);
  }

  /**
   * Pushing values chops them into records of exactly `width` values, one record per
   * `width` values; the pointer and the pending values are what is left of the last,
   * unfinished pass.
   */
  lemma AssembleRecords<T(!new)>(width: nat, vs: seq<T>)
    requires width >= 1
    ensures |Assemble(width, vs).1| == |vs| / width
    ensures Assemble(width, vs).0.pointer == |vs| % width
    ensures 0 <= |vs| / width * width <= |vs|
    ensures Assemble(width, vs).0.pending == vs[|vs| / width * width..]
    ensures forall k | 0 <= k < |Assemble(width, vs).1| :: |Assemble(width, vs).1[k]| == width
  {
    AssembleTail(width, vs);
    var recs := Assemble(width, vs).1;
    forall k | 0 <= k < |recs|
      ensures |recs[k]| == width
    {
      AssembleRecord(width, vs, k, 0);
    }
  }

  /** Value i of record k is input value k * width + i. */
  lemma AssembleRecord<T(!new)>(width: nat, vs: seq<T>, k: nat, i: nat)
    requires width >= 1 && k < |Assemble(width, vs).1| && i < width
    ensures |Assemble(width, vs).1[k]| == width
    ensures 0 <= k * width && k * width + i < k * width + width <= |vs|
    ensures Assemble(width, vs).1[k] == vs[k * width..k * width + width]
    ensures Assemble(width, vs).1[k][i] == vs[k * width + i]
  {
    AssembleIsRun(width, vs);
    PusherCyclic<T>(width);
    Cycles.RunRecord(Pusher(width), Cursor(0, []), Holds(width), width, Whole(), vs, k);
    Arith.BlockStart(k, width);
  }
}
