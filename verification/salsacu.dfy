/** The SALSA CU sketch: the rows, constructor, `query` and `clear` of the
    SALSA Count-Min sketch with a conservative `update`. The update first
    reads every row's counter for the key, takes the smallest
    `val + counter` (from the largest `T`), and raises only the counters
    below that minimum to it. */
module SalsaCU {
  import opened Common
  import opened Salsa
  import CM = SalsaCM

  /** `min_val` of `update`: the smallest `val + est` over all rows. */
  function MinVal(cf: CM.Config, s: CM.Sketch, key: FlowKey, val: int): (m: int)
    requires CM.WellFormed(cf) && CM.Valid(cf, s)
    ensures m <= TMax
    ensures forall i :: 0 <= i < cf.depth ==> m <= val + CM.Estimate(cf, s, i, key)
    ensures m == TMax || exists i :: 0 <= i < cf.depth && m == val + CM.Estimate(cf, s, i, key)
  {
    var sums := seq(cf.depth, i requires 0 <= i < cf.depth => val + CM.Estimate(cf, s, i, key));
    var m := MinFrom(TMax, sums);
    assert forall i :: 0 <= i < cf.depth ==> sums[i] == val + CM.Estimate(cf, s, i, key);
    m
  }

  /** The second loop of `update` on row `i`: `changeCounterVal` to the
      minimum when the row's counter is below it, nothing otherwise. */
  function UpdateRow(cf: CM.Config, s: CM.Sketch, i: nat, key: FlowKey, val: int): (r: Result<Row>)
    requires CM.WellFormed(cf) && CM.Valid(cf, s) && i < cf.depth
    ensures MinVal(cf, s, key, val) <= CM.Estimate(cf, s, i, key) ==> r == Ok(s.rows[i])
  {
    var m := MinVal(cf, s, key, val);
    if m > CM.Estimate(cf, s, i, key) then WriteCounter(s.rows[i], cf.width, CM.Index(cf, i, key), m)
    else Ok(s.rows[i])
  }

  /** `update(key, val)`. A merge that would run past the end of a row makes
      the whole update fail. */
  function Update(cf: CM.Config, s: CM.Sketch, key: FlowKey, val: int): (r: Result<CM.Sketch>)
    requires CM.WellFormed(cf) && CM.Valid(cf, s)
    ensures r.Ok? <==> forall i :: 0 <= i < cf.depth ==> UpdateRow(cf, s, i, key, val).Ok?
    ensures r.Ok? ==> CM.Valid(cf, r.value)
  {
    if forall i :: 0 <= i < cf.depth ==> UpdateRow(cf, s, i, key, val).Ok? then
      var rows := seq(cf.depth, i requires 0 <= i < cf.depth => UpdateRow(cf, s, i, key, val).value);
      Ok(CM.Sketch(rows))
    else Err(OutOfRange)
  }

  /** The sketch after feeding `st` to a fresh sketch, or the first failure. */
  function Run(cf: CM.Config, st: seq<Item>): (r: Result<CM.Sketch>)
    requires CM.WellFormed(cf)
    ensures r.Ok? ==> CM.Valid(cf, r.value)
  {
    if |st| == 0 then Ok(CM.Init(cf))
    else
      match Run(cf, st[..|st| - 1])
      case Err(e) => Err(e)
      case Ok(s) => Update(cf, s, st[|st| - 1].key, st[|st| - 1].val)
  }

  /** Every counter of every key is at least that key's true total, capped
      at the largest `T` where the minimum starts. */
  ghost predicate Covers(cf: CM.Config, s: CM.Sketch, st: seq<Item>)
  {
    CM.WellFormed(cf) && CM.Valid(cf, s) &&
    forall i, x :: 0 <= i < cf.depth ==> CM.Estimate(cf, s, i, x) >= Min(Total(st, x), TMax)
  }

  /** A successful row step never lowers a counter, and leaves the key's
      counter at least the minimum. */
  lemma UpdateRowGrows(cf: CM.Config, s: CM.Sketch, i: nat, key: FlowKey, val: int)
    requires CM.WellFormed(cf) && CM.Valid(cf, s) && i < cf.depth
    requires 0 <= val <= 256
    requires UpdateRow(cf, s, i, key, val).Ok?
    ensures RowOk(cf.width, UpdateRow(cf, s, i, key, val).value)
    ensures Value(UpdateRow(cf, s, i, key, val).value, cf.width, CM.Index(cf, i, key)) >= MinVal(cf, s, key, val)
    ensures forall p :: 0 <= p < cf.width ==>
      Value(UpdateRow(cf, s, i, key, val).value, cf.width, p) >= Value(s.rows[i], cf.width, p)
  {
    var m := MinVal(cf, s, key, val);
    if m > CM.Estimate(cf, s, i, key) {
      WriteGrows(s.rows[i], cf.width, CM.Index(cf, i, key), m);
    }
  }

  /** A sum at least `val` above a capped total is at least the capped sum. */
  lemma CapStep(m: int, e: int, t: int, val: int)
    requires 0 <= val && e >= Min(t, TMax) && m == val + e
    ensures m >= Min(t + val, TMax)
  {
  }

  /** The minimum is at least the key's new true total, capped. */
  lemma MinValCovers(cf: CM.Config, s: CM.Sketch, st: seq<Item>, key: FlowKey, val: int)
    requires Covers(cf, s, st) && 0 <= val
    ensures MinVal(cf, s, key, val) >= Min(Total(st, key) + val, TMax)
  {
    var m := MinVal(cf, s, key, val);
    var t := Total(st, key);
    if m != TMax {
      var j :| 0 <= j < cf.depth && m == val + CM.Estimate(cf, s, j, key);
      CapStep(m, CM.Estimate(cf, s, j, key), t, val);
    }
  }

  /** One counter of `UpdateCovers`. */
  lemma UpdateCoversAt(cf: CM.Config, s: CM.Sketch, st: seq<Item>, key: FlowKey, val: int, i: nat, x: FlowKey)
    requires Covers(cf, s, st) && 0 <= val <= 256 && i < cf.depth
    requires Update(cf, s, key, val).Ok?
    ensures CM.Estimate(cf, Update(cf, s, key, val).value, i, x) >= Min(Total(st + [Item(key, val)], x), TMax)
  {
    var r' := UpdateRow(cf, s, i, key, val).value;
    assert Update(cf, s, key, val).value.rows[i] == r';
    TotalSnoc(st, Item(key, val), x);
    UpdateRowGrows(cf, s, i, key, val);
    MinValCovers(cf, s, st, key, val);
    assert CM.Estimate(cf, s, i, x) >= Min(Total(st, x), TMax);
  }

  /** An update keeps every counter at or above its key's capped true total. */
  lemma UpdateCovers(cf: CM.Config, s: CM.Sketch, st: seq<Item>, key: FlowKey, val: int)
    requires Covers(cf, s, st) && 0 <= val <= 256
    requires Update(cf, s, key, val).Ok?
    ensures Covers(cf, Update(cf, s, key, val).value, st + [Item(key, val)])
  {
    forall i, x | 0 <= i < cf.depth
      ensures CM.Estimate(cf, Update(cf, s, key, val).value, i, x) >= Min(Total(st + [Item(key, val)], x), TMax)
    {
      UpdateCoversAt(cf, s, st, key, val, i, x);
    }
  }

  /** A run of byte-sized updates that succeeds leaves every counter at or
      above its key's capped true total. */
  lemma {:induction false} RunCovers(cf: CM.Config, st: seq<Item>)
    requires CM.WellFormed(cf) && ByteUpdates(st)
    requires Run(cf, st).Ok?
    ensures Covers(cf, Run(cf, st).value, st)
  {
    if |st| == 0 {
      forall i, x | 0 <= i < cf.depth
        ensures CM.Estimate(cf, CM.Init(cf), i, x) >= Min(Total(st, x), TMax)
      {
      }
    } else {
      var pre := st[..|st| - 1];
      var it := st[|st| - 1];
      assert st == pre + [it];
      assert ByteUpdates(pre);
      RunCovers(cf, pre);
      UpdateCovers(cf, Run(cf, pre).value, pre, it.key, it.val);
    }
  }

  /** The conservative update keeps the Count-Min guarantee: after a
      successful run of byte-sized updates the query never falls below the
      true total, capped at the largest `T`. */
  lemma QueryNeverUnderestimates(cf: CM.Config, st: seq<Item>, x: FlowKey)
    requires CM.WellFormed(cf) && ByteUpdates(st)
    requires Run(cf, st).Ok?
    ensures CM.Query(cf, Run(cf, st).value, x) >= Min(Total(st, x), TMax)
  {
    RunCovers(cf, st);
  }

  /** The key's counters after an update in which nothing merges: the
      minimum where a row was below it, unchanged where it was not. */
  lemma UpdateRowExact(cf: CM.Config, s: CM.Sketch, i: nat, key: FlowKey, val: int)
    requires CM.WellFormed(cf) && CM.Valid(cf, s) && i < cf.depth
    requires 0 <= MinVal(cf, s, key, val) < Pow(256, Len(s.rows[i], cf.width, CM.Index(cf, i, key)))
    ensures UpdateRow(cf, s, i, key, val).Ok?
    ensures Value(UpdateRow(cf, s, i, key, val).value, cf.width, CM.Index(cf, i, key))
      == Max(CM.Estimate(cf, s, i, key), MinVal(cf, s, key, val))
  {
    var m := MinVal(cf, s, key, val);
    if m > CM.Estimate(cf, s, i, key) {
      WriteInPlace(s.rows[i], cf.width, CM.Index(cf, i, key), m);
    }
  }
}
