/** The SALSA Count-Min sketch: `depth` rows of self-adjusting byte
    counters. `update` adds the value to the counter the key hashes to in
    every row, growing that counter by a merge when the sum no longer fits;
    `query` is the smallest of those counters. */
module SalsaCM {
  import opened Common
  import opened Salsa

  /** `width` is the byte count the constructor settled on. */
  datatype Config = Config(depth: nat, width: nat, h: Hash)

  datatype Sketch = Sketch(rows: seq<Row>)

  /** A sketch that can be updated: at least one byte per row. */
  predicate WellFormed(cf: Config)
  {
    cf.width > 0
  }

  predicate Valid(cf: Config, s: Sketch)
  {
    |s.rows| == cf.depth && forall i :: 0 <= i < |s.rows| ==> RowOk(cf.width, s.rows[i])
  }

  /** The constructor: `maxCounterLen * NextPrime(width_ / maxCounterLen)` bytes per row. */
  function MakeConfig(depth: nat, width: nat, h: Hash, np: nat -> nat): (cf: Config)
    requires IsNextPrime(np)
    ensures cf.depth == depth && cf.width % MaxCounterLen == 0 && cf.width + MaxCounterLen > width
  {
    Config(depth, Width(width, np), h)
  }

  /** The constructor's zero-filled counters and bitmaps. */
  function Init(cf: Config): (s: Sketch)
    ensures Valid(cf, s)
    ensures forall i, p :: 0 <= i < cf.depth && 0 <= p < cf.width ==>
      s.rows[i].counter[p] == 0 && !s.rows[i].flags[p]
  {
    Sketch(seq(cf.depth, _ => ZeroRow(cf.width)))
  }

  /** `clear()`: zero every counter byte and every flag, keeping the shape. */
  function Clear(cf: Config, s: Sketch): (r: Sketch)
    requires Valid(cf, s)
    ensures Valid(cf, r)
    ensures forall i, p :: 0 <= i < cf.depth && 0 <= p < cf.width ==>
      r.rows[i].counter[p] == 0 && !r.rows[i].flags[p]
  {
    Init(cf)
  }

  function Index(cf: Config, i: nat, key: FlowKey): (j: nat)
    requires cf.width > 0
    ensures j < cf.width
  {
    cf.h(i, key) % cf.width
  }

  /** The counter `key` hashes to in row `i`, read through `getBoundary`. */
  function Estimate(cf: Config, s: Sketch, i: nat, key: FlowKey): (e: int)
    requires WellFormed(cf) && Valid(cf, s) && i < cf.depth
    ensures 0 <= e < Pow(256, Len(s.rows[i], cf.width, Index(cf, i, key)))
  {
    Value(s.rows[i], cf.width, Index(cf, i, key))
  }

  /** `updateCounter(i, index, val)`: add `val` to the row's counter. */
  function UpdateRow(cf: Config, s: Sketch, i: nat, key: FlowKey, val: int): (r: Result<Row>)
    requires WellFormed(cf) && Valid(cf, s) && i < cf.depth
    ensures r.Ok? ==> RowOk(cf.width, r.value)
    ensures r.Err? ==> r.error == OutOfRange
  {
    WriteCounter(s.rows[i], cf.width, Index(cf, i, key), Estimate(cf, s, i, key) + val)
  }

  /** `update(key, val)`: every row's counter for `key` takes `val`. A merge
      that would run past the end of a row makes the whole update fail. */
  function Update(cf: Config, s: Sketch, key: FlowKey, val: int): (r: Result<Sketch>)
    requires WellFormed(cf) && Valid(cf, s)
    ensures r.Ok? <==> forall i :: 0 <= i < cf.depth ==> UpdateRow(cf, s, i, key, val).Ok?
    ensures r.Ok? ==> Valid(cf, r.value)
  {
    if forall i :: 0 <= i < cf.depth ==> UpdateRow(cf, s, i, key, val).Ok? then
      Ok(Sketch(seq(cf.depth, i requires 0 <= i < cf.depth => UpdateRow(cf, s, i, key, val).value)))
    else Err(OutOfRange)
  }

  /** `query(key)`: the smallest of the key's counters, starting from the
      largest `T`. */
  function Query(cf: Config, s: Sketch, key: FlowKey): (r: int)
    requires WellFormed(cf) && Valid(cf, s)
    ensures r <= TMax
    ensures forall i :: 0 <= i < cf.depth ==> r <= Estimate(cf, s, i, key)
    ensures r == TMax || exists i :: 0 <= i < cf.depth && r == Estimate(cf, s, i, key)
  {
    var ests := seq(cf.depth, i requires 0 <= i < cf.depth => Estimate(cf, s, i, key));
    var r := MinFrom(TMax, ests);
    assert forall i :: 0 <= i < cf.depth ==> ests[i] == Estimate(cf, s, i, key);
    r
  }

  /** The sketch after feeding `st` to a fresh sketch, or the first failure. */
  function Run(cf: Config, st: seq<Item>): (r: Result<Sketch>)
    requires WellFormed(cf)
    ensures r.Ok? ==> Valid(cf, r.value)
  {
    if |st| == 0 then Ok(Init(cf))
    else
      match Run(cf, st[..|st| - 1])
      case Err(e) => Err(e)
      case Ok(s) => Update(cf, s, st[|st| - 1].key, st[|st| - 1].val)
  }

  /** Every counter of every key is at least that key's true total. */
  ghost predicate Covers(cf: Config, s: Sketch, st: seq<Item>)
  {
    WellFormed(cf) && Valid(cf, s) &&
    forall i, x :: 0 <= i < cf.depth ==> Estimate(cf, s, i, x) >= Total(st, x)
  }

  /** A successful update of a small value never lowers a counter, and
      raises the key's own counters by at least `val`. */
  lemma UpdateRowGrows(cf: Config, s: Sketch, i: nat, key: FlowKey, val: int)
    requires WellFormed(cf) && Valid(cf, s) && i < cf.depth
    requires 0 <= val <= 256
    requires UpdateRow(cf, s, i, key, val).Ok?
    ensures RowOk(cf.width, UpdateRow(cf, s, i, key, val).value)
    ensures Value(UpdateRow(cf, s, i, key, val).value, cf.width, Index(cf, i, key)) >= Estimate(cf, s, i, key) + val
    ensures forall p :: 0 <= p < cf.width ==>
      Value(UpdateRow(cf, s, i, key, val).value, cf.width, p) >= Value(s.rows[i], cf.width, p)
  {
    WriteGrows(s.rows[i], cf.width, Index(cf, i, key), Estimate(cf, s, i, key) + val);
  }

  /** An update keeps every counter at or above its key's true total. */
  lemma UpdateCovers(cf: Config, s: Sketch, st: seq<Item>, key: FlowKey, val: int)
    requires Covers(cf, s, st) && 0 <= val <= 256
    requires Update(cf, s, key, val).Ok?
    ensures Covers(cf, Update(cf, s, key, val).value, st + [Item(key, val)])
  {
    forall i, x | 0 <= i < cf.depth
      ensures Estimate(cf, Update(cf, s, key, val).value, i, x) >= Total(st + [Item(key, val)], x)
    {
      UpdateCoversAt(cf, s, st, key, val, i, x);
    }
  }

  /** One counter of `UpdateCovers`. */
  lemma UpdateCoversAt(cf: Config, s: Sketch, st: seq<Item>, key: FlowKey, val: int, i: nat, x: FlowKey)
    requires Covers(cf, s, st) && 0 <= val <= 256 && i < cf.depth
    requires Update(cf, s, key, val).Ok?
    ensures Estimate(cf, Update(cf, s, key, val).value, i, x) >= Total(st + [Item(key, val)], x)
  {
    var r' := UpdateRow(cf, s, i, key, val).value;
    assert Update(cf, s, key, val).value.rows[i] == r';
    TotalSnoc(st, Item(key, val), x);
    UpdateRowGrows(cf, s, i, key, val);
    assert Estimate(cf, s, i, x) >= Total(st, x);
  }

  /** A run of byte-sized updates that succeeds leaves every counter at or
      above its key's true total. */
  lemma {:induction false} RunCovers(cf: Config, st: seq<Item>)
    requires WellFormed(cf) && ByteUpdates(st)
    requires Run(cf, st).Ok?
    ensures Covers(cf, Run(cf, st).value, st)
  {
    if |st| == 0 {
      forall i, x | 0 <= i < cf.depth
        ensures Estimate(cf, Init(cf), i, x) >= Total(st, x)
      {
        var r := Init(cf).rows[i];
        var p := Index(cf, i, x);
      }
    } else {
      var pre := st[..|st| - 1];
      var it := st[|st| - 1];
      assert st == pre + [it];
      assert ByteUpdates(pre);
      RunCovers(cf, pre);
      UpdateCovers(cf, Run(cf, pre).value, pre, it.key, it.val);
    }
  }

  /** The Count-Min guarantee: after a successful run of byte-sized updates
      the query never falls below the true total, capped at the largest `T`. */
  lemma QueryNeverUnderestimates(cf: Config, st: seq<Item>, x: FlowKey)
    requires WellFormed(cf) && ByteUpdates(st)
    requires Run(cf, st).Ok?
    ensures Query(cf, Run(cf, st).value, x) >= Min(Total(st, x), TMax)
  {
    RunCovers(cf, st);
  }

  /** A sum that fits the counter is stored exactly: the key's counter in
      that row reads its old value plus `val`. */
  lemma UpdateRowExact(cf: Config, s: Sketch, i: nat, key: FlowKey, val: int)
    requires WellFormed(cf) && Valid(cf, s) && i < cf.depth
    requires 0 <= Estimate(cf, s, i, key) + val < Pow(256, Len(s.rows[i], cf.width, Index(cf, i, key)))
    ensures UpdateRow(cf, s, i, key, val).Ok?
    ensures Value(UpdateRow(cf, s, i, key, val).value, cf.width, Index(cf, i, key)) == Estimate(cf, s, i, key) + val
  {
    WriteInPlace(s.rows[i], cf.width, Index(cf, i, key), Estimate(cf, s, i, key) + val);
  }

  /** A freshly built or cleared sketch answers 0 for every key. */
  lemma QueryInit(cf: Config, x: FlowKey)
    requires WellFormed(cf) && cf.depth > 0
    ensures Query(cf, Init(cf), x) == 0
  {
    forall i | 0 <= i < cf.depth
      ensures Estimate(cf, Init(cf), i, x) == 0
    {
      var r := Init(cf).rows[i];
      var p := Index(cf, i, x);
      BoundaryOfRun(r.flags, cf.width, p, p, p);
    }
  }
}
