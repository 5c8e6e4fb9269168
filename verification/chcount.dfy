/** The Count Sketch over a counter hierarchy (CHCountSketch): `depth` rows
    of `width` counters stored row-major in one hierarchy, and `2 * depth`
    hash functions. The first `depth` of them pick the key's column in each
    row; hash function `depth + i` picks the key's sign in row `i` from its
    lowest bit. `update` adds the signed value to one counter per row;
    `query` is the magnitude of the median of the signed row counters. */
module CHCount {
  import opened Common
  import H = Hierarchy
  import opened Grid

  /** The sign of `key` in row `i`: `(hash_fns[depth + i](key) & 1) * 2 - 1`. */
  function Sign(cf: Config, i: nat, key: FlowKey): (g: int)
    ensures g == 1 || g == -1
  {
    if cf.h(cf.depth + i, key) % 2 == 1 then 1 else -1
  }

  /** What the constructor builds: the hierarchy's layer-0 counters and the
      number of hash objects. */
  datatype Built = Built(cf: Config, s: H.Store, hashes: nat, layers: seq<nat>)

  /** The constructor: `2 * depth` hash objects and one zero counter per row
      and column in layer 0. Unlike the other CH sketches it does not check
      the ratio, so a ratio of one or more builds upper layers at least as
      large as the ones below. */
  function New(depth: nat, width: nat, h: Hash, np: nat -> nat, ratio: real, noLayer: nat): (r: Built)
    requires noLayer >= 1 && IsNextPrime(np) && 0.0 <= ratio
    ensures r.cf.depth == depth && r.cf.width >= width && r.hashes == 2 * depth
    ensures Valid(r.cf, r.s) && r.s == H.Fresh(depth * r.cf.width)
    ensures |r.layers| == noLayer && r.layers[0] == depth * r.cf.width
    ensures forall i :: 1 <= i < noLayer ==> H.AtLeastRatio(r.layers[i], r.layers[i - 1], ratio)
  {
    var cf := MakeConfig(depth, width, h, np);
    H.LayerSizesShape(N(cf), ratio, noLayer, np);
    Built(cf, H.Fresh(N(cf)), 2 * depth, H.LayerSizes(N(cf), ratio, noLayer, np))
  }

  /** The loop of `update` over rows `0 .. n - 1`. */
  function UpdateRows(cf: Config, s: H.Store, key: FlowKey, val: int, n: nat): (r: H.Store)
    requires WellFormed(cf) && Valid(cf, s) && n <= cf.depth
    ensures Valid(cf, r)
  {
    if n == 0 then s
    else H.UpdateCnt(UpdateRows(cf, s, key, val, n - 1), Slot(cf, n - 1, key), val * Sign(cf, n - 1, key))
  }

  /** `update(key, val)`. */
  function Update(cf: Config, s: H.Store, key: FlowKey, val: int): (r: H.Store)
    requires WellFormed(cf) && Valid(cf, s)
    ensures Valid(cf, r)
  {
    UpdateRows(cf, s, key, val, cf.depth)
  }

  /** `values`: each row's counter for the key times the key's sign there. */
  function Values(cf: Config, s: H.Store, key: FlowKey): (v: seq<int>)
    requires WellFormed(cf) && Valid(cf, s)
    ensures |v| == cf.depth
    ensures forall i :: 0 <= i < cf.depth ==> v[i] == s.cnt[Slot(cf, i, key)] * Sign(cf, i, key)
  {
    seq(cf.depth, i requires 0 <= i < cf.depth => s.cnt[Slot(cf, i, key)] * Sign(cf, i, key))
  }

  /** `query(key)`: the median of `values` after `std::sort`, the truncated
      mean of the two middle ones for an even depth, made non-negative by
      `std::abs`. The source indexes `values[depth / 2]`, so a query needs
      at least one row. */
  function Query(cf: Config, s: H.Store, key: FlowKey): (q: int)
    requires WellFormed(cf) && Valid(cf, s) && cf.depth >= 1
    ensures q >= 0
  {
    MedianAbs(Values(cf, s, key))
  }

  /** The counter in row `i`, column `j` after rows `0 .. n - 1` were updated. */
  lemma {:induction false} UpdateRowsAt(cf: Config, s: H.Store, key: FlowKey, val: int, n: nat, i: nat, j: nat)
    requires WellFormed(cf) && Valid(cf, s) && n <= cf.depth
    requires i < cf.depth && j < cf.width && CHIdx(cf, i, j) < N(cf)
    ensures UpdateRows(cf, s, key, val, n).cnt[CHIdx(cf, i, j)] ==
      s.cnt[CHIdx(cf, i, j)] + (if i < n && j == Index(cf, i, key) then val * Sign(cf, i, key) else 0)
  {
    if n > 0 {
      UpdateRowsAt(cf, s, key, val, n - 1, i, j);
      CHIdxLayout(cf, i, j, n - 1, Index(cf, n - 1, key));
    }
  }

  /** `update` adds the signed value to exactly the key's counter in every
      row and leaves every other counter alone. */
  lemma UpdateAt(cf: Config, s: H.Store, key: FlowKey, val: int, i: nat, j: nat)
    requires WellFormed(cf) && Valid(cf, s) && i < cf.depth && j < cf.width
    ensures CHIdx(cf, i, j) < N(cf)
    ensures Update(cf, s, key, val).cnt[CHIdx(cf, i, j)] ==
      s.cnt[CHIdx(cf, i, j)] + (if j == Index(cf, i, key) then val * Sign(cf, i, key) else 0)
  {
    CHIdxLayout(cf, i, j, i, j);
    UpdateRowsAt(cf, s, key, val, cf.depth, i, j);
  }

  /** The sketch after feeding `st` to a fresh one. */
  function Run(cf: Config, st: seq<Item>): (s: H.Store)
    requires WellFormed(cf)
    ensures Valid(cf, s)
  {
    if |st| == 0 then H.Fresh(N(cf))
    else Update(cf, Run(cf, st[..|st| - 1]), st[|st| - 1].key, st[|st| - 1].val)
  }

  /** The reference value of the counter in row `i`, column `j`: the signed
      sum of the updates whose key hashes there. */
  function Load(cf: Config, st: seq<Item>, i: nat, j: nat): int
    requires WellFormed(cf)
  {
    if |st| == 0 then 0
    else
      var it := st[|st| - 1];
      Load(cf, st[..|st| - 1], i, j) + (if Index(cf, i, it.key) == j then it.val * Sign(cf, i, it.key) else 0)
  }

  /** Every counter of a run holds its reference value. */
  lemma {:induction false} RunLoad(cf: Config, st: seq<Item>, i: nat, j: nat)
    requires WellFormed(cf) && i < cf.depth && j < cf.width
    ensures CHIdx(cf, i, j) < N(cf)
    ensures Run(cf, st).cnt[CHIdx(cf, i, j)] == Load(cf, st, i, j)
  {
    CHIdxLayout(cf, i, j, i, j);
    if |st| > 0 {
      RunLoad(cf, st[..|st| - 1], i, j);
      UpdateAt(cf, Run(cf, st[..|st| - 1]), st[|st| - 1].key, st[|st| - 1].val, i, j);
    }
  }

  /** No other key of the stream shares a counter with `x` in any row. */
  predicate Alone(cf: Config, st: seq<Item>, x: FlowKey)
    requires WellFormed(cf)
  {
    forall n, i :: 0 <= n < |st| && 0 <= i < cf.depth && st[n].key != x ==>
      Index(cf, i, st[n].key) != Index(cf, i, x)
  }

  /** Without collisions, the key's counter in each row is its signed total. */
  lemma {:induction false} AloneLoad(cf: Config, st: seq<Item>, x: FlowKey, i: nat)
    requires WellFormed(cf) && i < cf.depth && Alone(cf, st, x)
    ensures Load(cf, st, i, Index(cf, i, x)) == Sign(cf, i, x) * Total(st, x)
  {
    if |st| > 0 {
      var pre := st[..|st| - 1];
      var it := st[|st| - 1];
      assert Alone(cf, pre, x) by {
        forall n, i2 | 0 <= n < |pre| && 0 <= i2 < cf.depth && pre[n].key != x
          ensures Index(cf, i2, pre[n].key) != Index(cf, i2, x)
        {
          assert pre[n] == st[n];
        }
      }
      AloneLoad(cf, pre, x, i);
      if it.key != x {
        assert Index(cf, i, it.key) != Index(cf, i, x);
      }
    }
  }

  /** A key that collides with no other key is estimated exactly: the query
      returns the magnitude of its total, whatever the signs. */
  lemma QueryAlone(cf: Config, st: seq<Item>, x: FlowKey)
    requires WellFormed(cf) && cf.depth >= 1 && Alone(cf, st, x)
    ensures Query(cf, Run(cf, st), x) == Abs(Total(st, x))
  {
    var v := Values(cf, Run(cf, st), x);
    forall i | 0 <= i < cf.depth
      ensures v[i] == Total(st, x)
    {
      RunLoad(cf, st, i, Index(cf, i, x));
      AloneLoad(cf, st, x, i);
      var g := Sign(cf, i, x);
      assert v[i] == g * Total(st, x) * g;
      assert g * g == 1;
    }
    MedianAbsOfConstant(v, Total(st, x));
  }

  /** After `clear()` every key queries zero. */
  lemma QueryAfterClear(cf: Config, s: H.Store, x: FlowKey)
    requires WellFormed(cf) && Valid(cf, s) && cf.depth >= 1
    ensures Query(cf, Clear(cf, s), x) == 0
  {
    MedianAbsOfConstant(Values(cf, Clear(cf, s), x), 0);
  }
}
