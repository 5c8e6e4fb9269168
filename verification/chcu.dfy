/** The CU sketch over a counter hierarchy (CHCUSketch): `depth` rows of
    `width` counters stored row-major in one hierarchy. `update` reads the
    key's counter in every row, takes the smallest of them (starting from
    the largest `T`) plus the value, and raises only the counters below that
    target to it. `query` is the smallest of the key's counters. */
module CHCU {
  import opened Common
  import H = Hierarchy
  import opened Grid

  datatype Built = Built(cf: Config, s: H.Store, layers: seq<nat>)

  /** The constructor: a ratio outside (0, 1) throws `std::out_of_range`;
      otherwise layer 0 holds one zero counter per row and column. */
  function New(depth: nat, width: nat, h: Hash, np: nat -> nat, ratio: real, noLayer: nat): (r: Result<Built>)
    requires noLayer >= 1 && IsNextPrime(np)
    ensures r.Ok? <==> 0.0 < ratio < 1.0
    ensures r.Err? ==> r.error == OutOfRange
    ensures r.Ok? ==>
      && r.value.cf.depth == depth && r.value.cf.width >= width
      && Valid(r.value.cf, r.value.s) && r.value.s == H.Fresh(depth * r.value.cf.width)
      && |r.value.layers| == noLayer && r.value.layers[0] == depth * r.value.cf.width
  {
    var cf := MakeConfig(depth, width, h, np);
    match H.CheckRatio(ratio)
    case Err(e) => Err(e)
    case Ok(_) =>
      H.LayerSizesShape(N(cf), ratio, noLayer, np);
      Ok(Built(cf, H.Fresh(N(cf)), H.LayerSizes(N(cf), ratio, noLayer, np)))
  }

  /** `EstVal`: the key's counter in every row. */
  function Ests(cf: Config, s: H.Store, key: FlowKey): (e: seq<int>)
    requires WellFormed(cf) && Valid(cf, s)
    ensures |e| == cf.depth
    ensures forall i :: 0 <= i < cf.depth ==> e[i] == s.cnt[Slot(cf, i, key)]
  {
    seq(cf.depth, i requires 0 <= i < cf.depth => s.cnt[Slot(cf, i, key)])
  }

  /** `min_val` after `min_val += val`. */
  function Target(cf: Config, s: H.Store, key: FlowKey, val: int): int
    requires WellFormed(cf) && Valid(cf, s)
  {
    MinFrom(TMax, Ests(cf, s, key)) + val
  }

  /** The second loop of `update` over rows `0 .. n - 1`: a row whose
      recorded estimate `e[i]` is below the target `m` is raised by
      `m - e[i]`. */
  function Raise(cf: Config, s: H.Store, key: FlowKey, e: seq<int>, m: int, n: nat): (r: H.Store)
    requires WellFormed(cf) && Valid(cf, s) && n <= cf.depth && |e| == cf.depth
    ensures Valid(cf, r)
  {
    if n == 0 then s
    else
      var t := Raise(cf, s, key, e, m, n - 1);
      if e[n - 1] < m then H.UpdateCnt(t, Slot(cf, n - 1, key), m - e[n - 1]) else t
  }

  /** `update(key, val)`. */
  function Update(cf: Config, s: H.Store, key: FlowKey, val: int): (r: H.Store)
    requires WellFormed(cf) && Valid(cf, s)
    ensures Valid(cf, r)
  {
    Raise(cf, s, key, Ests(cf, s, key), Target(cf, s, key, val), cf.depth)
  }

  /** `query(key)`: the smallest of the key's counters, from the largest `T`. */
  function Query(cf: Config, s: H.Store, key: FlowKey): (q: int)
    requires WellFormed(cf) && Valid(cf, s)
    ensures q <= TMax
    ensures forall i :: 0 <= i < cf.depth ==> q <= s.cnt[Slot(cf, i, key)]
    ensures q == TMax || exists i :: 0 <= i < cf.depth && q == s.cnt[Slot(cf, i, key)]
  {
    var e := Ests(cf, s, key);
    var q := MinFrom(TMax, e);
    assert q == TMax || q in e;
    q
  }

  /** The counter in row `i`, column `j` after the first `n` rows were raised:
      the target where it is the key's counter in a raised row, otherwise
      its old value. */
  lemma {:induction false} RaiseAt(cf: Config, s: H.Store, key: FlowKey, e: seq<int>, m: int, n: nat, i: nat, j: nat)
    requires WellFormed(cf) && Valid(cf, s) && n <= cf.depth && |e| == cf.depth
    requires i < cf.depth && j < cf.width && CHIdx(cf, i, j) < N(cf)
    ensures Raise(cf, s, key, e, m, n).cnt[CHIdx(cf, i, j)] ==
      if i < n && j == Index(cf, i, key) && e[i] < m then s.cnt[CHIdx(cf, i, j)] + (m - e[i])
      else s.cnt[CHIdx(cf, i, j)]
  {
    if n > 0 {
      RaiseAt(cf, s, key, e, m, n - 1, i, j);
      CHIdxLayout(cf, i, j, n - 1, Index(cf, n - 1, key));
    }
  }

  /** What `update` does to each counter: the key's counter in a row is
      raised to the target when it is below it and left alone otherwise;
      every counter outside the key's cells keeps its value. */
  lemma UpdateAt(cf: Config, s: H.Store, key: FlowKey, val: int, i: nat, j: nat)
    requires WellFormed(cf) && Valid(cf, s) && i < cf.depth && j < cf.width
    ensures CHIdx(cf, i, j) < N(cf)
    ensures Update(cf, s, key, val).cnt[CHIdx(cf, i, j)] ==
      if j == Index(cf, i, key) then Max(s.cnt[CHIdx(cf, i, j)], Target(cf, s, key, val))
      else s.cnt[CHIdx(cf, i, j)]
  {
    CHIdxLayout(cf, i, j, i, j);
    RaiseAt(cf, s, key, Ests(cf, s, key), Target(cf, s, key, val), cf.depth, i, j);
  }

  /** A negative value changes nothing: the target is below every counter. */
  lemma UpdateNegative(cf: Config, s: H.Store, key: FlowKey, val: int)
    requires WellFormed(cf) && Valid(cf, s) && val < 0
    ensures Update(cf, s, key, val) == s
  {
    var r := Update(cf, s, key, val);
    var m := Target(cf, s, key, val);
    forall c | 0 <= c < N(cf)
      ensures r.cnt[c] == s.cnt[c]
    {
      var i, j := CellOf(cf, c);
      UpdateAt(cf, s, key, val, i, j);
      if j == Index(cf, i, key) {
        assert Slot(cf, i, key) == c;
        assert m < s.cnt[c];
      }
    }
    assert r.cnt == s.cnt;
  }

  /** With a non-negative value the key's query grows by exactly `val`,
      capped at the largest `T` where the minimum starts. */
  lemma QueryAfterUpdate(cf: Config, s: H.Store, key: FlowKey, val: int)
    requires WellFormed(cf) && Valid(cf, s) && cf.depth >= 1 && val >= 0
    ensures Query(cf, Update(cf, s, key, val), key) == Min(TMax, Query(cf, s, key) + val)
  {
    var r := Update(cf, s, key, val);
    var m := Target(cf, s, key, val);
    var q := Query(cf, r, key);
    forall i | 0 <= i < cf.depth
      ensures r.cnt[Slot(cf, i, key)] == Max(s.cnt[Slot(cf, i, key)], m)
    {
      UpdateAt(cf, s, key, val, i, Index(cf, i, key));
    }
    var e := Ests(cf, s, key);
    if MinFrom(TMax, e) == TMax {
      assert q >= Min(TMax, m);
    } else {
      var i0 :| 0 <= i0 < cf.depth && MinFrom(TMax, e) == e[i0];
      assert r.cnt[Slot(cf, i0, key)] == m;
    }
  }

  /** Every counter of every key is at least that key's true total, capped
      at the largest `T`. */
  ghost predicate Covers(cf: Config, s: H.Store, st: seq<Item>)
  {
    WellFormed(cf) && Valid(cf, s) &&
    forall i, x :: 0 <= i < cf.depth ==> s.cnt[Slot(cf, i, x)] >= Min(Total(st, x), TMax)
  }

  /** The sketch after feeding `st` to a fresh one. */
  function Run(cf: Config, st: seq<Item>): (s: H.Store)
    requires WellFormed(cf)
    ensures Valid(cf, s)
  {
    if |st| == 0 then H.Fresh(N(cf))
    else Update(cf, Run(cf, st[..|st| - 1]), st[|st| - 1].key, st[|st| - 1].val)
  }

  /** One counter of `UpdateCovers`. */
  lemma UpdateCoversAt(cf: Config, s: H.Store, st: seq<Item>, key: FlowKey, val: int, i: nat, x: FlowKey)
    requires Covers(cf, s, st) && val >= 0 && i < cf.depth
    ensures Update(cf, s, key, val).cnt[Slot(cf, i, x)] >= Min(Total(st + [Item(key, val)], x), TMax)
  {
    TotalSnoc(st, Item(key, val), x);
    UpdateAt(cf, s, key, val, i, Index(cf, i, x));
    assert s.cnt[Slot(cf, i, x)] >= Min(Total(st, x), TMax);
    if key == x {
      var e := Ests(cf, s, key);
      if MinFrom(TMax, e) != TMax {
        var i0 :| 0 <= i0 < cf.depth && MinFrom(TMax, e) == e[i0];
        assert s.cnt[Slot(cf, i0, key)] >= Min(Total(st, key), TMax);
      }
    }
  }

  lemma UpdateCovers(cf: Config, s: H.Store, st: seq<Item>, key: FlowKey, val: int)
    requires Covers(cf, s, st) && val >= 0
    ensures Covers(cf, Update(cf, s, key, val), st + [Item(key, val)])
  {
    forall i, x | 0 <= i < cf.depth
      ensures Update(cf, s, key, val).cnt[Slot(cf, i, x)] >= Min(Total(st + [Item(key, val)], x), TMax)
    {
      UpdateCoversAt(cf, s, st, key, val, i, x);
    }
  }

  lemma {:induction false} RunCovers(cf: Config, st: seq<Item>)
    requires WellFormed(cf) && NonNegative(st)
    ensures Covers(cf, Run(cf, st), st)
  {
    if |st| > 0 {
      var pre := st[..|st| - 1];
      var it := st[|st| - 1];
      assert st == pre + [it];
      assert NonNegative(pre);
      RunCovers(cf, pre);
      UpdateCovers(cf, Run(cf, pre), pre, it.key, it.val);
    }
  }

  /** The conservative update keeps the Count-Min guarantee: on a
      non-negative stream the query never falls below the true total,
      capped at the largest `T`. */
  lemma QueryNeverUnderestimates(cf: Config, st: seq<Item>, x: FlowKey)
    requires WellFormed(cf) && NonNegative(st)
    ensures Query(cf, Run(cf, st), x) >= Min(Total(st, x), TMax)
  {
    RunCovers(cf, st);
  }
}
