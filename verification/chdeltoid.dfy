/** CHDeltoid2Tuple: Deltoid whose two counter arrays live in two counter
    hierarchies. `arr1[i][j][k]` is counter `get_idx1_(i, j, k)` of `ch1_`
    and `arr0[i][j][k]` is counter `get_idx0_(i, j, k)` of `ch0_`. The model
    proves that, reading the hierarchies exactly, the sketch is Deltoid. */
module CHDeltoid {
  import opened Common
  import opened FlowKeys
  import H = Hierarchy
  import D = Deltoid

  datatype Sketch = Sketch(sum: int, ch1: H.Store, ch0: H.Store)

  /** Layer-0 sizes of the two hierarchies. */
  function N1(cf: D.Config): nat { cf.hashes * cf.groups * (D.NBits(cf) + 1) }

  function N0(cf: D.Config): nat { cf.hashes * cf.groups * D.NBits(cf) }

  predicate Valid(cf: D.Config, s: Sketch)
  {
    |s.ch1.cnt| == N1(cf) && |s.ch0.cnt| == N0(cf)
  }

  /** `get_idx1_(i, j, k)`. */
  function Idx1(cf: D.Config, i: nat, j: nat, k: nat): nat
  {
    i * cf.groups * (D.NBits(cf) + 1) + j * (D.NBits(cf) + 1) + k
  }

  /** `get_idx0_(i, j, k)`. */
  function Idx0(cf: D.Config, i: nat, j: nat, k: nat): nat
  {
    i * cf.groups * D.NBits(cf) + j * D.NBits(cf) + k
  }

  /** `get_idx1_` is row-major: it lands inside the hierarchy, and distinct
      (row, group, bit) triples land on distinct counters. */
  lemma Idx1Layout(cf: D.Config, i: nat, j: nat, k: nat)
    requires i < cf.hashes && j < cf.groups && k <= D.NBits(cf)
    ensures Idx1(cf, i, j, k) == (i * cf.groups + j) * (D.NBits(cf) + 1) + k
    ensures Idx1(cf, i, j, k) < N1(cf)
  {
    var w := D.NBits(cf) + 1;
    assert i * cf.groups * w + j * w == (i * cf.groups + j) * w;
    RowMajorBound(i, j, cf.hashes, cf.groups);
    RowMajorBound(i * cf.groups + j, k, cf.hashes * cf.groups, w);
  }

  lemma Idx1Injective(cf: D.Config, i: nat, j: nat, k: nat, i2: nat, j2: nat, k2: nat)
    requires i < cf.hashes && j < cf.groups && k <= D.NBits(cf)
    requires i2 < cf.hashes && j2 < cf.groups && k2 <= D.NBits(cf)
    requires Idx1(cf, i, j, k) == Idx1(cf, i2, j2, k2)
    ensures i == i2 && j == j2 && k == k2
  {
    RowMajor3Injective(i, j, k, i2, j2, k2, cf.groups, D.NBits(cf) + 1);
  }

  /** `get_idx0_` is row-major in the same way. */
  lemma Idx0Layout(cf: D.Config, i: nat, j: nat, k: nat)
    requires i < cf.hashes && j < cf.groups && k < D.NBits(cf)
    ensures Idx0(cf, i, j, k) == (i * cf.groups + j) * D.NBits(cf) + k
    ensures Idx0(cf, i, j, k) < N0(cf)
  {
    var w := D.NBits(cf);
    assert i * cf.groups * w + j * w == (i * cf.groups + j) * w;
    RowMajorBound(i, j, cf.hashes, cf.groups);
    RowMajorBound(i * cf.groups + j, k, cf.hashes * cf.groups, w);
  }

  lemma Idx0Injective(cf: D.Config, i: nat, j: nat, k: nat, i2: nat, j2: nat, k2: nat)
    requires i < cf.hashes && j < cf.groups && k < D.NBits(cf)
    requires i2 < cf.hashes && j2 < cf.groups && k2 < D.NBits(cf)
    requires Idx0(cf, i, j, k) == Idx0(cf, i2, j2, k2)
    ensures i == i2 && j == j2 && k == k2
  {
    RowMajor3Injective(i, j, k, i2, j2, k2, cf.groups, D.NBits(cf));
    RowMajorInjective(i, j, i2, j2, cf.groups);
  }

  /** What the constructor builds. */
  datatype Built = Built(cf: D.Config, s: Sketch, layers1: seq<nat>, layers0: seq<nat>)

  /** The constructor: the group count becomes `NextPrime(num_group)`, a ratio
      outside (0, 1) throws `std::out_of_range`, and both hierarchies get
      `no_layer` layers whose layer 0 has exactly one counter per
      (row, group, bit) cell, all zero. */
  function New(hashes: nat, groups: nat, keyLen: nat, h: Hash, np: nat -> nat, ratio: real, noLayer: nat)
    : (r: Result<Built>)
    requires noLayer >= 1 && IsNextPrime(np)
    ensures r.Ok? <==> 0.0 < ratio < 1.0
    ensures r.Err? ==> r.error == OutOfRange
    ensures r.Ok? ==>
      && r.value.cf.groups >= groups && Valid(r.value.cf, r.value.s) && r.value.s.sum == 0
      && r.value.s.ch1 == H.Fresh(N1(r.value.cf)) && r.value.s.ch0 == H.Fresh(N0(r.value.cf))
      && |r.value.layers1| == noLayer && r.value.layers1[0] == N1(r.value.cf)
      && |r.value.layers0| == noLayer && r.value.layers0[0] == N0(r.value.cf)
  {
    var cf := D.MakeConfig(hashes, groups, keyLen, h, np);
    match H.CheckRatio(ratio)
    case Err(e) => Err(e)
    case Ok(_) =>
      H.LayerSizesShape(N1(cf), ratio, noLayer, np);
      H.LayerSizesShape(N0(cf), ratio, noLayer, np);
      Ok(Built(cf, Sketch(0, H.Fresh(N1(cf)), H.Fresh(N0(cf))),
        H.LayerSizes(N1(cf), ratio, noLayer, np), H.LayerSizes(N0(cf), ratio, noLayer, np)))
  }

  /** `clear()`: the sum and both hierarchies back to zero. */
  function Clear(cf: D.Config, s: Sketch): (r: Sketch)
    requires Valid(cf, s)
    ensures Valid(cf, r) && r.sum == 0 && r.ch1 == H.Fresh(N1(cf)) && r.ch0 == H.Fresh(N0(cf))
  {
    Sketch(0, H.Clear(s.ch1), H.Clear(s.ch0))
  }

  /** The inner loop of `update` for row `i`, group `g`, over bits `0 .. n - 1`. */
  function UpdateBits(cf: D.Config, s: Sketch, i: nat, g: nat, key: FlowKey, val: int, n: nat): (r: Sketch)
    requires Valid(cf, s) && D.KeyOk(cf, key) && i < cf.hashes && g < cf.groups && n <= D.NBits(cf)
    ensures Valid(cf, r) && r.sum == s.sum
  {
    if n == 0 then s
    else
      var t := UpdateBits(cf, s, i, g, key, val, n - 1);
      if GetBit(key, n - 1) then
        Idx1Layout(cf, i, g, n - 1);
        t.(ch1 := H.UpdateCnt(t.ch1, Idx1(cf, i, g, n - 1), val))
      else
        Idx0Layout(cf, i, g, n - 1);
        t.(ch0 := H.UpdateCnt(t.ch0, Idx0(cf, i, g, n - 1), val))
  }

  /** One pass of the outer loop of `update`: the bits of row `i`, then its group total. */
  function UpdateRow(cf: D.Config, s: Sketch, i: nat, key: FlowKey, val: int): (r: Sketch)
    requires D.WellFormed(cf) && Valid(cf, s) && D.KeyOk(cf, key) && i < cf.hashes
    ensures Valid(cf, r) && r.sum == s.sum
  {
    var g := D.Index(cf, i, key);
    var t := UpdateBits(cf, s, i, g, key, val, D.NBits(cf));
    Idx1Layout(cf, i, g, D.NBits(cf));
    t.(ch1 := H.UpdateCnt(t.ch1, Idx1(cf, i, g, D.NBits(cf)), val))
  }

  function UpdateRows(cf: D.Config, s: Sketch, key: FlowKey, val: int, n: nat): (r: Sketch)
    requires D.WellFormed(cf) && Valid(cf, s) && D.KeyOk(cf, key) && n <= cf.hashes
    ensures Valid(cf, r) && r.sum == s.sum
  {
    if n == 0 then s else UpdateRow(cf, UpdateRows(cf, s, key, val, n - 1), n - 1, key, val)
  }

  /** `update(key, val)`. */
  function Update(cf: D.Config, s: Sketch, key: FlowKey, val: int): (r: Sketch)
    requires D.WellFormed(cf) && Valid(cf, s) && D.KeyOk(cf, key)
    ensures Valid(cf, r) && r.sum == s.sum + val
  {
    UpdateRows(cf, s.(sum := s.sum + val), key, val, cf.hashes)
  }

  /** The counter `get_idx1_(i, g, k)` reads after `update` has passed rows
      `0 .. i - 1` (and bits `0 .. n - 1` of row `i`): it grew by `val`
      exactly when the update touched that cell. */
  predicate Touched1(cf: D.Config, key: FlowKey, i: nat, g: nat, k: nat)
    requires D.WellFormed(cf) && D.KeyOk(cf, key) && k <= D.NBits(cf)
  {
    g == D.Index(cf, i, key) && (k == D.NBits(cf) || GetBit(key, k))
  }

  predicate Touched0(cf: D.Config, key: FlowKey, i: nat, g: nat, k: nat)
    requires D.WellFormed(cf) && D.KeyOk(cf, key) && k < D.NBits(cf)
  {
    g == D.Index(cf, i, key) && !GetBit(key, k)
  }

  /** Counter `get_idx1_(i2, g2, k2)` is the one `updateCnt` hit at
      `get_idx1_(i, g, k)` only if the triples agree. */
  lemma Hit1(cf: D.Config, i: nat, g: nat, k: nat, i2: nat, g2: nat, k2: nat)
    requires i < cf.hashes && g < cf.groups && k <= D.NBits(cf)
    requires i2 < cf.hashes && g2 < cf.groups && k2 <= D.NBits(cf)
    ensures Idx1(cf, i2, g2, k2) < N1(cf)
    ensures Idx1(cf, i2, g2, k2) == Idx1(cf, i, g, k) <==> (i2 == i && g2 == g && k2 == k)
  {
    Idx1Layout(cf, i2, g2, k2);
    if Idx1(cf, i2, g2, k2) == Idx1(cf, i, g, k) {
      Idx1Injective(cf, i2, g2, k2, i, g, k);
    }
  }

  lemma Hit0(cf: D.Config, i: nat, g: nat, k: nat, i2: nat, g2: nat, k2: nat)
    requires i < cf.hashes && g < cf.groups && k < D.NBits(cf)
    requires i2 < cf.hashes && g2 < cf.groups && k2 < D.NBits(cf)
    ensures Idx0(cf, i2, g2, k2) < N0(cf)
    ensures Idx0(cf, i2, g2, k2) == Idx0(cf, i, g, k) <==> (i2 == i && g2 == g && k2 == k)
  {
    Idx0Layout(cf, i2, g2, k2);
    if Idx0(cf, i2, g2, k2) == Idx0(cf, i, g, k) {
      Idx0Injective(cf, i2, g2, k2, i, g, k);
    }
  }

  /** The counter of `arr1[i2][g2][k2]` after the bit loop of row `i` has passed `n` bits. */
  ghost predicate Bits1After(cf: D.Config, s: Sketch, r: Sketch, i: nat, g: nat, key: FlowKey, val: int, n: nat,
                             i2: nat, g2: nat, k2: nat)
    requires Valid(cf, s) && Valid(cf, r) && D.KeyOk(cf, key) && n <= D.NBits(cf)
    requires i2 < cf.hashes && g2 < cf.groups && k2 <= D.NBits(cf)
  {
    Hit1(cf, 0, 0, 0, i2, g2, k2);
    r.ch1.cnt[Idx1(cf, i2, g2, k2)]
      == s.ch1.cnt[Idx1(cf, i2, g2, k2)] + (if i2 == i && g2 == g && k2 < n && GetBit(key, k2) then val else 0)
  }

  ghost predicate Bits0After(cf: D.Config, s: Sketch, r: Sketch, i: nat, g: nat, key: FlowKey, val: int, n: nat,
                             i2: nat, g2: nat, k2: nat)
    requires Valid(cf, s) && Valid(cf, r) && D.KeyOk(cf, key) && n <= D.NBits(cf)
    requires i2 < cf.hashes && g2 < cf.groups && k2 < D.NBits(cf)
  {
    Hit0(cf, 0, 0, 0, i2, g2, k2);
    r.ch0.cnt[Idx0(cf, i2, g2, k2)]
      == s.ch0.cnt[Idx0(cf, i2, g2, k2)] + (if i2 == i && g2 == g && k2 < n && !GetBit(key, k2) then val else 0)
  }

  lemma {:induction false} UpdateBitsEffect(cf: D.Config, s: Sketch, i: nat, g: nat, key: FlowKey, val: int, n: nat)
    requires Valid(cf, s) && D.KeyOk(cf, key) && i < cf.hashes && g < cf.groups && n <= D.NBits(cf)
    ensures forall i2, g2, k2 :: 0 <= i2 < cf.hashes && 0 <= g2 < cf.groups && 0 <= k2 <= D.NBits(cf) ==>
      Bits1After(cf, s, UpdateBits(cf, s, i, g, key, val, n), i, g, key, val, n, i2, g2, k2)
    ensures forall i2, g2, k2 :: 0 <= i2 < cf.hashes && 0 <= g2 < cf.groups && 0 <= k2 < D.NBits(cf) ==>
      Bits0After(cf, s, UpdateBits(cf, s, i, g, key, val, n), i, g, key, val, n, i2, g2, k2)
  {
    if n > 0 {
      UpdateBitsEffect(cf, s, i, g, key, val, n - 1);
      var t := UpdateBits(cf, s, i, g, key, val, n - 1);
      var r := UpdateBits(cf, s, i, g, key, val, n);
      forall i2, g2, k2 | 0 <= i2 < cf.hashes && 0 <= g2 < cf.groups && 0 <= k2 <= D.NBits(cf)
        ensures Bits1After(cf, s, r, i, g, key, val, n, i2, g2, k2)
      {
        assert Bits1After(cf, s, t, i, g, key, val, n - 1, i2, g2, k2);
        Hit1(cf, i, g, n - 1, i2, g2, k2);
      }
      forall i2, g2, k2 | 0 <= i2 < cf.hashes && 0 <= g2 < cf.groups && 0 <= k2 < D.NBits(cf)
        ensures Bits0After(cf, s, r, i, g, key, val, n, i2, g2, k2)
      {
        assert Bits0After(cf, s, t, i, g, key, val, n - 1, i2, g2, k2);
        Hit0(cf, i, g, n - 1, i2, g2, k2);
      }
    }
  }

  ghost predicate Rows1After(cf: D.Config, s: Sketch, r: Sketch, key: FlowKey, val: int, n: nat,
                             i2: nat, g2: nat, k2: nat)
    requires D.WellFormed(cf) && Valid(cf, s) && Valid(cf, r) && D.KeyOk(cf, key)
    requires i2 < cf.hashes && g2 < cf.groups && k2 <= D.NBits(cf)
  {
    Hit1(cf, 0, 0, 0, i2, g2, k2);
    r.ch1.cnt[Idx1(cf, i2, g2, k2)]
      == s.ch1.cnt[Idx1(cf, i2, g2, k2)] + (if i2 < n && Touched1(cf, key, i2, g2, k2) then val else 0)
  }

  ghost predicate Rows0After(cf: D.Config, s: Sketch, r: Sketch, key: FlowKey, val: int, n: nat,
                             i2: nat, g2: nat, k2: nat)
    requires D.WellFormed(cf) && Valid(cf, s) && Valid(cf, r) && D.KeyOk(cf, key)
    requires i2 < cf.hashes && g2 < cf.groups && k2 < D.NBits(cf)
  {
    Hit0(cf, 0, 0, 0, i2, g2, k2);
    r.ch0.cnt[Idx0(cf, i2, g2, k2)]
      == s.ch0.cnt[Idx0(cf, i2, g2, k2)] + (if i2 < n && Touched0(cf, key, i2, g2, k2) then val else 0)
  }

  /** After the outer loop has passed rows `0 .. n - 1`, exactly the cells the
      update touched in those rows have grown by `val`. */
  lemma {:induction false} UpdateRowsEffect(cf: D.Config, s: Sketch, key: FlowKey, val: int, n: nat)
    requires D.WellFormed(cf) && Valid(cf, s) && D.KeyOk(cf, key) && n <= cf.hashes
    ensures forall i2, g2, k2 :: 0 <= i2 < cf.hashes && 0 <= g2 < cf.groups && 0 <= k2 <= D.NBits(cf) ==>
      Rows1After(cf, s, UpdateRows(cf, s, key, val, n), key, val, n, i2, g2, k2)
    ensures forall i2, g2, k2 :: 0 <= i2 < cf.hashes && 0 <= g2 < cf.groups && 0 <= k2 < D.NBits(cf) ==>
      Rows0After(cf, s, UpdateRows(cf, s, key, val, n), key, val, n, i2, g2, k2)
  {
    if n > 0 {
      var i := n - 1;
      var g := D.Index(cf, i, key);
      var pre := UpdateRows(cf, s, key, val, n - 1);
      UpdateRowsEffect(cf, s, key, val, n - 1);
      UpdateBitsEffect(cf, pre, i, g, key, val, D.NBits(cf));
      var t := UpdateBits(cf, pre, i, g, key, val, D.NBits(cf));
      var r := UpdateRows(cf, s, key, val, n);
      forall i2, g2, k2 | 0 <= i2 < cf.hashes && 0 <= g2 < cf.groups && 0 <= k2 <= D.NBits(cf)
        ensures Rows1After(cf, s, r, key, val, n, i2, g2, k2)
      {
        assert Rows1After(cf, s, pre, key, val, n - 1, i2, g2, k2);
        assert Bits1After(cf, pre, t, i, g, key, val, D.NBits(cf), i2, g2, k2);
        Hit1(cf, i, g, D.NBits(cf), i2, g2, k2);
      }
      forall i2, g2, k2 | 0 <= i2 < cf.hashes && 0 <= g2 < cf.groups && 0 <= k2 < D.NBits(cf)
        ensures Rows0After(cf, s, r, key, val, n, i2, g2, k2)
      {
        assert Rows0After(cf, s, pre, key, val, n - 1, i2, g2, k2);
        assert Bits0After(cf, pre, t, i, g, key, val, D.NBits(cf), i2, g2, k2);
      }
    }
  }

  /** The three-dimensional arrays the hierarchies stand for. */
  function View(cf: D.Config, s: Sketch): (v: D.Sketch)
    requires Valid(cf, s)
    ensures D.Valid(cf, v) && v.sum == s.sum
  {
    D.Sketch(s.sum,
      seq(cf.hashes, i requires 0 <= i < cf.hashes =>
        seq(cf.groups, g requires 0 <= g < cf.groups =>
          seq(D.NBits(cf) + 1, k requires 0 <= k <= D.NBits(cf) =>
            Idx1Layout(cf, i, g, k); s.ch1.cnt[Idx1(cf, i, g, k)]))),
      seq(cf.hashes, i requires 0 <= i < cf.hashes =>
        seq(cf.groups, g requires 0 <= g < cf.groups =>
          seq(D.NBits(cf), k requires 0 <= k < D.NBits(cf) =>
            Idx0Layout(cf, i, g, k); s.ch0.cnt[Idx0(cf, i, g, k)]))))
  }

  lemma ViewAt1(cf: D.Config, s: Sketch, i: nat, g: nat, k: nat)
    requires Valid(cf, s) && i < cf.hashes && g < cf.groups && k <= D.NBits(cf)
    ensures Idx1(cf, i, g, k) < N1(cf) && View(cf, s).arr1[i][g][k] == s.ch1.cnt[Idx1(cf, i, g, k)]
  {
    Idx1Layout(cf, i, g, k);
  }

  lemma ViewAt0(cf: D.Config, s: Sketch, i: nat, g: nat, k: nat)
    requires Valid(cf, s) && i < cf.hashes && g < cf.groups && k < D.NBits(cf)
    ensures Idx0(cf, i, g, k) < N0(cf) && View(cf, s).arr0[i][g][k] == s.ch0.cnt[Idx0(cf, i, g, k)]
  {
    Idx0Layout(cf, i, g, k);
  }

  /** Two Deltoid sketches of one shape that agree on every counter and on the sum are equal. */
  lemma DeltoidExtensional(cf: D.Config, a: D.Sketch, b: D.Sketch)
    requires D.Valid(cf, a) && D.Valid(cf, b) && a.sum == b.sum
    requires forall i, g, k :: 0 <= i < cf.hashes && 0 <= g < cf.groups && 0 <= k <= D.NBits(cf) ==>
      a.arr1[i][g][k] == b.arr1[i][g][k]
    requires forall i, g, k :: 0 <= i < cf.hashes && 0 <= g < cf.groups && 0 <= k < D.NBits(cf) ==>
      a.arr0[i][g][k] == b.arr0[i][g][k]
    ensures a == b
  {
    forall i | 0 <= i < cf.hashes
      ensures a.arr1[i] == b.arr1[i] && a.arr0[i] == b.arr0[i]
    {
      forall g | 0 <= g < cf.groups
        ensures a.arr1[i][g] == b.arr1[i][g] && a.arr0[i][g] == b.arr0[i][g]
      {
      }
    }
  }

  /** Through the view, `update` on the hierarchies is Deltoid's `update`. */
  lemma UpdateView(cf: D.Config, s: Sketch, key: FlowKey, val: int)
    requires D.WellFormed(cf) && Valid(cf, s) && D.KeyOk(cf, key)
    ensures View(cf, Update(cf, s, key, val)) == D.Update(cf, View(cf, s), key, val)
  {
    var s' := s.(sum := s.sum + val);
    var r := Update(cf, s, key, val);
    UpdateRowsEffect(cf, s', key, val, cf.hashes);
    var a := View(cf, r);
    var b := D.Update(cf, View(cf, s), key, val);
    forall i, g, k | 0 <= i < cf.hashes && 0 <= g < cf.groups && 0 <= k <= D.NBits(cf)
      ensures a.arr1[i][g][k] == b.arr1[i][g][k]
    {
      ViewAt1(cf, r, i, g, k);
      ViewAt1(cf, s, i, g, k);
      assert Rows1After(cf, s', r, key, val, cf.hashes, i, g, k);
    }
    forall i, g, k | 0 <= i < cf.hashes && 0 <= g < cf.groups && 0 <= k < D.NBits(cf)
      ensures a.arr0[i][g][k] == b.arr0[i][g][k]
    {
      ViewAt0(cf, r, i, g, k);
      ViewAt0(cf, s, i, g, k);
      assert Rows0After(cf, s', r, key, val, cf.hashes, i, g, k);
    }
    DeltoidExtensional(cf, a, b);
  }

  /** The counter `query` reads for `key` at bit `k` of row `i`. */
  function Pick(cf: D.Config, s: Sketch, i: nat, key: FlowKey, k: nat): int
    requires D.WellFormed(cf) && Valid(cf, s) && D.KeyOk(cf, key) && i < cf.hashes && k < D.NBits(cf)
  {
    var g := D.Index(cf, i, key);
    Idx1Layout(cf, i, g, k);
    Idx0Layout(cf, i, g, k);
    if GetBit(key, k) then H.GetCnt(s.ch1, Idx1(cf, i, g, k)) else H.GetCnt(s.ch0, Idx0(cf, i, g, k))
  }

  /** `query(key)`: the running minimum of the counters that speak for the
      key, seeded with `numeric_limits<T>::max()`. */
  function Query(cf: D.Config, s: Sketch, key: FlowKey): (q: int)
    requires D.WellFormed(cf) && Valid(cf, s) && D.KeyOk(cf, key)
    ensures q == D.Query(cf, View(cf, s), key)
  {
    RowsView(cf, s, key);
    MinFrom(TMax, Rows(cf, s, key))
  }

  /** Row `i`'s running minimum over the key's bit counters, read from the stores. */
  function Rows(cf: D.Config, s: Sketch, key: FlowKey): seq<int>
    requires D.WellFormed(cf) && Valid(cf, s) && D.KeyOk(cf, key)
  {
    seq(cf.hashes, i requires 0 <= i < cf.hashes =>
      MinFrom(TMax, seq(D.NBits(cf), k requires 0 <= k < D.NBits(cf) => Pick(cf, s, i, key, k))))
  }

  /** Through the view, every row's minimum is Deltoid's. */
  lemma RowsView(cf: D.Config, s: Sketch, key: FlowKey)
    requires D.WellFormed(cf) && Valid(cf, s) && D.KeyOk(cf, key)
    ensures Rows(cf, s, key) == seq(cf.hashes, i requires 0 <= i < cf.hashes => D.RowMin(cf, View(cf, s), i, key))
  {
    var v := View(cf, s);
    forall i | 0 <= i < cf.hashes
      ensures MinFrom(TMax, seq(D.NBits(cf), k requires 0 <= k < D.NBits(cf) => Pick(cf, s, i, key, k)))
           == D.RowMin(cf, v, i, key)
    {
      assert seq(D.NBits(cf), k requires 0 <= k < D.NBits(cf) => Pick(cf, s, i, key, k))
          == seq(D.NBits(cf), k requires 0 <= k < D.NBits(cf) => D.Pick(cf, v, i, key, k));
    }
  }

  /** `getHeavyHitter(threshold)`: Deltoid's loop, reading every counter
      through `getCnt(get_idx1_(..))` and `getCnt(get_idx0_(..))`. */
  function HeavyHitters(cf: D.Config, s: Sketch, threshold: real): (m: map<FlowKey, int>)
    requires D.WellFormed(cf) && Valid(cf, s)
    ensures forall k :: k in m <==> D.Yields(cf, View(cf, s), TruncReal(threshold), k)
    ensures forall k :: k in m ==> D.KeyOk(cf, k) && m[k] == Query(cf, s, k)
  {
    var m := D.HeavyHitters(cf, View(cf, s), threshold);
    forall k | k in m
      ensures m[k] == Query(cf, s, k)
    {
    }
    m
  }

  // ---------------------------------------------------------------------------
  // Streams

  function Run(cf: D.Config, st: seq<Item>): (s: Sketch)
    requires D.WellFormed(cf) && D.KeysOk(cf, st)
    ensures Valid(cf, s)
  {
    if |st| == 0 then Sketch(0, H.Fresh(N1(cf)), H.Fresh(N0(cf)))
    else Update(cf, Run(cf, st[..|st| - 1]), st[|st| - 1].key, st[|st| - 1].val)
  }

  /** Freshly built hierarchies stand for Deltoid's zeroed arrays. */
  lemma InitView(cf: D.Config)
    ensures View(cf, Sketch(0, H.Fresh(N1(cf)), H.Fresh(N0(cf)))) == D.Init(cf)
  {
    var s := Sketch(0, H.Fresh(N1(cf)), H.Fresh(N0(cf)));
    forall i, g, k | 0 <= i < cf.hashes && 0 <= g < cf.groups && 0 <= k <= D.NBits(cf)
      ensures View(cf, s).arr1[i][g][k] == D.Init(cf).arr1[i][g][k]
    {
      ViewAt1(cf, s, i, g, k);
    }
    forall i, g, k | 0 <= i < cf.hashes && 0 <= g < cf.groups && 0 <= k < D.NBits(cf)
      ensures View(cf, s).arr0[i][g][k] == D.Init(cf).arr0[i][g][k]
    {
      ViewAt0(cf, s, i, g, k);
    }
    DeltoidExtensional(cf, View(cf, s), D.Init(cf));
  }

  /** After any stream, the hierarchies hold exactly Deltoid's arrays. */
  lemma {:induction false} RunView(cf: D.Config, st: seq<Item>)
    requires D.WellFormed(cf) && D.KeysOk(cf, st)
    ensures View(cf, Run(cf, st)) == D.Run(cf, st)
  {
    if |st| == 0 {
      InitView(cf);
    } else {
      var pre := st[..|st| - 1];
      assert D.KeysOk(cf, pre);
      RunView(cf, pre);
      UpdateView(cf, Run(cf, pre), st[|st| - 1].key, st[|st| - 1].val);
    }
  }

  /** On a non-negative stream the query never falls below the true total
      (capped by `numeric_limits<T>::max()`). */
  lemma QueryNeverUnderestimates(cf: D.Config, st: seq<Item>, x: FlowKey)
    requires D.WellFormed(cf) && D.KeysOk(cf, st) && NonNegative(st) && D.KeyOk(cf, x)
    ensures Query(cf, Run(cf, st), x) >= Min(Total(st, x), TMax)
  {
    RunView(cf, st);
    D.QueryNeverUnderestimates(cf, st, x);
  }

  /** A flow alone in its group, with a total above a non-negative threshold, is reported. */
  lemma AloneFlowIsReported(cf: D.Config, st: seq<Item>, i: nat, x: FlowKey, threshold: real)
    requires D.WellFormed(cf) && D.KeysOk(cf, st) && D.KeyOk(cf, x) && i < cf.hashes
    requires D.AloneIn(cf, st, i, D.Index(cf, i, x), x)
    requires threshold >= 0.0 && Total(st, x) > TruncReal(threshold)
    ensures x in HeavyHitters(cf, Run(cf, st), threshold)
  {
    RunView(cf, st);
    D.AloneFlowIsRecovered(cf, st, i, x, threshold);
  }
}
