/** SketchLearn over a counter hierarchy (CHSketchLearn2Tuple): `l + 1`
    layers of `r` rows of `c` counters, `l = 8 * key_len` being the number of
    key bits. Layer 0 counts every update; layer `k` counts the updates whose
    key has bit `k - 1` set. All layers live in one hierarchy; learning copies
    them into the table `V`, from which large flows are removed and which the
    fallback query reads. Columns run from 1 to `c`. */
module SketchLearn {
  import opened Common
  import FlowKeys
  import H = Hierarchy

  datatype Config = Config(r: nat, c: nat, keyLen: nat, h: Hash)

  predicate WellFormed(cf: Config)
  {
    cf.c > 0
  }

  /** `l`: the number of key bits. */
  function L(cf: Config): nat { 8 * cf.keyLen }

  /** Layer-0 size of the hierarchy, `(l + 1) * r * c`. */
  function N(cf: Config): nat { (L(cf) + 1) * cf.r * cf.c }

  /** `chIdx(k, i, j)` for a column `j >= 1`. */
  function ChIdx(cf: Config, k: nat, i: nat, j: nat): nat
    requires j >= 1
  {
    k * cf.c * cf.r + i * cf.c + j - 1
  }

  /** The layout of the layers: every cell lies inside the hierarchy and
      distinct cells use distinct counters. */
  lemma ChIdxLayout(cf: Config, k: nat, i: nat, j: nat, k2: nat, i2: nat, j2: nat)
    requires k <= L(cf) && i < cf.r && 1 <= j <= cf.c
    requires k2 <= L(cf) && i2 < cf.r && 1 <= j2 <= cf.c
    ensures ChIdx(cf, k, i, j) < N(cf)
    ensures ChIdx(cf, k, i, j) == ChIdx(cf, k2, i2, j2) <==> k == k2 && i == i2 && j == j2
  {
    var rc := cf.r * cf.c;
    var b := i * cf.c + (j - 1);
    var b2 := i2 * cf.c + (j2 - 1);
    RowMajorBound(i, j - 1, cf.r, cf.c);
    RowMajorBound(i2, j2 - 1, cf.r, cf.c);
    assert cf.c * cf.r == rc;
    MulAssoc(k, cf.c, cf.r);
    MulAssoc(k2, cf.c, cf.r);
    MulAssoc(L(cf) + 1, cf.r, cf.c);
    assert ChIdx(cf, k, i, j) == k * rc + b;
    assert ChIdx(cf, k2, i2, j2) == k2 * rc + b2;
    RowMajorBound(k, b, L(cf) + 1, rc);
    if ChIdx(cf, k, i, j) == ChIdx(cf, k2, i2, j2) {
      RowMajorInjective(k, b, k2, b2, rc);
      RowMajorInjective(i, j - 1, i2, j2 - 1, cf.c);
    }
  }

  /** `get_bit(a, pos)`: bit `pos % 8` of byte `pos / 8`, as 0 or 1. */
  function GetBitOf(a: FlowKey, pos: nat): (b: nat)
    requires pos < 8 * |a|
    ensures b == 0 || b == 1
  {
    if FlowKeys.GetBit(a, pos) then 1 else 0
  }

  /** `set_bit(a, pos, v)`: sets the bit when `v == 1` and clears it for any
      other `v`. */
  function SetBitOf(a: FlowKey, pos: nat, v: int): (r: FlowKey)
    requires pos < 8 * |a|
    ensures |r| == |a|
  {
    FlowKeys.SetBit(a, pos, v == 1)
  }

  /** `get_bit` reads back what `set_bit` wrote, and no other bit moves. */
  lemma SetThenGet(a: FlowKey, pos: nat, v: int, q: nat)
    requires pos < 8 * |a| && q < 8 * |a|
    ensures GetBitOf(SetBitOf(a, pos, v), q) == if q == pos then (if v == 1 then 1 else 0) else GetBitOf(a, q)
  {
  }

  /** Layer `k` counts `key`: always for layer 0, for layer `k >= 1` when
      bit `k - 1` of the key is set. */
  predicate Hits(cf: Config, k: nat, key: FlowKey)
    requires k <= L(cf) && |key| == cf.keyLen
  {
    k == 0 || FlowKeys.GetBit(key, k - 1)
  }

  /** The column row `i` hashes `key` to: `hash_function[i](key) % c + 1`. */
  function Col(cf: Config, i: nat, key: FlowKey): (j: nat)
    requires WellFormed(cf)
    ensures 1 <= j <= cf.c
  {
    cf.h(i, key) % cf.c + 1
  }

  /** The hierarchy counter of `key` in row `i` of layer `k`. */
  function Slot(cf: Config, k: nat, i: nat, key: FlowKey): (n: nat)
    requires WellFormed(cf) && k <= L(cf) && i < cf.r
    ensures n < N(cf)
  {
    ChIdxLayout(cf, k, i, Col(cf, i, key), k, i, Col(cf, i, key));
    ChIdx(cf, k, i, Col(cf, i, key))
  }

  /** The learned table `V[k][i][j]`: `l + 1` layers of `r` rows of `c + 1`
      entries, entry 0 of each row unused. */
  type Table = seq<seq<seq<int>>>

  predicate TableOk(cf: Config, v: Table)
  {
    && |v| == L(cf) + 1
    && (forall k :: 0 <= k < |v| ==> |v[k]| == cf.r)
    && (forall k, i :: 0 <= k < |v| && 0 <= i < |v[k]| ==> |v[k][i]| == cf.c + 1)
  }

  /** A table of zeros, as the constructor and `clear()` leave it. */
  function ZeroTable(cf: Config): (v: Table)
    ensures TableOk(cf, v)
    ensures forall k, i, j :: 0 <= k <= L(cf) && 0 <= i < cf.r && 0 <= j <= cf.c ==> v[k][i][j] == 0
  {
    seq(L(cf) + 1, _ => seq(cf.r, _ => seq(cf.c + 1, _ => 0)))
  }

  /** A large flow found by learning: its key and its estimated size. */
  datatype Flow = Flow(key: FlowKey, size: nat)

  /** The sketch: the hierarchy, the learned table, the `updated` flag and
      the learned large flows. The learning statistics `p` and `sigma` are
      not part of this model. */
  datatype Sketch = Sketch(ch: H.Store, v: Table, updated: bool, large: seq<Flow>)

  predicate Valid(cf: Config, sk: Sketch)
  {
    |sk.ch.cnt| == N(cf) && TableOk(cf, sk.v)
  }

  datatype Built = Built(cf: Config, sk: Sketch, layers: seq<nat>)

  /** The constructor: the width is rounded up to `NextPrime(width)`; a ratio
      outside (0, 1) throws `std::out_of_range`; otherwise layer 0 of the
      hierarchy holds `(l + 1) * r * c` zero counters, the table is zero, no
      large flow is known and `updated` is set. */
  function New(depth: nat, width: nat, keyLen: nat, h: Hash, np: nat -> nat, ratio: real, noLayer: nat)
    : (r: Result<Built>)
    requires noLayer >= 1 && IsNextPrime(np)
    ensures r.Ok? <==> 0.0 < ratio < 1.0
    ensures r.Err? ==> r.error == OutOfRange
    ensures r.Ok? ==>
      && r.value.cf.r == depth && r.value.cf.c >= width && r.value.cf.keyLen == keyLen && WellFormed(r.value.cf)
      && Valid(r.value.cf, r.value.sk)
      && r.value.sk.ch == H.Fresh(N(r.value.cf)) && r.value.sk.v == ZeroTable(r.value.cf)
      && r.value.sk.updated && r.value.sk.large == []
      && |r.value.layers| == noLayer && r.value.layers[0] == (8 * keyLen + 1) * depth * r.value.cf.c
  {
    var cf := Config(depth, np(width), keyLen, h);
    match H.CheckRatio(ratio)
    case Err(e) => Err(e)
    case Ok(_) =>
      H.LayerSizesShape(N(cf), ratio, noLayer, np);
      Ok(Built(cf, Sketch(H.Fresh(N(cf)), ZeroTable(cf), true, []), H.LayerSizes(N(cf), ratio, noLayer, np)))
  }

  /** The `r` rows of layer `k`, rows `0 .. n - 1`: each adds `val` at the key's column. */
  function AddRows(cf: Config, s: H.Store, k: nat, key: FlowKey, val: int, n: nat): (t: H.Store)
    requires WellFormed(cf) && |s.cnt| == N(cf) && k <= L(cf) && n <= cf.r
    ensures |t.cnt| == N(cf)
  {
    if n == 0 then s else H.UpdateCnt(AddRows(cf, s, k, key, val, n - 1), Slot(cf, k, n - 1, key), val)
  }

  /** The layers `0 .. m - 1` of `update`: layer 0 always, layer `k` when
      the key has bit `k - 1` set. */
  function AddLayers(cf: Config, s: H.Store, key: FlowKey, val: int, m: nat): (t: H.Store)
    requires WellFormed(cf) && |s.cnt| == N(cf) && |key| == cf.keyLen && m <= L(cf) + 1
    ensures |t.cnt| == N(cf)
  {
    if m == 0 then s
    else
      var p := AddLayers(cf, s, key, val, m - 1);
      if Hits(cf, m - 1, key) then AddRows(cf, p, m - 1, key, val, cf.r) else p
  }

  /** `update(key, val)`: only the hierarchy changes; the table, the flag and
      the large flows are left as they are. */
  function Update(cf: Config, sk: Sketch, key: FlowKey, val: int): (r: Sketch)
    requires WellFormed(cf) && Valid(cf, sk) && |key| == cf.keyLen
    ensures Valid(cf, r)
    ensures r.v == sk.v && r.updated == sk.updated && r.large == sk.large
  {
    sk.(ch := AddLayers(cf, sk.ch, key, val, L(cf) + 1))
  }

  lemma {:induction false} AddRowsAt(cf: Config, s: H.Store, k0: nat, key: FlowKey, val: int, n: nat, k: nat, i: nat, j: nat)
    requires WellFormed(cf) && |s.cnt| == N(cf) && k0 <= L(cf) && n <= cf.r
    requires k <= L(cf) && i < cf.r && 1 <= j <= cf.c && ChIdx(cf, k, i, j) < N(cf)
    ensures AddRows(cf, s, k0, key, val, n).cnt[ChIdx(cf, k, i, j)] ==
      s.cnt[ChIdx(cf, k, i, j)] + (if k == k0 && i < n && j == Col(cf, i, key) then val else 0)
  {
    if n > 0 {
      AddRowsAt(cf, s, k0, key, val, n - 1, k, i, j);
      ChIdxLayout(cf, k, i, j, k0, n - 1, Col(cf, n - 1, key));
    }
  }

  lemma {:induction false} AddLayersAt(cf: Config, s: H.Store, key: FlowKey, val: int, m: nat, k: nat, i: nat, j: nat)
    requires WellFormed(cf) && |s.cnt| == N(cf) && |key| == cf.keyLen && m <= L(cf) + 1
    requires k <= L(cf) && i < cf.r && 1 <= j <= cf.c && ChIdx(cf, k, i, j) < N(cf)
    ensures AddLayers(cf, s, key, val, m).cnt[ChIdx(cf, k, i, j)] ==
      s.cnt[ChIdx(cf, k, i, j)] + (if k < m && Hits(cf, k, key) && j == Col(cf, i, key) then val else 0)
  {
    if m > 0 {
      AddLayersAt(cf, s, key, val, m - 1, k, i, j);
      AddLayersStep(cf, s, key, val, m, k, i, j);
    }
  }

  /** The last layer of `AddLayers` touches only its own counters. */
  lemma AddLayersStep(cf: Config, s: H.Store, key: FlowKey, val: int, m: nat, k: nat, i: nat, j: nat)
    requires WellFormed(cf) && |s.cnt| == N(cf) && |key| == cf.keyLen && 1 <= m <= L(cf) + 1
    requires k <= L(cf) && i < cf.r && 1 <= j <= cf.c && ChIdx(cf, k, i, j) < N(cf)
    ensures AddLayers(cf, s, key, val, m).cnt[ChIdx(cf, k, i, j)] ==
      AddLayers(cf, s, key, val, m - 1).cnt[ChIdx(cf, k, i, j)] + (if k == m - 1 && Hits(cf, k, key) && j == Col(cf, i, key) then val else 0)
  {
    var p := AddLayers(cf, s, key, val, m - 1);
    if Hits(cf, m - 1, key) {
      AddRowsAt(cf, p, m - 1, key, val, cf.r, k, i, j);
    }
  }

  /** `update` adds `val` to the key's column in every row of layer 0 and
      of every layer whose bit the key has set, and to no other counter. */
  lemma UpdateAt(cf: Config, sk: Sketch, key: FlowKey, val: int, k: nat, i: nat, j: nat)
    requires WellFormed(cf) && Valid(cf, sk) && |key| == cf.keyLen
    requires k <= L(cf) && i < cf.r && 1 <= j <= cf.c
    ensures ChIdx(cf, k, i, j) < N(cf)
    ensures Update(cf, sk, key, val).ch.cnt[ChIdx(cf, k, i, j)] ==
      sk.ch.cnt[ChIdx(cf, k, i, j)] + (if Hits(cf, k, key) && j == Col(cf, i, key) then val else 0)
  {
    ChIdxLayout(cf, k, i, j, k, i, j);
    AddLayersAt(cf, sk.ch, key, val, L(cf) + 1, k, i, j);
  }

  /** Every key of the stream has the sketch's key length. */
  predicate Keyed(cf: Config, st: seq<Item>)
  {
    forall n :: 0 <= n < |st| ==> |st[n].key| == cf.keyLen
  }

  /** The hierarchy after feeding `st` to a fresh one. */
  function Run(cf: Config, st: seq<Item>): (s: H.Store)
    requires WellFormed(cf) && Keyed(cf, st)
    ensures |s.cnt| == N(cf)
  {
    if |st| == 0 then H.Fresh(N(cf))
    else
      var pre := st[..|st| - 1];
      assert Keyed(cf, pre) by {
        forall n | 0 <= n < |pre| ensures |pre[n].key| == cf.keyLen {
          assert pre[n] == st[n];
        }
      }
      AddLayers(cf, Run(cf, pre), st[|st| - 1].key, st[|st| - 1].val, L(cf) + 1)
  }

  /** The reference value of the counter in layer `k`, row `i`, column `j`:
      the values of the updates whose key the layer counts and that hash to
      column `j` in row `i`. */
  function Load(cf: Config, st: seq<Item>, k: nat, i: nat, j: nat): int
    requires WellFormed(cf) && Keyed(cf, st) && k <= L(cf)
  {
    if |st| == 0 then 0
    else
      var pre := st[..|st| - 1];
      var it := st[|st| - 1];
      assert Keyed(cf, pre) by {
        forall n | 0 <= n < |pre| ensures |pre[n].key| == cf.keyLen {
          assert pre[n] == st[n];
        }
      }
      Load(cf, pre, k, i, j) + (if Hits(cf, k, it.key) && Col(cf, i, it.key) == j then it.val else 0)
  }

  /** Every counter of a run holds its reference value. */
  lemma {:induction false} RunLoad(cf: Config, st: seq<Item>, k: nat, i: nat, j: nat)
    requires WellFormed(cf) && Keyed(cf, st) && k <= L(cf) && i < cf.r && 1 <= j <= cf.c
    ensures ChIdx(cf, k, i, j) < N(cf)
    ensures Run(cf, st).cnt[ChIdx(cf, k, i, j)] == Load(cf, st, k, i, j)
  {
    ChIdxLayout(cf, k, i, j, k, i, j);
    if |st| > 0 {
      var pre := st[..|st| - 1];
      assert Keyed(cf, pre) by {
        forall n | 0 <= n < |pre| ensures |pre[n].key| == cf.keyLen {
          assert pre[n] == st[n];
        }
      }
      RunLoad(cf, pre, k, i, j);
      AddLayersAt(cf, Run(cf, pre), st[|st| - 1].key, st[|st| - 1].val, L(cf) + 1, k, i, j);
    }
  }

  /** On a non-negative stream a bit layer never holds more than layer 0 at
      the same row and column, and the difference is the mass of the keys
      with that bit clear: at least the total of any such key hashing there. */
  lemma {:induction false} LayerBelowZero(cf: Config, st: seq<Item>, k: nat, i: nat, j: nat, x: FlowKey)
    requires WellFormed(cf) && Keyed(cf, st) && NonNegative(st) && 1 <= k <= L(cf) && |x| == cf.keyLen
    ensures 0 <= Load(cf, st, k, i, j) <= Load(cf, st, 0, i, j)
    ensures Hits(cf, k, x) && Col(cf, i, x) == j ==> Load(cf, st, k, i, j) >= Total(st, x)
    ensures !Hits(cf, k, x) && Col(cf, i, x) == j ==> Load(cf, st, 0, i, j) - Load(cf, st, k, i, j) >= Total(st, x)
  {
    if |st| > 0 {
      var pre := st[..|st| - 1];
      assert Keyed(cf, pre) by {
        forall n | 0 <= n < |pre| ensures |pre[n].key| == cf.keyLen {
          assert pre[n] == st[n];
        }
      }
      assert NonNegative(pre);
      LayerBelowZero(cf, pre, k, i, j, x);
      assert st[|st| - 1].val >= 0;
    }
  }

  /** What the fallback query compares in row `i` for bit `k`: the bit
      layer's counter when the key has the bit set, otherwise layer 0 less
      the bit layer. */
  function Cand(cf: Config, v: Table, key: FlowKey, i: nat, k: nat): int
    requires WellFormed(cf) && TableOk(cf, v) && |key| == cf.keyLen && i < cf.r && 1 <= k <= L(cf)
  {
    var j := Col(cf, i, key);
    if FlowKeys.GetBit(key, k - 1) then v[k][i][j] else v[0][i][j] - v[k][i][j]
  }

  /** The fallback query's starting value `0xfffffff`. */
  const QInit: int := 0xfffffff

  /** The inner loop of the fallback query over bits `1 .. m` of row `i`. */
  function RowMin(cf: Config, v: Table, key: FlowKey, i: nat, seed: int, m: nat): (q: int)
    requires WellFormed(cf) && TableOk(cf, v) && |key| == cf.keyLen && i < cf.r && m <= L(cf)
    ensures q <= seed
    ensures forall k :: 1 <= k <= m ==> q <= Cand(cf, v, key, i, k)
    ensures q == seed || exists k :: 1 <= k <= m && q == Cand(cf, v, key, i, k)
  {
    if m == 0 then seed else Min(RowMin(cf, v, key, i, seed, m - 1), Cand(cf, v, key, i, m))
  }

  /** The outer loop of the fallback query over rows `0 .. n - 1`. */
  function RowsMin(cf: Config, v: Table, key: FlowKey, n: nat): (q: int)
    requires WellFormed(cf) && TableOk(cf, v) && |key| == cf.keyLen && n <= cf.r
    ensures q <= QInit
    ensures forall i, k :: 0 <= i < n && 1 <= k <= L(cf) ==> q <= Cand(cf, v, key, i, k)
    ensures q == QInit || exists i, k :: 0 <= i < n && 1 <= k <= L(cf) && q == Cand(cf, v, key, i, k)
  {
    if n == 0 then QInit else RowMin(cf, v, key, n - 1, RowsMin(cf, v, key, n - 1), L(cf))
  }

  /** The fallback of `query(key)` once no learned large flow matches: the
      smallest comparison over all rows and bits, from `0xfffffff`. */
  function Query(cf: Config, v: Table, key: FlowKey): (q: int)
    requires WellFormed(cf) && TableOk(cf, v) && |key| == cf.keyLen
    ensures q <= QInit
    ensures forall i, k :: 0 <= i < cf.r && 1 <= k <= L(cf) ==> q <= Cand(cf, v, key, i, k)
    ensures q == QInit || exists i, k :: 0 <= i < cf.r && 1 <= k <= L(cf) && q == Cand(cf, v, key, i, k)
  {
    RowsMin(cf, v, key, cf.r)
  }

  /** The counter of layer `k`, row `i`, column `j`: `chGetCnt(k, i, j)`. */
  function Counter(cf: Config, s: H.Store, k: nat, i: nat, j: nat): (n: int)
    requires WellFormed(cf) && |s.cnt| == N(cf) && k <= L(cf) && i < cf.r && 1 <= j <= cf.c
    ensures ChIdx(cf, k, i, j) < N(cf) && n == s.cnt[ChIdx(cf, k, i, j)]
  {
    ChIdxLayout(cf, k, i, j, k, i, j);
    s.cnt[ChIdx(cf, k, i, j)]
  }

  /** One row of the debug build's copy: entry `j >= 1` becomes its counter. */
  function LearnRow(cf: Config, row: seq<int>, s: H.Store, k: nat, i: nat): (t: seq<int>)
    requires WellFormed(cf) && |row| == cf.c + 1 && |s.cnt| == N(cf) && k <= L(cf) && i < cf.r
    ensures |t| == cf.c + 1 && t[0] == row[0]
    ensures forall j :: 1 <= j <= cf.c ==> t[j] == Counter(cf, s, k, i, j)
  {
    seq(cf.c + 1, j requires 0 <= j <= cf.c => if j == 0 then row[0] else Counter(cf, s, k, i, j))
  }

  /** One row of the release build's copy: entry `j >= 1` grows by its counter. */
  function LearnRowAsWritten(cf: Config, row: seq<int>, s: H.Store, k: nat, i: nat): (t: seq<int>)
    requires WellFormed(cf) && |row| == cf.c + 1 && |s.cnt| == N(cf) && k <= L(cf) && i < cf.r
    ensures |t| == cf.c + 1 && t[0] == row[0]
    ensures forall j :: 1 <= j <= cf.c ==> t[j] == row[j] + Counter(cf, s, k, i, j)
  {
    seq(cf.c + 1, j requires 0 <= j <= cf.c => if j == 0 then row[0] else row[j] + Counter(cf, s, k, i, j))
  }

  /** The learning step's copy of the hierarchy into the table as the
      debug build writes it, `V[k][i][j] = chGetCnt(k, i, j)` for every
      column `1 .. c`. */
  function Learn(cf: Config, v: Table, s: H.Store): (t: Table)
    requires WellFormed(cf) && TableOk(cf, v) && |s.cnt| == N(cf)
    ensures TableOk(cf, t)
    ensures forall k, i :: 0 <= k <= L(cf) && 0 <= i < cf.r ==> t[k][i] == LearnRow(cf, v[k][i], s, k, i)
  {
    seq(L(cf) + 1, k requires 0 <= k <= L(cf) =>
      seq(cf.r, i requires 0 <= i < cf.r => LearnRow(cf, v[k][i], s, k, i)))
  }

  /** The copy as the release build writes it: `V[k][i][j] += chGetCnt(k, i, j)`. */
  function LearnAsWritten(cf: Config, v: Table, s: H.Store): (t: Table)
    requires WellFormed(cf) && TableOk(cf, v) && |s.cnt| == N(cf)
    ensures TableOk(cf, t)
    ensures forall k, i :: 0 <= k <= L(cf) && 0 <= i < cf.r ==> t[k][i] == LearnRowAsWritten(cf, v[k][i], s, k, i)
  {
    seq(L(cf) + 1, k requires 0 <= k <= L(cf) =>
      seq(cf.r, i requires 0 <= i < cf.r => LearnRowAsWritten(cf, v[k][i], s, k, i)))
  }

  /** From the zero table the constructor and `clear()` leave, the release
      build's first copy is the debug build's: adding to zero assigns. */
  lemma LearnFromZero(cf: Config, s: H.Store)
    requires WellFormed(cf) && |s.cnt| == N(cf)
    ensures LearnAsWritten(cf, ZeroTable(cf), s) == Learn(cf, ZeroTable(cf), s)
  {
    var z := ZeroTable(cf);
    var a := LearnAsWritten(cf, z, s);
    var b := Learn(cf, z, s);
    forall k, i | 0 <= k <= L(cf) && 0 <= i < cf.r
      ensures a[k][i] == b[k][i]
    {
      assert LearnRowAsWritten(cf, z[k][i], s, k, i) == LearnRow(cf, z[k][i], s, k, i);
    }
    forall k | 0 <= k <= L(cf)
      ensures a[k] == b[k]
    {
    }
  }

  /** Learning twice from unchanged counters gives the table learning once
      gives: the copy is idempotent. */
  lemma LearnTwice(cf: Config, v: Table, s: H.Store)
    requires WellFormed(cf) && TableOk(cf, v) && |s.cnt| == N(cf)
    ensures Learn(cf, Learn(cf, v, s), s) == Learn(cf, v, s)
  {
    var a := Learn(cf, Learn(cf, v, s), s);
    var b := Learn(cf, v, s);
    forall k | 0 <= k <= L(cf) ensures a[k] == b[k] {
      forall i | 0 <= i < cf.r ensures a[k][i] == b[k][i] {
        assert forall j :: 0 <= j <= cf.c ==> a[k][i][j] == b[k][i][j];
      }
    }
  }

  /** On a non-negative stream the fallback query over the learned table
      never under-estimates, capped at its starting value. */
  lemma QueryNeverUnderestimates(cf: Config, v: Table, st: seq<Item>, x: FlowKey)
    requires WellFormed(cf) && TableOk(cf, v) && Keyed(cf, st) && NonNegative(st) && |x| == cf.keyLen
    ensures Query(cf, Learn(cf, v, Run(cf, st)), x) >= Min(Total(st, x), QInit)
  {
    var t := Learn(cf, v, Run(cf, st));
    var q := Query(cf, t, x);
    if q != QInit {
      var i, k :| 0 <= i < cf.r && 1 <= k <= L(cf) && q == Cand(cf, t, x, i, k);
      CandCovers(cf, v, st, x, i, k);
    }
  }

  /** The release build's first learning after construction or `clear()`
      never underestimates either. */
  lemma FirstLearnNeverUnderestimates(cf: Config, st: seq<Item>, x: FlowKey)
    requires WellFormed(cf) && Keyed(cf, st) && NonNegative(st) && |x| == cf.keyLen
    ensures Query(cf, LearnAsWritten(cf, ZeroTable(cf), Run(cf, st)), x) >= Min(Total(st, x), QInit)
  {
    LearnFromZero(cf, Run(cf, st));
    QueryNeverUnderestimates(cf, ZeroTable(cf), st, x);
  }

  /** On a non-negative stream every comparison of the learned table is at
      least the key's total. */
  lemma CandCovers(cf: Config, v: Table, st: seq<Item>, x: FlowKey, i: nat, k: nat)
    requires WellFormed(cf) && TableOk(cf, v) && Keyed(cf, st) && NonNegative(st) && |x| == cf.keyLen
    requires i < cf.r && 1 <= k <= L(cf)
    ensures Cand(cf, Learn(cf, v, Run(cf, st)), x, i, k) >= Total(st, x)
  {
    var j := Col(cf, i, x);
    RunLoad(cf, st, k, i, j);
    RunLoad(cf, st, 0, i, j);
    LayerBelowZero(cf, st, k, i, j, x);
  }

  /** Every key of the stream is `x`. */
  predicate Only(st: seq<Item>, x: FlowKey)
  {
    forall n :: 0 <= n < |st| ==> st[n].key == x
  }

  /** With `x` the only key, each counter of `x` holds its total on the
      layers that count it and zero on the others. */
  lemma {:induction false} OnlyLoad(cf: Config, st: seq<Item>, x: FlowKey, k: nat, i: nat)
    requires WellFormed(cf) && Keyed(cf, st) && Only(st, x) && k <= L(cf) && |x| == cf.keyLen
    ensures Load(cf, st, k, i, Col(cf, i, x)) == if Hits(cf, k, x) then Total(st, x) else 0
  {
    if |st| > 0 {
      var pre := st[..|st| - 1];
      assert Keyed(cf, pre) by {
        forall n | 0 <= n < |pre| ensures |pre[n].key| == cf.keyLen {
          assert pre[n] == st[n];
        }
      }
      assert Only(pre, x) by {
        forall n | 0 <= n < |pre| ensures pre[n].key == x {
          assert pre[n] == st[n];
        }
      }
      OnlyLoad(cf, pre, x, k, i);
      assert st[|st| - 1].key == x;
    }
  }

  /** With every comparison equal to `t` and at least one row and one bit,
      the fallback query answers `t`, capped at its starting value. */
  lemma QueryOfEqual(cf: Config, v: Table, key: FlowKey, t: int)
    requires WellFormed(cf) && TableOk(cf, v) && |key| == cf.keyLen && cf.r >= 1 && cf.keyLen >= 1
    requires forall i, k :: 0 <= i < cf.r && 1 <= k <= L(cf) ==> Cand(cf, v, key, i, k) == t
    ensures Query(cf, v, key) == Min(t, QInit)
  {
    assert Query(cf, v, key) <= Cand(cf, v, key, 0, 1);
  }

  /** With a single key, the table learned once answers its total and the
      table learned twice by the release build answers twice its total. */
  lemma {:induction false} LearnAsWrittenDoubles(cf: Config, st: seq<Item>, x: FlowKey)
    requires WellFormed(cf) && Keyed(cf, st) && Only(st, x) && |x| == cf.keyLen && cf.r >= 1 && cf.keyLen >= 1
    ensures Query(cf, Learn(cf, ZeroTable(cf), Run(cf, st)), x) == Min(Total(st, x), QInit)
    ensures Query(cf, LearnAsWritten(cf, LearnAsWritten(cf, ZeroTable(cf), Run(cf, st)), Run(cf, st)), x)
      == Min(2 * Total(st, x), QInit)
  {
    var s := Run(cf, st);
    var z := ZeroTable(cf);
    var once := Learn(cf, z, s);
    var twice := LearnAsWritten(cf, LearnAsWritten(cf, z, s), s);
    var tot := Total(st, x);
    forall i, k | 0 <= i < cf.r && 1 <= k <= L(cf)
      ensures Cand(cf, once, x, i, k) == tot && Cand(cf, twice, x, i, k) == 2 * tot
    {
      var j := Col(cf, i, x);
      RunLoad(cf, st, k, i, j);
      RunLoad(cf, st, 0, i, j);
      OnlyLoad(cf, st, x, k, i);
      OnlyLoad(cf, st, x, 0, i);
    }
    QueryOfEqual(cf, once, x, tot);
    QueryOfEqual(cf, twice, x, 2 * tot);
  }

  /** `RemoveFlows` for one flow, rows `0 .. n - 1` of layer `k`: each loses
      the flow's size at the flow's column. */
  function SubRows(cf: Config, v: Table, k: nat, key: FlowKey, size: int, n: nat): (t: Table)
    requires WellFormed(cf) && TableOk(cf, v) && k <= L(cf) && n <= cf.r
    ensures TableOk(cf, t)
  {
    if n == 0 then v
    else
      var p := SubRows(cf, v, k, key, size, n - 1);
      var j := Col(cf, n - 1, key);
      p[k := p[k][n - 1 := p[k][n - 1][j := p[k][n - 1][j] - size]]]
  }

  /** Layers `0 .. m - 1` of `RemoveFlows` for one flow: layer 0 always,
      layer `k` when `get_bit(flow, k - 1)` is set. */
  function SubLayers(cf: Config, v: Table, key: FlowKey, size: int, m: nat): (t: Table)
    requires WellFormed(cf) && TableOk(cf, v) && |key| == cf.keyLen && m <= L(cf) + 1
    ensures TableOk(cf, t)
  {
    if m == 0 then v
    else
      var p := SubLayers(cf, v, key, size, m - 1);
      if Hits(cf, m - 1, key) then SubRows(cf, p, m - 1, key, size, cf.r) else p
  }

  /** One flow of `RemoveFlows`. */
  function RemoveFlow(cf: Config, v: Table, f: Flow): (t: Table)
    requires WellFormed(cf) && TableOk(cf, v) && |f.key| == cf.keyLen
    ensures TableOk(cf, t)
  {
    SubLayers(cf, v, f.key, f.size, L(cf) + 1)
  }

  /** `RemoveFlows()`: every flow of `flows_to_remove`, in order. */
  function RemoveFlows(cf: Config, v: Table, fs: seq<Flow>): (t: Table)
    requires WellFormed(cf) && TableOk(cf, v) && forall n :: 0 <= n < |fs| ==> |fs[n].key| == cf.keyLen
    ensures TableOk(cf, t)
  {
    if |fs| == 0 then v else RemoveFlow(cf, RemoveFlows(cf, v, fs[..|fs| - 1]), fs[|fs| - 1])
  }

  lemma {:induction false} SubRowsAt(cf: Config, v: Table, k0: nat, key: FlowKey, size: int, n: nat, k: nat, i: nat, j: nat)
    requires WellFormed(cf) && TableOk(cf, v) && k0 <= L(cf) && n <= cf.r
    requires k <= L(cf) && i < cf.r && j <= cf.c
    ensures SubRows(cf, v, k0, key, size, n)[k][i][j] ==
      v[k][i][j] - (if k == k0 && i < n && j == Col(cf, i, key) then size else 0)
  {
    if n > 0 {
      SubRowsAt(cf, v, k0, key, size, n - 1, k, i, j);
    }
  }

  lemma {:induction false} SubLayersAt(cf: Config, v: Table, key: FlowKey, size: int, m: nat, k: nat, i: nat, j: nat)
    requires WellFormed(cf) && TableOk(cf, v) && |key| == cf.keyLen && m <= L(cf) + 1
    requires k <= L(cf) && i < cf.r && j <= cf.c
    ensures SubLayers(cf, v, key, size, m)[k][i][j] ==
      v[k][i][j] - (if k < m && Hits(cf, k, key) && j == Col(cf, i, key) then size else 0)
  {
    if m > 0 {
      SubLayersAt(cf, v, key, size, m - 1, k, i, j);
      SubLayersStep(cf, v, key, size, m, k, i, j);
    }
  }

  /** The last layer of `SubLayers` touches only its own cells. */
  lemma SubLayersStep(cf: Config, v: Table, key: FlowKey, size: int, m: nat, k: nat, i: nat, j: nat)
    requires WellFormed(cf) && TableOk(cf, v) && |key| == cf.keyLen && 1 <= m <= L(cf) + 1
    requires k <= L(cf) && i < cf.r && j <= cf.c
    ensures SubLayers(cf, v, key, size, m)[k][i][j] ==
      SubLayers(cf, v, key, size, m - 1)[k][i][j] - (if k == m - 1 && Hits(cf, k, key) && j == Col(cf, i, key) then size else 0)
  {
    var p := SubLayers(cf, v, key, size, m - 1);
    if Hits(cf, m - 1, key) {
      SubRowsAt(cf, p, m - 1, key, size, cf.r, k, i, j);
    }
  }

  /** Removing a flow takes its size off exactly the cells `update` adds
      its value to: a table learned after an update of `key` by `size`, with
      that flow removed, is the table learned before the update. */
  lemma RemoveUndoesUpdate(cf: Config, v: Table, sk: Sketch, key: FlowKey, size: nat)
    requires WellFormed(cf) && TableOk(cf, v) && Valid(cf, sk) && |key| == cf.keyLen
    ensures RemoveFlow(cf, Learn(cf, v, Update(cf, sk, key, size).ch), Flow(key, size)) == Learn(cf, v, sk.ch)
  {
    var a := RemoveFlow(cf, Learn(cf, v, Update(cf, sk, key, size).ch), Flow(key, size));
    var b := Learn(cf, v, sk.ch);
    forall k | 0 <= k <= L(cf) ensures a[k] == b[k] {
      forall i | 0 <= i < cf.r ensures a[k][i] == b[k][i] {
        forall j | 0 <= j <= cf.c ensures a[k][i][j] == b[k][i][j] {
          SubLayersAt(cf, Learn(cf, v, Update(cf, sk, key, size).ch), key, size, L(cf) + 1, k, i, j);
          if j >= 1 {
            UpdateAt(cf, sk, key, size, k, i, j);
          }
        }
      }
    }
  }

  /** `clear()`: the hierarchy and the table back to zero, no large flow,
      `updated` reset. */
  function Clear(cf: Config, sk: Sketch): (r: Sketch)
    requires Valid(cf, sk)
    ensures Valid(cf, r)
    ensures r.ch == H.Fresh(N(cf)) && r.v == ZeroTable(cf) && !r.updated && r.large == []
  {
    Sketch(H.Clear(sk.ch), ZeroTable(cf), false, [])
  }

  /** After `clear()` the fallback query answers zero for every key, given
      a row and a key bit to compare. */
  lemma QueryAfterClear(cf: Config, sk: Sketch, x: FlowKey)
    requires WellFormed(cf) && Valid(cf, sk) && |x| == cf.keyLen && cf.r >= 1 && cf.keyLen >= 1
    ensures Query(cf, Clear(cf, sk).v, x) == 0
  {
    QueryOfEqual(cf, Clear(cf, sk).v, x, 0);
  }
}
