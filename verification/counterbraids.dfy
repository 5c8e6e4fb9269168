/** Counter Braids: `no_layer` layers of small counters, layer `l` holding
    `no_cnt[l]` counters of `width_cnt[l]` bits and a status bit each.
    `update` only records the key and adds its value, lazily, at
    `no_hash[0]` hashed layer-0 indices. `decode` first pushes the lazy
    updates through the layers: a counter that wraps past its width keeps
    the low bits, sets its status bit and adds the overflow to `no_hash[l + 1]`
    hashed counters of the next layer; an overflow of the last layer throws
    `std::overflow_error`. The message-passing estimate that follows
    (`decodeLayer`) is not part of this model. */
module CounterBraids {
  import opened Common

  /** `hash_fns[l][i]` applied to a counter index of the layer below. */
  type IndexHash = (nat, nat, nat) -> nat

  /** The three vectors (after `NextPrime` on `no_cnt`), the layer-0 key
      hash `h0(i, key)` and the index hashes `hu(l, i, index)`. */
  datatype Config = Config(noLayer: nat, noCnt: seq<nat>, width: seq<nat>, noHash: seq<nat>, h0: Hash, hu: IndexHash)

  /** What the constructor lets through. */
  predicate WellFormed(cf: Config)
  {
    && cf.noLayer >= 1
    && |cf.noCnt| == cf.noLayer && |cf.width| == cf.noLayer && |cf.noHash| == cf.noLayer
    && (forall l :: 0 <= l < cf.noLayer ==> cf.noCnt[l] > 0 && cf.width[l] > 0 && cf.noHash[l] > 0)
  }

  /** One more than the largest value of a layer-`l` counter: 2^width. */
  function Cap(cf: Config, l: nat): (c: nat)
    requires WellFormed(cf) && l < cf.noLayer
    ensures c >= 2
  {
    assert Pow(2, cf.width[l]) == 2 * Pow(2, cf.width[l] - 1);
    Pow(2, cf.width[l])
  }

  function Zeros(n: nat): (z: seq<int>)
    ensures |z| == n && forall j :: 0 <= j < n ==> z[j] == 0
  {
    seq(n, _ => 0)
  }

  /** The counters, the status bits, the lazy updates (as a vector over the
      layer-0 counters: an absent entry of the map and an entry of 0 add
      the same nothing) and the recorded keys. */
  datatype Sketch = Sketch(cnt: seq<seq<int>>, status: seq<seq<bool>>, lazy: seq<int>, keys: set<FlowKey>)

  /** A row of layer `l`: one counter per index, each within its width. */
  predicate RowOk(cf: Config, l: nat, row: seq<int>)
    requires WellFormed(cf) && l < cf.noLayer
  {
    |row| == cf.noCnt[l] && forall j :: 0 <= j < |row| ==> 0 <= row[j] < Cap(cf, l)
  }

  predicate Valid(cf: Config, sk: Sketch)
  {
    && WellFormed(cf)
    && |sk.cnt| == cf.noLayer && |sk.status| == cf.noLayer && |sk.lazy| == cf.noCnt[0]
    && forall l :: 0 <= l < cf.noLayer ==> RowOk(cf, l, sk.cnt[l]) && |sk.status[l]| == cf.noCnt[l]
  }

  /** Every counter zero, every status bit clear, nothing pending, no key. */
  function Empty(cf: Config): (sk: Sketch)
    requires WellFormed(cf)
    ensures Valid(cf, sk)
  {
    Sketch(seq(cf.noLayer, l requires 0 <= l < cf.noLayer => Zeros(cf.noCnt[l])),
           seq(cf.noLayer, l requires 0 <= l < cf.noLayer => seq(cf.noCnt[l], _ => false)),
           Zeros(cf.noCnt[0]), {})
  }

  // ----- The constructor -----

  /** The loop over `width_cnt` accumulating `length`: each running sum
      must stay within `sizeof(T) * 8` bits. */
  predicate WidthsFit(width: seq<nat>, bits: nat)
  {
    |width| == 0 || (WidthsFit(width[..|width| - 1], bits) && Sum(width) <= bits)
  }

  /** Widths are never negative, so every running sum fits exactly when the
      whole sum does. */
  lemma {:induction false} WidthsFitSum(width: seq<nat>, bits: nat)
    ensures WidthsFit(width, bits) <==> Sum(width) <= bits
  {
    if |width| > 0 {
      WidthsFitSum(width[..|width| - 1], bits);
      assert Sum(width) == Sum(width[..|width| - 1]) + width[|width| - 1];
    }
  }

  datatype Built = Built(cf: Config, sk: Sketch)

  /** The constructor: `no_cnt` first goes through `NextPrime`, then every
      check throws `std::invalid_argument`: `no_layer < 1`, a vector of the
      wrong length, a zero entry, or widths summing past `bits`
      (`sizeof(T) * 8`). Since `NextPrime` never returns 0, the zero check
      on `no_cnt` cannot fire. */
  function New(noLayer: int, noCnt0: seq<nat>, width: seq<nat>, noHash: seq<nat>, h0: Hash, hu: IndexHash,
               np: nat -> nat, bits: nat): (r: Result<Built>)
    requires IsNextPrime(np)
    ensures r.Ok? <==>
      && noLayer >= 1 && |noCnt0| == noLayer && |width| == noLayer && |noHash| == noLayer
      && (forall l :: 0 <= l < noLayer ==> width[l] > 0 && noHash[l] > 0)
      && Sum(width) <= bits
    ensures r.Err? ==> r.error == InvalidArgument
    ensures r.Ok? ==>
      && WellFormed(r.value.cf) && r.value.sk == Empty(r.value.cf)
      && r.value.cf.noLayer == noLayer && r.value.cf.width == width && r.value.cf.noHash == noHash
      && forall l :: 0 <= l < noLayer ==> r.value.cf.noCnt[l] == np(noCnt0[l])
  {
    var noCnt := seq(|noCnt0|, l requires 0 <= l < |noCnt0| => np(noCnt0[l]));
    WidthsFitSum(width, bits);
    if noLayer < 1 then Err(InvalidArgument)
    else if |noCnt| != noLayer || |width| != noLayer || |noHash| != noLayer then Err(InvalidArgument)
    else if exists l :: 0 <= l < noLayer && noCnt[l] == 0 then Err(InvalidArgument)
    else if exists l :: 0 <= l < noLayer && width[l] == 0 then Err(InvalidArgument)
    else if exists l :: 0 <= l < noLayer && noHash[l] == 0 then Err(InvalidArgument)
    else if !WidthsFit(width, bits) then Err(InvalidArgument)
    else
      var cf := Config(noLayer, noCnt, width, noHash, h0, hu);
      Ok(Built(cf, Empty(cf)))
  }

  // ----- update -----

  /** The first `n` of `update`'s additions to `lazy_update`. */
  function Lazy(cf: Config, lazy: seq<int>, key: FlowKey, val: int, n: nat): (r: seq<int>)
    requires WellFormed(cf) && |lazy| == cf.noCnt[0] && n <= cf.noHash[0]
    ensures |r| == |lazy|
  {
    if n == 0 then lazy
    else
      var r := Lazy(cf, lazy, key, val, n - 1);
      var j := cf.h0(n - 1, key) % cf.noCnt[0];
      r[j := r[j] + val]
  }

  /** `update(key, val)`: the value goes into the lazy updates and the key
      into the key set; no counter moves. */
  function Update(cf: Config, sk: Sketch, key: FlowKey, val: int): (r: Sketch)
    requires Valid(cf, sk)
    ensures Valid(cf, r)
    ensures r.cnt == sk.cnt && r.status == sk.status && r.keys == sk.keys + {key}
  {
    sk.(lazy := Lazy(cf, sk.lazy, key, val, cf.noHash[0]), keys := sk.keys + {key})
  }

  /** How many of the first `n` layer-0 hashes send `key` to counter `j`;
      repeats count, as `+=` on the map does. */
  function Hits(cf: Config, key: FlowKey, j: nat, n: nat): (c: nat)
    requires WellFormed(cf)
    ensures c <= n
  {
    if n == 0 then 0
    else Hits(cf, key, j, n - 1) + (if cf.h0(n - 1, key) % cf.noCnt[0] == j then 1 else 0)
  }

  lemma {:induction false} LazyAt(cf: Config, lazy: seq<int>, key: FlowKey, val: int, n: nat, j: nat)
    requires WellFormed(cf) && |lazy| == cf.noCnt[0] && n <= cf.noHash[0] && j < |lazy|
    ensures Lazy(cf, lazy, key, val, n)[j] == lazy[j] + val * Hits(cf, key, j, n)
  {
    if n > 0 {
      LazyAt(cf, lazy, key, val, n - 1, j);
    }
  }

  /** The sketch after feeding `st` to an empty one. */
  function Run(cf: Config, st: seq<Item>): (sk: Sketch)
    requires WellFormed(cf)
    ensures Valid(cf, sk)
  {
    if |st| == 0 then Empty(cf)
    else Update(cf, Run(cf, st[..|st| - 1]), st[|st| - 1].key, st[|st| - 1].val)
  }

  /** The reference lazy update of layer-0 counter `j`: each update's value
      once for every hash that lands on `j`. */
  function Load(cf: Config, st: seq<Item>, j: nat): int
    requires WellFormed(cf)
  {
    if |st| == 0 then 0
    else
      var it := st[|st| - 1];
      Load(cf, st[..|st| - 1], j) + it.val * Hits(cf, it.key, j, cf.noHash[0])
  }

  /** The keys of a stream. */
  function Keys(st: seq<Item>): set<FlowKey>
  {
    set n | 0 <= n < |st| :: st[n].key
  }

  /** A run leaves every counter and status bit untouched, holds each
      counter's reference load as its lazy update, and has recorded
      exactly the keys of the stream. */
  lemma {:induction false} RunLoad(cf: Config, st: seq<Item>, j: nat)
    requires WellFormed(cf) && j < cf.noCnt[0]
    ensures Run(cf, st).cnt == Empty(cf).cnt && Run(cf, st).status == Empty(cf).status
    ensures Run(cf, st).lazy[j] == Load(cf, st, j)
    ensures Run(cf, st).keys == Keys(st)
  {
    if |st| > 0 {
      var pre := st[..|st| - 1];
      var it := st[|st| - 1];
      RunLoad(cf, pre, j);
      LazyAt(cf, Run(cf, pre).lazy, it.key, it.val, cf.noHash[0], j);
      assert Keys(st) == Keys(pre) + {it.key} by {
        forall k | k in Keys(st) ensures k in Keys(pre) + {it.key} {
          var n :| 0 <= n < |st| && st[n].key == k;
          if n < |pre| {
            assert pre[n] == st[n];
          }
        }
        forall k | k in Keys(pre) ensures k in Keys(st) {
          var n :| 0 <= n < |pre| && pre[n].key == k;
          assert st[n] == pre[n];
        }
        assert st[|st| - 1].key == it.key;
      }
    }
  }

  // ----- updateLayer -----

  /** `cnt_array[l][j] + v` of the counter type, which is not part of this
      model: the sum wraps into the counter's width, and the part that did
      not fit (a floored quotient, so negative after a borrow) is the
      returned overflow. */
  function AddCounter(c: int, v: int, cap: nat): (r: (int, int))
    requires cap > 0
    ensures 0 <= r.0 < cap && c + v == r.0 + r.1 * cap
    ensures r.1 == 0 <==> 0 <= c + v < cap
  {
    ((c + v) % cap, (c + v) / cap)
  }

  /** The carry vector of the layer above (empty for the last layer). */
  function CarrySize(cf: Config, l: nat): nat
    requires WellFormed(cf)
  {
    if l + 1 < cf.noLayer then cf.noCnt[l + 1] else 0
  }

  /** The first `n` hashes of `hash_fns[l]` applied to index `idx` each get
      `ovf` added. */
  function Spread(cf: Config, l: nat, carry: seq<int>, idx: nat, ovf: int, n: nat): (r: seq<int>)
    requires WellFormed(cf) && l < cf.noLayer && |carry| == cf.noCnt[l] && n <= cf.noHash[l]
    ensures |r| == |carry|
  {
    if n == 0 then carry
    else
      var r := Spread(cf, l, carry, idx, ovf, n - 1);
      var k := cf.hu(l, n - 1, idx) % cf.noCnt[l];
      r[k := r[k] + ovf]
  }

  /** A spread adds `ovf` once per hash to the total of the layer above. */
  lemma {:induction false} SpreadSum(cf: Config, l: nat, carry: seq<int>, idx: nat, ovf: int, n: nat)
    requires WellFormed(cf) && l < cf.noLayer && |carry| == cf.noCnt[l] && n <= cf.noHash[l]
    ensures Sum(Spread(cf, l, carry, idx, ovf, n)) == Sum(carry) + n * ovf
  {
    if n > 0 {
      SpreadSum(cf, l, carry, idx, ovf, n - 1);
      var r := Spread(cf, l, carry, idx, ovf, n - 1);
      var k := cf.hu(l, n - 1, idx) % cf.noCnt[l];
      SumUpdate(r, k, r[k] + ovf);
      assert n * ovf == (n - 1) * ovf + ovf;
    }
  }

  /** A layer's counters, status bits and the carries for the next one. */
  datatype LayerOut = LayerOut(row: seq<int>, status: seq<bool>, carry: seq<int>)

  /** A layer's row within its widths, a status bit per counter and a
      carry per counter of the next layer. */
  predicate Shaped(cf: Config, l: nat, o: LayerOut)
    requires WellFormed(cf) && l < cf.noLayer
  {
    RowOk(cf, l, o.row) && |o.status| == |o.row| && |o.carry| == CarrySize(cf, l)
  }

  /** One iteration of `updateLayer`: counter `k` takes the update `u`; an
      overflow sets its status bit and is spread over the next layer, or
      throws on the last layer. */
  function Step(cf: Config, l: nat, o: LayerOut, u: int, k: nat): (r: Result<LayerOut>)
    requires WellFormed(cf) && l < cf.noLayer && Shaped(cf, l, o) && k < |o.row|
    ensures r.Ok? ==> Shaped(cf, l, r.value)
    ensures r.Err? ==> r.error == OverflowError
  {
    var a := AddCounter(o.row[k], u, Cap(cf, l));
    if a.1 == 0 then Ok(o.(row := o.row[k := a.0]))
    else if l == cf.noLayer - 1 then Err(OverflowError)
    else Ok(LayerOut(o.row[k := a.0], o.status[k := true], Spread(cf, l + 1, o.carry, k, a.1, cf.noHash[l + 1])))
  }

  /** What one iteration does to the counter, the status bits and the total
      carried upward. */
  lemma StepFacts(cf: Config, l: nat, o: LayerOut, u: int, k: nat)
    requires WellFormed(cf) && l < cf.noLayer && Shaped(cf, l, o) && k < |o.row|
    ensures Step(cf, l, o, u, k).Err? <==> l == cf.noLayer - 1 && AddCounter(o.row[k], u, Cap(cf, l)).1 != 0
    ensures Step(cf, l, o, u, k).Ok? ==>
      && Step(cf, l, o, u, k).value.row == o.row[k := AddCounter(o.row[k], u, Cap(cf, l)).0]
      && Step(cf, l, o, u, k).value.status == o.status[k := o.status[k] || AddCounter(o.row[k], u, Cap(cf, l)).1 != 0]
      && Sum(Step(cf, l, o, u, k).value.carry) ==
           Sum(o.carry) + (if l + 1 < cf.noLayer then cf.noHash[l + 1] * AddCounter(o.row[k], u, Cap(cf, l)).1 else 0)
  {
    var a := AddCounter(o.row[k], u, Cap(cf, l));
    if a.1 != 0 && l + 1 < cf.noLayer {
      SpreadSum(cf, l + 1, o.carry, k, a.1, cf.noHash[l + 1]);
    }
    if a.1 == 0 {
      assert o.status[k := o.status[k]] == o.status;
    }
  }

  /** The loop of `updateLayer(l, updates)` over counters `0 .. j - 1`, in
      the increasing order `std::map` iterates in. */
  function LayerLoop(cf: Config, l: nat, row: seq<int>, st: seq<bool>, upd: seq<int>, j: nat): (r: Result<LayerOut>)
    requires WellFormed(cf) && l < cf.noLayer && RowOk(cf, l, row)
    requires |st| == |row| && |upd| == |row| && j <= |row|
    ensures r.Ok? ==> Shaped(cf, l, r.value) && |r.value.row| == |row|
    ensures r.Err? ==> r.error == OverflowError
  {
    if j == 0 then Ok(LayerOut(row, st, Zeros(CarrySize(cf, l))))
    else
      match LayerLoop(cf, l, row, st, upd, j - 1)
      case Err(e) => Err(e)
      case Ok(o) => Step(cf, l, o, upd[j - 1], j - 1)
  }

  /** The overflow of counter `k` when `upd[k]` is added to it. */
  function Ovf(cf: Config, l: nat, row: seq<int>, upd: seq<int>, k: nat): int
    requires WellFormed(cf) && l < cf.noLayer && k < |row| && k < |upd|
  {
    AddCounter(row[k], upd[k], Cap(cf, l)).1
  }

  /** The overflows of counters `0 .. j - 1`. */
  function Ovfs(cf: Config, l: nat, row: seq<int>, upd: seq<int>, j: nat): (s: seq<int>)
    requires WellFormed(cf) && l < cf.noLayer && j <= |row| && j <= |upd|
    ensures |s| == j && forall k :: 0 <= k < j ==> s[k] == Ovf(cf, l, row, upd, k)
  {
    seq(j, k requires 0 <= k < j => Ovf(cf, l, row, upd, k))
  }

  /** `updateLayer` throws exactly when the layer is the last one and some
      counter overflows there. */
  lemma {:induction false} LayerLoopErr(cf: Config, l: nat, row: seq<int>, st: seq<bool>, upd: seq<int>, j: nat)
    requires WellFormed(cf) && l < cf.noLayer && RowOk(cf, l, row)
    requires |st| == |row| && |upd| == |row| && j <= |row|
    ensures LayerLoop(cf, l, row, st, upd, j).Err? <==>
      l == cf.noLayer - 1 && exists k :: 0 <= k < j && Ovf(cf, l, row, upd, k) != 0
  {
    if j > 0 {
      LayerLoopErr(cf, l, row, st, upd, j - 1);
      var r := LayerLoop(cf, l, row, st, upd, j - 1);
      if r.Ok? {
        LayerLoopAt(cf, l, row, st, upd, j - 1, j - 1);
        StepFacts(cf, l, r.value, upd[j - 1], j - 1);
        if l == cf.noLayer - 1 && Ovf(cf, l, row, upd, j - 1) != 0 {
          assert LayerLoop(cf, l, row, st, upd, j).Err?;
        }
      }
    }
  }

  /** After the loop over `0 .. j - 1`, counter `k < j` holds the wrapped
      sum, its status bit is set by an overflow and kept otherwise, and the
      counters from `j` on are untouched. */
  lemma {:induction false} LayerLoopAt(cf: Config, l: nat, row: seq<int>, st: seq<bool>, upd: seq<int>, j: nat, k: nat)
    requires WellFormed(cf) && l < cf.noLayer && RowOk(cf, l, row)
    requires |st| == |row| && |upd| == |row| && j <= |row| && k < |row|
    ensures LayerLoop(cf, l, row, st, upd, j).Ok? ==>
      && LayerLoop(cf, l, row, st, upd, j).value.row[k] == (if k < j then AddCounter(row[k], upd[k], Cap(cf, l)).0 else row[k])
      && LayerLoop(cf, l, row, st, upd, j).value.status[k] == (if k < j then st[k] || Ovf(cf, l, row, upd, k) != 0 else st[k])
  {
    if j > 0 {
      var r := LayerLoop(cf, l, row, st, upd, j - 1);
      if r.Ok? {
        LayerLoopAt(cf, l, row, st, upd, j - 1, k);
        LayerLoopAt(cf, l, row, st, upd, j - 1, j - 1);
        StepFacts(cf, l, r.value, upd[j - 1], j - 1);
      }
    }
  }

  /** Nothing is lost in a layer: what its counters gained is what they
      hold now plus `2^width` for every unit of overflow. */
  lemma {:induction false} LayerConserves(cf: Config, l: nat, row: seq<int>, st: seq<bool>, upd: seq<int>, j: nat)
    requires WellFormed(cf) && l < cf.noLayer && RowOk(cf, l, row)
    requires |st| == |row| && |upd| == |row| && j <= |row|
    requires LayerLoop(cf, l, row, st, upd, j).Ok?
    ensures Sum(LayerLoop(cf, l, row, st, upd, j).value.row) + Cap(cf, l) * Sum(Ovfs(cf, l, row, upd, j)) ==
      Sum(row) + Sum(upd[..j])
  {
    if j == 0 {
      assert upd[..0] == [];
    } else {
      var o := LayerLoop(cf, l, row, st, upd, j - 1).value;
      var cap := Cap(cf, l);
      var a := AddCounter(row[j - 1], upd[j - 1], cap);
      var next := LayerLoop(cf, l, row, st, upd, j).value.row;
      assert next == o.row[j - 1 := a.0] by {
        LayerLoopAt(cf, l, row, st, upd, j - 1, j - 1);
        StepFacts(cf, l, o, upd[j - 1], j - 1);
      }
      assert Sum(next) == Sum(o.row) - row[j - 1] + a.0 by {
        LayerLoopAt(cf, l, row, st, upd, j - 1, j - 1);
        SumUpdate(o.row, j - 1, a.0);
      }
      var s0 := Ovfs(cf, l, row, upd, j - 1);
      assert Sum(Ovfs(cf, l, row, upd, j)) == Sum(s0) + a.1 by {
        assert Ovfs(cf, l, row, upd, j)[..j - 1] == s0;
      }
      assert Sum(upd[..j]) == Sum(upd[..j - 1]) + upd[j - 1] by {
        assert upd[..j][..j - 1] == upd[..j - 1];
      }
      LayerConserves(cf, l, row, st, upd, j - 1);
      CarryArith(Sum(o.row), row[j - 1], upd[j - 1], a.0, a.1, cap, Sum(s0), Sum(row) + Sum(upd[..j - 1]),
                 Sum(next), Sum(Ovfs(cf, l, row, upd, j)), Sum(row) + Sum(upd[..j]));
    }
  }

  lemma CarryArith(total: int, c: int, u: int, c2: int, ovf: int, cap: int, s: int, t: int, total2: int, s2: int, t2: int)
    requires c + u == c2 + ovf * cap && total + cap * s == t
    requires total2 == total - c + c2 && s2 == s + ovf && t2 == t + u
    ensures total2 + cap * s2 == t2
  {
    assert cap * (s + ovf) == cap * s + ovf * cap;
  }

  /** Each unit of a layer's overflow arrives `no_hash[l + 1]` times in the
      layer above. */
  lemma {:induction false} LayerCarries(cf: Config, l: nat, row: seq<int>, st: seq<bool>, upd: seq<int>, j: nat)
    requires WellFormed(cf) && l + 1 < cf.noLayer && RowOk(cf, l, row)
    requires |st| == |row| && |upd| == |row| && j <= |row|
    ensures LayerLoop(cf, l, row, st, upd, j).Ok?
    ensures Sum(LayerLoop(cf, l, row, st, upd, j).value.carry) == cf.noHash[l + 1] * Sum(Ovfs(cf, l, row, upd, j))
  {
    LayerLoopErr(cf, l, row, st, upd, j);
    if j == 0 {
      ZerosSum(CarrySize(cf, l));
    } else {
      var o := LayerLoop(cf, l, row, st, upd, j - 1).value;
      var a := AddCounter(row[j - 1], upd[j - 1], Cap(cf, l));
      var h := cf.noHash[l + 1];
      var next := LayerLoop(cf, l, row, st, upd, j).value.carry;
      assert Sum(next) == Sum(o.carry) + h * a.1 by {
        LayerLoopAt(cf, l, row, st, upd, j - 1, j - 1);
        StepFacts(cf, l, o, upd[j - 1], j - 1);
      }
      var s0 := Ovfs(cf, l, row, upd, j - 1);
      assert Sum(Ovfs(cf, l, row, upd, j)) == Sum(s0) + a.1 by {
        assert Ovfs(cf, l, row, upd, j)[..j - 1] == s0;
      }
      LayerCarries(cf, l, row, st, upd, j - 1);
      SpreadArith(Sum(o.carry), h, Sum(s0), a.1, Sum(next), Sum(Ovfs(cf, l, row, upd, j)));
    }
  }

  lemma SpreadArith(total: int, h: int, s: int, ovf: int, total2: int, s2: int)
    requires total == h * s && total2 == total + h * ovf && s2 == s + ovf
    ensures total2 == h * s2
  {
  }

  lemma {:induction false} ZerosSum(n: nat)
    ensures Sum(Zeros(n)) == 0
  {
    if n > 0 {
      assert Zeros(n)[..n - 1] == Zeros(n - 1);
      ZerosSum(n - 1);
    }
  }

  /** A layer whose every sum fits adds the updates in place and passes
      nothing on. */
  lemma {:induction false} LayerQuiet(cf: Config, l: nat, row: seq<int>, st: seq<bool>, upd: seq<int>, j: nat)
    requires WellFormed(cf) && l < cf.noLayer && RowOk(cf, l, row)
    requires |st| == |row| && |upd| == |row| && j <= |row|
    requires forall k :: 0 <= k < j ==> 0 <= row[k] + upd[k] < Cap(cf, l)
    ensures LayerLoop(cf, l, row, st, upd, j).Ok?
    ensures LayerLoop(cf, l, row, st, upd, j).value.status == st
    ensures LayerLoop(cf, l, row, st, upd, j).value.carry == Zeros(CarrySize(cf, l))
    ensures forall k :: 0 <= k < |row| ==>
      LayerLoop(cf, l, row, st, upd, j).value.row[k] == row[k] + (if k < j then upd[k] else 0)
  {
    if j > 0 {
      LayerQuiet(cf, l, row, st, upd, j - 1);
    }
  }

  // ----- decode: the lazy updates -----

  /** `lazy_update = updateLayer(i, lazy_update)` for layers `l ..`, the
      carries of each layer feeding the next. */
  function FlushFrom(cf: Config, sk: Sketch, l: nat, upd: seq<int>): (r: Result<Sketch>)
    requires Valid(cf, sk) && l <= cf.noLayer && (l < cf.noLayer ==> |upd| == cf.noCnt[l])
    ensures r.Ok? ==> Valid(cf, r.value) && r.value.lazy == sk.lazy && r.value.keys == sk.keys
    ensures r.Err? ==> r.error == OverflowError
    decreases cf.noLayer - l
  {
    if l == cf.noLayer then Ok(sk)
    else
      match LayerLoop(cf, l, sk.cnt[l], sk.status[l], upd, cf.noCnt[l])
      case Err(e) => Err(e)
      case Ok(o) => FlushFrom(cf, sk.(cnt := sk.cnt[l := o.row], status := sk.status[l := o.status]), l + 1, o.carry)
  }

  /** The first half of `decode()`: the lazy updates pushed through every
      layer, then the lazy map emptied. */
  function Flush(cf: Config, sk: Sketch): (r: Result<Sketch>)
    requires Valid(cf, sk)
    ensures r.Ok? ==> Valid(cf, r.value) && r.value.lazy == Zeros(cf.noCnt[0]) && r.value.keys == sk.keys
    ensures r.Err? ==> r.error == OverflowError
  {
    match FlushFrom(cf, sk, 0, sk.lazy)
    case Err(e) => Err(e)
    case Ok(s) => Ok(s.(lazy := Zeros(cf.noCnt[0])))
  }

  /** Pushing nothing through the layers changes nothing. */
  lemma {:induction false} FlushNothing(cf: Config, sk: Sketch, l: nat)
    requires Valid(cf, sk) && l <= cf.noLayer
    ensures FlushFrom(cf, sk, l, if l < cf.noLayer then Zeros(cf.noCnt[l]) else []) == Ok(sk)
    decreases cf.noLayer - l
  {
    if l < cf.noLayer {
      var z := Zeros(cf.noCnt[l]);
      var row := sk.cnt[l];
      LayerQuiet(cf, l, row, sk.status[l], z, cf.noCnt[l]);
      var o := LayerLoop(cf, l, row, sk.status[l], z, cf.noCnt[l]).value;
      assert o.row == row;
      assert sk.(cnt := sk.cnt[l := o.row], status := sk.status[l := o.status]) == sk;
      FlushNothing(cf, sk, l + 1);
    }
  }

  /** Without a layer-0 overflow, decoding a run starts from exact
      counters: each layer-0 counter holds its reference load, no status
      bit is set and every higher layer stays zero. */
  lemma FlushExact(cf: Config, st: seq<Item>)
    requires WellFormed(cf)
    requires forall j :: 0 <= j < cf.noCnt[0] ==> 0 <= Load(cf, st, j) < Cap(cf, 0)
    ensures Flush(cf, Run(cf, st)).Ok?
    ensures forall j :: 0 <= j < cf.noCnt[0] ==> Flush(cf, Run(cf, st)).value.cnt[0][j] == Load(cf, st, j)
    ensures Flush(cf, Run(cf, st)).value.status == Empty(cf).status
    ensures forall l :: 1 <= l < cf.noLayer ==> Flush(cf, Run(cf, st)).value.cnt[l] == Empty(cf).cnt[l]
  {
    var sk := Run(cf, st);
    forall j | 0 <= j < cf.noCnt[0] ensures sk.lazy[j] == Load(cf, st, j) && sk.cnt[0][j] == 0 {
      RunLoad(cf, st, j);
    }
    RunLoad(cf, st, 0);
    LayerQuiet(cf, 0, sk.cnt[0], sk.status[0], sk.lazy, cf.noCnt[0]);
    var o := LayerLoop(cf, 0, sk.cnt[0], sk.status[0], sk.lazy, cf.noCnt[0]).value;
    var sk1 := sk.(cnt := sk.cnt[0 := o.row], status := sk.status[0 := o.status]);
    FlushNothing(cf, sk1, 1);
    assert FlushFrom(cf, sk, 0, sk.lazy) == Ok(sk1);
  }

  // ----- size and clear -----

  /** The counter and status bits of layers `0 .. n - 1`. */
  function Bits(cf: Config, n: nat): nat
    requires WellFormed(cf) && n <= cf.noLayer
  {
    if n == 0 then 0 else Bits(cf, n - 1) + cf.noCnt[n - 1] * cf.width[n - 1] + cf.noCnt[n - 1]
  }

  /** The hash objects of layers `0 .. n - 1`, `hashBytes` (`sizeof(hash_t)`)
      each. */
  function HashBytes(cf: Config, hashBytes: nat, n: nat): nat
    requires WellFormed(cf) && n <= cf.noLayer
  {
    if n == 0 then 0 else HashBytes(cf, hashBytes, n - 1) + hashBytes * cf.noHash[n - 1]
  }

  /** `size()`: counters and status bits rounded down to bytes, plus the
      hash objects. */
  function Size(cf: Config, hashBytes: nat): (r: nat)
    requires WellFormed(cf)
    ensures r >= HashBytes(cf, hashBytes, cf.noLayer)
    ensures 8 * (r - HashBytes(cf, hashBytes, cf.noLayer)) <= Bits(cf, cf.noLayer) < 8 * (r - HashBytes(cf, hashBytes, cf.noLayer) + 1)
  {
    Bits(cf, cf.noLayer) / 8 + HashBytes(cf, hashBytes, cf.noLayer)
  }

  /** `clear()`: counters, status bits, lazy updates and keys all reset. */
  function Clear(cf: Config, sk: Sketch): (r: Sketch)
    requires Valid(cf, sk)
    ensures Valid(cf, r) && r.keys == {} && r.lazy == Zeros(cf.noCnt[0])
    ensures forall l, j :: 0 <= l < cf.noLayer && 0 <= j < cf.noCnt[l] ==> r.cnt[l][j] == 0 && !r.status[l][j]
  {
    Empty(cf)
  }

  /** A cleared sketch decodes without overflow and stays as it is. */
  lemma ClearFlushes(cf: Config, sk: Sketch)
    requires Valid(cf, sk)
    ensures Flush(cf, Clear(cf, sk)) == Ok(Clear(cf, sk))
  {
    FlushNothing(cf, Clear(cf, sk), 0);
  }
}
