/** UnivMon over a counter hierarchy (THD_CHHHUnivMon): `logn` levels, each
    a Count Sketch of `depth` rows whose width halves from level to level.
    All levels share one hierarchy: level `s`, row `r`, column `c` is counter
    `width_idx[s] + c + r * total_length`, where `width_idx` holds the prefix
    sums of the level widths and `total_length` their sum. A key reaches the
    levels `0 .. L - 1`, `L` being the first level whose global hash bit is
    zero; an update adds its value to the running `sum` and to the key's
    signed counters on each level it reaches. A query combines the levels'
    Count-Sketch estimates from the deepest one up. */
module UnivMon {
  import opened Common
  import H = Hierarchy

  /** The per-level, per-row hash objects: `CS_hash_fns[s][r]` picks the
      column and `CS_update_hash_fns[s][r]` the sign. */
  type LevelHash = (nat, nat, FlowKey) -> nat

  /** `global_hash_fns[l](key)` is `gh(l, key)`. */
  datatype Config = Config(depth: nat, widths: seq<nat>, gh: Hash, colH: LevelHash, signH: LevelHash)

  /** `logn`: the number of levels. */
  function Levels(cf: Config): nat { |cf.widths| }

  predicate WellFormed(cf: Config)
  {
    forall s :: 0 <= s < |cf.widths| ==> cf.widths[s] > 0
  }

  /** The width the constructor starts level `i` from: the requested width
      halved `i` times, never below one. */
  function Halved(w: nat, i: nat): nat
  {
    if i == 0 then w else Max(1, Halved(w, i - 1) / 2)
  }

  /** The constructor's width loop from its running `width_` onwards:
      `width[i] = NextPrime(width_)`, then `width_ = max(1, width_ / 2)`. */
  function WidthsFrom(cur: nat, n: nat, np: nat -> nat): (ws: seq<nat>)
    requires IsNextPrime(np)
    ensures |ws| == n
    ensures forall s :: 0 <= s < n ==> ws[s] >= 2
    decreases n
  {
    if n == 0 then [] else [np(cur)] + WidthsFrom(Max(1, cur / 2), n - 1, np)
  }

  /** Level `s` has width `NextPrime` of the start width halved `s` times. */
  lemma {:induction false} WidthsHalve(cur: nat, n: nat, np: nat -> nat, s: nat)
    requires IsNextPrime(np) && s < n
    ensures WidthsFrom(cur, n, np)[s] == np(Halved(cur, s))
    decreases n
  {
    if s > 0 {
      WidthsHalve(Max(1, cur / 2), n - 1, np, s - 1);
      HalvedShift(cur, s - 1);
    }
  }

  /** Halving `s + 1` times is halving once, then `s` times. */
  lemma {:induction false} HalvedShift(w: nat, s: nat)
    ensures Halved(w, s + 1) == Halved(Max(1, w / 2), s)
  {
    if s > 0 {
      HalvedShift(w, s - 1);
    }
  }

  /** `width_idx[s]`: the widths of the levels before `s`, added up. */
  function Offset(ws: seq<nat>, s: nat): nat
    requires s <= |ws|
  {
    if s == 0 then 0 else Offset(ws, s - 1) + ws[s - 1]
  }

  /** `total_length`: all the widths added up. */
  function TotalLength(cf: Config): nat
  {
    Offset(cf.widths, |cf.widths|)
  }

  /** A later level starts after the end of an earlier one. */
  lemma {:induction false} OffsetGrows(ws: seq<nat>, s: nat, s2: nat)
    requires s < s2 <= |ws|
    ensures Offset(ws, s) + ws[s] <= Offset(ws, s2)
    decreases s2
  {
    if s2 > s + 1 {
      OffsetGrows(ws, s, s2 - 1);
    }
  }

  /** `getCHIdx(s, r, c)`. */
  function CHIdx(cf: Config, s: nat, r: nat, c: nat): nat
    requires s < Levels(cf)
  {
    (Offset(cf.widths, s) + c) + r * TotalLength(cf)
  }

  /** Layer-0 size of the hierarchy, `depth * total_length`. */
  function N(cf: Config): nat { cf.depth * TotalLength(cf) }

  /** The layout of the levels: every cell lies inside the hierarchy, and
      distinct cells of any levels use distinct counters. */
  lemma CHIdxLayout(cf: Config, s: nat, r: nat, c: nat, s2: nat, r2: nat, c2: nat)
    requires s < Levels(cf) && r < cf.depth && c < cf.widths[s]
    requires s2 < Levels(cf) && r2 < cf.depth && c2 < cf.widths[s2]
    ensures CHIdx(cf, s, r, c) < N(cf)
    ensures CHIdx(cf, s, r, c) == CHIdx(cf, s2, r2, c2) <==> s == s2 && r == r2 && c == c2
  {
    var ws := cf.widths;
    var t := TotalLength(cf);
    OffsetGrows(ws, s, |ws|);
    OffsetGrows(ws, s2, |ws|);
    var b := Offset(ws, s) + c;
    var b2 := Offset(ws, s2) + c2;
    RowMajorBound(r, b, cf.depth, t);
    if CHIdx(cf, s, r, c) == CHIdx(cf, s2, r2, c2) {
      RowMajorInjective(r, b, r2, b2, t);
      if s < s2 {
        OffsetGrows(ws, s, s2);
      } else if s2 < s {
        OffsetGrows(ws, s2, s);
      }
    }
  }

  /** The sketch: the hierarchy's layer-0 counters and `sum`, one per level. */
  datatype Sketch = Sketch(ch: H.Store, sum: seq<int>)

  predicate Valid(cf: Config, s: Sketch)
  {
    |s.ch.cnt| == N(cf) && |s.sum| == Levels(cf)
  }

  datatype Built = Built(cf: Config, s: Sketch, layers: seq<nat>)

  /** The constructor: `logn = 0` throws `std::bad_array_new_length` at
      `new hash_t[logn - 1]` before anything else is checked; widths from
      `NextPrime(width)` halving per level and then each rounded up to a
      prime; a ratio outside (0, 1) throws `std::out_of_range`; otherwise
      layer 0 of the hierarchy holds `depth * total_length` counters.
      `sum = new T[logn]` is not initialised: `heap(s)` is whatever
      `sum[s]` happens to hold. */
  function New(depth: nat, width: nat, logn: nat, gh: Hash, colH: LevelHash, signH: LevelHash,
               np: nat -> nat, ratio: real, noLayer: nat, heap: nat -> int): (r: Result<Built>)
    requires noLayer >= 1 && IsNextPrime(np)
    ensures r.Ok? <==> logn >= 1 && 0.0 < ratio < 1.0
    ensures r.Err? ==> r.error == (if logn == 0 then BadArrayNewLength else OutOfRange)
    ensures r.Ok? ==>
      && r.value.cf.depth == depth && Levels(r.value.cf) == logn && WellFormed(r.value.cf)
      && (forall s :: 0 <= s < logn ==> r.value.cf.widths[s] >= Halved(width, s))
      && Valid(r.value.cf, r.value.s)
      && r.value.s.ch == H.Fresh(N(r.value.cf))
      && (forall s :: 0 <= s < logn ==> r.value.s.sum[s] == heap(s))
      && |r.value.layers| == noLayer && r.value.layers[0] == depth * TotalLength(r.value.cf)
  {
    if logn == 0 then Err(BadArrayNewLength)
    else
      var ws := WidthsFrom(np(width), logn, np);
      var cf := Config(depth, ws, gh, colH, signH);
      match H.CheckRatio(ratio)
      case Err(e) => Err(e)
      case Ok(_) =>
        WidthsAtLeast(width, logn, np);
        H.LayerSizesShape(N(cf), ratio, noLayer, np);
        Ok(Built(cf, Sketch(H.Fresh(N(cf)), seq(logn, s requires 0 <= s => heap(s))), H.LayerSizes(N(cf), ratio, noLayer, np)))
  }

  /** Rounding up to a prime twice never makes a level narrower than the
      halved request. */
  lemma WidthsAtLeast(width: nat, logn: nat, np: nat -> nat)
    requires IsNextPrime(np)
    ensures forall s :: 0 <= s < logn ==> WidthsFrom(np(width), logn, np)[s] >= Halved(width, s)
  {
    forall s | 0 <= s < logn
      ensures WidthsFrom(np(width), logn, np)[s] >= Halved(width, s)
    {
      WidthsHalve(np(width), logn, np, s);
      HalvedMono(width, np(width), s);
    }
  }

  /** Halving keeps the order of its starting points. */
  lemma {:induction false} HalvedMono(w: nat, w2: nat, s: nat)
    requires w <= w2
    ensures Halved(w, s) <= Halved(w2, s)
  {
    if s > 0 {
      HalvedMono(w, w2, s - 1);
    }
  }

  /** `getGlobalHash(key, layer)`: level 0 always, level `l` by the low bit
      of global hash `l - 1`. */
  function GlobalHash(cf: Config, key: FlowKey, l: nat): (b: nat)
    ensures b == 0 || b == 1
    ensures l == 0 ==> b == 1
  {
    if l == 0 then 1 else cf.gh(l - 1, key) % 2
  }

  /** The levels from `l` on that the loops of `update` and `query` walk
      before the first zero bit. */
  function ReachFrom(cf: Config, key: FlowKey, l: nat): (r: nat)
    requires l <= Levels(cf)
    ensures l <= r <= Levels(cf)
    ensures forall i :: l <= i < r ==> GlobalHash(cf, key, i) == 1
    ensures r == Levels(cf) || GlobalHash(cf, key, r) == 0
    decreases Levels(cf) - l
  {
    if l == Levels(cf) then l
    else if GlobalHash(cf, key, l) == 0 then l
    else ReachFrom(cf, key, l + 1)
  }

  /** The number of levels `key` reaches: every level below has its bit set,
      and the next one, if any, has it clear. With one level or more, every
      key reaches level 0. */
  function Reach(cf: Config, key: FlowKey): (r: nat)
    ensures r <= Levels(cf)
    ensures forall i :: 0 <= i < r ==> GlobalHash(cf, key, i) == 1
    ensures r == Levels(cf) || GlobalHash(cf, key, r) == 0
    ensures Levels(cf) >= 1 ==> r >= 1
  {
    ReachFrom(cf, key, 0)
  }

  /** The column row `r` of level `s` hashes `key` to. */
  function Col(cf: Config, s: nat, r: nat, key: FlowKey): (c: nat)
    requires WellFormed(cf) && s < Levels(cf)
    ensures c < cf.widths[s]
  {
    cf.colH(s, r, key) % cf.widths[s]
  }

  /** The sign of `key` in row `r` of level `s`, from the low bit of its
      update hash. */
  function Sign(cf: Config, s: nat, r: nat, key: FlowKey): (g: int)
    ensures g == 1 || g == -1
  {
    if cf.signH(s, r, key) % 2 == 1 then 1 else -1
  }

  /** The hierarchy counter of `key` in row `r` of level `s`. */
  function Slot(cf: Config, s: nat, r: nat, key: FlowKey): (c: nat)
    requires WellFormed(cf) && s < Levels(cf) && r < cf.depth
    ensures c < N(cf)
  {
    CHIdxLayout(cf, s, r, Col(cf, s, r, key), s, r, Col(cf, s, r, key));
    CHIdx(cf, s, r, Col(cf, s, r, key))
  }

  /** `updateSketch(s, key, val)` over rows `0 .. n - 1`. */
  function UpdateRows(cf: Config, st: H.Store, s: nat, key: FlowKey, val: int, n: nat): (r: H.Store)
    requires WellFormed(cf) && |st.cnt| == N(cf) && s < Levels(cf) && n <= cf.depth
    ensures |r.cnt| == N(cf)
  {
    if n == 0 then st
    else H.UpdateCnt(UpdateRows(cf, st, s, key, val, n - 1), Slot(cf, s, n - 1, key), val * Sign(cf, s, n - 1, key))
  }

  /** The loop of `update` over levels `0 .. n - 1`: `sum[i] += val` and
      `updateSketch(i, key, val)`. */
  function UpdateLevels(cf: Config, sk: Sketch, key: FlowKey, val: int, n: nat): (r: Sketch)
    requires WellFormed(cf) && Valid(cf, sk) && n <= Levels(cf)
    ensures Valid(cf, r)
  {
    if n == 0 then sk
    else
      var p := UpdateLevels(cf, sk, key, val, n - 1);
      Sketch(UpdateRows(cf, p.ch, n - 1, key, val, cf.depth), p.sum[n - 1 := p.sum[n - 1] + val])
  }

  /** `update(key, val)`: every level the key reaches. */
  function Update(cf: Config, sk: Sketch, key: FlowKey, val: int): (r: Sketch)
    requires WellFormed(cf) && Valid(cf, sk)
    ensures Valid(cf, r)
  {
    UpdateLevels(cf, sk, key, val, Reach(cf, key))
  }

  /** Each row's counter for `key` on level `s` times its sign there. */
  function Values(cf: Config, sk: Sketch, s: nat, key: FlowKey): (v: seq<int>)
    requires WellFormed(cf) && Valid(cf, sk) && s < Levels(cf)
    ensures |v| == cf.depth
    ensures forall r :: 0 <= r < cf.depth ==> v[r] == sk.ch.cnt[Slot(cf, s, r, key)] * Sign(cf, s, r, key)
  {
    seq(cf.depth, r requires 0 <= r < cf.depth => sk.ch.cnt[Slot(cf, s, r, key)] * Sign(cf, s, r, key))
  }

  /** `querySketch(s, key)`, and `estSketch` too, since the model reads
      counters back exactly: the magnitude of the median signed counter. */
  function QuerySketch(cf: Config, sk: Sketch, s: nat, key: FlowKey): (q: int)
    requires WellFormed(cf) && Valid(cf, sk) && s < Levels(cf) && cf.depth >= 1
    ensures q >= 0
  {
    MedianAbs(Values(cf, sk, s, key))
  }

  /** Every level's estimate of `key`, level by level. */
  function Estimates(cf: Config, sk: Sketch, key: FlowKey): (e: seq<int>)
    requires WellFormed(cf) && Valid(cf, sk) && cf.depth >= 1
    ensures |e| == Levels(cf)
    ensures forall s :: 0 <= s < Levels(cf) ==> e[s] == QuerySketch(cf, sk, s, key)
  {
    seq(Levels(cf), s requires 0 <= s < Levels(cf) => QuerySketch(cf, sk, s, key))
  }

  /** The loop of `query` from level `i` up to the deepest level `top`, over
      the levels' estimates `e`: `ret = 2 * ret - e[i]`, starting from
      `e[top]`. */
  function Combine(e: seq<int>, top: nat, i: nat): int
    requires i <= top < |e|
    decreases top - i
  {
    if i == top then e[top] else 2 * Combine(e, top, i + 1) - e[i]
  }

  /** `query(key)`: from the deepest level the key reaches. The source
      indexes that level unconditionally, so a query needs at least one
      level, and it needs one row for the median. In closed form it is the
      deepest reached level's estimate weighted by `2^(L - 1)`, less every
      shallower level `j`'s estimate weighted by `2^j`. */
  function Query(cf: Config, sk: Sketch, key: FlowKey): (q: int)
    requires WellFormed(cf) && Valid(cf, sk) && Levels(cf) >= 1 && cf.depth >= 1
    ensures q == Closed(Estimates(cf, sk, key), Reach(cf, key) - 1)
  {
    CombineFromZero(Estimates(cf, sk, key), Reach(cf, key) - 1);
    Combine(Estimates(cf, sk, key), Reach(cf, key) - 1, 0)
  }

  /** The weighted sum of the shallower levels' estimates in the closed form
      of the query: `sum_{j < n} 2^j * e[j]`. */
  function Weighted(e: seq<int>, n: nat): int
    requires n <= |e|
  {
    if n == 0 then 0 else Weighted(e, n - 1) + Pow(2, n - 1) * e[n - 1]
  }

  /** One step of the closed form: `2^i * Combine(i)` is the deepest
      estimate weighted by `2^top`, less the weighted estimates of levels
      `i .. top - 1`. */
  lemma {:induction false} CombineClosed(e: seq<int>, top: nat, i: nat)
    requires i <= top < |e|
    ensures Pow(2, i) * Combine(e, top, i) == Pow(2, top) * e[top] - (Weighted(e, top) - Weighted(e, i))
    decreases top - i
  {
    if i < top {
      CombineClosed(e, top, i + 1);
      var u := Combine(e, top, i + 1);
      var p := Pow(2, i);
      assert Pow(2, i + 1) == 2 * p;
      assert Weighted(e, i + 1) == Weighted(e, i) + p * e[i];
      assert p * (2 * u - e[i]) == (2 * p) * u - p * e[i];
    }
  }

  /** The closed form of the query over the estimates `e` when the deepest
      reached level is `top`: that level's estimate weighted by `2^top`,
      less every shallower level `j`'s estimate weighted by `2^j`. */
  function Closed(e: seq<int>, top: nat): int
    requires top < |e|
  {
    Pow(2, top) * e[top] - Weighted(e, top)
  }

  /** The whole loop of `query` in closed form, over any estimates. */
  lemma CombineFromZero(e: seq<int>, top: nat)
    requires top < |e|
    ensures Combine(e, top, 0) == Closed(e, top)
  {
    CombineClosed(e, top, 0);
    assert Pow(2, 0) == 1 && Weighted(e, 0) == 0;
  }

  /** When every level from `i` to `top` estimates the same `q`, the
      combination returns `q`. */
  lemma {:induction false} CombineConstant(e: seq<int>, top: nat, i: nat, q: int)
    requires i <= top < |e|
    requires forall j :: i <= j <= top ==> e[j] == q
    ensures Combine(e, top, i) == q
    decreases top - i
  {
    if i < top {
      CombineConstant(e, top, i + 1, q);
    }
  }

  /** The counter in row `r`, column `c` of level `s` after `updateSketch`
      ran rows `0 .. n - 1` of level `s0`. */
  lemma {:induction false} UpdateRowsAt(cf: Config, st: H.Store, s0: nat, key: FlowKey, val: int, n: nat,
                                         s: nat, r: nat, c: nat)
    requires WellFormed(cf) && |st.cnt| == N(cf) && s0 < Levels(cf) && n <= cf.depth
    requires s < Levels(cf) && r < cf.depth && c < cf.widths[s] && CHIdx(cf, s, r, c) < N(cf)
    ensures UpdateRows(cf, st, s0, key, val, n).cnt[CHIdx(cf, s, r, c)] ==
      st.cnt[CHIdx(cf, s, r, c)] + (if s == s0 && r < n && c == Col(cf, s, r, key) then val * Sign(cf, s, r, key) else 0)
  {
    if n > 0 {
      UpdateRowsAt(cf, st, s0, key, val, n - 1, s, r, c);
      CHIdxLayout(cf, s, r, c, s0, n - 1, Col(cf, s0, n - 1, key));
    }
  }

  /** The counter in row `r`, column `c` of level `s` after levels
      `0 .. n - 1` were updated. */
  lemma {:induction false} UpdateLevelsAt(cf: Config, sk: Sketch, key: FlowKey, val: int, n: nat, s: nat, r: nat, c: nat)
    requires WellFormed(cf) && Valid(cf, sk) && n <= Levels(cf)
    requires s < Levels(cf) && r < cf.depth && c < cf.widths[s] && CHIdx(cf, s, r, c) < N(cf)
    ensures UpdateLevels(cf, sk, key, val, n).ch.cnt[CHIdx(cf, s, r, c)] ==
      sk.ch.cnt[CHIdx(cf, s, r, c)] + (if s < n && c == Col(cf, s, r, key) then val * Sign(cf, s, r, key) else 0)
  {
    if n > 0 {
      UpdateLevelsAt(cf, sk, key, val, n - 1, s, r, c);
      var p := UpdateLevels(cf, sk, key, val, n - 1);
      UpdateRowsAt(cf, p.ch, n - 1, key, val, cf.depth, s, r, c);
    }
  }

  /** `sum[s]` after levels `0 .. n - 1` were updated. */
  lemma {:induction false} UpdateLevelsSum(cf: Config, sk: Sketch, key: FlowKey, val: int, n: nat, s: nat)
    requires WellFormed(cf) && Valid(cf, sk) && n <= Levels(cf) && s < Levels(cf)
    ensures UpdateLevels(cf, sk, key, val, n).sum[s] == sk.sum[s] + (if s < n then val else 0)
  {
    if n > 0 {
      UpdateLevelsSum(cf, sk, key, val, n - 1, s);
    }
  }

  /** `update` adds the value to `sum` and the signed value to the key's
      counter in every row of exactly the levels the key reaches; every
      other counter and sum keeps its value. */
  lemma UpdateAt(cf: Config, sk: Sketch, key: FlowKey, val: int, s: nat, r: nat, c: nat)
    requires WellFormed(cf) && Valid(cf, sk)
    requires s < Levels(cf) && r < cf.depth && c < cf.widths[s]
    ensures CHIdx(cf, s, r, c) < N(cf)
    ensures Update(cf, sk, key, val).ch.cnt[CHIdx(cf, s, r, c)] ==
      sk.ch.cnt[CHIdx(cf, s, r, c)] + (if s < Reach(cf, key) && c == Col(cf, s, r, key) then val * Sign(cf, s, r, key) else 0)
    ensures Update(cf, sk, key, val).sum[s] == sk.sum[s] + (if s < Reach(cf, key) then val else 0)
  {
    CHIdxLayout(cf, s, r, c, s, r, c);
    UpdateLevelsAt(cf, sk, key, val, Reach(cf, key), s, r, c);
    UpdateLevelsSum(cf, sk, key, val, Reach(cf, key), s);
  }

  /** The fresh sketch: zero counters, and `sum` as the constructor left
      it. */
  function Fresh(cf: Config, sum0: seq<int>): (sk: Sketch)
    requires |sum0| == Levels(cf)
    ensures Valid(cf, sk) && sk.sum == sum0
  {
    Sketch(H.Fresh(N(cf)), sum0)
  }

  /** The sketch after feeding `st` to a fresh one whose `sum` starts as
      `sum0`. */
  function Run(cf: Config, sum0: seq<int>, st: seq<Item>): (sk: Sketch)
    requires WellFormed(cf) && |sum0| == Levels(cf)
    ensures Valid(cf, sk)
  {
    if |st| == 0 then Fresh(cf, sum0)
    else Update(cf, Run(cf, sum0, st[..|st| - 1]), st[|st| - 1].key, st[|st| - 1].val)
  }

  /** The reference value of the counter in row `r`, column `c` of level
      `s`: the signed sum of the updates whose key reaches level `s` and
      hashes there. */
  function Load(cf: Config, st: seq<Item>, s: nat, r: nat, c: nat): int
    requires WellFormed(cf) && s < Levels(cf)
  {
    if |st| == 0 then 0
    else
      var it := st[|st| - 1];
      Load(cf, st[..|st| - 1], s, r, c) +
        (if s < Reach(cf, it.key) && Col(cf, s, r, it.key) == c then it.val * Sign(cf, s, r, it.key) else 0)
  }

  /** The reference value of `sum[s]`: the values of the updates whose key
      reaches level `s`. */
  function LevelMass(cf: Config, st: seq<Item>, s: nat): int
  {
    if |st| == 0 then 0
    else LevelMass(cf, st[..|st| - 1], s) + (if s < Reach(cf, st[|st| - 1].key) then st[|st| - 1].val else 0)
  }

  /** Every counter of a run holds its reference value, and every sum has
      grown from its starting value by its reference value. */
  lemma {:induction false} RunLoad(cf: Config, sum0: seq<int>, st: seq<Item>, s: nat, r: nat, c: nat)
    requires WellFormed(cf) && |sum0| == Levels(cf) && s < Levels(cf) && r < cf.depth && c < cf.widths[s]
    ensures CHIdx(cf, s, r, c) < N(cf)
    ensures Run(cf, sum0, st).ch.cnt[CHIdx(cf, s, r, c)] == Load(cf, st, s, r, c)
    ensures Run(cf, sum0, st).sum[s] == sum0[s] + LevelMass(cf, st, s)
  {
    CHIdxLayout(cf, s, r, c, s, r, c);
    if |st| > 0 {
      RunLoad(cf, sum0, st[..|st| - 1], s, r, c);
      UpdateAt(cf, Run(cf, sum0, st[..|st| - 1]), st[|st| - 1].key, st[|st| - 1].val, s, r, c);
    }
  }

  /** Every key reaches level 0, so `sum[0]` grows by the mass of the
      stream. */
  lemma {:induction false} LevelZeroMass(cf: Config, st: seq<Item>)
    requires Levels(cf) >= 1
    ensures LevelMass(cf, st, 0) == Mass(st)
  {
    if |st| > 0 {
      LevelZeroMass(cf, st[..|st| - 1]);
    }
  }

  /** No other key of the stream that reaches level `s` shares a counter
      with `x` in any row of that level. */
  predicate AloneAt(cf: Config, st: seq<Item>, x: FlowKey, s: nat)
    requires WellFormed(cf) && s < Levels(cf)
  {
    forall n, r :: 0 <= n < |st| && 0 <= r < cf.depth && st[n].key != x && s < Reach(cf, st[n].key) ==>
      Col(cf, s, r, st[n].key) != Col(cf, s, r, x)
  }

  /** On a level `x` reaches and shares with nobody, its counter in every
      row is its signed total. */
  lemma {:induction false} AloneLoad(cf: Config, st: seq<Item>, x: FlowKey, s: nat, r: nat)
    requires WellFormed(cf) && s < Reach(cf, x) && r < cf.depth && AloneAt(cf, st, x, s)
    ensures Load(cf, st, s, r, Col(cf, s, r, x)) == Sign(cf, s, r, x) * Total(st, x)
  {
    if |st| > 0 {
      var pre := st[..|st| - 1];
      var it := st[|st| - 1];
      assert AloneAt(cf, pre, x, s) by {
        forall n, r2 | 0 <= n < |pre| && 0 <= r2 < cf.depth && pre[n].key != x && s < Reach(cf, pre[n].key)
          ensures Col(cf, s, r2, pre[n].key) != Col(cf, s, r2, x)
        {
          assert pre[n] == st[n];
        }
      }
      AloneLoad(cf, pre, x, s, r);
      if it.key != x && s < Reach(cf, it.key) {
        assert Col(cf, s, r, it.key) != Col(cf, s, r, x);
      }
    }
  }

  /** A level `x` reaches and shares with nobody estimates it exactly. */
  lemma QuerySketchAlone(cf: Config, sum0: seq<int>, st: seq<Item>, x: FlowKey, s: nat)
    requires WellFormed(cf) && |sum0| == Levels(cf) && cf.depth >= 1 && s < Reach(cf, x) && AloneAt(cf, st, x, s)
    ensures QuerySketch(cf, Run(cf, sum0, st), s, x) == Abs(Total(st, x))
  {
    var v := Values(cf, Run(cf, sum0, st), s, x);
    forall r | 0 <= r < cf.depth
      ensures v[r] == Total(st, x)
    {
      RunLoad(cf, sum0, st, s, r, Col(cf, s, r, x));
      AloneLoad(cf, st, x, s, r);
      var g := Sign(cf, s, r, x);
      assert v[r] == g * Total(st, x) * g;
      assert g * g == 1;
    }
    MedianAbsOfConstant(v, Total(st, x));
  }

  /** A key that shares no counter on any level it reaches is recovered
      exactly: the combination of equal estimates is that estimate. */
  lemma QueryAlone(cf: Config, sum0: seq<int>, st: seq<Item>, x: FlowKey)
    requires WellFormed(cf) && |sum0| == Levels(cf) && Levels(cf) >= 1 && cf.depth >= 1
    requires forall s :: 0 <= s < Reach(cf, x) ==> AloneAt(cf, st, x, s)
    ensures Query(cf, Run(cf, sum0, st), x) == Abs(Total(st, x))
  {
    var top := Reach(cf, x) - 1;
    forall j | 0 <= j <= top
      ensures QuerySketch(cf, Run(cf, sum0, st), j, x) == Abs(Total(st, x))
    {
      QuerySketchAlone(cf, sum0, st, x, j);
    }
    CombineConstant(Estimates(cf, Run(cf, sum0, st), x), top, 0, Abs(Total(st, x)));
  }
}
