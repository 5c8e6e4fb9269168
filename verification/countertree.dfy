/** Counter Tree: `m` leaf counters of `b` bits, with `h - 1` layers of
    `d`-ary parent counters above them, all in one array. `update` adds a
    value to one leaf. A counter that overflows keeps the remainder, marks
    itself and carries the quotient to its parent. So, for a node that
    never overflowed, the counters of its subtree, each weighted by
    `2^b` raised to its layer, add up to exactly what its leaves received.

    The model keeps the array as one sequence per layer. The layout lemmas
    show that the source's flat-index arithmetic (`get_parent`,
    `get_left_son`, the leaf test of `count_sub_tree`) walks exactly this
    layered tree. */
module CounterTree {
  import opened Common

  /** `m` is `NextPrime(m_)`; `r` is the number of hash functions, a key's
      number of leaves; `hf(i, key)` is `hash_func[i](key)`. */
  datatype Config = Config(b: nat, h: nat, d: nat, r: nat, m: nat, hf: Hash)

  /** The parameters the model covers. A counter is a `uint16_t`, so `b`
      is at most 16 for it to hold every value below `1 << b`. There is at
      least one layer (`MakeConfig` reads `h_ = 0` as 1). `d = 0` would
      divide by zero in `get_parent` and `r = 0` in `rand() % r`, and
      `NextPrime` gives at least one leaf. */
  predicate WellFormed(cf: Config)
  {
    cf.b <= 16 && cf.h >= 1 && cf.d >= 1 && cf.r >= 1 && cf.m >= 1
  }

  /** The constructor's parameters from `b_, h_, d_, r_, m_`. Both of its
      loops run `for (i = 1; i < h; i++)`, so `h_ = 0` builds the same array
      as `h_ = 1`: the model's height is `max(h_, 1)`. */
  function MakeConfig(b: nat, h: nat, d: nat, r: nat, m: nat, np: nat -> nat, hf: Hash): (cf: Config)
    requires IsNextPrime(np)
    ensures cf.m >= m && cf.b == b && cf.h == Max(h, 1) && cf.d == d && cf.r == r
    ensures WellFormed(cf) <==> b <= 16 && d >= 1 && r >= 1
  {
    Config(b, Max(h, 1), d, r, np(m), hf)
  }

  /** `bound_of_counters`, which is `1 << b`. */
  function Bound(cf: Config): (n: nat)
    ensures n > 0
  {
    Pow(2, cf.b)
  }

  /** `dh`: the number of leaves under one top-layer counter. */
  function LeavesPerTop(cf: Config): (n: nat)
    requires WellFormed(cf)
    ensures n > 0
  {
    Pow(cf.d, cf.h - 1)
  }

  /** The number of top-layer counters: `m` leaves, grouped by whole top subtrees. */
  function Tops(cf: Config): nat
    requires WellFormed(cf)
  {
    (cf.m + LeavesPerTop(cf) - 1) / LeavesPerTop(cf)
  }

  /** `true_m`: the number of leaves, `m` rounded up to a multiple of `d^(h-1)`. */
  function TrueM(cf: Config): (n: nat)
    requires WellFormed(cf)
    ensures cf.m <= n < cf.m + LeavesPerTop(cf)
  {
    var l := LeavesPerTop(cf);
    var q := (cf.m + l - 1) / l;
    ModUnique(cf.m + l - 1, l, q, (cf.m + l - 1) % l);
    q * l
  }

  /** `running_m` after `k` more rounds of the constructor's loop, starting from `x`. */
  function Running(cf: Config, k: nat, x: nat): nat
    requires WellFormed(cf)
  {
    if k == 0 then x else Running(cf, k - 1, (x + cf.d - 1) / cf.d)
  }

  /** `running_m` after `k` rounds of the constructor's loop: the size of layer `k`. */
  function LayerSize(cf: Config, k: nat): nat
    requires WellFormed(cf)
  {
    Running(cf, k, TrueM(cf))
  }

  lemma {:induction false} RunningNext(cf: Config, k: nat, x: nat)
    requires WellFormed(cf) && k > 0
    ensures Running(cf, k, x) == (Running(cf, k - 1, x) + cf.d - 1) / cf.d
    decreases k
  {
    if k > 1 {
      RunningNext(cf, k - 1, (x + cf.d - 1) / cf.d);
    }
  }

  /** Each round of the loop takes the ceiling of the previous size over `d`. */
  lemma LayerSizeNext(cf: Config, k: nat)
    requires WellFormed(cf) && k > 0
    ensures LayerSize(cf, k) == (LayerSize(cf, k - 1) + cf.d - 1) / cf.d
  {
    RunningNext(cf, k, TrueM(cf));
  }

  /** Where layer `k` starts in the counter array. */
  function Start(cf: Config, k: nat): nat
    requires WellFormed(cf)
  {
    if k == 0 then 0 else Start(cf, k - 1) + LayerSize(cf, k - 1)
  }

  /** `counter_num`: the leaves plus the `h - 1` layers the constructor adds. */
  function CounterNum(cf: Config): nat
    requires WellFormed(cf)
  {
    Start(cf, cf.h)
  }

  /** `get_parent(idx)`: `idx / d + true_m`, or -1 past the array. A
      parent is never a leaf. */
  function GetParent(cf: Config, idx: nat): (p: int)
    requires WellFormed(cf)
    ensures p == -1 || TrueM(cf) <= p < CounterNum(cf)
  {
    var a := idx / cf.d + TrueM(cf);
    if a >= CounterNum(cf) then -1 else a
  }

  /** `get_left_son(idx)`: `(idx - true_m) * d`. For an inner counter the
      first and the last of its `d` sons have it as their parent. */
  function GetLeftSon(cf: Config, idx: int): (s: int)
    requires WellFormed(cf)
    ensures TrueM(cf) <= idx < CounterNum(cf) ==>
      s >= 0 && GetParent(cf, s) == idx && GetParent(cf, s + cf.d - 1) == idx
  {
    assert TrueM(cf) <= idx ==> (((idx - TrueM(cf)) * cf.d) / cf.d == idx - TrueM(cf)
      && ((idx - TrueM(cf)) * cf.d + cf.d - 1) / cf.d == idx - TrueM(cf)) by {
      if TrueM(cf) <= idx {
        ModUnique((idx - TrueM(cf)) * cf.d, cf.d, idx - TrueM(cf), 0);
        ModUnique((idx - TrueM(cf)) * cf.d + cf.d - 1, cf.d, idx - TrueM(cf), cf.d - 1);
      }
    }
    (idx - TrueM(cf)) * cf.d
  }

  lemma DivBelow(x: nat, d: nat, n: nat)
    requires d > 0 && x < d * n
    ensures x / d < n
  {
    if x / d >= n {
      MulLeq(n, x / d, d);
    }
  }

  /** Layer `k` holds `Tops * d^(h-1-k)` counters: every division of the
      constructor's loop is exact. */
  lemma {:induction false} LayerExact(cf: Config, k: nat)
    requires WellFormed(cf) && k < cf.h
    ensures LayerSize(cf, k) == Tops(cf) * Pow(cf.d, cf.h - 1 - k)
    decreases k
  {
    if k > 0 {
      LayerExact(cf, k - 1);
      LayerSizeNext(cf, k);
      var p := Pow(cf.d, cf.h - 1 - k);
      assert Pow(cf.d, cf.h - 1 - (k - 1)) == cf.d * p;
      MulSwap(Tops(cf), cf.d, p);
      ModUnique(LayerSize(cf, k - 1) + cf.d - 1, cf.d, Tops(cf) * p, cf.d - 1);
    }
  }

  /** Each layer below the top has exactly `d` children per counter of the layer above. */
  lemma LayerStep(cf: Config, k: nat)
    requires WellFormed(cf) && 1 <= k < cf.h
    ensures LayerSize(cf, k - 1) == cf.d * LayerSize(cf, k)
  {
    LayerExact(cf, k);
    LayerExact(cf, k - 1);
    var p := Pow(cf.d, cf.h - 1 - k);
    assert Pow(cf.d, cf.h - 1 - (k - 1)) == cf.d * p;
    MulSwap(Tops(cf), cf.d, p);
  }

  lemma DivMod(u: int, d: nat)
    requires d > 0
    ensures u == d * (u / d) + u % d
  {
  }

  /** Adding a multiple of `d` to a multiple of `d`. */
  lemma AddMultiple(s: int, d: nat, l: int)
    requires d > 0 && s % d == 0
    ensures (s + d * l) % d == 0 && (s + d * l) / d == s / d + l
  {
    ModUnique(s + d * l, d, s / d + l, 0);
  }

  /** Dividing `s + j` by `d` when `d` divides `s`. */
  lemma AddDiv(s: int, d: nat, j: nat)
    requires d > 0 && s % d == 0
    ensures (s + j) / d == s / d + j / d
  {
    ModUnique(s + j, d, s / d + j / d, j % d);
  }

  /** Multiplying back a quotient that was exact. */
  lemma MulBack(s: int, d: nat, j: int)
    requires d > 0 && s % d == 0
    ensures (s / d + j) * d == s + j * d
  {
    assert s == d * (s / d);
  }

  /** Every layer start below the top is a multiple of `d`, and the next
      layer starts at `true_m` plus a `d`-th of it. */
  lemma {:induction false} StartStep(cf: Config, k: nat)
    requires WellFormed(cf) && k < cf.h
    ensures Start(cf, k) % cf.d == 0
    ensures Start(cf, k + 1) == TrueM(cf) + Start(cf, k) / cf.d
    decreases k
  {
    if k > 0 {
      StartStep(cf, k - 1);
      LayerStep(cf, k);
      AddMultiple(Start(cf, k - 1), cf.d, LayerSize(cf, k));
    }
  }

  lemma {:induction false} StartMono(cf: Config, k1: nat, k2: nat)
    requires WellFormed(cf) && k1 <= k2
    ensures Start(cf, k1) <= Start(cf, k2)
    decreases k2
  {
    if k1 < k2 {
      StartMono(cf, k1, k2 - 1);
    }
  }

  /** A flat index in layer `k` is below `true_m` exactly for the leaves,
      and inside the array. */
  lemma LeafLayer(cf: Config, k: nat, j: nat)
    requires WellFormed(cf) && k < cf.h && j < LayerSize(cf, k)
    ensures Start(cf, k) + j < TrueM(cf) <==> k == 0
    ensures Start(cf, k) + j < CounterNum(cf)
  {
    StartMono(cf, k + 1, cf.h);
    if k > 0 {
      StartMono(cf, 1, k);
    }
  }

  /** The arithmetic of `ParentInLayers`, away from the layout's definitions. */
  lemma ParentArith(s: nat, s1: nat, tm: nat, j: nat, d: nat)
    requires d > 0 && s % d == 0 && s1 == tm + s / d
    ensures (s + j) / d + tm == s1 + j / d
  {
    AddDiv(s, d, j);
  }

  /** `get_parent` on layer `k`: the `j / d`-th counter of layer `k + 1`,
      and -1 on the top layer. */
  lemma ParentInLayers(cf: Config, k: nat, j: nat)
    requires WellFormed(cf) && k < cf.h && j < LayerSize(cf, k)
    ensures GetParent(cf, Start(cf, k) + j) == if k + 1 < cf.h then Start(cf, k + 1) + j / cf.d else -1
    ensures k + 1 < cf.h ==> j / cf.d < LayerSize(cf, k + 1)
  {
    if k + 1 < cf.h {
      ParentInner(cf, k, j);
      ParentLayer(cf, k, j);
    } else {
      ParentTop(cf, k, j);
    }
  }

  /** Below the top layer `get_parent` lands on counter `j / d` of the next layer. */
  lemma ParentInner(cf: Config, k: nat, j: nat)
    requires WellFormed(cf) && k + 1 < cf.h && j < LayerSize(cf, k)
    ensures GetParent(cf, Start(cf, k) + j) == Start(cf, k + 1) + j / cf.d
  {
    var s := Start(cf, k);
    var s1 := Start(cf, k + 1);
    StartStep(cf, k);
    ParentArith(s, s1, TrueM(cf), j, cf.d);
    ParentBelowTop(cf, k, j);
    assert (s + j) / cf.d + TrueM(cf) == s1 + j / cf.d < CounterNum(cf);
  }

  /** On the top layer `get_parent` runs past the array. */
  lemma ParentTop(cf: Config, k: nat, j: nat)
    requires WellFormed(cf) && k + 1 == cf.h && j < LayerSize(cf, k)
    ensures GetParent(cf, Start(cf, k) + j) == -1
  {
    var s := Start(cf, k);
    var s1 := Start(cf, k + 1);
    StartStep(cf, k);
    ParentArith(s, s1, TrueM(cf), j, cf.d);
    assert (s + j) / cf.d + TrueM(cf) >= CounterNum(cf);
  }

  /** Below the top layer the parent's index stays inside its layer. */
  lemma ParentLayer(cf: Config, k: nat, j: nat)
    requires WellFormed(cf) && k + 1 < cf.h && j < LayerSize(cf, k)
    ensures j / cf.d < LayerSize(cf, k + 1)
  {
    LayerStep(cf, k + 1);
    DivBelow(j, cf.d, LayerSize(cf, k + 1));
  }

  /** The position of a counter's parent within the next layer up. */
  function ParentSlot(cf: Config, k: nat, j: nat): (jp: nat)
    requires WellFormed(cf) && k + 1 < cf.h && j < LayerSize(cf, k)
    ensures jp == j / cf.d && jp < LayerSize(cf, k + 1)
  {
    ParentLayer(cf, k, j);
    j / cf.d
  }

  /** Below the top layer the parent stays inside the array. */
  lemma ParentBelowTop(cf: Config, k: nat, j: nat)
    requires WellFormed(cf) && k + 1 < cf.h && j < LayerSize(cf, k)
    ensures j / cf.d < LayerSize(cf, k + 1)
    ensures Start(cf, k + 1) + j / cf.d < CounterNum(cf)
  {
    LayerStep(cf, k + 1);
    DivBelow(j, cf.d, LayerSize(cf, k + 1));
    StartMono(cf, k + 2, cf.h);
  }

  /** `get_left_son` on layer `k >= 1`: son `i` of counter `j` is the
      `(j * d + i)`-th counter of layer `k - 1`. */
  lemma LeftSonInLayers(cf: Config, k: nat, j: nat, i: nat)
    requires WellFormed(cf) && 1 <= k < cf.h && j < LayerSize(cf, k) && i < cf.d
    ensures GetLeftSon(cf, Start(cf, k) + j) + i == Start(cf, k - 1) + (j * cf.d + i)
    ensures j * cf.d + i < LayerSize(cf, k - 1)
  {
    StartStep(cf, k - 1);
    LayerStep(cf, k);
    MulBack(Start(cf, k - 1), cf.d, j);
    RowMajorBound(j, i, LayerSize(cf, k), cf.d);
  }

  /** Each of the `d` sons of an inner counter, which `LeftSonInLayers`
      places at `j * d + i` of the layer below, has that counter as parent. */
  lemma ParentOfLeftSon(cf: Config, k: nat, j: nat, i: nat)
    requires WellFormed(cf) && 1 <= k < cf.h && j < LayerSize(cf, k) && i < cf.d
    ensures GetParent(cf, Start(cf, k - 1) + (j * cf.d + i)) == Start(cf, k) + j
  {
    var x := SonSlot(cf, k, j, i);
    ModUnique(x, cf.d, j, i);
    ParentInner(cf, k - 1, x);
  }

  /** Position `i` of row `j` in rows of `d`. */
  function RowMajor(j: nat, d: nat, i: nat): (x: nat)
  {
    j * d + i
  }

  /** The counters, flags and `real_val` of the sketch, with the counter
      and flag arrays cut into their layers; `n` is the number of packets. */
  datatype Tree = Tree(cnt: seq<seq<int>>, flag: seq<seq<bool>>, n: int, realVal: seq<int>)

  /** Values laid out like the counter array. */
  predicate Layered(cf: Config, vals: seq<seq<int>>)
    requires WellFormed(cf)
  {
    |vals| == cf.h && forall k :: 0 <= k < cf.h ==> |vals[k]| == LayerSize(cf, k)
  }

  predicate Shape(cf: Config, t: Tree)
    requires WellFormed(cf)
  {
    Layered(cf, t.cnt) && |t.flag| == cf.h &&
    (forall k :: 0 <= k < cf.h ==> |t.flag[k]| == LayerSize(cf, k)) &&
    |t.realVal| == TrueM(cf)
  }

  /** Every counter holds a value below the bound. */
  predicate Valid(cf: Config, t: Tree)
    requires WellFormed(cf)
  {
    Shape(cf, t) &&
    forall k, j :: 0 <= k < cf.h && 0 <= j < LayerSize(cf, k) ==> 0 <= t.cnt[k][j] < Bound(cf)
  }

  /** The constructor's zeroed arrays. */
  function Init(cf: Config): (t: Tree)
    requires WellFormed(cf)
    ensures Valid(cf, t) && t.n == 0
    ensures forall k, j :: 0 <= k < cf.h && 0 <= j < LayerSize(cf, k) ==> t.cnt[k][j] == 0 && !t.flag[k][j]
    ensures forall l :: 0 <= l < TrueM(cf) ==> t.realVal[l] == 0
  {
    Tree(seq(cf.h, (k: nat) => seq(LayerSize(cf, k), _ => 0)),
         seq(cf.h, (k: nat) => seq(LayerSize(cf, k), _ => false)),
         0, seq(TrueM(cf), _ => 0))
  }

  /** Counter `j` of layer `k` set to `v`. */
  function SetCnt(cf: Config, t: Tree, k: nat, j: nat, v: int): (r: Tree)
    requires WellFormed(cf) && Shape(cf, t) && k < cf.h && j < LayerSize(cf, k)
    ensures Shape(cf, r) && r.flag == t.flag && r.n == t.n && r.realVal == t.realVal
    ensures r.cnt[k][j] == v
    ensures forall k', j' :: 0 <= k' < cf.h && 0 <= j' < LayerSize(cf, k') && (k', j') != (k, j) ==>
      r.cnt[k'][j'] == t.cnt[k'][j']
  {
    t.(cnt := t.cnt[k := t.cnt[k][j := v]])
  }

  /** The flag of counter `j` of layer `k` set. */
  function Mark(cf: Config, t: Tree, k: nat, j: nat): (r: Tree)
    requires WellFormed(cf) && Shape(cf, t) && k < cf.h && j < LayerSize(cf, k)
    ensures Shape(cf, r) && r.cnt == t.cnt && r.n == t.n && r.realVal == t.realVal
    ensures r.flag[k][j]
    ensures forall k', j' :: 0 <= k' < cf.h && 0 <= j' < LayerSize(cf, k') && (k', j') != (k, j) ==>
      r.flag[k'][j'] == t.flag[k'][j']
  {
    t.(flag := t.flag[k := t.flag[k][j := true]])
  }

  /** `update_counter` on counter `j` of layer `k`; its parent is counter
      `j / d` of layer `k + 1` (`ParentInLayers`). The counter takes `val`.
      On reaching the bound it keeps the remainder, carries the quotient to
      its parent and sets its flag. An overflow of the top layer ends the
      program, here `OverflowError`. A counter is a `uint16_t`, so a sum
      below the bound is stored modulo 2^16. */
  function UpdateCounter(cf: Config, t: Tree, k: nat, j: nat, val: int): (res: Result<Tree>)
    requires WellFormed(cf) && Shape(cf, t) && k < cf.h && j < LayerSize(cf, k)
    ensures res.Ok? ==> Shape(cf, res.value) && res.value.n == t.n && res.value.realVal == t.realVal
    decreases cf.h - k
  {
    var bound := Bound(cf);
    var result := t.cnt[k][j] + val;
    if result >= bound then
      var c := result % bound;
      if k + 1 < cf.h then
        match UpdateCounter(cf, SetCnt(cf, t, k, j, c), k + 1, ParentSlot(cf, k, j), (result - c) / bound)
        case Err(e) => Err(e)
        case Ok(t2) => Ok(Mark(cf, t2, k, j))
      else Err(OverflowError)
    else Ok(SetCnt(cf, t, k, j, result % 65536))
  }

  /** The leaf that hash function `choice % r` sends `key` to:
      `hash_func[rand() % r](key) % m`, with `rand()` as the parameter `choice`. */
  function LeafOf(cf: Config, key: FlowKey, choice: nat): (l: nat)
    requires WellFormed(cf)
    ensures l < cf.m && l < TrueM(cf)
  {
    HashLeaf(cf, choice % cf.r, key)
  }

  /** `hash_func[i](key) % m`: the `i`-th leaf of `key`. */
  function HashLeaf(cf: Config, i: nat, key: FlowKey): (l: nat)
    requires WellFormed(cf)
    ensures l < cf.m && l < TrueM(cf)
  {
    cf.hf(i, key) % cf.m
  }

  /** The body of `update` once the leaf is known: count the packet, update
      the leaf's counter and the leaf's exact total. */
  function UpdateLeaf(cf: Config, t: Tree, leaf: nat, val: int): (res: Result<Tree>)
    requires WellFormed(cf) && Shape(cf, t) && leaf < cf.m
    ensures res.Ok? ==> Shape(cf, res.value)
    ensures res.Ok? ==> res.value.n == t.n + val
    ensures res.Ok? ==> res.value.realVal == t.realVal[leaf := t.realVal[leaf] + val]
  {
    match UpdateCounter(cf, t.(n := t.n + val), 0, leaf, val)
    case Err(e) => Err(e)
    case Ok(t1) => Ok(t1.(realVal := t1.realVal[leaf := t1.realVal[leaf] + val]))
  }

  /** `update(key, val)`, with `choice` standing for the `rand()` that picks
      one of the `r` hash functions. */
  function Update(cf: Config, t: Tree, key: FlowKey, choice: nat, val: int): (res: Result<Tree>)
    requires WellFormed(cf) && Shape(cf, t)
    ensures res.Ok? ==> Shape(cf, res.value) && res.value.n == t.n + val
    ensures res.Ok? ==> res.value.realVal[LeafOf(cf, key, choice)] == t.realVal[LeafOf(cf, key, choice)] + val
  {
    UpdateLeaf(cf, t, LeafOf(cf, key, choice), val)
  }

  /** One packet: its key, the `rand()` drawn for it, and its value. */
  datatype Arrival = Arrival(key: FlowKey, choice: nat, val: int)

  /** The sketch after `arr` from a fresh one, or the first failure. */
  function Run(cf: Config, arr: seq<Arrival>): (res: Result<Tree>)
    requires WellFormed(cf)
    ensures res.Ok? ==> Shape(cf, res.value)
  {
    if |arr| == 0 then Ok(Init(cf))
    else
      match Run(cf, arr[..|arr| - 1])
      case Err(e) => Err(e)
      case Ok(t) => Update(cf, t, arr[|arr| - 1].key, arr[|arr| - 1].choice, arr[|arr| - 1].val)
  }

  /** The exact total of the packets sent to `leaf`. */
  function LeafTotal(cf: Config, arr: seq<Arrival>, leaf: nat): int
    requires WellFormed(cf)
  {
    if |arr| == 0 then 0
    else
      var a := arr[|arr| - 1];
      LeafTotal(cf, arr[..|arr| - 1], leaf) + (if LeafOf(cf, a.key, a.choice) == leaf then a.val else 0)
  }

  /** The total of all packets. */
  function ArrivalMass(arr: seq<Arrival>): int
  {
    if |arr| == 0 then 0 else ArrivalMass(arr[..|arr| - 1]) + arr[|arr| - 1].val
  }

  predicate NonNegativeArrivals(arr: seq<Arrival>)
  {
    forall i :: 0 <= i < |arr| ==> arr[i].val >= 0
  }

  /** A counter is a `uint16_t` and holds every value below the bound. */
  lemma BoundFits(cf: Config)
    requires WellFormed(cf)
    ensures Bound(cf) <= 65536
  {
    PowMono(2, cf.b, 16);
    assert Pow(2, 4) == 16;
    assert Pow(2, 8) == 256 by {
      assert Pow(2, 8) == 2 * 2 * 2 * 2 * Pow(2, 4);
    }
    assert Pow(2, 12) == 4096 by {
      assert Pow(2, 12) == 2 * 2 * 2 * 2 * Pow(2, 8);
    }
    assert Pow(2, 16) == 2 * 2 * 2 * 2 * Pow(2, 12);
  }

  /** The remainder and quotient of a carry: `c = result % bound` and
      `w = (result - c) / bound`. */
  lemma CarryExact(result: int, bound: nat) returns (c: int, w: nat)
    requires bound > 0 && result >= bound
    ensures c == result % bound && w == (result - c) / bound
    ensures 0 <= c < bound && w >= 1 && w * bound == result - c
  {
    c := result % bound;
    ModUnique(result - c, bound, result / bound, 0);
    w := result / bound;
  }

  /** The weighted value that leaves a counter is the value its parent
      takes: storing the remainder `c` and carrying `w` one layer up adds
      `v` at the counter's weight `p`. */
  lemma CarryArith(s: int, s1: int, s2: int, a: int, c: int, v: int, w: int, bound: int, p: int, p1: int)
    requires w * bound == a + v - c && p1 == bound * p
    requires s1 == s + (c - a) * p && s2 == s1 + w * p1
    ensures s2 == s + v * p
  {
    assert w * (bound * p) == (w * bound) * p;
  }

  /** Every counter weighted by the bound raised to its layer: what it
      stands for in leaf units. */
  function Scaled(cf: Config, cnt: seq<seq<int>>): (w: seq<seq<int>>)
    requires WellFormed(cf) && Layered(cf, cnt)
    ensures Layered(cf, w)
    ensures forall k, j :: 0 <= k < cf.h && 0 <= j < LayerSize(cf, k) ==> w[k][j] == cnt[k][j] * Pow(Bound(cf), k)
  {
    seq(cf.h, (k: nat) requires k < cf.h =>
      seq(LayerSize(cf, k), (j: nat) requires j < LayerSize(cf, k) => cnt[k][j] * Pow(Bound(cf), k)))
  }

  /** `real_val` as layer values: the leaves' exact totals, nothing above them. */
  function LeafLayers(cf: Config, rv: seq<int>): (w: seq<seq<int>>)
    requires WellFormed(cf) && |rv| == TrueM(cf)
    ensures Layered(cf, w) && w[0] == rv
    ensures forall k, j :: 1 <= k < cf.h && 0 <= j < LayerSize(cf, k) ==> w[k][j] == 0
  {
    seq(cf.h, (k: nat) => if k == 0 then rv else seq(LayerSize(cf, k), _ => 0))
  }

  /** Entry `j` of layer `k` increased by `delta`. */
  function Bump(cf: Config, vals: seq<seq<int>>, k: nat, j: nat, delta: int): (w: seq<seq<int>>)
    requires WellFormed(cf) && Layered(cf, vals) && k < cf.h && j < LayerSize(cf, k)
    ensures Layered(cf, w)
  {
    vals[k := vals[k][j := vals[k][j] + delta]]
  }

  /** The sum of every entry of every layer. */
  function LayerTotal(vals: seq<seq<int>>): int
  {
    if |vals| == 0 then 0 else LayerTotal(vals[..|vals| - 1]) + Sum(vals[|vals| - 1])
  }

  /** The weighted total `sum counter[i] * bound^layer(i)`. */
  function Weighted(cf: Config, cnt: seq<seq<int>>): int
    requires WellFormed(cf) && Layered(cf, cnt)
  {
    LayerTotal(Scaled(cf, cnt))
  }

  lemma {:induction false} LayerTotalBump(vals: seq<seq<int>>, k: nat, j: nat, delta: int)
    requires k < |vals| && j < |vals[k]|
    ensures LayerTotal(vals[k := vals[k][j := vals[k][j] + delta]]) == LayerTotal(vals) + delta
  {
    var w := vals[k := vals[k][j := vals[k][j] + delta]];
    if k == |vals| - 1 {
      assert w[..|w| - 1] == vals[..|vals| - 1];
      SumUpdate(vals[k], j, vals[k][j] + delta);
    } else {
      LayerTotalBump(vals[..|vals| - 1], k, j, delta);
      assert w[..|w| - 1] == vals[..|vals| - 1][k := vals[k][j := vals[k][j] + delta]];
    }
  }

  /** Storing `v` in a counter moves its weighted value by the difference. */
  lemma ScaledSet(cf: Config, t: Tree, k: nat, j: nat, v: int)
    requires WellFormed(cf) && Shape(cf, t) && k < cf.h && j < LayerSize(cf, k)
    ensures Scaled(cf, SetCnt(cf, t, k, j, v).cnt) ==
      Bump(cf, Scaled(cf, t.cnt), k, j, (v - t.cnt[k][j]) * Pow(Bound(cf), k))
  {
    var p := Pow(Bound(cf), k);
    var a := Scaled(cf, SetCnt(cf, t, k, j, v).cnt);
    var b := Bump(cf, Scaled(cf, t.cnt), k, j, (v - t.cnt[k][j]) * p);
    assert t.cnt[k][j] * p + (v - t.cnt[k][j]) * p == v * p;
    forall k' | 0 <= k' < cf.h
      ensures a[k'] == b[k']
    {
      assert |a[k']| == |b[k']|;
      forall j' | 0 <= j' < |a[k']|
        ensures a[k'][j'] == b[k'][j']
      {
      }
    }
  }

  /** The sum of `vals` over the subtree of entry `j` of layer `k`. */
  function TreeSum(cf: Config, vals: seq<seq<int>>, k: nat, j: nat): int
    requires WellFormed(cf) && Layered(cf, vals) && k < cf.h && j < LayerSize(cf, k)
    decreases k, 1, 0
  {
    if k == 0 then vals[0][j] else vals[k][j] + ChildSum(cf, vals, k, j, cf.d)
  }

  /** The subtree sums of the first `n` sons of entry `j` of layer `k >= 1`. */
  function ChildSum(cf: Config, vals: seq<seq<int>>, k: nat, j: nat, n: nat): int
    requires WellFormed(cf) && Layered(cf, vals) && 1 <= k < cf.h && j < LayerSize(cf, k) && n <= cf.d
    decreases k, 0, n
  {
    if n == 0 then 0
    else ChildSum(cf, vals, k, j, n - 1) + TreeSum(cf, vals, k - 1, SonSlot(cf, k, j, n - 1))
  }

  /** The position of son `i` of counter `j` of layer `k` within layer `k - 1`. */
  function SonSlot(cf: Config, k: nat, j: nat, i: nat): (c: nat)
    requires WellFormed(cf) && 1 <= k < cf.h && j < LayerSize(cf, k) && i < cf.d
    ensures c == j * cf.d + i && c < LayerSize(cf, k - 1)
  {
    LeftSonInLayers(cf, k, j, i);
    RowMajor(j, cf.d, i)
  }

  /** The ancestor `n` layers up of entry `x`, as layer indices. */
  function Up(cf: Config, x: nat, n: nat): nat
    requires WellFormed(cf)
  {
    if n == 0 then x else Up(cf, x, n - 1) / cf.d
  }

  /** Entry `j` of layer `k` lies in the subtree of entry `jj` of layer `kk`. */
  predicate Below(cf: Config, k: nat, j: nat, kk: nat, jj: nat)
    requires WellFormed(cf)
  {
    k <= kk && Up(cf, j, kk - k) == jj
  }

  lemma {:induction false} UpShift(cf: Config, j: nat, n: nat)
    requires WellFormed(cf)
    ensures Up(cf, j / cf.d, n) == Up(cf, j, n + 1)
  {
    if n > 0 {
      UpShift(cf, j, n - 1);
    }
  }

  /** The parent's subtree holds the child's. */
  lemma BelowParent(cf: Config, k: nat, j: nat, kk: nat, jj: nat)
    requires WellFormed(cf)
    ensures Below(cf, k + 1, j / cf.d, kk, jj) ==> Below(cf, k, j, kk, jj)
    ensures Below(cf, k, j, kk, jj) && (kk, jj) != (k, j) ==> Below(cf, k + 1, j / cf.d, kk, jj)
  {
    if k < kk {
      UpShift(cf, j, kk - k - 1);
    }
  }

  /** Changing one entry changes the sum of exactly the subtrees that hold it. */
  lemma {:induction false} TreeSumBump(cf: Config, vals: seq<seq<int>>, k: nat, j: nat, delta: int, kk: nat, jj: nat)
    requires WellFormed(cf) && Layered(cf, vals) && k < cf.h && j < LayerSize(cf, k)
    requires kk < cf.h && jj < LayerSize(cf, kk)
    ensures TreeSum(cf, Bump(cf, vals, k, j, delta), kk, jj) ==
      TreeSum(cf, vals, kk, jj) + (if Below(cf, k, j, kk, jj) then delta else 0)
    decreases kk, 1, 0
  {
    if kk > 0 {
      ChildSumBump(cf, vals, k, j, delta, kk, jj, cf.d);
      if k < kk {
        DivMod(Up(cf, j, kk - 1 - k), cf.d);
      }
    }
  }

  lemma {:induction false} ChildSumBump(cf: Config, vals: seq<seq<int>>, k: nat, j: nat, delta: int, kk: nat, jj: nat, n: nat)
    requires WellFormed(cf) && Layered(cf, vals) && k < cf.h && j < LayerSize(cf, k)
    requires 1 <= kk < cf.h && jj < LayerSize(cf, kk) && n <= cf.d
    ensures ChildSum(cf, Bump(cf, vals, k, j, delta), kk, jj, n) ==
      ChildSum(cf, vals, kk, jj, n) +
      (if k < kk && Up(cf, j, kk - 1 - k) / cf.d == jj && Up(cf, j, kk - 1 - k) % cf.d < n then delta else 0)
    decreases kk, 0, n
  {
    if n > 0 {
      ChildSumBump(cf, vals, k, j, delta, kk, jj, n - 1);
      var c := SonSlot(cf, kk, jj, n - 1);
      TreeSumBump(cf, vals, k, j, delta, kk - 1, c);
      ModUnique(c, cf.d, jj, n - 1);
      if k < kk {
        DivMod(Up(cf, j, kk - 1 - k), cf.d);
      }
    }
  }

  /** A sum below the bound is stored as it is. */
  lemma UpdateCounterStores(cf: Config, t: Tree, k: nat, j: nat, val: int)
    requires WellFormed(cf) && Shape(cf, t) && k < cf.h && j < LayerSize(cf, k)
    requires 0 <= t.cnt[k][j] + val < Bound(cf)
    ensures UpdateCounter(cf, t, k, j, val) == Ok(SetCnt(cf, t, k, j, t.cnt[k][j] + val))
  {
    BoundFits(cf);
  }

  /** A sum at or above the bound keeps the remainder `c`, hands the
      quotient `w` to the parent and marks the counter. */
  lemma UpdateCounterCarries(cf: Config, t: Tree, k: nat, j: nat, val: int) returns (c: int, w: nat, jp: nat)
    requires WellFormed(cf) && Shape(cf, t) && k < cf.h && j < LayerSize(cf, k)
    requires t.cnt[k][j] + val >= Bound(cf)
    requires UpdateCounter(cf, t, k, j, val).Ok?
    ensures 0 <= c < Bound(cf) && w >= 1 && w * Bound(cf) == t.cnt[k][j] + val - c
    ensures k + 1 < cf.h && jp == j / cf.d && jp < LayerSize(cf, k + 1)
    ensures UpdateCounter(cf, SetCnt(cf, t, k, j, c), k + 1, jp, w).Ok?
    ensures UpdateCounter(cf, t, k, j, val).value ==
      Mark(cf, UpdateCounter(cf, SetCnt(cf, t, k, j, c), k + 1, jp, w).value, k, j)
  {
    assert k + 1 < cf.h;
    jp := ParentSlot(cf, k, j);
    c, w := CarryExact(t.cnt[k][j] + val, Bound(cf));
    var inner := UpdateCounter(cf, SetCnt(cf, t, k, j, c), k + 1, jp, w);
    assert UpdateCounter(cf, t, k, j, val) ==
      match inner case Err(e) => Err(e) case Ok(t2) => Ok(Mark(cf, t2, k, j));
  }

  lemma MarkValid(cf: Config, t: Tree, k: nat, j: nat)
    requires WellFormed(cf) && Valid(cf, t) && k < cf.h && j < LayerSize(cf, k)
    ensures Valid(cf, Mark(cf, t, k, j))
  {
  }

  lemma SetCntValid(cf: Config, t: Tree, k: nat, j: nat, v: int)
    requires WellFormed(cf) && Valid(cf, t) && k < cf.h && j < LayerSize(cf, k) && 0 <= v < Bound(cf)
    ensures Valid(cf, SetCnt(cf, t, k, j, v))
  {
  }

  /** Storing `v` in a counter moves the weighted total by the weighted difference. */
  lemma WeightedSet(cf: Config, t: Tree, k: nat, j: nat, v: int)
    requires WellFormed(cf) && Shape(cf, t) && k < cf.h && j < LayerSize(cf, k)
    ensures Weighted(cf, SetCnt(cf, t, k, j, v).cnt) ==
      Weighted(cf, t.cnt) + (v - t.cnt[k][j]) * Pow(Bound(cf), k)
  {
    var s := Scaled(cf, t.cnt);
    var delta := (v - t.cnt[k][j]) * Pow(Bound(cf), k);
    ScaledSet(cf, t, k, j, v);
    assert Scaled(cf, SetCnt(cf, t, k, j, v).cnt) == s[k := s[k][j := s[k][j] + delta]];
    LayerTotalBump(s, k, j, delta);
  }

  /** Storing `v` in a counter moves the weighted sum of exactly the
      subtrees holding it by the weighted difference. */
  lemma TreeSumSet(cf: Config, t: Tree, k: nat, j: nat, v: int, kk: nat, jj: nat)
    requires WellFormed(cf) && Shape(cf, t) && k < cf.h && j < LayerSize(cf, k)
    requires kk < cf.h && jj < LayerSize(cf, kk)
    ensures TreeSum(cf, Scaled(cf, SetCnt(cf, t, k, j, v).cnt), kk, jj) ==
      TreeSum(cf, Scaled(cf, t.cnt), kk, jj) + (if Below(cf, k, j, kk, jj) then (v - t.cnt[k][j]) * Pow(Bound(cf), k) else 0)
  {
    ScaledSet(cf, t, k, j, v);
    TreeSumBump(cf, Scaled(cf, t.cnt), k, j, (v - t.cnt[k][j]) * Pow(Bound(cf), k), kk, jj);
  }

  lemma MulDiff(a: int, val: int, p: int)
    ensures (a + val - a) * p == val * p
  {
  }

  /** A successful `update_counter` of a non-negative value keeps every
      counter below the bound. */
  lemma {:induction false} UpdateCounterValid(cf: Config, t: Tree, k: nat, j: nat, val: int)
    requires WellFormed(cf) && Valid(cf, t) && k < cf.h && j < LayerSize(cf, k) && val >= 0
    requires UpdateCounter(cf, t, k, j, val).Ok?
    ensures Valid(cf, UpdateCounter(cf, t, k, j, val).value)
    decreases cf.h - k
  {
    if t.cnt[k][j] + val >= Bound(cf) {
      var c, w, jp := UpdateCounterCarries(cf, t, k, j, val);
      var t1 := SetCnt(cf, t, k, j, c);
      SetCntValid(cf, t, k, j, c);
      UpdateCounterValid(cf, t1, k + 1, jp, w);
      MarkValid(cf, UpdateCounter(cf, t1, k + 1, jp, w).value, k, j);
    } else {
      UpdateCounterStores(cf, t, k, j, val);
      SetCntValid(cf, t, k, j, t.cnt[k][j] + val);
    }
  }

  /** The store branch of `update_counter` moves the weighted total by
      exactly `val` at the counter's layer. */
  lemma WeightedStore(cf: Config, t: Tree, k: nat, j: nat, val: int)
    requires WellFormed(cf) && Shape(cf, t) && k < cf.h && j < LayerSize(cf, k)
    requires 0 <= t.cnt[k][j] + val < Bound(cf)
    ensures UpdateCounter(cf, t, k, j, val).Ok?
    ensures Weighted(cf, UpdateCounter(cf, t, k, j, val).value.cnt) ==
      Weighted(cf, t.cnt) + val * Pow(Bound(cf), k)
  {
    UpdateCounterStores(cf, t, k, j, val);
    WeightedSet(cf, t, k, j, t.cnt[k][j] + val);
    MulDiff(t.cnt[k][j], val, Pow(Bound(cf), k));
  }

  /** The carry branch of `update_counter`: keeping `c` here and sending
      `w` one layer up moves the weighted total by `val` at this layer. */
  lemma WeightedCarry(cf: Config, t: Tree, k: nat, j: nat, val: int, c: int, w: int, t2: Tree)
    requires WellFormed(cf) && Shape(cf, t) && k < cf.h && j < LayerSize(cf, k) && Shape(cf, t2)
    requires w * Bound(cf) == t.cnt[k][j] + val - c
    requires Weighted(cf, t2.cnt) == Weighted(cf, SetCnt(cf, t, k, j, c).cnt) + w * Pow(Bound(cf), k + 1)
    ensures Weighted(cf, Mark(cf, t2, k, j).cnt) == Weighted(cf, t.cnt) + val * Pow(Bound(cf), k)
  {
    WeightedSet(cf, t, k, j, c);
    CarryArith(Weighted(cf, t.cnt), Weighted(cf, SetCnt(cf, t, k, j, c).cnt), Weighted(cf, t2.cnt),
      t.cnt[k][j], c, val, w, Bound(cf), Pow(Bound(cf), k), Pow(Bound(cf), k + 1));
  }

  /** Carrying loses nothing: a successful `update_counter` of a
      non-negative value raises the weighted total
      `sum counter[i] * bound^layer(i)` by exactly `val` weighted by the
      layer where it started. */
  lemma {:induction false} UpdateCounterWeighted(cf: Config, t: Tree, k: nat, j: nat, val: int)
    requires WellFormed(cf) && Valid(cf, t) && k < cf.h && j < LayerSize(cf, k) && val >= 0
    requires UpdateCounter(cf, t, k, j, val).Ok?
    ensures Weighted(cf, UpdateCounter(cf, t, k, j, val).value.cnt) ==
      Weighted(cf, t.cnt) + val * Pow(Bound(cf), k)
    decreases cf.h - k
  {
    if t.cnt[k][j] + val >= Bound(cf) {
      var c, w, jp := UpdateCounterCarries(cf, t, k, j, val);
      SetCntValid(cf, t, k, j, c);
      UpdateCounterWeighted(cf, SetCnt(cf, t, k, j, c), k + 1, jp, w);
      WeightedCarry(cf, t, k, j, val, c, w, UpdateCounter(cf, SetCnt(cf, t, k, j, c), k + 1, jp, w).value);
    } else {
      WeightedStore(cf, t, k, j, val);
    }
  }

  /** The store branch of `update_counter` leaves every flag alone. */
  lemma FlagsStore(cf: Config, t: Tree, k: nat, j: nat, val: int)
    requires WellFormed(cf) && Shape(cf, t) && k < cf.h && j < LayerSize(cf, k)
    requires t.cnt[k][j] + val < Bound(cf)
    ensures UpdateCounter(cf, t, k, j, val).Ok?
    ensures UpdateCounter(cf, t, k, j, val).value.flag == t.flag
  {
  }

  /** The carry branch of `update_counter` sets this counter's flag on top
      of what the carry one layer up did. */
  lemma FlagsCarry(cf: Config, t: Tree, k: nat, j: nat, t2: Tree, kk: nat, jj: nat)
    requires WellFormed(cf) && Shape(cf, t) && k + 1 < cf.h && j < LayerSize(cf, k) && Shape(cf, t2)
    requires kk < cf.h && jj < LayerSize(cf, kk)
    requires t.flag[kk][jj] ==> t2.flag[kk][jj]
    requires t2.flag[kk][jj] ==> t.flag[kk][jj] || kk + 1 < cf.h
    ensures t.flag[kk][jj] ==> Mark(cf, t2, k, j).flag[kk][jj]
    ensures Mark(cf, t2, k, j).flag[kk][jj] ==> t.flag[kk][jj] || kk + 1 < cf.h
  {
  }

  /** `update_counter` only ever sets flags, and never one on the top layer:
      a flag it sets lies below the top. */
  lemma {:induction false} UpdateCounterFlags(cf: Config, t: Tree, k: nat, j: nat, val: int, kk: nat, jj: nat)
    requires WellFormed(cf) && Valid(cf, t) && k < cf.h && j < LayerSize(cf, k) && val >= 0
    requires kk < cf.h && jj < LayerSize(cf, kk)
    requires UpdateCounter(cf, t, k, j, val).Ok?
    ensures t.flag[kk][jj] ==> UpdateCounter(cf, t, k, j, val).value.flag[kk][jj]
    ensures UpdateCounter(cf, t, k, j, val).value.flag[kk][jj] ==> t.flag[kk][jj] || kk + 1 < cf.h
    decreases cf.h - k
  {
    if t.cnt[k][j] + val >= Bound(cf) {
      var c, w, jp := UpdateCounterCarries(cf, t, k, j, val);
      SetCntValid(cf, t, k, j, c);
      UpdateCounterFlags(cf, SetCnt(cf, t, k, j, c), k + 1, jp, w, kk, jj);
      FlagsCarry(cf, t, k, j, UpdateCounter(cf, SetCnt(cf, t, k, j, c), k + 1, jp, w).value, kk, jj);
    } else {
      FlagsStore(cf, t, k, j, val);
    }
  }

  /** The store branch of `update_counter` seen from one subtree. */
  lemma SubtreeStore(cf: Config, t: Tree, k: nat, j: nat, val: int, kk: nat, jj: nat)
    requires WellFormed(cf) && Shape(cf, t) && k < cf.h && j < LayerSize(cf, k)
    requires kk < cf.h && jj < LayerSize(cf, kk)
    requires 0 <= t.cnt[k][j] + val < Bound(cf)
    ensures UpdateCounter(cf, t, k, j, val).Ok?
    ensures TreeSum(cf, Scaled(cf, UpdateCounter(cf, t, k, j, val).value.cnt), kk, jj) ==
      TreeSum(cf, Scaled(cf, t.cnt), kk, jj) + (if Below(cf, k, j, kk, jj) then val * Pow(Bound(cf), k) else 0)
  {
    UpdateCounterStores(cf, t, k, j, val);
    TreeSumSet(cf, t, k, j, t.cnt[k][j] + val, kk, jj);
    MulDiff(t.cnt[k][j], val, Pow(Bound(cf), k));
  }

  /** The carry branch of `update_counter` seen from one subtree, given what
      the carry one layer up did to it. */
  lemma SubtreeCarry(cf: Config, t: Tree, k: nat, j: nat, val: int, c: int, w: int, t2: Tree, kk: nat, jj: nat)
    requires WellFormed(cf) && Shape(cf, t) && k < cf.h && j < LayerSize(cf, k) && Shape(cf, t2)
    requires kk < cf.h && jj < LayerSize(cf, kk)
    requires w * Bound(cf) == t.cnt[k][j] + val - c
    requires !Below(cf, k + 1, j / cf.d, kk, jj) ==>
      TreeSum(cf, Scaled(cf, t2.cnt), kk, jj) == TreeSum(cf, Scaled(cf, SetCnt(cf, t, k, j, c).cnt), kk, jj)
    requires Below(cf, k + 1, j / cf.d, kk, jj) && !t2.flag[kk][jj] ==>
      TreeSum(cf, Scaled(cf, t2.cnt), kk, jj) ==
      TreeSum(cf, Scaled(cf, SetCnt(cf, t, k, j, c).cnt), kk, jj) + w * Pow(Bound(cf), k + 1)
    ensures !Below(cf, k, j, kk, jj) ==>
      TreeSum(cf, Scaled(cf, Mark(cf, t2, k, j).cnt), kk, jj) == TreeSum(cf, Scaled(cf, t.cnt), kk, jj)
    ensures Below(cf, k, j, kk, jj) && !Mark(cf, t2, k, j).flag[kk][jj] ==>
      TreeSum(cf, Scaled(cf, Mark(cf, t2, k, j).cnt), kk, jj) ==
      TreeSum(cf, Scaled(cf, t.cnt), kk, jj) + val * Pow(Bound(cf), k)
  {
    TreeSumSet(cf, t, k, j, c, kk, jj);
    BelowParent(cf, k, j, kk, jj);
    assert Mark(cf, t2, k, j).cnt == t2.cnt;
    if Below(cf, k, j, kk, jj) && (kk, jj) != (k, j) {
      var s := TreeSum(cf, Scaled(cf, t.cnt), kk, jj);
      var s1 := TreeSum(cf, Scaled(cf, SetCnt(cf, t, k, j, c).cnt), kk, jj);
      var s2 := TreeSum(cf, Scaled(cf, t2.cnt), kk, jj);
      var bound := Bound(cf);
      var p := Pow(bound, k);
      var p1 := Pow(bound, k + 1);
      assert p1 == bound * p;
      assert s1 == s + (c - t.cnt[k][j]) * p;
      if !Mark(cf, t2, k, j).flag[kk][jj] {
        assert s2 == s1 + w * p1;
        CarryArith(s, s1, s2, t.cnt[k][j], c, val, w, bound, p, p1);
      }
    }
  }

  /** What a successful `update_counter` of a non-negative value does to one
      subtree. A subtree that does not hold the updated counter keeps its
      weighted sum. One that holds it and is still unflagged afterwards
      gains exactly `val` weighted by the starting layer. */
  lemma {:induction false} UpdateCounterSubtree(cf: Config, t: Tree, k: nat, j: nat, val: int, kk: nat, jj: nat)
    requires WellFormed(cf) && Valid(cf, t) && k < cf.h && j < LayerSize(cf, k) && val >= 0
    requires kk < cf.h && jj < LayerSize(cf, kk)
    requires UpdateCounter(cf, t, k, j, val).Ok?
    ensures !Below(cf, k, j, kk, jj) ==>
      TreeSum(cf, Scaled(cf, UpdateCounter(cf, t, k, j, val).value.cnt), kk, jj) == TreeSum(cf, Scaled(cf, t.cnt), kk, jj)
    ensures Below(cf, k, j, kk, jj) && !UpdateCounter(cf, t, k, j, val).value.flag[kk][jj] ==>
      TreeSum(cf, Scaled(cf, UpdateCounter(cf, t, k, j, val).value.cnt), kk, jj) ==
      TreeSum(cf, Scaled(cf, t.cnt), kk, jj) + val * Pow(Bound(cf), k)
    decreases cf.h - k
  {
    if t.cnt[k][j] + val >= Bound(cf) {
      var c, w, jp := UpdateCounterCarries(cf, t, k, j, val);
      SetCntValid(cf, t, k, j, c);
      UpdateCounterSubtree(cf, SetCnt(cf, t, k, j, c), k + 1, jp, w, kk, jj);
      SubtreeCarry(cf, t, k, j, val, c, w, UpdateCounter(cf, SetCnt(cf, t, k, j, c), k + 1, jp, w).value, kk, jj);
    } else {
      SubtreeStore(cf, t, k, j, val, kk, jj);
    }
  }

  /** What the sketch keeps exact. Counters stay below the bound. No
      top-layer counter is flagged. Every unflagged counter's subtree,
      weighted, adds up to the exact totals of its leaves. The weighted
      total of all counters, the exact totals, and `n` agree. */
  ghost predicate Exact(cf: Config, t: Tree)
  {
    WellFormed(cf) && Valid(cf, t) &&
    NoneSet(t.flag[cf.h - 1]) &&
    (forall kk, jj :: 0 <= kk < cf.h && 0 <= jj < LayerSize(cf, kk) && !t.flag[kk][jj] ==>
      TreeSum(cf, Scaled(cf, t.cnt), kk, jj) == TreeSum(cf, LeafLayers(cf, t.realVal), kk, jj)) &&
    Weighted(cf, t.cnt) == t.n && Sum(t.realVal) == t.n
  }

  predicate NoneSet(flags: seq<bool>)
  {
    forall i :: 0 <= i < |flags| ==> !flags[i]
  }

  /** Adding to a leaf's exact total bumps the leaf entry of its layers. */
  lemma LeafLayersBump(cf: Config, rv: seq<int>, l: nat, v: int)
    requires WellFormed(cf) && |rv| == TrueM(cf) && l < |rv|
    ensures LeafLayers(cf, rv[l := rv[l] + v]) == Bump(cf, LeafLayers(cf, rv), 0, l, v)
  {
    var a := LeafLayers(cf, rv[l := rv[l] + v]);
    var b := Bump(cf, LeafLayers(cf, rv), 0, l, v);
    assert a[0] == b[0];
    assert forall k :: 1 <= k < cf.h ==> a[k] == b[k];
  }

  lemma {:induction false} SumZeros(s: seq<int>)
    requires forall i :: 0 <= i < |s| ==> s[i] == 0
    ensures Sum(s) == 0
  {
    if |s| > 0 {
      SumZeros(s[..|s| - 1]);
    }
  }

  lemma {:induction false} LayerTotalZeros(vals: seq<seq<int>>)
    requires forall k, j :: 0 <= k < |vals| && 0 <= j < |vals[k]| ==> vals[k][j] == 0
    ensures LayerTotal(vals) == 0
  {
    if |vals| > 0 {
      LayerTotalZeros(vals[..|vals| - 1]);
      SumZeros(vals[|vals| - 1]);
    }
  }

  /** A fresh sketch is exact: everything is zero. */
  lemma InitExact(cf: Config)
    requires WellFormed(cf)
    ensures Exact(cf, Init(cf))
  {
    var t := Init(cf);
    var s := Scaled(cf, t.cnt);
    var z := LeafLayers(cf, t.realVal);
    forall k | 0 <= k < cf.h
      ensures s[k] == z[k]
    {
      assert |s[k]| == |z[k]|;
    }
    assert s == z;
    LayerTotalZeros(s);
    SumZeros(t.realVal);
  }

  /** The subtree part of `Exact`, for one counter, across one update. */
  lemma UpdateExactAt(cf: Config, t: Tree, leaf: nat, val: int, kk: nat, jj: nat)
    requires WellFormed(cf) && Valid(cf, t) && leaf < cf.m && val >= 0
    requires UpdateLeaf(cf, t, leaf, val).Ok?
    requires kk < cf.h && jj < LayerSize(cf, kk)
    requires !t.flag[kk][jj] ==>
      TreeSum(cf, Scaled(cf, t.cnt), kk, jj) == TreeSum(cf, LeafLayers(cf, t.realVal), kk, jj)
    requires !UpdateLeaf(cf, t, leaf, val).value.flag[kk][jj]
    ensures TreeSum(cf, Scaled(cf, UpdateLeaf(cf, t, leaf, val).value.cnt), kk, jj) ==
      TreeSum(cf, LeafLayers(cf, UpdateLeaf(cf, t, leaf, val).value.realVal), kk, jj)
  {
    var t0 := t.(n := t.n + val);
    var t1 := UpdateCounter(cf, t0, 0, leaf, val).value;
    var u := UpdateLeaf(cf, t, leaf, val).value;
    assert u.cnt == t1.cnt && u.flag == t1.flag;
    UpdateCounterFlags(cf, t0, 0, leaf, val, kk, jj);
    UpdateCounterSubtree(cf, t0, 0, leaf, val, kk, jj);
    LeafLayersBump(cf, t.realVal, leaf, val);
    TreeSumBump(cf, LeafLayers(cf, t.realVal), 0, leaf, val, kk, jj);
  }

  /** An update leaves the top layer unflagged. */
  lemma UpdateTopClear(cf: Config, t: Tree, leaf: nat, val: int)
    requires WellFormed(cf) && Valid(cf, t) && NoneSet(t.flag[cf.h - 1]) && leaf < cf.m && val >= 0
    requires UpdateLeaf(cf, t, leaf, val).Ok?
    ensures NoneSet(UpdateLeaf(cf, t, leaf, val).value.flag[cf.h - 1])
  {
    var t0 := t.(n := t.n + val);
    var u := UpdateLeaf(cf, t, leaf, val).value;
    assert u.flag == UpdateCounter(cf, t0, 0, leaf, val).value.flag;
    var top := u.flag[cf.h - 1];
    forall jj | 0 <= jj < |top|
      ensures !top[jj]
    {
      UpdateCounterFlags(cf, t0, 0, leaf, val, cf.h - 1, jj);
    }
  }

  /** An update keeps the weighted total, the exact totals and `n` in step. */
  lemma UpdateTotals(cf: Config, t: Tree, leaf: nat, val: int)
    requires WellFormed(cf) && Valid(cf, t) && leaf < cf.m && val >= 0
    requires Weighted(cf, t.cnt) == t.n && Sum(t.realVal) == t.n
    requires UpdateLeaf(cf, t, leaf, val).Ok?
    ensures Valid(cf, UpdateLeaf(cf, t, leaf, val).value)
    ensures Weighted(cf, UpdateLeaf(cf, t, leaf, val).value.cnt) == UpdateLeaf(cf, t, leaf, val).value.n
    ensures Sum(UpdateLeaf(cf, t, leaf, val).value.realVal) == UpdateLeaf(cf, t, leaf, val).value.n
  {
    var t0 := t.(n := t.n + val);
    var t1 := UpdateCounter(cf, t0, 0, leaf, val).value;
    var u := UpdateLeaf(cf, t, leaf, val).value;
    assert u.cnt == t1.cnt && u.flag == t1.flag;
    UpdateCounterValid(cf, t0, 0, leaf, val);
    UpdateCounterWeighted(cf, t0, 0, leaf, val);
    SumUpdate(t.realVal, leaf, t.realVal[leaf] + val);
  }

  /** One update of a non-negative value that does not overflow the top
      layer keeps the sketch exact. */
  lemma UpdateLeafExact(cf: Config, t: Tree, leaf: nat, val: int)
    requires Exact(cf, t) && leaf < cf.m && val >= 0
    requires UpdateLeaf(cf, t, leaf, val).Ok?
    ensures Exact(cf, UpdateLeaf(cf, t, leaf, val).value)
  {
    var u := UpdateLeaf(cf, t, leaf, val).value;
    UpdateTotals(cf, t, leaf, val);
    UpdateTopClear(cf, t, leaf, val);
    forall kk, jj | 0 <= kk < cf.h && 0 <= jj < LayerSize(cf, kk) && !u.flag[kk][jj]
      ensures TreeSum(cf, Scaled(cf, u.cnt), kk, jj) == TreeSum(cf, LeafLayers(cf, u.realVal), kk, jj)
    {
      UpdateExactAt(cf, t, leaf, val, kk, jj);
    }
  }

  /** A run of non-negative packets that never overflows the top layer
      leaves the sketch exact, `n` counting every packet and each leaf's
      `real_val` holding exactly the packets sent to it. */
  lemma {:induction false} RunExact(cf: Config, arr: seq<Arrival>)
    requires WellFormed(cf) && NonNegativeArrivals(arr)
    requires Run(cf, arr).Ok?
    ensures Exact(cf, Run(cf, arr).value)
    ensures Run(cf, arr).value.n == ArrivalMass(arr)
    ensures forall l :: 0 <= l < TrueM(cf) ==> Run(cf, arr).value.realVal[l] == LeafTotal(cf, arr, l)
  {
    if |arr| == 0 {
      InitExact(cf);
    } else {
      var pre := arr[..|arr| - 1];
      var a := arr[|arr| - 1];
      assert NonNegativeArrivals(pre);
      RunExact(cf, pre);
      var t := Run(cf, pre).value;
      UpdateLeafExact(cf, t, LeafOf(cf, a.key, a.choice), a.val);
    }
  }

  /** `count_sub_tree(root_idx, pow)` on counter `j` of layer `k`. A leaf
      (`root_idx < true_m`, see `LeafLayer`) must be reached with `pow` 1,
      otherwise the program exits: `InvalidArgument`. An inner counter
      counts `pow` times itself plus its `d` sons at `pow / bound`. */
  function CountSubTree(cf: Config, cnt: seq<seq<int>>, k: nat, j: nat, pow: nat): (r: Result<int>)
    requires WellFormed(cf) && Layered(cf, cnt) && k < cf.h && j < LayerSize(cf, k)
    ensures k == 0 ==> (r.Ok? <==> pow == 1)
    ensures r.Err? ==> r.error == InvalidArgument
    decreases k, 1, 0
  {
    if k == 0 then
      if pow != 1 then Err(InvalidArgument) else Ok(cnt[0][j])
    else
      var sons := CountSons(cf, cnt, k, j, pow / Bound(cf), cf.d);
      if sons.Err? then sons else Ok(cnt[k][j] * pow + sons.value)
  }

  /** The loop of `count_sub_tree` over the first `n` sons; like the
      recursion it can only end by reaching a leaf with `pow != 1`. */
  function CountSons(cf: Config, cnt: seq<seq<int>>, k: nat, j: nat, pow: nat, n: nat): (r: Result<int>)
    requires WellFormed(cf) && Layered(cf, cnt) && 1 <= k < cf.h && j < LayerSize(cf, k) && n <= cf.d
    ensures r.Err? ==> r.error == InvalidArgument
    decreases k, 0, n
  {
    if n == 0 then Ok(0)
    else
      var prev := CountSons(cf, cnt, k, j, pow, n - 1);
      if prev.Err? then prev
      else
        var c := CountSubTree(cf, cnt, k - 1, SonSlot(cf, k, j, n - 1), pow);
        if c.Err? then c else Ok(prev.value + c.value)
  }

  lemma PowDiv(b: nat, k: nat)
    requires b > 0 && k > 0
    ensures Pow(b, k) / b == Pow(b, k - 1)
  {
    ModUnique(Pow(b, k), b, Pow(b, k - 1), 0);
  }

  /** Started with `pow = bound^k`, `count_sub_tree` succeeds and returns
      the weighted sum of the subtree's counters. */
  lemma {:induction false} CountSubTreeWeighted(cf: Config, cnt: seq<seq<int>>, k: nat, j: nat)
    requires WellFormed(cf) && Layered(cf, cnt) && k < cf.h && j < LayerSize(cf, k)
    ensures CountSubTree(cf, cnt, k, j, Pow(Bound(cf), k)) == Ok(TreeSum(cf, Scaled(cf, cnt), k, j))
    decreases k, 1, 0
  {
    if k > 0 {
      PowDiv(Bound(cf), k);
      CountSonsWeighted(cf, cnt, k, j, cf.d);
    }
  }

  lemma {:induction false} CountSonsWeighted(cf: Config, cnt: seq<seq<int>>, k: nat, j: nat, n: nat)
    requires WellFormed(cf) && Layered(cf, cnt) && 1 <= k < cf.h && j < LayerSize(cf, k) && n <= cf.d
    ensures CountSons(cf, cnt, k, j, Pow(Bound(cf), k - 1), n) == Ok(ChildSum(cf, Scaled(cf, cnt), k, j, n))
    decreases k, 0, n
  {
    if n > 0 {
      CountSonsWeighted(cf, cnt, k, j, n - 1);
      CountSubTreeWeighted(cf, cnt, k - 1, SonSlot(cf, k, j, n - 1));
    }
  }

  /** The loop of `get_estimated_val`: from counter `j` of layer `k`, climb
      to the parent while the counter is flagged and has one
      (`get_parent` gives -1 exactly on the top layer, `ParentInLayers`).
      The climb stops at an unflagged counter or on the top layer, and the
      starting counter lies in the subtree of where it stops. */
  function Climb(cf: Config, t: Tree, k: nat, j: nat): (p: (nat, nat))
    requires WellFormed(cf) && Shape(cf, t) && k < cf.h && j < LayerSize(cf, k)
    ensures k <= p.0 < cf.h && p.1 < LayerSize(cf, p.0) && Below(cf, k, j, p.0, p.1)
    ensures !t.flag[p.0][p.1] || p.0 + 1 == cf.h
    decreases cf.h - k
  {
    if t.flag[k][j] && k + 1 < cf.h then
      var p := Climb(cf, t, k + 1, ParentSlot(cf, k, j));
      BelowParent(cf, k, j, p.0, p.1);
      p
    else (k, j)
  }

  /** The correction `get_estimated_val` subtracts for leaf `leaf`:
      `n * k * r / m`, with `k` the `d^levels` of the climb. */
  function Discount(cf: Config, t: Tree, leaf: nat): real
    requires WellFormed(cf) && Shape(cf, t) && leaf < TrueM(cf)
  {
    ((t.n * Pow(cf.d, Climb(cf, t, 0, leaf).0) * cf.r) as real) / (cf.m as real)
  }

  /** `get_estimated_val(idx)` for leaf `idx`: `r` times the count of the
      subtree the climb reached, started at `pow = bound^levels`, less
      the correction. It fails only where `count_sub_tree` exits. */
  function EstimatedVal(cf: Config, t: Tree, leaf: nat): (r: Result<real>)
    requires WellFormed(cf) && Shape(cf, t) && leaf < TrueM(cf)
    ensures r.Err? ==> r.error == InvalidArgument
  {
    var p := Climb(cf, t, 0, leaf);
    match CountSubTree(cf, t.cnt, p.0, p.1, Pow(Bound(cf), p.0))
    case Err(e) => Err(e)
    case Ok(c) => Ok((cf.r * c) as real - Discount(cf, t, leaf))
  }

  predicate NonNegLayers(vals: seq<seq<int>>)
  {
    forall k, j :: 0 <= k < |vals| && 0 <= j < |vals[k]| ==> vals[k][j] >= 0
  }

  lemma {:induction false} TreeSumNonNeg(cf: Config, vals: seq<seq<int>>, k: nat, j: nat)
    requires WellFormed(cf) && Layered(cf, vals) && NonNegLayers(vals) && k < cf.h && j < LayerSize(cf, k)
    ensures TreeSum(cf, vals, k, j) >= 0
    decreases k, 1, 0
  {
    if k > 0 {
      ChildSumNonNeg(cf, vals, k, j, cf.d);
    }
  }

  lemma {:induction false} ChildSumNonNeg(cf: Config, vals: seq<seq<int>>, k: nat, j: nat, n: nat)
    requires WellFormed(cf) && Layered(cf, vals) && NonNegLayers(vals) && 1 <= k < cf.h && j < LayerSize(cf, k) && n <= cf.d
    ensures ChildSum(cf, vals, k, j, n) >= 0
    decreases k, 0, n
  {
    if n > 0 {
      ChildSumNonNeg(cf, vals, k, j, n - 1);
      TreeSumNonNeg(cf, vals, k - 1, SonSlot(cf, k, j, n - 1));
    }
  }

  /** With nothing negative, a subtree's sum is at least any leaf in it. */
  lemma TreeSumCovers(cf: Config, vals: seq<seq<int>>, l: nat, kk: nat, jj: nat)
    requires WellFormed(cf) && Layered(cf, vals) && NonNegLayers(vals) && l < LayerSize(cf, 0)
    requires kk < cf.h && jj < LayerSize(cf, kk) && Below(cf, 0, l, kk, jj)
    ensures TreeSum(cf, vals, kk, jj) >= vals[0][l]
  {
    var v2 := Bump(cf, vals, 0, l, -vals[0][l]);
    TreeSumBump(cf, vals, 0, l, -vals[0][l], kk, jj);
    assert NonNegLayers(v2);
    TreeSumNonNeg(cf, v2, kk, jj);
  }

  /** On an exact sketch `get_estimated_val` succeeds: the count it uses is
      the exact total of every leaf under the counter the climb reached,
      so `r` times the leaf's own total, less the correction, never
      exceeds it. */
  lemma EstimateCovers(cf: Config, t: Tree, leaf: nat)
    requires Exact(cf, t) && leaf < TrueM(cf)
    requires forall l :: 0 <= l < |t.realVal| ==> t.realVal[l] >= 0
    ensures EstimatedVal(cf, t, leaf).Ok?
    ensures var p := Climb(cf, t, 0, leaf);
      EstimatedVal(cf, t, leaf).value ==
        (cf.r * TreeSum(cf, LeafLayers(cf, t.realVal), p.0, p.1)) as real - Discount(cf, t, leaf)
    ensures EstimatedVal(cf, t, leaf).value >= (cf.r * t.realVal[leaf]) as real - Discount(cf, t, leaf)
  {
    var p := Climb(cf, t, 0, leaf);
    if p.0 + 1 == cf.h {
      assert !t.flag[cf.h - 1][p.1];
    }
    CountSubTreeWeighted(cf, t.cnt, p.0, p.1);
    var z := LeafLayers(cf, t.realVal);
    assert NonNegLayers(z);
    TreeSumCovers(cf, z, leaf, p.0, p.1);
    var c := TreeSum(cf, z, p.0, p.1);
    MulLeq(t.realVal[leaf], c, cf.r);
  }

  /** The loop of `query` over its first `n` hash functions: the sum of the
      estimates at the key's leaves, or the first failure. */
  function QuerySum(cf: Config, t: Tree, key: FlowKey, n: nat): (r: Result<real>)
    requires WellFormed(cf) && Shape(cf, t) && n <= cf.r
  {
    if n == 0 then Ok(0.0)
    else
      match QuerySum(cf, t, key, n - 1)
      case Err(e) => Err(e)
      case Ok(s) =>
        match EstimatedVal(cf, t, HashLeaf(cf, n - 1, key))
        case Err(e) => Err(e)
        case Ok(v) => Ok(s + v)
  }

  /** `query(key)`: the mean of the `r` estimates, truncated toward zero by
      the conversion back to `T`. */
  function Query(cf: Config, t: Tree, key: FlowKey): (r: Result<int>)
    requires WellFormed(cf) && Shape(cf, t)
    ensures r.Ok? <==> QuerySum(cf, t, key, cf.r).Ok?
    ensures r.Ok? ==> r.value as real > QuerySum(cf, t, key, cf.r).value / (cf.r as real) - 1.0
    ensures r.Ok? ==> r.value as real < QuerySum(cf, t, key, cf.r).value / (cf.r as real) + 1.0
    ensures r.Ok? && QuerySum(cf, t, key, cf.r).value >= 0.0 ==>
      0 <= r.value && r.value as real <= QuerySum(cf, t, key, cf.r).value / (cf.r as real)
    ensures r.Ok? && QuerySum(cf, t, key, cf.r).value < 0.0 ==>
      r.value <= 0 && QuerySum(cf, t, key, cf.r).value / (cf.r as real) <= r.value as real
  {
    match QuerySum(cf, t, key, cf.r)
    case Err(e) => Err(e)
    case Ok(s) => Ok(TruncReal(s / (cf.r as real)))
  }

  /** The corrections of the key's first `n` estimates, summed. */
  function DiscountSum(cf: Config, t: Tree, key: FlowKey, n: nat): real
    requires WellFormed(cf) && Shape(cf, t) && n <= cf.r
  {
    if n == 0 then 0.0 else DiscountSum(cf, t, key, n - 1) + Discount(cf, t, HashLeaf(cf, n - 1, key))
  }

  /** The exact totals at the key's first `n` leaves, summed. */
  function LeafSum(cf: Config, t: Tree, key: FlowKey, n: nat): int
    requires WellFormed(cf) && Shape(cf, t) && n <= cf.r
  {
    if n == 0 then 0 else LeafSum(cf, t, key, n - 1) + t.realVal[HashLeaf(cf, n - 1, key)]
  }

  /** The least an estimate of leaf `l` can be on an exact sketch
      (`EstimateCovers`): `r` times the leaf's exact total, less the
      correction. */
  function EstimateFloor(cf: Config, t: Tree, l: nat): real
    requires WellFormed(cf) && Shape(cf, t) && l < TrueM(cf)
  {
    (cf.r * t.realVal[l]) as real - Discount(cf, t, l)
  }

  /** `EstimateFloor` at the key's first `n` leaves, summed. */
  function FloorSum(cf: Config, t: Tree, key: FlowKey, n: nat): real
    requires WellFormed(cf) && Shape(cf, t) && n <= cf.r
  {
    if n == 0 then 0.0 else FloorSum(cf, t, key, n - 1) + EstimateFloor(cf, t, HashLeaf(cf, n - 1, key))
  }

  /** Every leaf's estimate succeeds and reaches its floor. */
  ghost predicate EstimatesCover(cf: Config, t: Tree)
    requires WellFormed(cf) && Shape(cf, t)
  {
    forall l :: 0 <= l < TrueM(cf) ==>
      EstimatedVal(cf, t, l).Ok? && EstimatedVal(cf, t, l).value >= EstimateFloor(cf, t, l)
  }

  /** When every estimate reaches its floor, the loop of `query` never
      fails, and its sum reaches the sum of the floors. */
  lemma {:induction false} QuerySumCovers(cf: Config, t: Tree, key: FlowKey, n: nat)
    requires WellFormed(cf) && Shape(cf, t) && EstimatesCover(cf, t) && n <= cf.r
    ensures QuerySum(cf, t, key, n).Ok?
    ensures QuerySum(cf, t, key, n).value >= FloorSum(cf, t, key, n)
  {
    if n > 0 {
      QuerySumCovers(cf, t, key, n - 1);
      var l := HashLeaf(cf, n - 1, key);
      assert QuerySum(cf, t, key, n) == Ok(QuerySum(cf, t, key, n - 1).value + EstimatedVal(cf, t, l).value);
    }
  }

  /** The floors add up to `r` times the exact totals at the key's leaves,
      less the corrections. */
  lemma {:induction false} FloorSumValue(cf: Config, t: Tree, key: FlowKey, n: nat)
    requires WellFormed(cf) && Shape(cf, t) && n <= cf.r
    ensures FloorSum(cf, t, key, n) == (cf.r * LeafSum(cf, t, key, n)) as real - DiscountSum(cf, t, key, n)
  {
    if n > 0 {
      FloorSumValue(cf, t, key, n - 1);
      var l := HashLeaf(cf, n - 1, key);
      MulAdd(cf.r, LeafSum(cf, t, key, n - 1), t.realVal[l]);
    }
  }

  lemma MulAdd(r: nat, a: int, b: int)
    ensures (r * (a + b)) as real == (r * a) as real + (r * b) as real
  {
    assert r * (a + b) == r * a + r * b;
  }

  /** The total of the packets of `key` that drew hash function `i`. */
  function KeyVia(cf: Config, arr: seq<Arrival>, key: FlowKey, i: nat): int
    requires WellFormed(cf)
  {
    if |arr| == 0 then 0
    else
      var a := arr[|arr| - 1];
      KeyVia(cf, arr[..|arr| - 1], key, i) + (if a.key == key && a.choice % cf.r == i then a.val else 0)
  }

  /** The total of the packets of `key`, whichever hash function they drew. */
  function KeyTotal(arr: seq<Arrival>, key: FlowKey): int
  {
    if |arr| == 0 then 0
    else KeyTotal(arr[..|arr| - 1], key) + (if arr[|arr| - 1].key == key then arr[|arr| - 1].val else 0)
  }

  /** `KeyVia` over the first `n` hash functions. */
  function ViaSum(cf: Config, arr: seq<Arrival>, key: FlowKey, n: nat): int
    requires WellFormed(cf)
  {
    if n == 0 then 0 else ViaSum(cf, arr, key, n - 1) + KeyVia(cf, arr, key, n - 1)
  }

  /** With no negative packet, the key's packets through hash function `i`
      are part of what reached the leaf that function sends the key to. */
  lemma {:induction false} KeyViaBelowLeaf(cf: Config, arr: seq<Arrival>, key: FlowKey, i: nat)
    requires WellFormed(cf) && NonNegativeArrivals(arr) && i < cf.r
    ensures KeyVia(cf, arr, key, i) <= LeafTotal(cf, arr, HashLeaf(cf, i, key))
  {
    if |arr| > 0 {
      assert NonNegativeArrivals(arr[..|arr| - 1]);
      KeyViaBelowLeaf(cf, arr[..|arr| - 1], key, i);
    }
  }

  /** Appending one packet adds its value to `ViaSum` exactly when it is a
      packet of the key through one of the first `n` functions. */
  lemma {:induction false} ViaSumSnoc(cf: Config, arr: seq<Arrival>, key: FlowKey, n: nat)
    requires WellFormed(cf) && |arr| > 0
    ensures var a := arr[|arr| - 1];
      ViaSum(cf, arr, key, n) == ViaSum(cf, arr[..|arr| - 1], key, n) + (if a.key == key && a.choice % cf.r < n then a.val else 0)
  {
    if n > 0 {
      ViaSumSnoc(cf, arr, key, n - 1);
    }
  }

  /** Every packet drew one of the `r` hash functions, so the per-function
      totals of a key add up to its total. */
  lemma {:induction false} ViaSumTotal(cf: Config, arr: seq<Arrival>, key: FlowKey)
    requires WellFormed(cf)
    ensures ViaSum(cf, arr, key, cf.r) == KeyTotal(arr, key)
  {
    if |arr| > 0 {
      ViaSumTotal(cf, arr[..|arr| - 1], key);
      ViaSumSnoc(cf, arr, key, cf.r);
    } else {
      ViaSumEmpty(cf, arr, key, cf.r);
    }
  }

  lemma {:induction false} ViaSumEmpty(cf: Config, arr: seq<Arrival>, key: FlowKey, n: nat)
    requires WellFormed(cf) && |arr| == 0
    ensures ViaSum(cf, arr, key, n) == 0
  {
    if n > 0 {
      ViaSumEmpty(cf, arr, key, n - 1);
    }
  }

  /** The exact totals at a key's leaves cover what the key sent through
      each function. */
  lemma {:induction false} LeafSumCovers(cf: Config, arr: seq<Arrival>, t: Tree, key: FlowKey, n: nat)
    requires WellFormed(cf) && Shape(cf, t) && NonNegativeArrivals(arr) && n <= cf.r
    requires forall l :: 0 <= l < TrueM(cf) ==> t.realVal[l] == LeafTotal(cf, arr, l)
    ensures LeafSum(cf, t, key, n) >= ViaSum(cf, arr, key, n)
  {
    if n > 0 {
      LeafSumCovers(cf, arr, t, key, n - 1);
      KeyViaBelowLeaf(cf, arr, key, n - 1);
    }
  }

  /** A leaf's exact total is never negative when no packet is. */
  lemma {:induction false} LeafTotalNonNeg(cf: Config, arr: seq<Arrival>, leaf: nat)
    requires WellFormed(cf) && NonNegativeArrivals(arr)
    ensures LeafTotal(cf, arr, leaf) >= 0
  {
    if |arr| > 0 {
      assert NonNegativeArrivals(arr[..|arr| - 1]);
      LeafTotalNonNeg(cf, arr[..|arr| - 1], leaf);
    }
  }

  /** The guarantee `query` gives after a run of non-negative packets that
      never overflowed the top layer: it succeeds, and its answer is above
      the key's true total less the mean correction, less one for the
      truncation. */
  lemma QueryLowerBound(cf: Config, arr: seq<Arrival>, key: FlowKey)
    requires WellFormed(cf) && NonNegativeArrivals(arr) && Run(cf, arr).Ok?
    ensures var t := Run(cf, arr).value;
      Query(cf, t, key).Ok? &&
      Query(cf, t, key).value as real > KeyTotal(arr, key) as real - DiscountSum(cf, t, key, cf.r) / (cf.r as real) - 1.0
  {
    var t := Run(cf, arr).value;
    RunExact(cf, arr);
    forall l | 0 <= l < |t.realVal|
      ensures t.realVal[l] >= 0
    {
      LeafTotalNonNeg(cf, arr, l);
    }
    forall l | 0 <= l < TrueM(cf)
      ensures EstimatedVal(cf, t, l).Ok? && EstimatedVal(cf, t, l).value >= EstimateFloor(cf, t, l)
    {
      EstimateCovers(cf, t, l);
    }
    QuerySumCovers(cf, t, key, cf.r);
    FloorSumValue(cf, t, key, cf.r);
    LeafSumCovers(cf, arr, t, key, cf.r);
    ViaSumTotal(cf, arr, key);
    DivLower(QuerySum(cf, t, key, cf.r).value, cf.r, KeyTotal(arr, key), LeafSum(cf, t, key, cf.r),
      DiscountSum(cf, t, key, cf.r));
  }

  /** From `s >= r * l - ds` with `l >= k`, dividing by a positive `r`. */
  lemma DivLower(s: real, r: nat, k: int, l: int, ds: real)
    requires r > 0 && k <= l && s >= (r * l) as real - ds
    ensures s / (r as real) >= k as real - ds / (r as real)
  {
    var rr := r as real;
    assert (r * l) as real == rr * (l as real);
    assert s >= rr * (k as real) - ds;
    assert s / rr >= (rr * (k as real) - ds) / rr;
  }
}
