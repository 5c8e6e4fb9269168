/** Shared vocabulary of the sketch library: flow keys, hash families, error
    results, update streams and the small integer helpers (running minima,
    C++ integer division, medians) that several sketches use. */
module Common {

  /** A flow key: a fixed-length byte string. The template parameter `key_len`
      of the library fixes the length; the model carries it as `|k|`. */
  type FlowKey = seq<bv8>

  /** A family of hash objects. `h(i, k)` is the value of the i-th hash object
      of a sketch on key `k`. The hash classes are not part of this model, so
      any deterministic function stands for them. */
  type Hash = (nat, FlowKey) -> nat

  /** `std::numeric_limits<int32_t>::max()`, the seed of the running minima.
      The counter type of the test harnesses is `int32_t`. */
  const TMax: int := 0x7FFF_FFFF

  /** The exception kinds the library throws. */
  datatype Error = OutOfRange | InvalidArgument | OverflowError | BadArrayNewLength

  /** A value, or the exception that replaced it. */
  datatype Result<+T> = Ok(value: T) | Err(error: Error)

  /** One element of an update stream: `update(key, val)`. */
  datatype Item = Item(key: FlowKey, val: int)

  /** The exact total a stream carries for key `k` (the ground truth). */
  function Total(st: seq<Item>, k: FlowKey): int
  {
    if |st| == 0 then 0
    else Total(st[..|st| - 1], k) + (if st[|st| - 1].key == k then st[|st| - 1].val else 0)
  }

  /** The sum of all values of a stream. */
  function Mass(st: seq<Item>): int
  {
    if |st| == 0 then 0 else Mass(st[..|st| - 1]) + st[|st| - 1].val
  }

  /** Key `k` occurs in the stream. */
  predicate Seen(st: seq<Item>, k: FlowKey)
  {
    exists n :: 0 <= n < |st| && st[n].key == k
  }

  /** Appending one update extends the totals, the mass and the seen keys by that update alone. */
  lemma TotalSnoc(st: seq<Item>, it: Item, k: FlowKey)
    ensures Total(st + [it], k) == Total(st, k) + (if it.key == k then it.val else 0)
    ensures Mass(st + [it]) == Mass(st) + it.val
    ensures Seen(st + [it], k) <==> Seen(st, k) || it.key == k
  {
    assert (st + [it])[..|st|] == st;
    if Seen(st, k) {
      var n :| 0 <= n < |st| && st[n].key == k;
      assert (st + [it])[n] == st[n];
    }
    if Seen(st + [it], k) && it.key != k {
      var n :| 0 <= n < |st| + 1 && (st + [it])[n].key == k;
      assert st[n] == (st + [it])[n];
    }
    assert (st + [it])[|st|] == it;
  }

  /** A key that never occurs has total zero. */
  lemma {:induction false} UnseenTotal(st: seq<Item>, k: FlowKey)
    requires !Seen(st, k)
    ensures Total(st, k) == 0
  {
    if |st| > 0 {
      var pre := st[..|st| - 1];
      assert st == pre + [st[|st| - 1]];
      TotalSnoc(pre, st[|st| - 1], k);
      UnseenTotal(pre, k);
    }
  }

  /** A stream whose every update value is non-negative (packet counts, bytes). */
  predicate NonNegative(st: seq<Item>)
  {
    forall i :: 0 <= i < |st| ==> st[i].val >= 0
  }

  /** On a non-negative stream no key carries more than the whole mass. */
  lemma {:induction false} MassBoundsTotal(st: seq<Item>, x: FlowKey)
    requires NonNegative(st)
    ensures 0 <= Total(st, x) <= Mass(st)
  {
    if |st| > 0 {
      MassBoundsTotal(st[..|st| - 1], x);
    }
  }

  /** The part of a stream that lands in cell `j` of row `i` of a sketch
      with `width` cells per row, row `i` hashing with hash object `i`. */
  function SubStream(h: Hash, width: nat, st: seq<Item>, i: nat, j: nat): seq<Item>
    requires width > 0
  {
    if |st| == 0 then []
    else SubStream(h, width, st[..|st| - 1], i, j) + (if h(i, st[|st| - 1].key) % width == j then [st[|st| - 1]] else [])
  }

  lemma {:induction false} SubStreamNonNegative(h: Hash, width: nat, st: seq<Item>, i: nat, j: nat)
    requires width > 0 && NonNegative(st)
    ensures NonNegative(SubStream(h, width, st, i, j))
  {
    if |st| > 0 {
      SubStreamNonNegative(h, width, st[..|st| - 1], i, j);
    }
  }

  /** The cell a key hashes to receives every update of that key. */
  lemma {:induction false} SubStreamTotal(h: Hash, width: nat, st: seq<Item>, i: nat, x: FlowKey)
    requires width > 0
    ensures Total(SubStream(h, width, st, i, h(i, x) % width), x) == Total(st, x)
  {
    if |st| > 0 {
      var pre := st[..|st| - 1];
      var it := st[|st| - 1];
      var j := h(i, x) % width;
      SubStreamTotal(h, width, pre, i, x);
      if h(i, it.key) % width == j {
        TotalSnoc(SubStream(h, width, pre, i, j), it, x);
      } else {
        assert SubStream(h, width, st, i, j) == SubStream(h, width, pre, i, j);
      }
    }
  }

  function Min(a: int, b: int): int { if a <= b then a else b }

  function Max(a: int, b: int): int { if a >= b then a else b }

  function Abs(a: int): nat { if a < 0 then -a else a }

  /** The smallest element, as `*std::min_element` returns it. */
  function MinOf(s: seq<int>): (m: int)
    requires |s| > 0
    ensures m in s
    ensures forall i :: 0 <= i < |s| ==> m <= s[i]
  {
    if |s| == 1 then s[0] else Min(MinOf(s[..|s| - 1]), s[|s| - 1])
  }

  /** The largest element, as `*std::max_element` returns it. */
  function MaxOf(s: seq<int>): (m: int)
    requires |s| > 0
    ensures m in s
    ensures forall i :: 0 <= i < |s| ==> s[i] <= m
  {
    if |s| == 1 then s[0] else Max(MaxOf(s[..|s| - 1]), s[|s| - 1])
  }

  /** A running minimum seeded with `seed`: `m = seed; for x in s: m = min(m, x)`. */
  function MinFrom(seed: int, s: seq<int>): (m: int)
    ensures m <= seed
    ensures forall i :: 0 <= i < |s| ==> m <= s[i]
    ensures m == seed || m in s
  {
    if |s| == 0 then seed else Min(MinFrom(seed, s[..|s| - 1]), s[|s| - 1])
  }

  function Sum(s: seq<int>): int
  {
    if |s| == 0 then 0 else Sum(s[..|s| - 1]) + s[|s| - 1]
  }

  /** Changing one element changes the sum by the difference. */
  lemma {:induction false} SumUpdate(s: seq<int>, i: nat, v: int)
    requires i < |s|
    ensures Sum(s[i := v]) == Sum(s) - s[i] + v
  {
    if i == |s| - 1 {
      assert s[i := v][..|s| - 1] == s[..|s| - 1];
    } else {
      SumUpdate(s[..|s| - 1], i, v);
      assert s[i := v][..|s| - 1] == s[..|s| - 1][i := v];
    }
  }

  /** C++ `a / 2` on a signed integer: the quotient is truncated toward zero
      (Dafny's own `/` is Euclidean, which differs for odd negative `a`). */
  function Half(a: int): (q: int)
    ensures -1 <= a - 2 * q <= 1
    ensures a >= 0 ==> 0 <= a - 2 * q
    ensures a <= 0 ==> a - 2 * q <= 0
  {
    if a >= 0 then a / 2 else -((-a) / 2)
  }

  /** `Util::NextPrime` is not part of this model; all it is trusted with is
      returning a prime (so at least 2) no smaller than its argument. */
  ghost predicate IsNextPrime(np: nat -> nat)
  {
    forall n: nat :: np(n) >= n && np(n) >= 2
  }

  /** `std::ceil` of a non-negative real. */
  function Ceil(x: real): (c: int)
    ensures x <= c as real < x + 1.0
  {
    if x.Floor as real == x then x.Floor else x.Floor + 1
  }

  /** `b` to the power `e`; a positive base has positive powers. */
  function Pow(b: nat, e: nat): (p: nat)
    ensures b > 0 ==> p > 0
  {
    if e == 0 then 1 else b * Pow(b, e - 1)
  }

  /** Powers of a positive base grow with the exponent. */
  lemma {:induction false} PowMono(b: nat, e1: nat, e2: nat)
    requires b >= 1 && e1 <= e2
    ensures Pow(b, e1) <= Pow(b, e2)
    decreases e2
  {
    if e1 < e2 {
      PowMono(b, e1, e2 - 1);
      MulLeq(1, b, Pow(b, e2 - 1));
    }
  }

  /** Exponents add when powers of the same base multiply. */
  lemma {:induction false} PowAdd(b: nat, e1: nat, e2: nat)
    ensures Pow(b, e1 + e2) == Pow(b, e1) * Pow(b, e2)
    decreases e1
  {
    if e1 > 0 {
      PowAdd(b, e1 - 1, e2);
      assert Pow(b, e1 + e2) == b * Pow(b, e1 - 1 + e2);
    }
  }

  /** Dividing by `p` and then by `q` is dividing by `p * q`. */
  lemma DivDiv(w: nat, p: nat, q: nat)
    requires p > 0 && q > 0
    ensures w / p / q == w / (p * q)
  {
    var pq := p * q;
    var r := w % pq;
    var h := w / pq;
    var a := r / p;
    var b := r % p;
    assert r == p * a + b;
    assert a < q;
    var m := h * q + a;
    assert h * pq == p * (h * q) by {
      MulSwap(h, p, q);
    }
    assert w == p * m + b;
    ModUnique(w, p, m, b);
    ModUnique(m, q, h, a);
  }

  predicate Sorted(s: seq<int>)
  {
    forall i, j :: 0 <= i < j < |s| ==> s[i] <= s[j]
  }

  /** Insert `x` into a sorted sequence. */
  function Insert(s: seq<int>, x: int): (r: seq<int>)
    requires Sorted(s)
    ensures Sorted(r) && multiset(r) == multiset(s) + multiset{x}
    ensures r[0] == if |s| == 0 || x <= s[0] then x else s[0]
  {
    if |s| == 0 then [x]
    else if x <= s[0] then [x] + s
    else
      var t := Insert(s[1..], x);
      assert s == [s[0]] + s[1..];
      assert s[0] <= t[0];
      [s[0]] + t
  }

  /** `std::sort`: a sorted permutation. */
  function Sort(s: seq<int>): (r: seq<int>)
    ensures Sorted(r) && multiset(r) == multiset(s)
  {
    if |s| == 0 then []
    else
      assert s == s[..|s| - 1] + [s[|s| - 1]];
      Insert(Sort(s[..|s| - 1]), s[|s| - 1])
  }

  /** The Count-Sketch estimator: sort the signed row values and return the
      absolute value of the middle one (odd count) or of the truncated mean of
      the two middle ones (even count). */
  function MedianAbs(values: seq<int>): nat
    requires |values| > 0
  {
    var s := Sort(values);
    var n := |s|;
    if n % 2 == 0 then Abs(Half(s[n / 2 - 1] + s[n / 2])) else Abs(s[n / 2])
  }

  /** On a non-negative stream every total is non-negative. */
  lemma {:induction false} TotalNonNegative(st: seq<Item>, x: FlowKey)
    requires NonNegative(st)
    ensures Total(st, x) >= 0
  {
    if |st| > 0 {
      TotalNonNegative(st[..|st| - 1], x);
    }
  }

  /** Every element of a sorted permutation of a constant sequence is that constant. */
  lemma ConstantSorted(values: seq<int>, v: int)
    requires forall i :: 0 <= i < |values| ==> values[i] == v
    ensures forall i :: 0 <= i < |Sort(values)| ==> Sort(values)[i] == v
  {
    var s := Sort(values);
    assert |s| == |values| by {
      assert |multiset(s)| == |multiset(values)|;
    }
    forall i | 0 <= i < |s|
      ensures s[i] == v
    {
      assert s[i] in multiset(s);
      assert s[i] in multiset(values);
    }
  }

  /** When every row agrees on one value the estimator returns its magnitude. */
  lemma MedianAbsOfConstant(values: seq<int>, v: int)
    requires |values| > 0
    requires forall i :: 0 <= i < |values| ==> values[i] == v
    ensures MedianAbs(values) == Abs(v)
  {
    ConstantSorted(values, v);
    assert |Sort(values)| == |values| by {
      assert |multiset(Sort(values))| == |multiset(values)|;
    }
  }

  /** All elements of a sequence of rows, row by row. */
  function Flatten<T(!new)>(ss: seq<seq<T>>): (r: seq<T>)
    ensures forall x :: x in r <==> exists i, j :: 0 <= i < |ss| && 0 <= j < |ss[i]| && ss[i][j] == x
  {
    if |ss| == 0 then []
    else
      var r := Flatten(ss[..|ss| - 1]) + ss[|ss| - 1];
      assert forall i :: 0 <= i < |ss| - 1 ==> ss[..|ss| - 1][i] == ss[i];
      r
  }

  /** The heavy-hitter report loop shared by the sketches: walk the candidate
      keys in order, skip a key already reported, and report a key the
      `keep` test accepts together with its estimate. */
  function Collect<K(==,!new)>(cands: seq<K>, est: K -> int, keep: K -> bool): (m: map<K, int>)
    ensures forall k :: k in m <==> k in cands && keep(k)
    ensures forall k :: k in m ==> m[k] == est(k)
  {
    if |cands| == 0 then map[]
    else
      var m := Collect(cands[..|cands| - 1], est, keep);
      var k := cands[|cands| - 1];
      assert forall x :: x in cands <==> x in cands[..|cands| - 1] || x == k;
      if k in m then m
      else if keep(k) then m[k := est(k)]
      else m
  }

  /** A C++ conversion of a `double` to an integer type: truncation toward zero. */
  function TruncReal(x: real): (r: int)
    ensures x >= 0.0 ==> r as real <= x < r as real + 1.0
    ensures x < 0.0 ==> r as real - 1.0 < x <= r as real
  {
    if x >= 0.0 then x.Floor else -((-x).Floor)
  }

  datatype Option<T> = None | Some(value: T)

  /** The present values of a sequence of options, in order. */
  function Somes<T(!new)>(os: seq<Option<T>>): (r: seq<T>)
    ensures forall x :: x in r <==> Some(x) in os
  {
    if |os| == 0 then []
    else
      var o := os[|os| - 1];
      assert forall y :: y in os <==> y in os[..|os| - 1] || y == o;
      Somes(os[..|os| - 1]) + (if o.Some? then [o.value] else [])
  }

  /** `v == d * q + r` with `0 <= r < d` fixes `v / d == q` and `v % d == r`. */
  lemma ModUnique(v: int, d: nat, q: int, r: int)
    requires d > 0 && v == d * q + r && 0 <= r < d
    ensures v / d == q && v % d == r
  {
    var q' := v / d;
    var r' := v % d;
    assert d * q' + r' == d * q + r;
    assert d * (q' - q) == r - r';
    if q' > q {
      MulLeq(1, q' - q, d);
    } else if q' < q {
      MulLeq(1, q - q', d);
    }
  }

  /** A row-major position `a * w + b` with `b < w` stays below `n * w` when `a < n`. */
  lemma RowMajorBound(a: nat, b: nat, n: nat, w: nat)
    requires a < n && b < w
    ensures a * w + b < n * w
  {
    assert (a + 1) * w <= n * w by {
      MulLeq(a + 1, n, w);
    }
  }

  /** Multiplication of three factors does not depend on their grouping. */
  lemma MulSwap(a: int, b: int, c: int)
    ensures a * (b * c) == b * (a * c)
  {
  }

  lemma MulAssoc(a: int, b: int, c: int)
    ensures (a * b) * c == a * (b * c)
  {
  }

  lemma MulLeq(a: nat, b: nat, w: nat)
    requires a <= b
    ensures a * w <= b * w
  {
  }

  /** A row-major position `a * w + b` with `b < w` determines `a` and `b`. */
  lemma RowMajorInjective(a: nat, b: nat, a2: nat, b2: nat, w: nat)
    requires b < w && b2 < w
    requires a * w + b == a2 * w + b2
    ensures a == a2 && b == b2
  {
    if a < a2 {
      MulLeq(a + 1, a2, w);
    } else if a2 < a {
      MulLeq(a2 + 1, a, w);
    }
  }

  /** Three-level row-major addresses `(a * g + b) * w + c` are injective. */
  lemma RowMajor3Injective(a: nat, b: nat, c: nat, a2: nat, b2: nat, c2: nat, g: nat, w: nat)
    requires b < g && b2 < g && c < w && c2 < w
    requires a * g * w + b * w + c == a2 * g * w + b2 * w + c2
    ensures a == a2 && b == b2 && c == c2
  {
    assert a * g * w + b * w == (a * g + b) * w;
    assert a2 * g * w + b2 * w == (a2 * g + b2) * w;
    RowMajorInjective(a * g + b, c, a2 * g + b2, c2, w);
    RowMajorInjective(a, b, a2, b2, g);
  }
}
