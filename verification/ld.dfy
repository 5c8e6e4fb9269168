/** LD-Sketch: a `depth` x `width` array of buckets, each holding the mass V
    it received, an error term e, a table size limit l and a table A of
    per-key counters. A key already in A is counted there; a new key enters
    while A has room; otherwise the bucket either grows its limit (when the
    mass says it may) or decrements every counter of A by the smallest one,
    charging the decrement to e. Every bucket brackets every key's total
    between `A[x]` and `A[x] + e`. */
module LD {
  import opened Common

  /** One counter of a table `A`. The table is a `std::map` in the library;
      the model keeps its entries as a sequence with distinct keys. No result
      depends on the order of the entries. */
  datatype Entry = Entry(key: FlowKey, cnt: int)

  datatype Bucket = Bucket(v: int, e: int, l: int, a: seq<Entry>)

  /** `expansion = eps * threshold` and `threshold` as the constructor stores them;
      `width` is the prime the constructor picked. */
  datatype Config = Config(depth: nat, width: nat, expansion: real, threshold: real, h: Hash)

  datatype Sketch = Sketch(rows: seq<seq<Bucket>>)

  /** `Bounds` of a bucket query. */
  datatype Bounds = Bounds(lower: int, upper: int)

  /** At least one row (the report takes the minimum over the rows), at least
      one bucket per row, and an expansion factor that can be divided by. */
  predicate WellFormed(cf: Config)
  {
    cf.depth > 0 && cf.width > 0 && cf.expansion != 0.0
  }

  predicate DistinctKeys(a: seq<Entry>)
  {
    forall j, j2 :: 0 <= j < j2 < |a| ==> a[j].key != a[j2].key
  }

  predicate Valid(cf: Config, s: Sketch)
  {
    && |s.rows| == cf.depth
    && forall i :: 0 <= i < cf.depth ==>
         |s.rows[i]| == cf.width && forall j :: 0 <= j < cf.width ==> DistinctKeys(s.rows[i][j].a)
  }

  /** The constructor: `width = NextPrime(width)`, `expansion = eps * threshold`. */
  function MakeConfig(depth: nat, width: nat, eps: real, threshold: real, h: Hash, np: nat -> nat): (cf: Config)
    requires IsNextPrime(np)
    ensures cf.depth == depth && cf.width >= width && cf.expansion == eps * threshold
  {
    Config(depth, np(width), eps * threshold, threshold, h)
  }

  /** `Bucket()`: V = e = l = 0 and an empty table. */
  const EmptyBucket := Bucket(0, 0, 0, [])

  function Init(cf: Config): (s: Sketch)
    ensures Valid(cf, s)
    ensures forall i, j :: 0 <= i < cf.depth && 0 <= j < cf.width ==> s.rows[i][j] == EmptyBucket
  {
    Sketch(seq(cf.depth, _ => seq(cf.width, _ => EmptyBucket)))
  }

  /** `clear()`: every bucket back to `Bucket()`. */
  function Clear(cf: Config, s: Sketch): (r: Sketch)
    requires Valid(cf, s)
    ensures r == Init(cf)
  {
    Sketch(seq(cf.depth, _ => seq(cf.width, _ => EmptyBucket)))
  }

  function Index(cf: Config, i: nat, key: FlowKey): (j: nat)
    requires cf.width > 0
    ensures j < cf.width
  {
    cf.h(i, key) % cf.width
  }

  // ---------------------------------------------------------------------------
  // The table A

  /** `A.find(x)`: the counter of `x`, if the table has one. */
  function Find(a: seq<Entry>, x: FlowKey): Option<int>
  {
    if |a| == 0 then None
    else if a[0].key == x then Some(a[0].cnt)
    else Find(a[1..], x)
  }

  /** `find` misses exactly the keys the table does not hold, and what it
      finds is the counter of an entry of the table. */
  lemma {:induction false} FindSpec(a: seq<Entry>, x: FlowKey)
    ensures Find(a, x).None? <==> forall j :: 0 <= j < |a| ==> a[j].key != x
    ensures Find(a, x).Some? ==> exists j :: 0 <= j < |a| && a[j] == Entry(x, Find(a, x).value)
  {
    if |a| > 0 && a[0].key != x {
      FindSpec(a[1..], x);
      assert forall j :: 1 <= j < |a| ==> a[1..][j - 1] == a[j];
      if Find(a, x).Some? {
        var j :| 0 <= j < |a[1..]| && a[1..][j] == Entry(x, Find(a, x).value);
        assert a[j + 1] == a[1..][j];
      }
    }
  }

  /** In a table with distinct keys, `find` returns the entry's own counter. */
  lemma {:induction false} FindEntry(a: seq<Entry>, j: nat)
    requires DistinctKeys(a) && j < |a|
    ensures Find(a, a[j].key) == Some(a[j].cnt)
  {
    if j > 0 {
      assert a[0].key != a[j].key;
      assert DistinctKeys(a[1..]) && a[1..][j - 1] == a[j] by {
        TailDistinct(a);
      }
      FindEntry(a[1..], j - 1);
    }
  }

  /** The counter of `x`, zero when the table has none: the lower bound a bucket gives. */
  function Low(a: seq<Entry>, x: FlowKey): int
  {
    match Find(a, x)
    case None => 0
    case Some(c) => c
  }

  /** `it->second += val` on the entry of `x`. */
  function AddTo(a: seq<Entry>, x: FlowKey, val: int): (r: seq<Entry>)
    requires DistinctKeys(a) && Find(a, x).Some?
    ensures DistinctKeys(r) && |r| == |a|
    ensures forall y :: Find(r, y).Some? <==> Find(a, y).Some?
    ensures forall y :: Low(r, y) == Low(a, y) + (if y == x then val else 0)
  {
    var r := seq(|a|, j requires 0 <= j < |a| => if a[j].key == x then Entry(x, a[j].cnt + val) else a[j]);
    assert forall j :: 0 <= j < |a| ==> r[j].key == a[j].key;
    forall y
      ensures (Find(r, y).Some? <==> Find(a, y).Some?)
      ensures Low(r, y) == Low(a, y) + (if y == x then val else 0)
    {
      FindSpec(a, y);
      FindSpec(r, y);
      if Find(a, y).Some? {
        var j :| 0 <= j < |a| && a[j] == Entry(y, Find(a, y).value);
        FindEntry(a, j);
        FindEntry(r, j);
      }
    }
    r
  }

  /** `A.emplace(x, val)` for a key the table does not hold. */
  function Emplace(a: seq<Entry>, x: FlowKey, val: int): (r: seq<Entry>)
    requires DistinctKeys(a) && Find(a, x).None?
    ensures DistinctKeys(r) && |r| == |a| + 1
    ensures forall y :: Low(r, y) == if y == x then val else Low(a, y)
  {
    var r := a + [Entry(x, val)];
    FindSpec(a, x);
    forall y
      ensures Low(r, y) == if y == x then val else Low(a, y)
    {
      FindSpec(a, y);
      FindSpec(r, y);
      if y == x {
        FindEntry(r, |a|);
      } else if Find(a, y).Some? {
        var j :| 0 <= j < |a| && a[j] == Entry(y, Find(a, y).value);
        FindEntry(a, j);
        FindEntry(r, j);
      }
    }
    r
  }

  /** The counters of the table, in order. */
  function Cnts(a: seq<Entry>): (cs: seq<int>)
    ensures |cs| == |a| && forall j :: 0 <= j < |a| ==> cs[j] == a[j].cnt
  {
    seq(|a|, j requires 0 <= j < |a| => a[j].cnt)
  }

  /** The decrement loop: every counter drops by `c` and a counter that reaches
      zero or below is erased. */
  function Decrement(a: seq<Entry>, c: int): (r: seq<Entry>)
    ensures |r| <= |a|
    ensures forall j :: 0 <= j < |r| ==> r[j].cnt > 0
  {
    if |a| == 0 then []
    else if a[0].cnt - c > 0 then [Entry(a[0].key, a[0].cnt - c)] + Decrement(a[1..], c)
    else Decrement(a[1..], c)
  }

  /** After the decrement a key's counter is its old counter less `c` when
      that stays positive, and gone otherwise. */
  lemma {:induction false} FindDecrement(a: seq<Entry>, c: int, y: FlowKey)
    requires DistinctKeys(a)
    ensures Find(Decrement(a, c), y) ==
      if Find(a, y).Some? && Find(a, y).value - c > 0 then Some(Find(a, y).value - c) else None
  {
    if |a| > 0 {
      var e := a[0];
      var tl := a[1..];
      var rest := Decrement(tl, c);
      assert DistinctKeys(tl) && Find(tl, e.key).None? by {
        TailDistinct(a);
      }
      FindDecrement(tl, c, y);
      assert Find(a, y) == if e.key == y then Some(e.cnt) else Find(tl, y);
      if e.cnt - c > 0 {
        FindCons(Entry(e.key, e.cnt - c), rest, y);
      }
    }
  }

  /** `find` on a table with a head entry: the head's counter or the tail's answer. */
  lemma FindCons(e: Entry, rest: seq<Entry>, y: FlowKey)
    ensures Find([e] + rest, y) == if e.key == y then Some(e.cnt) else Find(rest, y)
  {
    assert ([e] + rest)[0] == e && ([e] + rest)[1..] == rest;
  }

  /** The tail of a table is a table that does not hold the head's key. */
  lemma TailDistinct(a: seq<Entry>)
    requires DistinctKeys(a) && |a| > 0
    ensures DistinctKeys(a[1..]) && Find(a[1..], a[0].key).None?
  {
    assert forall j :: 1 <= j < |a| ==> a[1..][j - 1] == a[j];
    FindSpec(a[1..], a[0].key);
  }

  /** The decrement keeps the keys of the table distinct. */
  lemma {:induction false} DecrementDistinct(a: seq<Entry>, c: int)
    requires DistinctKeys(a)
    ensures DistinctKeys(Decrement(a, c))
  {
    if |a| > 0 {
      var e := a[0];
      var rest := Decrement(a[1..], c);
      TailDistinct(a);
      DecrementDistinct(a[1..], c);
      if e.cnt - c > 0 {
        FindDecrement(a[1..], c, e.key);
        FindSpec(rest, e.key);
        var r := [Entry(e.key, e.cnt - c)] + rest;
        assert forall j :: 1 <= j < |r| ==> r[j] == rest[j - 1];
      }
    }
  }

  // ---------------------------------------------------------------------------
  // Update and query

  /** `(k + 1) * (k + 2) - 1`: the table size limit that an expansion level `k` allows. */
  function Level(k: int): int
  {
    (k + 1) * (k + 2) - 1
  }

  /** `Bucket::update(key, val, expansion)`. The test `A.size() < l` compares
      an unsigned size with the signed `l`, so a negative `l` admits every key. */
  function BucketUpdate(b: Bucket, key: FlowKey, val: int, expansion: real): (r: Bucket)
    requires DistinctKeys(b.a) && expansion != 0.0
    ensures DistinctKeys(r.a) && r.v == b.v + val
  {
    var v := b.v + val;
    if Find(b.a, key).Some? then Bucket(v, b.e, b.l, AddTo(b.a, key, val))
    else if b.l < 0 || |b.a| < b.l then Bucket(v, b.e, b.l, Emplace(b.a, key, val))
    else
      var k := TruncReal(v as real / expansion);
      if Level(k) <= b.l then
        var ecap := MinFrom(val, Cnts(b.a));
        var a := Decrement(b.a, ecap);
        DecrementDistinct(b.a, ecap);
        FindDecrement(b.a, ecap, key);
        Bucket(v, b.e + ecap, b.l, if val > ecap then Emplace(a, key, val - ecap) else a)
      else Bucket(v, b.e, Level(k), Emplace(b.a, key, val))
  }

  /** `Bucket::query(x)`: `{0, e}` without a counter, `{A[x], A[x] + e}` with one. */
  function BucketQuery(b: Bucket, x: FlowKey): (r: Bounds)
    ensures r.upper - r.lower == b.e
    ensures r.lower == Low(b.a, x)
  {
    match Find(b.a, x)
    case None => Bounds(0, b.e)
    case Some(c) => Bounds(c, c + b.e)
  }

  /** `update(key, val)`: in every row the bucket `key` hashes to takes the step. */
  function Update(cf: Config, s: Sketch, key: FlowKey, val: int): (r: Sketch)
    requires WellFormed(cf) && Valid(cf, s)
    ensures Valid(cf, r)
    ensures forall i, j :: 0 <= i < cf.depth && 0 <= j < cf.width ==>
      r.rows[i][j] == if j == Index(cf, i, key) then BucketUpdate(s.rows[i][j], key, val, cf.expansion) else s.rows[i][j]
  {
    Sketch(seq(cf.depth, i requires 0 <= i < cf.depth =>
      s.rows[i][Index(cf, i, key) := BucketUpdate(s.rows[i][Index(cf, i, key)], key, val, cf.expansion)]))
  }

  /** The upper bounds of `x` in the buckets it hashes to, one per row. */
  function Uppers(cf: Config, s: Sketch, x: FlowKey): (us: seq<int>)
    requires WellFormed(cf) && Valid(cf, s)
    ensures |us| == cf.depth
    ensures forall i :: 0 <= i < cf.depth ==> us[i] == BucketQuery(s.rows[i][Index(cf, i, x)], x).upper
  {
    seq(cf.depth, i requires 0 <= i < cf.depth => BucketQuery(s.rows[i][Index(cf, i, x)], x).upper)
  }

  /** `*std::min_element` of the upper bounds: the estimate the report gives. */
  function UpperMin(cf: Config, s: Sketch, x: FlowKey): (u: int)
    requires WellFormed(cf) && Valid(cf, s)
    ensures forall i :: 0 <= i < cf.depth ==> u <= BucketQuery(s.rows[i][Index(cf, i, x)], x).upper
  {
    MinOf(Uppers(cf, s, x))
  }

  /** Bucket `b` holds a counter for `k`. */
  predicate Holds(b: Bucket, k: FlowKey)
  {
    exists n :: 0 <= n < |b.a| && b.a[n].key == k
  }

  /** Some bucket whose mass reaches the threshold holds a counter for `k`:
      the keys the report loop visits. */
  predicate Visited(cf: Config, s: Sketch, thr: real, k: FlowKey)
    requires Valid(cf, s)
  {
    exists i, j :: 0 <= i < cf.depth && 0 <= j < cf.width && s.rows[i][j].v as real >= thr && Holds(s.rows[i][j], k)
  }

  /** The keys of the tables of buckets whose mass reaches the threshold. */
  function Candidates(bs: seq<Bucket>, thr: real): (ks: seq<FlowKey>)
    ensures forall k :: k in ks <==> exists b :: b in bs && b.v as real >= thr && Holds(b, k)
  {
    if |bs| == 0 then []
    else
      var b := bs[|bs| - 1];
      var own := seq(|b.a|, j requires 0 <= j < |b.a| => b.a[j].key);
      forall k
        ensures k in own <==> Holds(b, k)
      {
        if Holds(b, k) {
          var n :| 0 <= n < |b.a| && b.a[n].key == k;
          assert own[n] == k;
        }
      }
      var ks := Candidates(bs[..|bs| - 1], thr) + (if b.v as real >= thr then own else []);
      assert forall x :: x in bs <==> x in bs[..|bs| - 1] || x == b;
      ks
  }

  lemma CandidatesVisited(cf: Config, s: Sketch, thr: real, k: FlowKey)
    requires Valid(cf, s)
    ensures k in Candidates(Flatten(s.rows), thr) <==> Visited(cf, s, thr, k)
  {
    if k in Candidates(Flatten(s.rows), thr) {
      var b :| b in Flatten(s.rows) && b.v as real >= thr && Holds(b, k);
      var i, j :| 0 <= i < |s.rows| && 0 <= j < |s.rows[i]| && s.rows[i][j] == b;
    }
    if Visited(cf, s, thr, k) {
      var i, j :| 0 <= i < cf.depth && 0 <= j < cf.width && s.rows[i][j].v as real >= thr && Holds(s.rows[i][j], k);
      assert s.rows[i][j] in Flatten(s.rows);
    }
  }

  /** `getHeavyHitter(threshold)`: the threshold must be the constructor's
      (the source asserts they agree within 1e-6); every table key of a bucket
      whose V reaches it is reported, once, when the smallest of its upper
      bounds reaches it too, with that bound. */
  function HeavyHitters(cf: Config, s: Sketch, thr: real): (m: map<FlowKey, int>)
    requires WellFormed(cf) && Valid(cf, s)
    requires cf.threshold - 0.000001 < thr < cf.threshold + 0.000001
    ensures forall k :: k in m ==> m[k] == UpperMin(cf, s, k) && m[k] as real >= thr
    ensures forall k :: k in m <==> Visited(cf, s, thr, k) && UpperMin(cf, s, k) as real >= thr
  {
    var m := Collect(Candidates(Flatten(s.rows), thr), k => UpperMin(cf, s, k), k => UpperMin(cf, s, k) as real >= thr);
    forall k
      ensures k in m <==> Visited(cf, s, thr, k) && UpperMin(cf, s, k) as real >= thr
    {
      CandidatesVisited(cf, s, thr, k);
    }
    m
  }

  // ---------------------------------------------------------------------------
  // The bracketing invariant

  /** A bucket fed the sub-stream `sub`: V is its mass, e is non-negative,
      and every key's total lies between its counter (zero without one,
      never negative) and its counter plus e. */
  ghost predicate BucketInv(b: Bucket, sub: seq<Item>)
  {
    && b.v == Mass(sub)
    && b.e >= 0
    && DistinctKeys(b.a)
    && forall x :: 0 <= Low(b.a, x) <= Total(sub, x) <= Low(b.a, x) + b.e
  }

  /** The hit, the insertion with room and the growth of the limit all add
      `val` to the counter of `key` alone and leave e alone. */
  lemma ShiftStep(b: Bucket, r: Bucket, sub: seq<Item>, key: FlowKey, val: int)
    requires val >= 0 && BucketInv(b, sub)
    requires DistinctKeys(r.a) && r.v == b.v + val && r.e == b.e
    requires forall y :: Low(r.a, y) == Low(b.a, y) + (if y == key then val else 0)
    ensures BucketInv(r, sub + [Item(key, val)])
  {
    forall x
      ensures 0 <= Low(r.a, x) <= Total(sub + [Item(key, val)], x) <= Low(r.a, x) + r.e
    {
      TotalSnoc(sub, Item(key, val), x);
    }
  }

  /** The decrement: every counter drops by `ecap` (erased at zero), e grows
      by `ecap`, and the new key keeps what is left of `val`. */
  lemma DecrementStep(b: Bucket, r: Bucket, sub: seq<Item>, key: FlowKey, val: int, ecap: int)
    requires val >= 0 && NonNegative(sub) && BucketInv(b, sub) && Find(b.a, key).None?
    requires 0 <= ecap <= val
    requires DistinctKeys(r.a) && r.v == b.v + val && r.e == b.e + ecap
    requires forall y :: y != key ==> Low(r.a, y) == if Low(b.a, y) - ecap > 0 then Low(b.a, y) - ecap else 0
    requires Low(r.a, key) == if val > ecap then val - ecap else 0
    ensures BucketInv(r, sub + [Item(key, val)])
  {
    forall x
      ensures 0 <= Low(r.a, x) <= Total(sub + [Item(key, val)], x) <= Low(r.a, x) + r.e
    {
      TotalSnoc(sub, Item(key, val), x);
      TotalNonNegative(sub, x);
    }
  }

  /** What the decrement leaves of a key's counter. */
  lemma LowDecrement(a: seq<Entry>, c: int, y: FlowKey)
    requires DistinctKeys(a) && c >= 0
    ensures Low(Decrement(a, c), y) == if Low(a, y) - c > 0 then Low(a, y) - c else 0
  {
    FindDecrement(a, c, y);
  }

  /** One bucket step on a non-negative update keeps the bracketing invariant. */
  lemma BucketStep(b: Bucket, sub: seq<Item>, key: FlowKey, val: int, expansion: real)
    requires val >= 0 && NonNegative(sub) && expansion != 0.0
    requires BucketInv(b, sub)
    ensures BucketInv(BucketUpdate(b, key, val, expansion), sub + [Item(key, val)])
  {
    var r := BucketUpdate(b, key, val, expansion);
    if Find(b.a, key).Some? || b.l < 0 || |b.a| < b.l || Level(TruncReal((b.v + val) as real / expansion)) > b.l {
      ShiftStep(b, r, sub, key, val);
    } else {
      var ecap := MinFrom(val, Cnts(b.a));
      var a := Decrement(b.a, ecap);
      assert ecap >= 0 by {
        if ecap != val {
          var j :| 0 <= j < |b.a| && Cnts(b.a)[j] == ecap;
          FindEntry(b.a, j);
          assert Low(b.a, b.a[j].key) >= 0;
        }
      }
      forall y
        ensures Low(a, y) == if Low(b.a, y) - ecap > 0 then Low(b.a, y) - ecap else 0
      {
        LowDecrement(b.a, ecap, y);
      }
      assert Find(a, key).None? by {
        FindDecrement(b.a, ecap, key);
      }
      DecrementStep(b, r, sub, key, val, ecap);
    }
  }

  function Run(cf: Config, st: seq<Item>): (s: Sketch)
    requires WellFormed(cf)
    ensures Valid(cf, s)
  {
    if |st| == 0 then Init(cf)
    else Update(cf, Run(cf, st[..|st| - 1]), st[|st| - 1].key, st[|st| - 1].val)
  }

  /** Every bucket of a sketch fed a non-negative stream brackets every key's
      total over the sub-stream it received. */
  lemma {:induction false} RunInvariant(cf: Config, st: seq<Item>)
    requires WellFormed(cf) && NonNegative(st)
    ensures forall i, j :: 0 <= i < cf.depth && 0 <= j < cf.width ==>
      BucketInv(Run(cf, st).rows[i][j], SubStream(cf.h, cf.width, st, i, j))
  {
    if |st| == 0 {
      forall i, j | 0 <= i < cf.depth && 0 <= j < cf.width
        ensures BucketInv(Run(cf, st).rows[i][j], SubStream(cf.h, cf.width, st, i, j))
      {
        assert SubStream(cf.h, cf.width, st, i, j) == [];
      }
    } else {
      var pre := st[..|st| - 1];
      var it := st[|st| - 1];
      RunInvariant(cf, pre);
      forall i, j | 0 <= i < cf.depth && 0 <= j < cf.width
        ensures BucketInv(Run(cf, st).rows[i][j], SubStream(cf.h, cf.width, st, i, j))
      {
        if j == Index(cf, i, it.key) {
          SubStreamNonNegative(cf.h, cf.width, pre, i, j);
          assert SubStream(cf.h, cf.width, st, i, j) == SubStream(cf.h, cf.width, pre, i, j) + [Item(it.key, it.val)];
          BucketStep(Run(cf, pre).rows[i][j], SubStream(cf.h, cf.width, pre, i, j), it.key, it.val, cf.expansion);
        } else {
          assert SubStream(cf.h, cf.width, st, i, j) == SubStream(cf.h, cf.width, pre, i, j);
        }
      }
    }
  }

  /** On a non-negative stream, every row's query of `x` brackets its true total. */
  lemma QueryBracketsTotal(cf: Config, st: seq<Item>, i: nat, x: FlowKey)
    requires WellFormed(cf) && NonNegative(st) && i < cf.depth
    ensures var q := BucketQuery(Run(cf, st).rows[i][Index(cf, i, x)], x);
      q.lower <= Total(st, x) <= q.upper
  {
    RunInvariant(cf, st);
    SubStreamTotal(cf.h, cf.width, st, i, x);
  }

  /** A reported heavy hitter's estimate never falls below its true total. */
  lemma ReportNeverUnderestimates(cf: Config, st: seq<Item>, thr: real, x: FlowKey)
    requires WellFormed(cf) && NonNegative(st)
    requires cf.threshold - 0.000001 < thr < cf.threshold + 0.000001
    requires x in HeavyHitters(cf, Run(cf, st), thr)
    ensures HeavyHitters(cf, Run(cf, st), thr)[x] >= Total(st, x)
  {
    var s := Run(cf, st);
    var i :| 0 <= i < cf.depth && Uppers(cf, s, x)[i] == UpperMin(cf, s, x);
    QueryBracketsTotal(cf, st, i, x);
  }

  /** A bucket's V is the mass of its sub-stream, hence at least the total
      of any key that hashes to it: a bucket skipped by the report (V below the
      threshold) holds no key at or above the threshold. */
  lemma SkippedBucketHoldsNoHeavyKey(cf: Config, st: seq<Item>, i: nat, x: FlowKey)
    requires WellFormed(cf) && NonNegative(st) && i < cf.depth
    ensures Total(st, x) <= Run(cf, st).rows[i][Index(cf, i, x)].v
  {
    RunInvariant(cf, st);
    SubStreamTotal(cf.h, cf.width, st, i, x);
    var sub := SubStream(cf.h, cf.width, st, i, Index(cf, i, x));
    SubStreamNonNegative(cf.h, cf.width, st, i, Index(cf, i, x));
    MassBoundsTotal(sub, x);
  }
}
