/** MV-Sketch: `depth` rows of `width` buckets. Each bucket keeps the total
    value hashed to it (`V`), a candidate heavy key (`K`) and a majority-vote
    counter for that candidate (`C`). */
module MV {
  import opened Common
  import FlowKeys

  datatype Bucket = Bucket(v: int, k: FlowKey, c: int)

  /** The fixed shape of a sketch: `width` is the prime the constructor picked. */
  datatype Config = Config(depth: nat, width: nat, keyLen: nat, h: Hash)

  datatype Sketch = Sketch(rows: seq<seq<Bucket>>)

  /** A sketch that can be queried: at least one row, at least one bucket. */
  predicate WellFormed(cf: Config)
  {
    cf.depth > 0 && cf.width > 0
  }

  predicate Valid(cf: Config, s: Sketch)
  {
    |s.rows| == cf.depth && forall i :: 0 <= i < |s.rows| ==> |s.rows[i]| == cf.width
  }

  /** The constructor: the width is rounded up to `NextPrime(width)`. */
  function MakeConfig(depth: nat, width: nat, keyLen: nat, h: Hash, np: nat -> nat): (cf: Config)
    requires IsNextPrime(np)
    ensures cf.depth == depth && cf.width >= width && cf.keyLen == keyLen
  {
    Config(depth, np(width), keyLen, h)
  }

  /** `{0, FlowKey{}, 0}`: the value of every bucket after construction or `clear()`. */
  function ZeroBucket(keyLen: nat): Bucket
  {
    Bucket(0, FlowKeys.ZeroKey(keyLen), 0)
  }

  /** The constructor's and `clear()`'s sketch. */
  function Init(cf: Config): (s: Sketch)
    ensures Valid(cf, s)
  {
    Sketch(seq(cf.depth, _ => seq(cf.width, _ => ZeroBucket(cf.keyLen))))
  }

  /** `clear()`: every bucket back to zero, the shape is kept. */
  function Clear(cf: Config, s: Sketch): (r: Sketch)
    requires Valid(cf, s)
    ensures Valid(cf, r)
    ensures forall i, j :: 0 <= i < cf.depth && 0 <= j < cf.width ==> r.rows[i][j] == ZeroBucket(cf.keyLen)
  {
    Init(cf)
  }

  function Index(cf: Config, i: nat, key: FlowKey): (j: nat)
    requires cf.width > 0
    ensures j < cf.width
  {
    cf.h(i, key) % cf.width
  }

  /** The per-bucket step of `update`: add to V, vote for or against K, and
      replace K by the new key when the vote counter would go negative. */
  function BucketUpdate(b: Bucket, key: FlowKey, val: int): (r: Bucket)
    ensures r.v == b.v + val
    ensures r.k == b.k || r.k == key
    ensures b.k != key && r.k == key ==> r.c > 0
    ensures 0 <= val && 0 <= b.c ==> 0 <= r.c
  {
    if b.k == key then Bucket(b.v + val, b.k, b.c + val)
    else if b.c - val < 0 then Bucket(b.v + val, key, -(b.c - val))
    else Bucket(b.v + val, b.k, b.c - val)
  }

  /** `update(key, val)`: in every row, the bucket `key` hashes to takes the
      step; every other bucket is left alone. */
  function Update(cf: Config, s: Sketch, key: FlowKey, val: int): (r: Sketch)
    requires WellFormed(cf) && Valid(cf, s)
    ensures Valid(cf, r)
    ensures forall i, j :: 0 <= i < cf.depth && 0 <= j < cf.width ==>
      r.rows[i][j] == if j == Index(cf, i, key) then BucketUpdate(s.rows[i][j], key, val) else s.rows[i][j]
  {
    Sketch(seq(cf.depth, i requires 0 <= i < cf.depth =>
      s.rows[i][Index(cf, i, key) := BucketUpdate(s.rows[i][Index(cf, i, key)], key, val)]))
  }

  /** One row's estimate: `(V + C) / 2` when the key is the candidate, else `(V - C) / 2`. */
  function RowEstimate(b: Bucket, key: FlowKey): int
  {
    if b.k == key then Half(b.v + b.c) else Half(b.v - b.c)
  }

  function RowEstimates(cf: Config, s: Sketch, key: FlowKey): (e: seq<int>)
    requires WellFormed(cf) && Valid(cf, s)
    ensures |e| == cf.depth
    ensures forall i :: 0 <= i < cf.depth ==> e[i] == RowEstimate(s.rows[i][Index(cf, i, key)], key)
  {
    seq(cf.depth, i requires 0 <= i < cf.depth => RowEstimate(s.rows[i][Index(cf, i, key)], key))
  }

  /** `query(key)`: the smallest row estimate. */
  function Query(cf: Config, s: Sketch, key: FlowKey): (q: int)
    requires WellFormed(cf) && Valid(cf, s)
    ensures forall i :: 0 <= i < cf.depth ==> q <= RowEstimate(s.rows[i][Index(cf, i, key)], key)
  {
    var e := RowEstimates(cf, s, key);
    assert forall i :: 0 <= i < cf.depth ==> MinOf(e) <= e[i];
    MinOf(e)
  }

  /** The query is the estimate of some row. */
  lemma QueryAttained(cf: Config, s: Sketch, key: FlowKey) returns (i: nat)
    requires WellFormed(cf) && Valid(cf, s)
    ensures i < cf.depth && Query(cf, s, key) == RowEstimate(s.rows[i][Index(cf, i, key)], key)
  {
    var e := RowEstimates(cf, s, key);
    assert MinOf(e) in e;
    i :| 0 <= i < |e| && e[i] == MinOf(e);
  }

  /** The lower bound one row gives: C when the key is the candidate, else 0. */
  function RowLower(b: Bucket, key: FlowKey): int
  {
    if b.k == key then b.c else 0
  }

  function RowLowers(cf: Config, s: Sketch, key: FlowKey): (l: seq<int>)
    requires WellFormed(cf) && Valid(cf, s)
    ensures |l| == cf.depth
    ensures forall i :: 0 <= i < cf.depth ==> l[i] == RowLower(s.rows[i][Index(cf, i, key)], key)
  {
    seq(cf.depth, i requires 0 <= i < cf.depth => RowLower(s.rows[i][Index(cf, i, key)], key))
  }

  datatype Bounds = Bounds(lower: int, upper: int)

  /** `queryBounds(key)`: the largest row lower bound, and the query. */
  function QueryBounds(cf: Config, s: Sketch, key: FlowKey): (b: Bounds)
    requires WellFormed(cf) && Valid(cf, s)
    ensures b.upper == Query(cf, s, key)
    ensures forall i :: 0 <= i < cf.depth ==> RowLower(s.rows[i][Index(cf, i, key)], key) <= b.lower
  {
    var l := RowLowers(cf, s, key);
    assert forall i :: 0 <= i < cf.depth ==> l[i] <= MaxOf(l);
    Bounds(MaxOf(l), Query(cf, s, key))
  }

  /** The lower bound is the bound of some row. */
  lemma LowerAttained(cf: Config, s: Sketch, key: FlowKey) returns (i: nat)
    requires WellFormed(cf) && Valid(cf, s)
    ensures i < cf.depth && QueryBounds(cf, s, key).lower == RowLower(s.rows[i][Index(cf, i, key)], key)
  {
    var l := RowLowers(cf, s, key);
    assert MaxOf(l) in l;
    i :| 0 <= i < |l| && l[i] == MaxOf(l);
  }

  // ---------------------------------------------------------------------------
  // Streams

  /** The sketch after the updates of a stream, in order, from construction. */
  function Run(cf: Config, st: seq<Item>): (s: Sketch)
    requires WellFormed(cf)
    ensures Valid(cf, s)
  {
    if |st| == 0 then Init(cf)
    else Update(cf, Run(cf, st[..|st| - 1]), st[|st| - 1].key, st[|st| - 1].val)
  }

  /** The majority-vote invariant of a bucket fed the sub-stream `sub`: V is
      the mass, C is between 0 and the candidate's true total, and
      `V + C` (for the candidate) or `V - C` (for any other key) is at least
      twice the key's true total. */
  ghost predicate BucketInv(b: Bucket, sub: seq<Item>)
  {
    && b.v == Mass(sub)
    && 0 <= b.c <= Total(sub, b.k)
    && 2 * Total(sub, b.k) <= b.v + b.c
    && forall x :: x != b.k ==> 2 * Total(sub, x) <= b.v - b.c
  }

  /** One bucket step keeps the majority-vote invariant. */
  lemma BucketStep(b: Bucket, sub: seq<Item>, key: FlowKey, val: int)
    requires val >= 0 && NonNegative(sub)
    requires BucketInv(b, sub)
    ensures BucketInv(BucketUpdate(b, key, val), sub + [Item(key, val)])
  {
    var it := Item(key, val);
    var r := BucketUpdate(b, key, val);
    var sub' := sub + [it];
    TotalSnoc(sub, it, r.k);
    TotalNonNegative(sub, key);
    forall x | x != r.k
      ensures 2 * Total(sub', x) <= r.v - r.c
    {
      TotalSnoc(sub, it, x);
      if b.k != key && b.c - val < 0 && x != b.k {
        TotalNonNegative(sub, x);
      }
    }
  }

  /** Every bucket of a sketch fed a non-negative stream keeps the
      majority-vote invariant with respect to the sub-stream it received. */
  lemma {:induction false} RunInvariant(cf: Config, st: seq<Item>)
    requires WellFormed(cf) && NonNegative(st)
    ensures forall i, j :: 0 <= i < cf.depth && 0 <= j < cf.width ==>
      BucketInv(Run(cf, st).rows[i][j], SubStream(cf.h, cf.width, st, i, j))
  {
    if |st| == 0 {
      forall i, j | 0 <= i < cf.depth && 0 <= j < cf.width
        ensures BucketInv(Run(cf, st).rows[i][j], SubStream(cf.h, cf.width, st, i, j))
      {
        assert SubStream(cf.h, cf.width, st, i, j) == [];
        assert Run(cf, st).rows[i][j] == ZeroBucket(cf.keyLen);
      }
    } else {
      var pre := st[..|st| - 1];
      var it := st[|st| - 1];
      RunInvariant(cf, pre);
      forall i, j | 0 <= i < cf.depth && 0 <= j < cf.width
        ensures BucketInv(Run(cf, st).rows[i][j], SubStream(cf.h, cf.width, st, i, j))
      {
        if j == Index(cf, i, it.key) {
          SubStreamNonNegative(cf.h, cf.width, pre, i, j);
          assert SubStream(cf.h, cf.width, st, i, j) == SubStream(cf.h, cf.width, pre, i, j) + [Item(it.key, it.val)];
          BucketStep(Run(cf, pre).rows[i][j], SubStream(cf.h, cf.width, pre, i, j), it.key, it.val);
        } else {
          assert SubStream(cf.h, cf.width, st, i, j) == SubStream(cf.h, cf.width, pre, i, j);
        }
      }
    }
  }

  /** On a non-negative stream the sketch never underestimates: the query is
      at least the key's true total. */
  lemma QueryNeverUnderestimates(cf: Config, st: seq<Item>, x: FlowKey)
    requires WellFormed(cf) && NonNegative(st)
    ensures Query(cf, Run(cf, st), x) >= Total(st, x)
  {
    RunInvariant(cf, st);
    var s := Run(cf, st);
    var i := QueryAttained(cf, s, x);
    SubStreamTotal(cf.h, cf.width, st, i, x);
  }

  /** On a non-negative stream `queryBounds` brackets the true total. */
  lemma BoundsBracketTotal(cf: Config, st: seq<Item>, x: FlowKey)
    requires WellFormed(cf) && NonNegative(st)
    ensures QueryBounds(cf, Run(cf, st), x).lower <= Total(st, x) <= QueryBounds(cf, Run(cf, st), x).upper
  {
    QueryNeverUnderestimates(cf, st, x);
    RunInvariant(cf, st);
    var s := Run(cf, st);
    var i := LowerAttained(cf, s, x);
    SubStreamTotal(cf.h, cf.width, st, i, x);
    TotalNonNegative(st, x);
  }

  /** Every key reads zero after `clear()`. */
  lemma QueryAfterClear(cf: Config, s: Sketch, x: FlowKey)
    requires WellFormed(cf) && Valid(cf, s)
    ensures Query(cf, Clear(cf, s), x) == 0
  {
    var i := QueryAttained(cf, Clear(cf, s), x);
  }

  // ---------------------------------------------------------------------------
  // Heavy hitters

  /** The candidate keys of the buckets whose V reaches the threshold, in order. */
  function Candidates(bs: seq<Bucket>, thr: real): (ks: seq<FlowKey>)
    ensures forall k :: k in ks <==> exists b :: b in bs && b.v as real >= thr && b.k == k
  {
    if |bs| == 0 then []
    else
      var b := bs[|bs| - 1];
      var ks := Candidates(bs[..|bs| - 1], thr) + (if b.v as real >= thr then [b.k] else []);
      assert forall x :: x in bs <==> x in bs[..|bs| - 1] || x == b;
      ks
  }

  /** `getHeavyHitter(threshold)`: walk the buckets row by row, skip those
      whose V is below the threshold, and report each bucket's candidate
      whose query reaches the threshold, with that query. */
  function HeavyHitters(cf: Config, s: Sketch, thr: real): (m: map<FlowKey, int>)
    requires WellFormed(cf) && Valid(cf, s)
    ensures forall k :: k in m ==> m[k] == Query(cf, s, k) && m[k] as real >= thr
    ensures forall k :: k in m <==>
      Query(cf, s, k) as real >= thr &&
      exists i, j :: 0 <= i < cf.depth && 0 <= j < cf.width && s.rows[i][j].v as real >= thr && s.rows[i][j].k == k
  {
    Collect(RowCandidates(cf, s, thr), k => Query(cf, s, k), k => Query(cf, s, k) as real >= thr)
  }

  /** The candidates of every row's buckets whose V reaches the threshold,
      row by row. */
  function RowCandidates(cf: Config, s: Sketch, thr: real): (ks: seq<FlowKey>)
    requires WellFormed(cf) && Valid(cf, s)
    ensures forall k :: k in ks <==>
      exists i, j :: 0 <= i < cf.depth && 0 <= j < cf.width && s.rows[i][j].v as real >= thr && s.rows[i][j].k == k
  {
    var bs := Flatten(s.rows);
    assert forall b :: b in bs <==> exists i, j :: 0 <= i < cf.depth && 0 <= j < cf.width && s.rows[i][j] == b;
    Candidates(bs, thr)
  }
}
