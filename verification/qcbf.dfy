/** The querying counting Bloom filter, in both builds: the plain one keeps
    its counters in a one-layer hierarchy of `cnt_length`-bit counters, the CH
    one in a multi-layer hierarchy. Both add an update's value at every
    hashed counter and answer a query with the smallest hashed counter. */
module QCBF {
  import opened Common
  import H = Hierarchy
  import opened Bloom

  /** What a constructor builds: the configuration, the counters and the
      hierarchy's per-layer counter counts and counter widths. */
  datatype Built = Built(cf: Config, s: H.Store, layers: seq<nat>, widths: seq<nat>)

  /** The plain constructor: `NextPrime(num_cnt)` zero counters in one layer
      of `cnt_length`-bit counters. */
  function New(numCnt: nat, numHash: nat, cntLength: nat, h: Hash, np: nat -> nat): (r: Built)
    requires IsNextPrime(np)
    ensures r.cf.ncnt >= numCnt && r.cf.nhash == numHash
    ensures Valid(r.cf, r.s) && r.s == H.Fresh(r.cf.ncnt)
    ensures r.layers == [r.cf.ncnt] && r.widths == [cntLength]
  {
    var cf := MakeConfig(numCnt, numHash, h, np);
    Built(cf, H.Fresh(cf.ncnt), [cf.ncnt], [cntLength])
  }

  /** The CH constructor: a ratio outside (0, 1) throws `std::out_of_range`;
      otherwise layer 0 holds the `NextPrime(num_cnt)` zero counters and the
      upper layers shrink by the ratio. */
  function NewCH(numCnt: nat, numHash: nat, widthCnt: seq<nat>, h: Hash, np: nat -> nat, ratio: real, noLayer: nat)
    : (r: Result<Built>)
    requires noLayer >= 1 && IsNextPrime(np)
    ensures r.Ok? <==> 0.0 < ratio < 1.0
    ensures r.Err? ==> r.error == OutOfRange
    ensures r.Ok? ==>
      && r.value.cf.ncnt >= numCnt && r.value.cf.nhash == numHash
      && Valid(r.value.cf, r.value.s) && r.value.s == H.Fresh(r.value.cf.ncnt)
      && |r.value.layers| == noLayer && r.value.layers[0] == r.value.cf.ncnt
      && r.value.widths == widthCnt
  {
    var cf := MakeConfig(numCnt, numHash, h, np);
    match H.CheckRatio(ratio)
    case Err(e) => Err(e)
    case Ok(_) =>
      H.LayerSizesShape(cf.ncnt, ratio, noLayer, np);
      Ok(Built(cf, H.Fresh(cf.ncnt), H.LayerSizes(cf.ncnt, ratio, noLayer, np), widthCnt))
  }

  /** `update(key, val)`. */
  function Update(cf: Config, s: H.Store, key: FlowKey, val: int): (r: H.Store)
    requires WellFormed(cf) && Valid(cf, s)
    ensures Valid(cf, r)
  {
    AddAll(cf, s, key, val, cf.nhash)
  }

  /** The counters `key` hashes to, in hash-function order. */
  function Picked(cf: Config, s: H.Store, key: FlowKey): (v: seq<int>)
    requires WellFormed(cf) && Valid(cf, s)
    ensures |v| == cf.nhash
    ensures forall j :: 0 <= j < cf.nhash ==> v[j] == s.cnt[Idx(cf, j, key)]
  {
    seq(cf.nhash, j requires 0 <= j < cf.nhash => s.cnt[Idx(cf, j, key)])
  }

  /** `query(key)`: the first hashed counter, lowered by every later one.
      The source reads hash function 0 unconditionally, so at least one
      hash function is needed. */
  function Query(cf: Config, s: H.Store, key: FlowKey): (q: int)
    requires WellFormed(cf) && Valid(cf, s) && cf.nhash >= 1
    ensures forall j :: 0 <= j < cf.nhash ==> q <= s.cnt[Idx(cf, j, key)]
    ensures exists j :: 0 <= j < cf.nhash && q == s.cnt[Idx(cf, j, key)]
  {
    var v := Picked(cf, s, key);
    var q := MinOf(v);
    assert q in v;
    q
  }

  /** `clear()`. */
  function Clear(cf: Config, s: H.Store): (r: H.Store)
    requires Valid(cf, s)
    ensures Valid(cf, r) && r == H.Fresh(cf.ncnt)
  {
    H.Clear(s)
  }

  /** An update moves every counter by `val` once per hash function that
      picks it for `key`, and no other counter. */
  lemma UpdateAt(cf: Config, s: H.Store, key: FlowKey, val: int, c: nat)
    requires WellFormed(cf) && Valid(cf, s) && c < cf.ncnt
    ensures Update(cf, s, key, val).cnt[c] == s.cnt[c] + val * Hits(cf, key, c, cf.nhash)
    ensures (forall j :: 0 <= j < cf.nhash ==> Idx(cf, j, key) != c) ==> Update(cf, s, key, val).cnt[c] == s.cnt[c]
  {
    AddAllAt(cf, s, key, val, cf.nhash, c);
    if forall j :: 0 <= j < cf.nhash ==> Idx(cf, j, key) != c {
      HitsUnpicked(cf, key, c, cf.nhash);
    }
  }

  /** The filter after feeding `st` to a fresh one. */
  function Run(cf: Config, st: seq<Item>): (s: H.Store)
    requires WellFormed(cf)
    ensures Valid(cf, s)
  {
    if |st| == 0 then H.Fresh(cf.ncnt)
    else Update(cf, Run(cf, st[..|st| - 1]), st[|st| - 1].key, st[|st| - 1].val)
  }

  /** The reference value of counter `c` after a stream: every update adds
      its value once per hash function of its key that picks `c`. */
  function Load(cf: Config, st: seq<Item>, c: nat): int
    requires WellFormed(cf)
  {
    if |st| == 0 then 0
    else Load(cf, st[..|st| - 1], c) + st[|st| - 1].val * Hits(cf, st[|st| - 1].key, c, cf.nhash)
  }

  /** Each counter of a run holds exactly its reference load. */
  lemma {:induction false} RunLoad(cf: Config, st: seq<Item>, c: nat)
    requires WellFormed(cf) && c < cf.ncnt
    ensures Run(cf, st).cnt[c] == Load(cf, st, c)
  {
    if |st| > 0 {
      RunLoad(cf, st[..|st| - 1], c);
      UpdateAt(cf, Run(cf, st[..|st| - 1]), st[|st| - 1].key, st[|st| - 1].val, c);
    }
  }

  /** On a non-negative stream every counter a key hashes to carries at
      least that key's total. */
  lemma {:induction false} LoadCovers(cf: Config, st: seq<Item>, x: FlowKey, j: nat)
    requires WellFormed(cf) && NonNegative(st) && j < cf.nhash
    ensures Load(cf, st, Idx(cf, j, x)) >= Total(st, x)
  {
    if |st| > 0 {
      var pre := st[..|st| - 1];
      var it := st[|st| - 1];
      assert NonNegative(pre);
      LoadCovers(cf, pre, x, j);
      var m := Hits(cf, it.key, Idx(cf, j, x), cf.nhash);
      assert it.val >= 0;
      if it.key == x {
        HitsPicked(cf, x, j, cf.nhash);
        MulLeq(1, m, it.val);
      }
      assert it.val * m >= 0;
    }
  }

  /** The filter never under-estimates on a non-negative stream. */
  lemma QueryNeverUnderestimates(cf: Config, st: seq<Item>, x: FlowKey)
    requires WellFormed(cf) && NonNegative(st) && cf.nhash >= 1
    ensures Query(cf, Run(cf, st), x) >= Total(st, x)
  {
    var j :| 0 <= j < cf.nhash && Query(cf, Run(cf, st), x) == Run(cf, st).cnt[Idx(cf, j, x)];
    RunLoad(cf, st, Idx(cf, j, x));
    LoadCovers(cf, st, x, j);
  }

  /** After `clear()` every key queries zero. */
  lemma QueryAfterClear(cf: Config, s: H.Store, x: FlowKey)
    requires WellFormed(cf) && Valid(cf, s) && cf.nhash >= 1
    ensures Query(cf, Clear(cf, s), x) == 0
  {
    var j :| 0 <= j < cf.nhash && Query(cf, Clear(cf, s), x) == Clear(cf, s).cnt[Idx(cf, j, x)];
  }
}
