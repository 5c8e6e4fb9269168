/** The hashing the Bloom-filter sketches share: `nhash` hash functions pick
    the counters `hash_fns[j](key) % ncnt` of one counter hierarchy, and an
    update adds the same amount at every picked counter, once per hash
    function, so two hash functions that pick the same counter add there
    twice. */
module Bloom {
  import opened Common
  import H = Hierarchy

  /** `ncnt` is the prime the constructor picked, `nhash` the number of hash functions. */
  datatype Config = Config(ncnt: nat, nhash: nat, h: Hash)

  /** `% ncnt` needs at least one counter. */
  predicate WellFormed(cf: Config)
  {
    cf.ncnt > 0
  }

  predicate Valid(cf: Config, s: H.Store)
  {
    |s.cnt| == cf.ncnt
  }

  /** The counter count is rounded up to `NextPrime(num_cnt)`. */
  function MakeConfig(numCnt: nat, numHash: nat, h: Hash, np: nat -> nat): (cf: Config)
    requires IsNextPrime(np)
    ensures cf.ncnt >= numCnt && cf.nhash == numHash
  {
    Config(np(numCnt), numHash, h)
  }

  /** The counter hash function `j` picks for `key`. */
  function Idx(cf: Config, j: nat, key: FlowKey): (c: nat)
    requires WellFormed(cf)
    ensures c < cf.ncnt
  {
    cf.h(j, key) % cf.ncnt
  }

  /** How many of the hash functions `0 .. n - 1` pick counter `c` for `key`. */
  function Hits(cf: Config, key: FlowKey, c: nat, n: nat): (m: nat)
    requires WellFormed(cf)
  {
    if n == 0 then 0 else Hits(cf, key, c, n - 1) + (if Idx(cf, n - 1, key) == c then 1 else 0)
  }

  /** `updateCnt(hash_fns[j](key) % ncnt, v)` for `j = 0 .. n - 1`. */
  function AddAll(cf: Config, s: H.Store, key: FlowKey, v: int, n: nat): (r: H.Store)
    requires WellFormed(cf) && Valid(cf, s)
    ensures Valid(cf, r)
  {
    if n == 0 then s else H.UpdateCnt(AddAll(cf, s, key, v, n - 1), Idx(cf, n - 1, key), v)
  }

  /** Every counter a hash function picks is picked at least once. */
  lemma {:induction false} HitsPicked(cf: Config, key: FlowKey, j: nat, n: nat)
    requires WellFormed(cf) && j < n
    ensures Hits(cf, key, Idx(cf, j, key), n) >= 1
  {
    if j < n - 1 {
      HitsPicked(cf, key, j, n - 1);
    }
  }

  /** A counter no hash function picks is not hit. */
  lemma {:induction false} HitsUnpicked(cf: Config, key: FlowKey, c: nat, n: nat)
    requires WellFormed(cf)
    requires forall j :: 0 <= j < n ==> Idx(cf, j, key) != c
    ensures Hits(cf, key, c, n) == 0
  {
    if n > 0 {
      HitsUnpicked(cf, key, c, n - 1);
    }
  }

  /** Each counter grows by `v` once for every hash function that picks it. */
  lemma {:induction false} AddAllAt(cf: Config, s: H.Store, key: FlowKey, v: int, n: nat, c: nat)
    requires WellFormed(cf) && Valid(cf, s) && c < cf.ncnt
    ensures AddAll(cf, s, key, v, n).cnt[c] == s.cnt[c] + v * Hits(cf, key, c, n)
  {
    if n > 0 {
      AddAllAt(cf, s, key, v, n - 1, c);
    }
  }
}
