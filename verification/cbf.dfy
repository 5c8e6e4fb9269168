/** The counting Bloom filter over a counter hierarchy (CHCountingBloomFilter):
    `insert` adds one at every hashed counter, but only when some hashed
    counter is still zero; `lookup` answers whether every hashed counter is
    non-zero; `remove` takes one off every hashed counter, but only when none
    of them is zero. */
module CBF {
  import opened Common
  import H = Hierarchy
  import opened Bloom

  datatype Built = Built(cf: Config, s: H.Store, layers: seq<nat>)

  /** The constructor: a ratio outside (0, 1) throws `std::out_of_range`;
      otherwise layer 0 holds `NextPrime(num_cnt)` zero counters. */
  function New(numCnt: nat, numHash: nat, h: Hash, np: nat -> nat, ratio: real, noLayer: nat): (r: Result<Built>)
    requires noLayer >= 1 && IsNextPrime(np)
    ensures r.Ok? <==> 0.0 < ratio < 1.0
    ensures r.Err? ==> r.error == OutOfRange
    ensures r.Ok? ==>
      && r.value.cf.ncnt >= numCnt && r.value.cf.nhash == numHash
      && Valid(r.value.cf, r.value.s) && r.value.s == H.Fresh(r.value.cf.ncnt)
      && |r.value.layers| == noLayer && r.value.layers[0] == r.value.cf.ncnt
  {
    var cf := MakeConfig(numCnt, numHash, h, np);
    match H.CheckRatio(ratio)
    case Err(e) => Err(e)
    case Ok(_) =>
      H.LayerSizesShape(cf.ncnt, ratio, noLayer, np);
      Ok(Built(cf, H.Fresh(cf.ncnt), H.LayerSizes(cf.ncnt, ratio, noLayer, np)))
  }

  /** Some counter `key` hashes to reads zero: the first loop of `insert`
      and of `remove` stops before `nhash`. */
  predicate SomeZero(cf: Config, s: H.Store, key: FlowKey)
    requires WellFormed(cf) && Valid(cf, s)
  {
    exists j :: 0 <= j < cf.nhash && s.cnt[Idx(cf, j, key)] == 0
  }

  /** `lookup(key)`: true when no hashed counter is zero. */
  function Lookup(cf: Config, s: H.Store, key: FlowKey): (b: bool)
    requires WellFormed(cf) && Valid(cf, s)
    ensures !b <==> exists j :: 0 <= j < cf.nhash && s.cnt[Idx(cf, j, key)] == 0
  {
    !SomeZero(cf, s, key)
  }

  /** `insert(key)`. */
  function Insert(cf: Config, s: H.Store, key: FlowKey): (r: H.Store)
    requires WellFormed(cf) && Valid(cf, s)
    ensures Valid(cf, r)
    ensures !SomeZero(cf, s, key) ==> r == s
  {
    if SomeZero(cf, s, key) then AddAll(cf, s, key, 1, cf.nhash) else s
  }

  /** `remove(key)`. */
  function Remove(cf: Config, s: H.Store, key: FlowKey): (r: H.Store)
    requires WellFormed(cf) && Valid(cf, s)
    ensures Valid(cf, r)
    ensures SomeZero(cf, s, key) ==> r == s
  {
    if SomeZero(cf, s, key) then s else AddAll(cf, s, key, -1, cf.nhash)
  }

  /** `clear()`. */
  function Clear(cf: Config, s: H.Store): (r: H.Store)
    requires Valid(cf, s)
    ensures Valid(cf, r) && r == H.Fresh(cf.ncnt)
  {
    H.Clear(s)
  }

  /** No counter is negative, which holds from construction as long as only
      `insert` runs. */
  predicate NoNegative(cf: Config, s: H.Store)
    requires Valid(cf, s)
  {
    forall c :: 0 <= c < cf.ncnt ==> s.cnt[c] >= 0
  }

  /** When `insert` fires, each counter grows by one per hash function that
      picks it; the hashed counters all end up at least one above where
      they were. */
  lemma InsertAt(cf: Config, s: H.Store, key: FlowKey, c: nat)
    requires WellFormed(cf) && Valid(cf, s) && c < cf.ncnt && SomeZero(cf, s, key)
    ensures Insert(cf, s, key).cnt[c] == s.cnt[c] + Hits(cf, key, c, cf.nhash)
  {
    AddAllAt(cf, s, key, 1, cf.nhash, c);
  }

  /** `insert` only ever raises counters. */
  lemma InsertGrows(cf: Config, s: H.Store, key: FlowKey, c: nat)
    requires WellFormed(cf) && Valid(cf, s) && c < cf.ncnt
    ensures Insert(cf, s, key).cnt[c] >= s.cnt[c]
  {
    if SomeZero(cf, s, key) {
      InsertAt(cf, s, key, c);
    }
  }

  /** `insert` keeps every counter non-negative. */
  lemma InsertNoNegative(cf: Config, s: H.Store, key: FlowKey)
    requires WellFormed(cf) && Valid(cf, s) && NoNegative(cf, s)
    ensures NoNegative(cf, Insert(cf, s, key))
  {
    forall c | 0 <= c < cf.ncnt
      ensures Insert(cf, s, key).cnt[c] >= 0
    {
      InsertGrows(cf, s, key, c);
    }
  }

  /** No false negative right after an insert: on counters that are not
      negative, every counter the key hashes to is non-zero afterwards. */
  lemma InsertThenLookup(cf: Config, s: H.Store, key: FlowKey)
    requires WellFormed(cf) && Valid(cf, s) && NoNegative(cf, s)
    ensures Lookup(cf, Insert(cf, s, key), key)
  {
    if SomeZero(cf, s, key) {
      forall j | 0 <= j < cf.nhash
        ensures Insert(cf, s, key).cnt[Idx(cf, j, key)] > 0
      {
        InsertAt(cf, s, key, Idx(cf, j, key));
        HitsPicked(cf, key, j, cf.nhash);
      }
    }
  }

  /** A second insert of the same key changes nothing. */
  lemma InsertTwice(cf: Config, s: H.Store, key: FlowKey)
    requires WellFormed(cf) && Valid(cf, s) && NoNegative(cf, s)
    ensures Insert(cf, Insert(cf, s, key), key) == Insert(cf, s, key)
  {
    InsertThenLookup(cf, s, key);
  }

  /** An insert that fired is undone by a remove of the same key. */
  lemma RemoveUndoesInsert(cf: Config, s: H.Store, key: FlowKey)
    requires WellFormed(cf) && Valid(cf, s) && NoNegative(cf, s)
    requires !Lookup(cf, s, key)
    ensures Remove(cf, Insert(cf, s, key), key) == s
  {
    InsertThenLookup(cf, s, key);
    var t := Insert(cf, s, key);
    var r := Remove(cf, t, key);
    forall c | 0 <= c < cf.ncnt
      ensures r.cnt[c] == s.cnt[c]
    {
      InsertAt(cf, s, key, c);
      AddAllAt(cf, t, key, -1, cf.nhash, c);
    }
  }

  /** The filter after inserting `ks` in order into a fresh one. */
  function InsertAll(cf: Config, ks: seq<FlowKey>): (s: H.Store)
    requires WellFormed(cf)
    ensures Valid(cf, s)
  {
    if |ks| == 0 then H.Fresh(cf.ncnt) else Insert(cf, InsertAll(cf, ks[..|ks| - 1]), ks[|ks| - 1])
  }

  /** Inserting only keeps every counter non-negative. */
  lemma {:induction false} InsertAllNoNegative(cf: Config, ks: seq<FlowKey>)
    requires WellFormed(cf)
    ensures NoNegative(cf, InsertAll(cf, ks))
  {
    if |ks| > 0 {
      InsertAllNoNegative(cf, ks[..|ks| - 1]);
      InsertNoNegative(cf, InsertAll(cf, ks[..|ks| - 1]), ks[|ks| - 1]);
    }
  }

  /** Once looked up positively, a key stays so under further inserts. */
  lemma {:induction false} LookupStays(cf: Config, ks: seq<FlowKey>, n: nat, x: FlowKey)
    requires WellFormed(cf) && n <= |ks|
    requires Lookup(cf, InsertAll(cf, ks[..n]), x)
    ensures Lookup(cf, InsertAll(cf, ks), x)
    decreases |ks| - n
  {
    if n < |ks| {
      var s := InsertAll(cf, ks[..n]);
      assert ks[..n + 1][..n] == ks[..n];
      forall j | 0 <= j < cf.nhash
        ensures Insert(cf, s, ks[n]).cnt[Idx(cf, j, x)] != 0
      {
        InsertGrows(cf, s, ks[n], Idx(cf, j, x));
        InsertAllNoNegative(cf, ks[..n]);
      }
      LookupStays(cf, ks, n + 1, x);
    } else {
      assert ks[..n] == ks;
    }
  }

  /** No false negatives: after inserting a sequence of keys, every one of
      them is looked up positively. */
  lemma NoFalseNegatives(cf: Config, ks: seq<FlowKey>, n: nat)
    requires WellFormed(cf) && n < |ks|
    ensures Lookup(cf, InsertAll(cf, ks), ks[n])
  {
    assert ks[..n + 1][..n] == ks[..n];
    InsertAllNoNegative(cf, ks[..n]);
    InsertThenLookup(cf, InsertAll(cf, ks[..n]), ks[n]);
    LookupStays(cf, ks, n + 1, ks[n]);
  }
}
