/** Deltoid: `H` rows of `G` groups. Each group holds, for every bit
    position of the key, a counter of the traffic whose key has that bit set
    (`arr1`) and one of the traffic whose key has it clear (`arr0`), plus a
    group total in `arr1[..][..][nbits]`. A group dominated by one flow lets
    the flow's key be read back bit by bit. */
module Deltoid {
  import opened Common
  import opened FlowKeys

  /** The fixed shape: `groups` is the prime the constructor picked and the
      key has `8 * keyLen` bits. */
  datatype Config = Config(hashes: nat, groups: nat, keyLen: nat, h: Hash)

  function NBits(cf: Config): nat { 8 * cf.keyLen }

  datatype Sketch = Sketch(sum: int, arr1: seq<seq<seq<int>>>, arr0: seq<seq<seq<int>>>)

  predicate WellFormed(cf: Config) { cf.groups > 0 }

  predicate Valid(cf: Config, s: Sketch)
  {
    && |s.arr1| == cf.hashes && |s.arr0| == cf.hashes
    && (forall i :: 0 <= i < cf.hashes ==> |s.arr1[i]| == cf.groups && |s.arr0[i]| == cf.groups)
    && (forall i, g :: 0 <= i < cf.hashes && 0 <= g < cf.groups ==>
         |s.arr1[i][g]| == NBits(cf) + 1 && |s.arr0[i][g]| == NBits(cf))
  }

  /** The constructor: the group count is rounded up to `NextPrime(num_group)`. */
  function MakeConfig(hashes: nat, groups: nat, keyLen: nat, h: Hash, np: nat -> nat): (cf: Config)
    requires IsNextPrime(np)
    ensures cf.hashes == hashes && cf.groups >= groups && NBits(cf) == 8 * keyLen
  {
    Config(hashes, np(groups), keyLen, h)
  }

  /** The constructor's and `clear()`'s sketch: every counter and the sum are zero. */
  function Init(cf: Config): (s: Sketch)
    ensures Valid(cf, s) && s.sum == 0
    ensures forall i, g, k :: 0 <= i < cf.hashes && 0 <= g < cf.groups && 0 <= k <= NBits(cf) ==>
      s.arr1[i][g][k] == 0 && (k < NBits(cf) ==> s.arr0[i][g][k] == 0)
  {
    Sketch(0,
      seq(cf.hashes, _ => seq(cf.groups, _ => seq(NBits(cf) + 1, _ => 0))),
      seq(cf.hashes, _ => seq(cf.groups, _ => seq(NBits(cf), _ => 0))))
  }

  function Clear(cf: Config, s: Sketch): (r: Sketch)
    requires Valid(cf, s)
    ensures r == Init(cf)
  {
    Init(cf)
  }

  function Index(cf: Config, i: nat, key: FlowKey): (g: nat)
    requires WellFormed(cf)
    ensures g < cf.groups
  {
    cf.h(i, key) % cf.groups
  }

  /** A key of the sketch's key length. */
  predicate KeyOk(cf: Config, key: FlowKey) { |key| == cf.keyLen }

  /** A group of `arr1` after an update by `key`: the counter of every set
      bit and the group total grow by `val`. */
  function Group1Update(cf: Config, c: seq<int>, key: FlowKey, val: int): seq<int>
    requires KeyOk(cf, key) && |c| == NBits(cf) + 1
  {
    seq(NBits(cf) + 1, k requires 0 <= k <= NBits(cf) =>
      if k == NBits(cf) || GetBit(key, k) then c[k] + val else c[k])
  }

  /** A group of `arr0` after an update by `key`: the counter of every clear bit grows by `val`. */
  function Group0Update(cf: Config, c: seq<int>, key: FlowKey, val: int): seq<int>
    requires KeyOk(cf, key) && |c| == NBits(cf)
  {
    seq(NBits(cf), k requires 0 <= k < NBits(cf) => if GetBit(key, k) then c[k] else c[k] + val)
  }

  /** `update(key, val)`. */
  function Update(cf: Config, s: Sketch, key: FlowKey, val: int): (r: Sketch)
    requires WellFormed(cf) && Valid(cf, s) && KeyOk(cf, key)
    ensures Valid(cf, r)
    ensures r.sum == s.sum + val
  {
    Sketch(s.sum + val,
      seq(cf.hashes, i requires 0 <= i < cf.hashes =>
        s.arr1[i][Index(cf, i, key) := Group1Update(cf, s.arr1[i][Index(cf, i, key)], key, val)]),
      seq(cf.hashes, i requires 0 <= i < cf.hashes =>
        s.arr0[i][Index(cf, i, key) := Group0Update(cf, s.arr0[i][Index(cf, i, key)], key, val)]))
  }

  /** The counter that speaks for `key` at bit `k` of row `i`: `arr1` if the
      bit is set, `arr0` if it is clear. */
  function Pick(cf: Config, s: Sketch, i: nat, key: FlowKey, k: nat): int
    requires WellFormed(cf) && Valid(cf, s) && KeyOk(cf, key) && i < cf.hashes && k < NBits(cf)
  {
    if GetBit(key, k) then s.arr1[i][Index(cf, i, key)][k] else s.arr0[i][Index(cf, i, key)][k]
  }

  /** The running minimum over the bits of row `i`, seeded with `numeric_limits<T>::max()`. */
  function RowMin(cf: Config, s: Sketch, i: nat, key: FlowKey): (m: int)
    requires WellFormed(cf) && Valid(cf, s) && KeyOk(cf, key) && i < cf.hashes
    ensures m <= TMax
    ensures forall k :: 0 <= k < NBits(cf) ==> m <= Pick(cf, s, i, key, k)
    ensures m == TMax || exists k :: 0 <= k < NBits(cf) && m == Pick(cf, s, i, key, k)
  {
    var row := seq(NBits(cf), k requires 0 <= k < NBits(cf) => Pick(cf, s, i, key, k));
    assert forall k :: 0 <= k < NBits(cf) ==> row[k] == Pick(cf, s, i, key, k);
    MinFrom(TMax, row)
  }

  /** `query(key)`: the smallest counter that speaks for the key, over all
      rows and bits, seeded with `numeric_limits<T>::max()`. */
  function Query(cf: Config, s: Sketch, key: FlowKey): (q: int)
    requires WellFormed(cf) && Valid(cf, s) && KeyOk(cf, key)
    ensures q <= TMax
    ensures forall i, k :: 0 <= i < cf.hashes && 0 <= k < NBits(cf) ==> q <= Pick(cf, s, i, key, k)
  {
    var mins := seq(cf.hashes, i requires 0 <= i < cf.hashes => RowMin(cf, s, i, key));
    var q := MinFrom(TMax, mins);
    forall i, k | 0 <= i < cf.hashes && 0 <= k < NBits(cf)
      ensures q <= Pick(cf, s, i, key, k)
    {
      assert q <= mins[i] == RowMin(cf, s, i, key);
    }
    q
  }

  /** The query is the seed or one of the counters that speak for the key. */
  lemma QueryAttained(cf: Config, s: Sketch, key: FlowKey)
    requires WellFormed(cf) && Valid(cf, s) && KeyOk(cf, key)
    ensures Query(cf, s, key) == TMax ||
      exists i, k :: 0 <= i < cf.hashes && 0 <= k < NBits(cf) && Query(cf, s, key) == Pick(cf, s, i, key, k)
  {
    var mins := seq(cf.hashes, i requires 0 <= i < cf.hashes => RowMin(cf, s, i, key));
    var q := MinFrom(TMax, mins);
    assert q == Query(cf, s, key);
    if q != TMax {
      var i :| 0 <= i < |mins| && mins[i] == q;
      assert RowMin(cf, s, i, key) == q;
    }
  }

  // ---------------------------------------------------------------------------
  // Invariant: bit counters split the group total, group totals add up to the sum

  /** For every row, group and bit, the set-bit and clear-bit counters add up
      to the group total, and the group totals of every row add up to `sum`. */
  predicate Conserves(cf: Config, s: Sketch)
    requires Valid(cf, s)
  {
    && (forall i, g, k :: 0 <= i < cf.hashes && 0 <= g < cf.groups && 0 <= k < NBits(cf) ==>
         s.arr1[i][g][k] + s.arr0[i][g][k] == s.arr1[i][g][NBits(cf)])
    && (forall i :: 0 <= i < cf.hashes ==> Sum(GroupTotals(cf, s, i)) == s.sum)
  }

  function GroupTotals(cf: Config, s: Sketch, i: nat): (t: seq<int>)
    requires Valid(cf, s) && i < cf.hashes
    ensures |t| == cf.groups
  {
    seq(cf.groups, g requires 0 <= g < cf.groups => s.arr1[i][g][NBits(cf)])
  }

  lemma SumZeros(n: nat)
    ensures Sum(seq(n, _ => 0)) == 0
  {
    if n > 0 {
      assert seq(n, _ => 0)[..n - 1] == seq(n - 1, _ => 0);
      SumZeros(n - 1);
    }
  }

  lemma InitConserves(cf: Config)
    ensures Conserves(cf, Init(cf))
  {
    forall i | 0 <= i < cf.hashes
      ensures Sum(GroupTotals(cf, Init(cf), i)) == 0
    {
      assert GroupTotals(cf, Init(cf), i) == seq(cf.groups, _ => 0);
      SumZeros(cf.groups);
    }
  }

  /** `update` keeps the conservation invariant. */
  lemma UpdateConserves(cf: Config, s: Sketch, key: FlowKey, val: int)
    requires WellFormed(cf) && Valid(cf, s) && KeyOk(cf, key) && Conserves(cf, s)
    ensures Conserves(cf, Update(cf, s, key, val))
  {
    var r := Update(cf, s, key, val);
    forall i | 0 <= i < cf.hashes
      ensures Sum(GroupTotals(cf, r, i)) == r.sum
    {
      var g := Index(cf, i, key);
      assert GroupTotals(cf, r, i) == GroupTotals(cf, s, i)[g := s.arr1[i][g][NBits(cf)] + val];
      SumUpdate(GroupTotals(cf, s, i), g, s.arr1[i][g][NBits(cf)] + val);
    }
  }

  // ---------------------------------------------------------------------------
  // Streams

  function Run(cf: Config, st: seq<Item>): (s: Sketch)
    requires WellFormed(cf) && KeysOk(cf, st)
    ensures Valid(cf, s)
  {
    if |st| == 0 then Init(cf)
    else Update(cf, Run(cf, st[..|st| - 1]), st[|st| - 1].key, st[|st| - 1].val)
  }

  predicate KeysOk(cf: Config, st: seq<Item>)
  {
    forall i :: 0 <= i < |st| ==> KeyOk(cf, st[i].key)
  }

  /** After any stream, `sum` is the stream's total and the conservation invariant holds. */
  lemma {:induction false} RunConserves(cf: Config, st: seq<Item>)
    requires WellFormed(cf) && KeysOk(cf, st)
    ensures Conserves(cf, Run(cf, st))
  {
    if |st| == 0 {
      InitConserves(cf);
    } else {
      RunConserves(cf, st[..|st| - 1]);
      UpdateConserves(cf, Run(cf, st[..|st| - 1]), st[|st| - 1].key, st[|st| - 1].val);
    }
  }

  /** On a non-negative stream every counter that speaks for a key holds at
      least the key's true total. */
  lemma {:induction false} PickCoversTotal(cf: Config, st: seq<Item>, x: FlowKey, i: nat, k: nat)
    requires WellFormed(cf) && KeysOk(cf, st) && NonNegative(st) && KeyOk(cf, x)
    requires i < cf.hashes && k < NBits(cf)
    ensures Pick(cf, Run(cf, st), i, x, k) >= Total(st, x)
  {
    if |st| > 0 {
      var pre := st[..|st| - 1];
      var it := st[|st| - 1];
      assert KeysOk(cf, pre) && NonNegative(pre);
      PickCoversTotal(cf, pre, x, i, k);
      assert st == pre + [it];
      TotalSnoc(pre, it, x);
    }
  }

  /** On a non-negative stream the query never falls below the true total,
      except that it is capped by the seed `numeric_limits<T>::max()`. */
  lemma QueryNeverUnderestimates(cf: Config, st: seq<Item>, x: FlowKey)
    requires WellFormed(cf) && KeysOk(cf, st) && NonNegative(st) && KeyOk(cf, x)
    ensures Query(cf, Run(cf, st), x) >= Min(Total(st, x), TMax)
  {
    var s := Run(cf, st);
    QueryAttained(cf, s, x);
    if Query(cf, s, x) != TMax {
      var i, k :| 0 <= i < cf.hashes && 0 <= k < NBits(cf) && Query(cf, s, x) == Pick(cf, s, i, x, k);
      PickCoversTotal(cf, st, x, i, k);
    }
  }

  // ---------------------------------------------------------------------------
  // Heavy hitters

  /** Bit `k` of group `g` in row `i` is decided: exactly one of its two
      counters is above the threshold. */
  predicate Decided(cf: Config, s: Sketch, i: nat, g: nat, thresh: int, k: nat)
    requires Valid(cf, s) && i < cf.hashes && g < cf.groups && k < NBits(cf)
  {
    (s.arr1[i][g][k] > thresh) != (s.arr0[i][g][k] > thresh)
  }

  /** The zero key with bit `k` set, for `k < n`, wherever the set-bit counter
      is above the threshold. */
  function ReadBits(cf: Config, s: Sketch, i: nat, g: nat, thresh: int, n: nat): (fk: FlowKey)
    requires Valid(cf, s) && i < cf.hashes && g < cf.groups && n <= NBits(cf)
    ensures KeyOk(cf, fk)
    ensures forall k :: 0 <= k < n ==> GetBit(fk, k) == (s.arr1[i][g][k] > thresh)
    ensures forall k :: n <= k < NBits(cf) ==> !GetBit(fk, k)
  {
    if n == 0 then ZeroKey(cf.keyLen)
    else
      var fk := ReadBits(cf, s, i, g, thresh, n - 1);
      if s.arr1[i][g][n - 1] > thresh then SetBit(fk, n - 1, true) else fk
  }

  /** The key group `g` of row `i` yields: none if its total does not exceed
      the threshold or some bit is undecided, else the key read off the bits. */
  function GroupKey(cf: Config, s: Sketch, i: nat, g: nat, thresh: int): (r: Option<FlowKey>)
    requires Valid(cf, s) && i < cf.hashes && g < cf.groups
    ensures r.Some? <==>
      s.arr1[i][g][NBits(cf)] > thresh && forall k :: 0 <= k < NBits(cf) ==> Decided(cf, s, i, g, thresh, k)
    ensures r.Some? ==> KeyOk(cf, r.value)
    ensures r.Some? ==> forall k :: 0 <= k < NBits(cf) ==> GetBit(r.value, k) == (s.arr1[i][g][k] > thresh)
  {
    if s.arr1[i][g][NBits(cf)] <= thresh then None
    else if exists k :: 0 <= k < NBits(cf) && !Decided(cf, s, i, g, thresh, k) then None
    else Some(ReadBits(cf, s, i, g, thresh, NBits(cf)))
  }

  /** Some group of some row yields the key. */
  ghost predicate Yields(cf: Config, s: Sketch, thresh: int, k: FlowKey)
    requires Valid(cf, s)
  {
    exists i, g :: 0 <= i < cf.hashes && 0 <= g < cf.groups && GroupKey(cf, s, i, g, thresh) == Some(k)
  }

  /** The keys the groups yield, row by row. */
  function GroupKeys(cf: Config, s: Sketch, thresh: int): (ks: seq<FlowKey>)
    requires Valid(cf, s)
    ensures forall k :: k in ks <==> Yields(cf, s, thresh, k)
    ensures forall k :: k in ks ==> KeyOk(cf, k)
  {
    var rows := seq(cf.hashes, i requires 0 <= i < cf.hashes =>
      seq(cf.groups, g requires 0 <= g < cf.groups => GroupKey(cf, s, i, g, thresh)));
    assert forall i, g :: 0 <= i < cf.hashes && 0 <= g < cf.groups ==> rows[i][g] == GroupKey(cf, s, i, g, thresh);
    Somes(Flatten(rows))
  }

  /** `getHeavyHitter(threshold)`: the threshold is truncated to the counter
      type, and every key some group yields is reported with its query. */
  function HeavyHitters(cf: Config, s: Sketch, threshold: real): (m: map<FlowKey, int>)
    requires WellFormed(cf) && Valid(cf, s)
    ensures forall k :: k in m <==> Yields(cf, s, TruncReal(threshold), k)
    ensures forall k :: k in m ==> KeyOk(cf, k) && m[k] == Query(cf, s, k)
  {
    var ks := GroupKeys(cf, s, TruncReal(threshold));
    var m := Collect(ks, k => Estimate(cf, s, k), _ => true);
    assert forall k :: k in m ==> k in ks && m[k] == Estimate(cf, s, k);
    m
  }

  /** The query of a key the sketch can hold (every reported key is one). */
  function Estimate(cf: Config, s: Sketch, k: FlowKey): int
    requires WellFormed(cf) && Valid(cf, s)
  {
    if KeyOk(cf, k) then Query(cf, s, k) else 0
  }

  // ---------------------------------------------------------------------------
  // Recovery of a flow that is alone in its group

  /** Every update of the stream that lands in group `g` of row `i` is by `x`. */
  predicate AloneIn(cf: Config, st: seq<Item>, i: nat, g: nat, x: FlowKey)
    requires WellFormed(cf)
  {
    forall n :: 0 <= n < |st| && Index(cf, i, st[n].key) == g ==> st[n].key == x
  }

  /** A group that only `x` reaches holds `x`'s total in the group total, in
      the set-bit counters of `x`'s set bits and in the clear-bit counters of
      its clear bits, and zero everywhere else. */
  lemma {:induction false} AloneGroupCounters(cf: Config, st: seq<Item>, i: nat, x: FlowKey)
    requires WellFormed(cf) && KeysOk(cf, st) && KeyOk(cf, x) && i < cf.hashes
    requires AloneIn(cf, st, i, Index(cf, i, x), x)
    ensures Run(cf, st).arr1[i][Index(cf, i, x)][NBits(cf)] == Total(st, x)
    ensures forall k :: 0 <= k < NBits(cf) ==>
      Run(cf, st).arr1[i][Index(cf, i, x)][k] == (if GetBit(x, k) then Total(st, x) else 0) &&
      Run(cf, st).arr0[i][Index(cf, i, x)][k] == (if GetBit(x, k) then 0 else Total(st, x))
  {
    if |st| > 0 {
      var pre := st[..|st| - 1];
      var it := st[|st| - 1];
      assert st == pre + [it];
      assert KeysOk(cf, pre) && AloneIn(cf, pre, i, Index(cf, i, x), x);
      AloneGroupCounters(cf, pre, i, x);
      TotalSnoc(pre, it, x);
    }
  }

  /** A flow whose total exceeds a non-negative threshold and that no other
      flow shares its group with is read back exactly from that group, and
      so is reported. */
  lemma AloneFlowIsRecovered(cf: Config, st: seq<Item>, i: nat, x: FlowKey, threshold: real)
    requires WellFormed(cf) && KeysOk(cf, st) && KeyOk(cf, x) && i < cf.hashes
    requires AloneIn(cf, st, i, Index(cf, i, x), x)
    requires threshold >= 0.0 && Total(st, x) > TruncReal(threshold)
    ensures GroupKey(cf, Run(cf, st), i, Index(cf, i, x), TruncReal(threshold)) == Some(x)
    ensures x in HeavyHitters(cf, Run(cf, st), threshold)
  {
    var s := Run(cf, st);
    var g := Index(cf, i, x);
    var t := TruncReal(threshold);
    AloneGroupCounters(cf, st, i, x);
    assert forall k :: 0 <= k < NBits(cf) ==> Decided(cf, s, i, g, t, k);
    var r := GroupKey(cf, s, i, g, t);
    KeyExtensional(r.value, x);
  }
}
