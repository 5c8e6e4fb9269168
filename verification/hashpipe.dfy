/** CH HashPipe: a pipeline of `depth` stages of `width` slots. The first
    `depth - ch_depth` stages keep (key, value) entries; the last `ch_depth`
    stages keep keys in arrays and values in one counter hierarchy, stage
    `normal_depth + i` slot `j` being counter `i * width + j`. An update
    always lands in the first stage; a key it displaces travels down the
    pipeline, displacing smaller entries, until it merges, finds an empty
    slot or falls off the end. An empty slot holds the all-zero key. */
module CHHashPipe {
  import opened Common
  import FlowKeys
  import H = Hierarchy

  datatype Entry = Entry(key: FlowKey, val: int)

  datatype Config = Config(depth: nat, chDepth: nat, width: nat, keyLen: nat, h: Hash)

  /** `width` is positive and there are no more CH stages than stages. */
  predicate WellFormed(cf: Config)
  {
    cf.width > 0 && cf.chDepth <= cf.depth
  }

  /** `normal_depth`: the number of entry stages. */
  function Normal(cf: Config): nat
    requires WellFormed(cf)
  {
    cf.depth - cf.chDepth
  }

  /** `slots`, `Keys` and the hierarchy `ch`. */
  datatype Sketch = Sketch(slots: seq<seq<Entry>>, keys: seq<seq<FlowKey>>, ch: H.Store)

  predicate Valid(cf: Config, s: Sketch)
    requires WellFormed(cf)
  {
    && |s.slots| == Normal(cf) && (forall t :: 0 <= t < |s.slots| ==> |s.slots[t]| == cf.width)
    && |s.keys| == cf.chDepth && (forall i :: 0 <= i < |s.keys| ==> |s.keys[i]| == cf.width)
    && |s.ch.cnt| == cf.chDepth * cf.width
  }

  /** `FlowKey<key_len> empty_key`. */
  function Empty(cf: Config): FlowKey
  {
    FlowKeys.ZeroKey(cf.keyLen)
  }

  /** The slot stage `t` hashes `key` to: `hash_fns[t](key) % width`. */
  function Idx(cf: Config, t: nat, key: FlowKey): (j: nat)
    requires WellFormed(cf)
    ensures j < cf.width
  {
    cf.h(t, key) % cf.width
  }

  /** The hierarchy counter of CH stage `t`, slot `j`: `(t - normal_depth) * width + j`. */
  function CHIdx(cf: Config, t: nat, j: nat): (c: nat)
    requires WellFormed(cf) && Normal(cf) <= t < cf.depth && j < cf.width
    ensures c < cf.chDepth * cf.width
  {
    RowMajorBound(t - Normal(cf), j, cf.chDepth, cf.width);
    (t - Normal(cf)) * cf.width + j
  }

  /** Distinct CH slots use distinct counters. */
  lemma CHIdxInjective(cf: Config, t: nat, j: nat, t2: nat, j2: nat)
    requires WellFormed(cf) && Normal(cf) <= t < cf.depth && j < cf.width
    requires Normal(cf) <= t2 < cf.depth && j2 < cf.width
    requires CHIdx(cf, t, j) == CHIdx(cf, t2, j2)
    ensures t == t2 && j == j2
  {
    RowMajorInjective(t - Normal(cf), j, t2 - Normal(cf), j2, cf.width);
  }

  /** The key stored in stage `t`, slot `j`. */
  function KeyAt(cf: Config, s: Sketch, t: nat, j: nat): FlowKey
    requires WellFormed(cf) && Valid(cf, s) && t < cf.depth && j < cf.width
  {
    if t < Normal(cf) then s.slots[t][j].key else s.keys[t - Normal(cf)][j]
  }

  /** The value stored in stage `t`, slot `j`. */
  function ValAt(cf: Config, s: Sketch, t: nat, j: nat): int
    requires WellFormed(cf) && Valid(cf, s) && t < cf.depth && j < cf.width
  {
    if t < Normal(cf) then s.slots[t][j].val else H.GetCnt(s.ch, CHIdx(cf, t, j))
  }

  /** Stage `t`, slot `j` now holds `k` with value `v`: an entry is overwritten;
      a CH slot gets the key and `updateCnt(c_val - EstVal)`. */
  function SetAt(cf: Config, s: Sketch, t: nat, j: nat, k: FlowKey, v: int): (r: Sketch)
    requires WellFormed(cf) && Valid(cf, s) && t < cf.depth && j < cf.width
    ensures Valid(cf, r)
  {
    if t < Normal(cf) then s.(slots := s.slots[t := s.slots[t][j := Entry(k, v)]])
    else
      var i := t - Normal(cf);
      var c := CHIdx(cf, t, j);
      s.(keys := s.keys[i := s.keys[i][j := k]], ch := H.UpdateCnt(s.ch, c, v - H.GetCnt(s.ch, c)))
  }

  /** A hit: the value of stage `t`, slot `j` grows by `v`. */
  function AddAt(cf: Config, s: Sketch, t: nat, j: nat, v: int): (r: Sketch)
    requires WellFormed(cf) && Valid(cf, s) && t < cf.depth && j < cf.width
    ensures Valid(cf, r)
  {
    if t < Normal(cf) then s.(slots := s.slots[t := s.slots[t][j := Entry(s.slots[t][j].key, s.slots[t][j].val + v)]])
    else s.(ch := H.UpdateCnt(s.ch, CHIdx(cf, t, j), v))
  }

  /** Claiming an empty slot as the source writes it: an entry is
      overwritten, but a CH slot gets the key and `updateCnt(c_val)`, which
      adds to whatever the counter held. */
  function ClaimAsWritten(cf: Config, s: Sketch, t: nat, j: nat, k: FlowKey, v: int): (r: Sketch)
    requires WellFormed(cf) && Valid(cf, s) && t < cf.depth && j < cf.width
    ensures Valid(cf, r)
  {
    if t < Normal(cf) then SetAt(cf, s, t, j, k, v)
    else
      var i := t - Normal(cf);
      s.(keys := s.keys[i := s.keys[i][j := k]], ch := H.UpdateCnt(s.ch, CHIdx(cf, t, j), v))
  }

  /** Claiming an empty slot: `SetAt` in the corrected model, `ClaimAsWritten`
      in the as-written one. */
  function Claim(cf: Config, s: Sketch, t: nat, j: nat, k: FlowKey, v: int, asWritten: bool): (r: Sketch)
    requires WellFormed(cf) && Valid(cf, s) && t < cf.depth && j < cf.width
    ensures Valid(cf, r)
  {
    if asWritten then ClaimAsWritten(cf, s, t, j, k, v) else SetAt(cf, s, t, j, k, v)
  }

  /** The later stages `t .. depth - 1` carrying the displaced key `ck` with
      value `cv`: merge on a hit, claim an empty slot, swap with a smaller
      value and carry that one on, or pass by. */
  function Pipe(cf: Config, s: Sketch, t: nat, ck: FlowKey, cv: int, asWritten: bool): (r: Sketch)
    requires WellFormed(cf) && Valid(cf, s)
    ensures Valid(cf, r)
    decreases cf.depth - t
  {
    if t >= cf.depth then s
    else
      var j := Idx(cf, t, ck);
      var k := KeyAt(cf, s, t, j);
      var v := ValAt(cf, s, t, j);
      if k == ck then AddAt(cf, s, t, j, cv)
      else if k == Empty(cf) then Claim(cf, s, t, j, ck, cv, asWritten)
      else if v < cv then Pipe(cf, SetAt(cf, s, t, j, ck, cv), t + 1, k, v, asWritten)
      else Pipe(cf, s, t + 1, ck, cv, asWritten)
  }

  /** `update(key, val)` in either reading. The first stage always takes the
      key: it merges, claims an empty slot, or evicts the occupant, which the
      later stages then carry. The source indexes stage 0 unconditionally, so
      an update needs at least one stage. */
  function UpdateWith(cf: Config, s: Sketch, key: FlowKey, val: int, asWritten: bool): (r: Sketch)
    requires WellFormed(cf) && Valid(cf, s) && cf.depth >= 1
    ensures Valid(cf, r)
  {
    var j := Idx(cf, 0, key);
    var k := KeyAt(cf, s, 0, j);
    var v := ValAt(cf, s, 0, j);
    if k == key then AddAt(cf, s, 0, j, val)
    else if k == Empty(cf) then Claim(cf, s, 0, j, key, val, asWritten)
    else Pipe(cf, SetAt(cf, s, 0, j, key, val), 1, k, v, asWritten)
  }

  /** `update(key, val)` as the source writes it. */
  function UpdateAsWritten(cf: Config, s: Sketch, key: FlowKey, val: int): (r: Sketch)
    requires WellFormed(cf) && Valid(cf, s) && cf.depth >= 1
    ensures Valid(cf, r)
  {
    UpdateWith(cf, s, key, val, true)
  }

  /** `update(key, val)` with an empty CH slot claimed at exactly the
      carried value, as an entry stage does. */
  function Update(cf: Config, s: Sketch, key: FlowKey, val: int): (r: Sketch)
    requires WellFormed(cf) && Valid(cf, s) && cf.depth >= 1
    ensures Valid(cf, r)
  {
    UpdateWith(cf, s, key, val, false)
  }

  /** What stage `t` contributes to the query of `x`: its value when the
      slot `x` hashes to holds `x`. */
  function Own(cf: Config, s: Sketch, t: nat, x: FlowKey): int
    requires WellFormed(cf) && Valid(cf, s) && t < cf.depth
  {
    var j := Idx(cf, t, x);
    if KeyAt(cf, s, t, j) == x then ValAt(cf, s, t, j) else 0
  }

  /** The first `n` stages' contributions. */
  function QSum(cf: Config, s: Sketch, x: FlowKey, n: nat): (r: int)
    requires WellFormed(cf) && Valid(cf, s) && n <= cf.depth
    ensures (forall t :: 0 <= t < n ==> KeyAt(cf, s, t, Idx(cf, t, x)) != x) ==> r == 0
    ensures (forall t :: 0 <= t < n ==> ValAt(cf, s, t, Idx(cf, t, x)) >= 0) ==> r >= 0
  {
    if n == 0 then 0 else QSum(cf, s, x, n - 1) + Own(cf, s, n - 1, x)
  }

  /** `query(key)`: the sum over all stages. A key held in none of its
      slots reads zero, and non-negative slot values give a non-negative
      answer. */
  function Query(cf: Config, s: Sketch, x: FlowKey): (q: int)
    requires WellFormed(cf) && Valid(cf, s)
    ensures (forall t :: 0 <= t < cf.depth ==> KeyAt(cf, s, t, Idx(cf, t, x)) != x) ==> q == 0
    ensures (forall t :: 0 <= t < cf.depth ==> ValAt(cf, s, t, Idx(cf, t, x)) >= 0) ==> q >= 0
  {
    QSum(cf, s, x, cf.depth)
  }

  /** Every key empty, every value zero: the constructor's sketch. */
  function Init(cf: Config): (r: Sketch)
    requires WellFormed(cf)
    ensures Valid(cf, r)
    ensures forall t, j :: 0 <= t < cf.depth && 0 <= j < cf.width ==>
      KeyAt(cf, r, t, j) == Empty(cf) && ValAt(cf, r, t, j) == 0
  {
    Sketch(seq(Normal(cf), _ => seq(cf.width, _ => Entry(Empty(cf), 0))),
           seq(cf.chDepth, _ => seq(cf.width, _ => Empty(cf))), H.Fresh(cf.chDepth * cf.width))
  }

  /** `clear()`: every key empty, every value zero. */
  function Clear(cf: Config, s: Sketch): (r: Sketch)
    requires WellFormed(cf) && Valid(cf, s)
    ensures Valid(cf, r)
    ensures forall t, j :: 0 <= t < cf.depth && 0 <= j < cf.width ==>
      KeyAt(cf, r, t, j) == Empty(cf) && ValAt(cf, r, t, j) == 0
  {
    s.(slots := Init(cf).slots, keys := Init(cf).keys, ch := H.Clear(s.ch))
  }

  datatype Built = Built(cf: Config, s: Sketch, layers: seq<nat>)

  /** The constructor: `ch_depth` is `depth` when given as -1; a ratio outside
      (0, 1) throws `std::out_of_range`, and so does a `ch_depth` outside
      `[0, depth]`, checked after the ratio. */
  function New(depth: nat, width: nat, keyLen: nat, h: Hash, np: nat -> nat, ratio: real, chDepthArg: int, noLayer: nat)
    : (r: Result<Built>)
    requires noLayer >= 1 && IsNextPrime(np)
    ensures r.Ok? <==> 0.0 < ratio < 1.0 && (chDepthArg == -1 || 0 <= chDepthArg <= depth)
    ensures r.Err? ==> r.error == OutOfRange
    ensures r.Ok? ==>
      && r.value.cf.depth == depth && r.value.cf.width >= width
      && r.value.cf.chDepth == (if chDepthArg == -1 then depth else chDepthArg)
      && WellFormed(r.value.cf) && r.value.s == Init(r.value.cf)
      && |r.value.layers| == noLayer && r.value.layers[0] == r.value.cf.width * r.value.cf.chDepth
  {
    var chDepth := if chDepthArg == -1 then depth else chDepthArg;
    if ratio <= 0.0 || ratio >= 1.0 then Err(OutOfRange)
    else if chDepth > depth || chDepth < 0 then Err(OutOfRange)
    else
      var cf := Config(depth, chDepth, np(width), keyLen, h);
      var n0 := cf.width * cf.chDepth;
      H.LayerSizesShape(n0, ratio, noLayer, np);
      Ok(Built(cf, Init(cf), H.LayerSizes(n0, ratio, noLayer, np)))
  }

  /** Every key stored anywhere, stage by stage and slot by slot. */
  function StoredKeys(cf: Config, s: Sketch): (ks: seq<FlowKey>)
    requires WellFormed(cf) && Valid(cf, s)
    ensures forall k :: k in ks <==> exists t, j :: 0 <= t < cf.depth && 0 <= j < cf.width && KeyAt(cf, s, t, j) == k
  {
    var rows := seq(cf.depth, t requires 0 <= t < cf.depth => seq(cf.width, j requires 0 <= j < cf.width => KeyAt(cf, s, t, j)));
    assert forall t :: 0 <= t < cf.depth ==> |rows[t]| == cf.width;
    assert forall t, j :: 0 <= t < cf.depth && 0 <= j < cf.width ==> rows[t][j] == KeyAt(cf, s, t, j);
    Flatten(rows)
  }

  /** `getHeavyHitter(threshold)`: every stored key, evaluated once, is
      reported with its query when the query reaches the threshold. */
  function HeavyHitters(cf: Config, s: Sketch, thr: real): (m: map<FlowKey, int>)
    requires WellFormed(cf) && Valid(cf, s)
    ensures forall k :: k in m <==>
      (exists t, j :: 0 <= t < cf.depth && 0 <= j < cf.width && KeyAt(cf, s, t, j) == k) && Query(cf, s, k) as real >= thr
    ensures forall k :: k in m ==> m[k] == Query(cf, s, k)
  {
    Collect(StoredKeys(cf, s), k => Query(cf, s, k), k => Query(cf, s, k) as real >= thr)
  }

  /** `s2` agrees with `s` on every slot except stage `t`, slot `j`. */
  ghost predicate SameExcept(cf: Config, s: Sketch, s2: Sketch, t: nat, j: nat)
    requires WellFormed(cf) && Valid(cf, s) && Valid(cf, s2)
  {
    forall t2, j2 :: 0 <= t2 < cf.depth && 0 <= j2 < cf.width && (t2 != t || j2 != j) ==>
      KeyAt(cf, s2, t2, j2) == KeyAt(cf, s, t2, j2) && ValAt(cf, s2, t2, j2) == ValAt(cf, s, t2, j2)
  }

  /** Two distinct CH slots keep their counters apart. */
  lemma OtherCounter(cf: Config, t: nat, j: nat, t2: nat, j2: nat)
    requires WellFormed(cf) && Normal(cf) <= t < cf.depth && j < cf.width
    requires Normal(cf) <= t2 < cf.depth && j2 < cf.width && (t2 != t || j2 != j)
    ensures CHIdx(cf, t2, j2) != CHIdx(cf, t, j)
  {
    if CHIdx(cf, t2, j2) == CHIdx(cf, t, j) {
      CHIdxInjective(cf, t2, j2, t, j);
    }
  }

  /** `SetAt` writes exactly its slot. */
  lemma SetAtEffect(cf: Config, s: Sketch, t: nat, j: nat, k: FlowKey, v: int)
    requires WellFormed(cf) && Valid(cf, s) && t < cf.depth && j < cf.width
    ensures KeyAt(cf, SetAt(cf, s, t, j, k, v), t, j) == k
    ensures ValAt(cf, SetAt(cf, s, t, j, k, v), t, j) == v
    ensures SameExcept(cf, s, SetAt(cf, s, t, j, k, v), t, j)
  {
    var r := SetAt(cf, s, t, j, k, v);
    forall t2, j2 | 0 <= t2 < cf.depth && 0 <= j2 < cf.width && (t2 != t || j2 != j)
      ensures KeyAt(cf, r, t2, j2) == KeyAt(cf, s, t2, j2) && ValAt(cf, r, t2, j2) == ValAt(cf, s, t2, j2)
    {
      if t >= Normal(cf) && t2 >= Normal(cf) {
        OtherCounter(cf, t, j, t2, j2);
      }
    }
  }

  /** `AddAt` raises exactly its slot's value and keeps its key. */
  lemma AddAtEffect(cf: Config, s: Sketch, t: nat, j: nat, v: int)
    requires WellFormed(cf) && Valid(cf, s) && t < cf.depth && j < cf.width
    ensures KeyAt(cf, AddAt(cf, s, t, j, v), t, j) == KeyAt(cf, s, t, j)
    ensures ValAt(cf, AddAt(cf, s, t, j, v), t, j) == ValAt(cf, s, t, j) + v
    ensures SameExcept(cf, s, AddAt(cf, s, t, j, v), t, j)
  {
    var r := AddAt(cf, s, t, j, v);
    forall t2, j2 | 0 <= t2 < cf.depth && 0 <= j2 < cf.width && (t2 != t || j2 != j)
      ensures KeyAt(cf, r, t2, j2) == KeyAt(cf, s, t2, j2) && ValAt(cf, r, t2, j2) == ValAt(cf, s, t2, j2)
    {
      if t >= Normal(cf) && t2 >= Normal(cf) {
        OtherCounter(cf, t, j, t2, j2);
      }
    }
  }

  /** The source's claim of a CH slot adds the carried value to the counter. */
  lemma ClaimAsWrittenEffect(cf: Config, s: Sketch, t: nat, j: nat, k: FlowKey, v: int)
    requires WellFormed(cf) && Valid(cf, s) && t < cf.depth && j < cf.width
    ensures KeyAt(cf, ClaimAsWritten(cf, s, t, j, k, v), t, j) == k
    ensures ValAt(cf, ClaimAsWritten(cf, s, t, j, k, v), t, j) == if t < Normal(cf) then v else ValAt(cf, s, t, j) + v
    ensures SameExcept(cf, s, ClaimAsWritten(cf, s, t, j, k, v), t, j)
  {
    if t < Normal(cf) {
      SetAtEffect(cf, s, t, j, k, v);
    } else {
      var r := ClaimAsWritten(cf, s, t, j, k, v);
      forall t2, j2 | 0 <= t2 < cf.depth && 0 <= j2 < cf.width && (t2 != t || j2 != j)
        ensures KeyAt(cf, r, t2, j2) == KeyAt(cf, s, t2, j2) && ValAt(cf, r, t2, j2) == ValAt(cf, s, t2, j2)
      {
        if t2 >= Normal(cf) {
          OtherCounter(cf, t, j, t2, j2);
        }
      }
    }
  }

  /** Stages other than `t`, and stage `t` for a key hashing elsewhere,
      contribute the same to the query. */
  lemma OwnSame(cf: Config, s: Sketch, s2: Sketch, t: nat, j: nat, x: FlowKey, t2: nat)
    requires WellFormed(cf) && Valid(cf, s) && Valid(cf, s2) && t < cf.depth && j < cf.width && t2 < cf.depth
    requires SameExcept(cf, s, s2, t, j)
    requires t2 != t || Idx(cf, t, x) != j
    ensures Own(cf, s2, t2, x) == Own(cf, s, t2, x)
  {
  }

  /** A one-slot change moves every query by that slot's change in contribution. */
  lemma {:induction false} QSumChange(cf: Config, s: Sketch, s2: Sketch, t: nat, j: nat, x: FlowKey, n: nat)
    requires WellFormed(cf) && Valid(cf, s) && Valid(cf, s2) && t < cf.depth && j < cf.width && n <= cf.depth
    requires SameExcept(cf, s, s2, t, j)
    ensures QSum(cf, s2, x, n) == QSum(cf, s, x, n) + (if t < n then Own(cf, s2, t, x) - Own(cf, s, t, x) else 0)
  {
    if n > 0 {
      QSumChange(cf, s, s2, t, j, x, n - 1);
      if n - 1 != t {
        OwnSame(cf, s, s2, t, j, x, n - 1);
      }
    }
  }

  lemma QueryChange(cf: Config, s: Sketch, s2: Sketch, t: nat, j: nat, x: FlowKey)
    requires WellFormed(cf) && Valid(cf, s) && Valid(cf, s2) && t < cf.depth && j < cf.width
    requires SameExcept(cf, s, s2, t, j)
    ensures Query(cf, s2, x) == Query(cf, s, x) + Own(cf, s2, t, x) - Own(cf, s, t, x)
    ensures Idx(cf, t, x) != j ==> Query(cf, s2, x) == Query(cf, s, x)
  {
    QSumChange(cf, s, s2, t, j, x, cf.depth);
    if Idx(cf, t, x) != j {
      OwnSame(cf, s, s2, t, j, x, t);
    }
  }

  /** Every non-empty key sits in the slot its stage hashes it to. */
  ghost predicate Placed(cf: Config, s: Sketch)
    requires WellFormed(cf) && Valid(cf, s)
  {
    forall t, j :: 0 <= t < cf.depth && 0 <= j < cf.width && KeyAt(cf, s, t, j) != Empty(cf) ==>
      Idx(cf, t, KeyAt(cf, s, t, j)) == j
  }

  ghost predicate NonNegVals(cf: Config, s: Sketch)
    requires WellFormed(cf) && Valid(cf, s)
  {
    forall t, j :: 0 <= t < cf.depth && 0 <= j < cf.width ==> ValAt(cf, s, t, j) >= 0
  }

  /** The pipeline invariant while `ck` with `cv` is in flight: no key's
      query, counting the carried value for `ck`, exceeds its true total. */
  ghost predicate Carrying(cf: Config, s: Sketch, st: seq<Item>, ck: FlowKey, cv: int)
    requires WellFormed(cf) && Valid(cf, s)
  {
    && Placed(cf, s) && NonNegVals(cf, s) && cv >= 0 && ck != Empty(cf)
    && forall x :: Query(cf, s, x) + (if x == ck then cv else 0) <= Total(st, x)
  }

  /** At rest: every non-empty key placed, every value non-negative, and no
      query above the key's true total. */
  ghost predicate Inv(cf: Config, s: Sketch, st: seq<Item>)
    requires WellFormed(cf) && Valid(cf, s)
  {
    && Placed(cf, s) && NonNegVals(cf, s)
    && forall x :: Query(cf, s, x) <= Total(st, x)
  }

  /** Merging `cv` into the slot that holds `ck` credits `ck` alone. */
  lemma HitStep(cf: Config, s: Sketch, t: nat, ck: FlowKey, cv: int, x: FlowKey)
    requires WellFormed(cf) && Valid(cf, s) && t < cf.depth
    requires KeyAt(cf, s, t, Idx(cf, t, ck)) == ck
    ensures Query(cf, AddAt(cf, s, t, Idx(cf, t, ck), cv), x) == Query(cf, s, x) + (if x == ck then cv else 0)
  {
    var j := Idx(cf, t, ck);
    AddAtEffect(cf, s, t, j, cv);
    QueryChange(cf, s, AddAt(cf, s, t, j, cv), t, j, x);
  }

  lemma HitPreserves(cf: Config, s: Sketch, t: nat, ck: FlowKey, cv: int)
    requires WellFormed(cf) && Valid(cf, s) && t < cf.depth && Placed(cf, s) && NonNegVals(cf, s) && cv >= 0
    requires KeyAt(cf, s, t, Idx(cf, t, ck)) == ck
    ensures Placed(cf, AddAt(cf, s, t, Idx(cf, t, ck), cv)) && NonNegVals(cf, AddAt(cf, s, t, Idx(cf, t, ck), cv))
  {
    AddAtEffect(cf, s, t, Idx(cf, t, ck), cv);
  }

  /** Writing `ck` with `cv` over an empty slot credits `ck` and can only
      take from the empty key. */
  lemma ClaimStep(cf: Config, s: Sketch, t: nat, ck: FlowKey, cv: int, x: FlowKey)
    requires WellFormed(cf) && Valid(cf, s) && t < cf.depth && NonNegVals(cf, s)
    requires KeyAt(cf, s, t, Idx(cf, t, ck)) == Empty(cf) != ck
    ensures Query(cf, SetAt(cf, s, t, Idx(cf, t, ck), ck, cv), x) <= Query(cf, s, x) + (if x == ck then cv else 0)
  {
    var j := Idx(cf, t, ck);
    SetAtEffect(cf, s, t, j, ck, cv);
    QueryChange(cf, s, SetAt(cf, s, t, j, ck, cv), t, j, x);
  }

  /** Writing `ck` with `cv` over the slot of another placed key `k` with
      value `v` moves `v` out of `k`'s query and `cv` into `ck`'s. */
  lemma SwapStep(cf: Config, s: Sketch, t: nat, ck: FlowKey, cv: int, x: FlowKey)
    requires WellFormed(cf) && Valid(cf, s) && t < cf.depth && Placed(cf, s)
    requires KeyAt(cf, s, t, Idx(cf, t, ck)) != Empty(cf)
    requires KeyAt(cf, s, t, Idx(cf, t, ck)) != ck
    ensures var j := Idx(cf, t, ck);
      Query(cf, SetAt(cf, s, t, j, ck, cv), x) + (if x == KeyAt(cf, s, t, j) then ValAt(cf, s, t, j) else 0)
        == Query(cf, s, x) + (if x == ck then cv else 0)
  {
    var j := Idx(cf, t, ck);
    SetAtEffect(cf, s, t, j, ck, cv);
    QueryChange(cf, s, SetAt(cf, s, t, j, ck, cv), t, j, x);
  }

  lemma SetPreserves(cf: Config, s: Sketch, t: nat, ck: FlowKey, cv: int)
    requires WellFormed(cf) && Valid(cf, s) && t < cf.depth && Placed(cf, s) && NonNegVals(cf, s) && cv >= 0
    ensures Placed(cf, SetAt(cf, s, t, Idx(cf, t, ck), ck, cv)) && NonNegVals(cf, SetAt(cf, s, t, Idx(cf, t, ck), ck, cv))
  {
    SetAtEffect(cf, s, t, Idx(cf, t, ck), ck, cv);
  }

  /** The pipeline brings a carried key to rest without any query rising
      above its true total. */
  lemma {:induction false} PipeInv(cf: Config, s: Sketch, st: seq<Item>, t: nat, ck: FlowKey, cv: int)
    requires WellFormed(cf) && Valid(cf, s) && Carrying(cf, s, st, ck, cv)
    ensures Inv(cf, Pipe(cf, s, t, ck, cv, false), st)
    decreases cf.depth - t
  {
    if t < cf.depth {
      var j := Idx(cf, t, ck);
      var k := KeyAt(cf, s, t, j);
      var v := ValAt(cf, s, t, j);
      if k == ck {
        HitPreserves(cf, s, t, ck, cv);
        forall x ensures Query(cf, AddAt(cf, s, t, j, cv), x) <= Total(st, x) {
          HitStep(cf, s, t, ck, cv, x);
        }
      } else if k == Empty(cf) {
        SetPreserves(cf, s, t, ck, cv);
        forall x ensures Query(cf, SetAt(cf, s, t, j, ck, cv), x) <= Total(st, x) {
          ClaimStep(cf, s, t, ck, cv, x);
        }
      } else if v < cv {
        var s1 := SetAt(cf, s, t, j, ck, cv);
        SetPreserves(cf, s, t, ck, cv);
        forall x ensures Query(cf, s1, x) + (if x == k then v else 0) <= Total(st, x) {
          SwapStep(cf, s, t, ck, cv, x);
        }
        PipeInv(cf, s1, st, t + 1, k, v);
      } else {
        PipeInv(cf, s, st, t + 1, ck, cv);
      }
    }
  }

  /** An update of a non-negative value keeps the invariant, the stream
      growing by that update. */
  lemma UpdateInv(cf: Config, s: Sketch, st: seq<Item>, key: FlowKey, val: int)
    requires WellFormed(cf) && Valid(cf, s) && cf.depth >= 1 && Inv(cf, s, st) && val >= 0
    ensures Inv(cf, Update(cf, s, key, val), st + [Item(key, val)])
  {
    var st2 := st + [Item(key, val)];
    forall x ensures Total(st2, x) == Total(st, x) + (if x == key then val else 0) {
      TotalSnoc(st, Item(key, val), x);
    }
    var j := Idx(cf, 0, key);
    var k := KeyAt(cf, s, 0, j);
    var v := ValAt(cf, s, 0, j);
    if k == key {
      HitPreserves(cf, s, 0, key, val);
      forall x ensures Query(cf, AddAt(cf, s, 0, j, val), x) <= Total(st2, x) {
        HitStep(cf, s, 0, key, val, x);
      }
    } else if k == Empty(cf) {
      SetPreserves(cf, s, 0, key, val);
      forall x ensures Query(cf, SetAt(cf, s, 0, j, key, val), x) <= Total(st2, x) {
        ClaimStep(cf, s, 0, key, val, x);
      }
    } else {
      var s1 := SetAt(cf, s, 0, j, key, val);
      SetPreserves(cf, s, 0, key, val);
      forall x ensures Query(cf, s1, x) + (if x == k then v else 0) <= Total(st2, x) {
        SwapStep(cf, s, 0, key, val, x);
      }
      PipeInv(cf, s1, st2, 1, k, v);
    }
  }

  /** The sketch after feeding `st` to a fresh one. */
  function Run(cf: Config, st: seq<Item>): (s: Sketch)
    requires WellFormed(cf) && cf.depth >= 1
    ensures Valid(cf, s)
  {
    if |st| == 0 then Init(cf)
    else Update(cf, Run(cf, st[..|st| - 1]), st[|st| - 1].key, st[|st| - 1].val)
  }

  /** The fresh sketch answers zero for every key. */
  lemma {:induction false} QSumInit(cf: Config, x: FlowKey, n: nat)
    requires WellFormed(cf) && n <= cf.depth
    ensures QSum(cf, Init(cf), x, n) == 0
  {
    if n > 0 {
      QSumInit(cf, x, n - 1);
    }
  }

  lemma {:induction false} RunInv(cf: Config, st: seq<Item>)
    requires WellFormed(cf) && cf.depth >= 1 && NonNegative(st)
    ensures Inv(cf, Run(cf, st), st)
  {
    if |st| == 0 {
      forall x ensures Query(cf, Init(cf), x) <= Total(st, x) {
        QSumInit(cf, x, cf.depth);
      }
    } else {
      var pre := st[..|st| - 1];
      var it := st[|st| - 1];
      assert st == pre + [it];
      assert NonNegative(pre);
      RunInv(cf, pre);
      UpdateInv(cf, Run(cf, pre), pre, it.key, it.val);
    }
  }

  /** HashPipe never over-estimates: on a non-negative stream every key's
      query is at most its true total. */
  lemma QueryNeverOverestimates(cf: Config, st: seq<Item>, x: FlowKey)
    requires WellFormed(cf) && cf.depth >= 1 && NonNegative(st)
    ensures Query(cf, Run(cf, st), x) <= Total(st, x)
  {
    RunInv(cf, st);
  }

  /** The pipeline from stage `t` on leaves every earlier stage alone. */
  lemma {:induction false} PipeKeepsEarlier(cf: Config, s: Sketch, t: nat, ck: FlowKey, cv: int, asWritten: bool, t2: nat, j2: nat)
    requires WellFormed(cf) && Valid(cf, s) && t2 < t && t2 < cf.depth && j2 < cf.width
    ensures KeyAt(cf, Pipe(cf, s, t, ck, cv, asWritten), t2, j2) == KeyAt(cf, s, t2, j2)
    ensures ValAt(cf, Pipe(cf, s, t, ck, cv, asWritten), t2, j2) == ValAt(cf, s, t2, j2)
    decreases cf.depth - t
  {
    if t < cf.depth {
      var j := Idx(cf, t, ck);
      var k := KeyAt(cf, s, t, j);
      var v := ValAt(cf, s, t, j);
      if k == ck {
        AddAtEffect(cf, s, t, j, cv);
      } else if k == Empty(cf) {
        if asWritten {
          ClaimAsWrittenEffect(cf, s, t, j, ck, cv);
        } else {
          SetAtEffect(cf, s, t, j, ck, cv);
        }
      } else if v < cv {
        SetAtEffect(cf, s, t, j, ck, cv);
        PipeKeepsEarlier(cf, SetAt(cf, s, t, j, ck, cv), t + 1, k, v, asWritten, t2, j2);
      } else {
        PipeKeepsEarlier(cf, s, t + 1, ck, cv, asWritten, t2, j2);
      }
    }
  }

  /** After an update the key sits in its first-stage slot. Its value there
      is the old one plus `val` on a hit and `val` otherwise; except that in
      the as-written reading an empty CH first stage adds `val` to whatever
      its counter held. */
  lemma UpdateResident(cf: Config, s: Sketch, key: FlowKey, val: int, asWritten: bool)
    requires WellFormed(cf) && Valid(cf, s) && cf.depth >= 1
    ensures var j := Idx(cf, 0, key);
      var r := UpdateWith(cf, s, key, val, asWritten);
      && KeyAt(cf, r, 0, j) == key
      && ValAt(cf, r, 0, j) ==
        if KeyAt(cf, s, 0, j) == key then ValAt(cf, s, 0, j) + val
        else if KeyAt(cf, s, 0, j) == Empty(cf) && asWritten && Normal(cf) == 0 then ValAt(cf, s, 0, j) + val
        else val
  {
    var j := Idx(cf, 0, key);
    var k := KeyAt(cf, s, 0, j);
    var v := ValAt(cf, s, 0, j);
    if k == key {
      AddAtEffect(cf, s, 0, j, val);
    } else if k == Empty(cf) {
      if asWritten {
        ClaimAsWrittenEffect(cf, s, 0, j, key, val);
      } else {
        SetAtEffect(cf, s, 0, j, key, val);
      }
    } else {
      SetAtEffect(cf, s, 0, j, key, val);
      PipeKeepsEarlier(cf, SetAt(cf, s, 0, j, key, val), 1, k, v, asWritten, 0, j);
    }
  }

  /** On a hit in the first stage the key's query grows by exactly `val`
      and no other key's query moves. */
  lemma QueryAfterHit(cf: Config, s: Sketch, key: FlowKey, val: int, x: FlowKey)
    requires WellFormed(cf) && Valid(cf, s) && cf.depth >= 1
    requires KeyAt(cf, s, 0, Idx(cf, 0, key)) == key
    ensures Query(cf, Update(cf, s, key, val), x) == Query(cf, s, x) + (if x == key then val else 0)
  {
    HitStep(cf, s, 0, key, val, x);
  }

  /** The sketch after feeding `st` to a fresh one, the source's way. */
  function RunAsWritten(cf: Config, st: seq<Item>): (s: Sketch)
    requires WellFormed(cf) && cf.depth >= 1
    ensures Valid(cf, s)
  {
    if |st| == 0 then Init(cf)
    else UpdateAsWritten(cf, RunAsWritten(cf, st[..|st| - 1]), st[|st| - 1].key, st[|st| - 1].val)
  }

  /** A one-stage sketch answers with its only stage. */
  lemma QueryOneStage(cf: Config, s: Sketch, x: FlowKey)
    requires WellFormed(cf) && Valid(cf, s) && cf.depth == 1
    ensures Query(cf, s, x) == Own(cf, s, 0, x)
  {
    assert QSum(cf, s, x, 0) == 0;
  }

  /** The first of two updates on a single CH slot: the empty key merges
      into the empty slot under either reading. */
  lemma FirstOfTwo(cf: Config, z: FlowKey, v: int, asWritten: bool)
    requires WellFormed(cf) && cf.depth == 1 && cf.chDepth == 1 && cf.width == 1 && z == Empty(cf)
    ensures KeyAt(cf, UpdateWith(cf, Init(cf), z, v, asWritten), 0, 0) == z
    ensures ValAt(cf, UpdateWith(cf, Init(cf), z, v, asWritten), 0, 0) == v
  {
    UpdateResident(cf, Init(cf), z, v, asWritten);
  }

  /** The second: another key finds the slot holding the empty key. */
  lemma SecondOfTwo(cf: Config, s: Sketch, z: FlowKey, y: FlowKey, v: int, asWritten: bool)
    requires WellFormed(cf) && cf.depth == 1 && cf.chDepth == 1 && cf.width == 1 && z == Empty(cf) && y != z
    requires Valid(cf, s) && KeyAt(cf, s, 0, 0) == z
    ensures Query(cf, UpdateWith(cf, s, y, 1, asWritten), y) == if asWritten then ValAt(cf, s, 0, 0) + 1 else 1
  {
    UpdateResident(cf, s, y, 1, asWritten);
    QueryOneStage(cf, UpdateWith(cf, s, y, 1, asWritten), y);
  }

  /** The as-written claim over-estimates. On one CH stage of one slot,
      the empty key arrives with 5 and merges into the empty slot's
      counter; then another key `y` arrives once, finds the slot "empty"
      and adds 1 to the 5 already there, so it queries 6 against a true
      total of 1. The corrected claim answers 1. */
  lemma {:induction false} ClaimAsWrittenOverestimates(cf: Config, y: FlowKey)
    requires WellFormed(cf) && cf.depth == 1 && cf.chDepth == 1 && cf.width == 1 && y != Empty(cf)
    ensures var st := [Item(Empty(cf), 5), Item(y, 1)];
      && Total(st, y) == 1
      && Query(cf, RunAsWritten(cf, st), y) == 6
      && Query(cf, Run(cf, st), y) == 1
  {
    var z := Empty(cf);
    var st := [Item(z, 5), Item(y, 1)];
    var pre := st[..1];
    assert pre == [Item(z, 5)] && pre[..0] == [];
    assert Total(pre, y) == 0;
    assert |pre| == 1 && pre[0] == Item(z, 5);
    assert RunAsWritten(cf, pre[..0]) == Init(cf) && Run(cf, pre[..0]) == Init(cf);
    var a := RunAsWritten(cf, pre);
    var c := Run(cf, pre);
    assert a == UpdateAsWritten(cf, Init(cf), z, 5);
    assert c == Update(cf, Init(cf), z, 5);
    FirstOfTwo(cf, z, 5, true);
    FirstOfTwo(cf, z, 5, false);
    assert RunAsWritten(cf, st) == UpdateAsWritten(cf, a, y, 1);
    assert Run(cf, st) == Update(cf, c, y, 1);
    SecondOfTwo(cf, a, z, y, 1, true);
    SecondOfTwo(cf, c, z, y, 1, false);
  }

  /** The same with concrete one-byte keys: `[1]` after `[0]`. */
  lemma ClaimAsWrittenExample()
    ensures var cf := Config(1, 1, 1, 1, (t: nat, k: FlowKey) => 0);
      var st := [Item([0], 5), Item([1], 1)];
      Query(cf, RunAsWritten(cf, st), [1]) == 6 > Total(st, [1])
  {
    var cf := Config(1, 1, 1, 1, (t: nat, k: FlowKey) => 0);
    assert Empty(cf) == [0];
    ClaimAsWrittenOverestimates(cf, [1]);
  }

  /** After `clear()` every key queries zero. */
  lemma QueryAfterClear(cf: Config, s: Sketch, x: FlowKey)
    requires WellFormed(cf) && Valid(cf, s)
    ensures Query(cf, Clear(cf, s), x) == 0
  {
    var r := Clear(cf, s);
    assert r == Init(cf) by {
      assert r.slots == Init(cf).slots && r.keys == Init(cf).keys;
      assert r.ch == Init(cf).ch;
    }
    QSumInit(cf, x, cf.depth);
  }
}
