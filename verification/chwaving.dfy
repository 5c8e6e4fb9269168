/** CHWavingSketch: the WavingSketch with its numbers moved into two counter
    hierarchies. `counterCH` holds the waving counter of every bucket and
    `heavyCH` holds the frequency of heavy slot `j` of bucket `i` at
    `getHeavyIdx(i, j) = i * heavy_part_length + j`; the buckets themselves
    keep only the keys and flags. */
module CHWaving {
  import opened Common
  import H = Hierarchy
  import W = Waving

  datatype Slot = Slot(key: FlowKey, flag: bool)

  datatype Sketch = Sketch(slots: seq<seq<Slot>>, counterCH: H.Store, heavyCH: H.Store)

  /** `getHeavyIdx(counterIdx, heavyIdx)`. */
  function HeavyIdx(cf: W.Config, i: nat, j: nat): (r: nat)
    requires i < cf.counterNum && j < cf.hpl
    ensures r < cf.counterNum * cf.hpl
  {
    RowMajorBound(i, j, cf.counterNum, cf.hpl);
    i * cf.hpl + j
  }

  /** Distinct (bucket, slot) pairs own distinct heavy counters. */
  lemma HeavyIdxInjective(cf: W.Config, i: nat, j: nat, i2: nat, j2: nat)
    requires i < cf.counterNum && j < cf.hpl && i2 < cf.counterNum && j2 < cf.hpl
    ensures HeavyIdx(cf, i, j) == HeavyIdx(cf, i2, j2) <==> i == i2 && j == j2
  {
    if HeavyIdx(cf, i, j) == HeavyIdx(cf, i2, j2) {
      RowMajorInjective(i, j, i2, j2, cf.hpl);
    }
  }

  /** Shapes agree with the configuration, and the heavy counter of every
      slot not yet in use is still zero (insertion adds to it). */
  predicate Valid(cf: W.Config, s: Sketch)
  {
    && |s.slots| == cf.counterNum
    && |s.counterCH.cnt| == cf.counterNum
    && |s.heavyCH.cnt| == cf.counterNum * cf.hpl
    && (forall i :: 0 <= i < cf.counterNum ==> |s.slots[i]| <= cf.hpl)
    && (forall i, j :: 0 <= i < cf.counterNum && |s.slots[i]| <= j < cf.hpl ==>
          H.GetCnt(s.heavyCH, HeavyIdx(cf, i, j)) == 0)
  }

  datatype Built = Built(cf: W.Config, s: Sketch, counterLayers: seq<nat>, heavyLayers: seq<nat>)

  /** The constructor: `counter_num = NextPrime(bucket_num)`; either ratio
      outside (0, 1) throws `std::out_of_range` (the counter ratio is checked
      first); layer 0 of `counterCH` has one counter per bucket and layer 0
      of `heavyCH` one per heavy slot, all zero. */
  function New(buckets: nat, hpl: nat, h: Hash, np: nat -> nat, counterRatio: real, heavyRatio: real, noLayer: nat)
    : (r: Result<Built>)
    requires noLayer >= 1 && IsNextPrime(np)
    ensures r.Ok? <==> 0.0 < counterRatio < 1.0 && 0.0 < heavyRatio < 1.0
    ensures r.Err? ==> r.error == OutOfRange
    ensures r.Ok? ==>
      && r.value.cf.counterNum >= buckets && r.value.cf.hpl == hpl && Valid(r.value.cf, r.value.s)
      && (forall i :: 0 <= i < r.value.cf.counterNum ==> r.value.s.slots[i] == [])
      && r.value.s.counterCH == H.Fresh(r.value.cf.counterNum)
      && r.value.s.heavyCH == H.Fresh(r.value.cf.counterNum * hpl)
      && |r.value.counterLayers| == noLayer && r.value.counterLayers[0] == r.value.cf.counterNum
      && |r.value.heavyLayers| == noLayer && r.value.heavyLayers[0] == hpl * r.value.cf.counterNum
  {
    var cf := W.Config(np(buckets), hpl, h);
    match H.CheckRatio(counterRatio)
    case Err(e) => Err(e)
    case Ok(_) =>
      match H.CheckRatio(heavyRatio)
      case Err(e) => Err(e)
      case Ok(_) =>
        H.LayerSizesShape(cf.counterNum, counterRatio, noLayer, np);
        H.LayerSizesShape(hpl * cf.counterNum, heavyRatio, noLayer, np);
        Ok(Built(cf, Init(cf),
          H.LayerSizes(cf.counterNum, counterRatio, noLayer, np),
          H.LayerSizes(hpl * cf.counterNum, heavyRatio, noLayer, np)))
  }

  /** Empty heavy parts over zero hierarchies. */
  function Init(cf: W.Config): (s: Sketch)
    ensures Valid(cf, s)
    ensures s.counterCH == H.Fresh(cf.counterNum) && s.heavyCH == H.Fresh(cf.counterNum * cf.hpl)
    ensures forall i :: 0 <= i < cf.counterNum ==> s.slots[i] == []
  {
    Sketch(seq(cf.counterNum, _ => []), H.Fresh(cf.counterNum), H.Fresh(cf.counterNum * cf.hpl))
  }

  /** The keys of a bucket's slots. */
  function SlotKeys(sl: seq<Slot>): (ks: seq<FlowKey>)
    ensures |ks| == |sl| && forall j :: 0 <= j < |sl| ==> ks[j] == sl[j].key
  {
    seq(|sl|, j requires 0 <= j < |sl| => sl[j].key)
  }

  /** The frequency of slot `j` of bucket `i`, read from `heavyCH`. */
  function Freq(cf: W.Config, s: Sketch, i: nat, j: nat): int
    requires Valid(cf, s) && i < cf.counterNum && j < cf.hpl
  {
    H.GetCnt(s.heavyCH, HeavyIdx(cf, i, j))
  }

  /** The frequencies `smallestID` scans: `getEstCnt` of the bucket's used slots. */
  function SlotFreqs(cf: W.Config, s: Sketch, i: nat): (fs: seq<int>)
    requires Valid(cf, s) && i < cf.counterNum
    ensures |fs| == |s.slots[i]| && forall j :: 0 <= j < |fs| ==> fs[j] == Freq(cf, s, i, j)
  {
    seq(|s.slots[i]|, j requires 0 <= j < |s.slots[i]| => Freq(cf, s, i, j))
  }

  /** `update(key, val)`, written against the two hierarchies as the source
      does: `updateCnt` for the hit, the insertion and the waving counter,
      `resetCnt` for the slot taken over. */
  function Update(cf: W.Config, s: Sketch, key: FlowKey, val: int): (r: Sketch)
    requires W.WellFormed(cf) && Valid(cf, s)
    ensures |r.slots| == cf.counterNum
    ensures forall j :: 0 <= j < cf.counterNum && j != W.Index(cf, key) ==> r.slots[j] == s.slots[j]
  {
    var i := W.Index(cf, key);
    var sl := s.slots[i];
    var id := W.FindID(SlotKeys(sl), key);
    if id != -1 then
      var heavy := H.UpdateCnt(s.heavyCH, HeavyIdx(cf, i, id), val);
      var counter := if sl[id].flag then s.counterCH else H.UpdateCnt(s.counterCH, i, W.Sign(cf, key));
      Sketch(s.slots, counter, heavy)
    else if |sl| < cf.hpl then
      Sketch(s.slots[i := sl + [Slot(key, true)]], s.counterCH, H.UpdateCnt(s.heavyCH, HeavyIdx(cf, i, |sl|), val))
    else
      var sei := W.Sign(cf, key);
      var fi := sei * H.GetCnt(s.counterCH, i);
      var c1 := H.UpdateCnt(s.counterCH, i, sei);
      var r := W.SmallestID(SlotFreqs(cf, s, i));
      var fr := Freq(cf, s, i, r);
      if fr <= fi then
        var c2 := if sl[r].flag then H.UpdateCnt(c1, i, fr * W.Sign(cf, sl[r].key)) else c1;
        Sketch(s.slots[i := sl[r := Slot(key, false)]], c2, H.ResetCnt(s.heavyCH, HeavyIdx(cf, i, r), fi + 1))
      else Sketch(s.slots, c1, s.heavyCH)
  }

  /** `query(key)`: `getCnt` of the key's flagged slot, else the waving
      counter times the key's sign. Read through the view, it is Waving's
      `query`. */
  function Query(cf: W.Config, s: Sketch, key: FlowKey): (q: int)
    requires W.WellFormed(cf) && Valid(cf, s)
    ensures q == W.Query(cf, View(cf, s), key)
  {
    ViewKeys(cf, s, W.Index(cf, key));
    var i := W.Index(cf, key);
    var id := W.FindID(SlotKeys(s.slots[i]), key);
    if id == -1 || !s.slots[i][id].flag then W.Sign(cf, key) * H.GetCnt(s.counterCH, i)
    else Freq(cf, s, i, id)
  }

  // ---------------------------------------------------------------------------
  // Refinement of WavingSketch

  /** Bucket `i` as the plain WavingSketch would hold it. */
  function BucketView(cf: W.Config, s: Sketch, i: nat): (b: W.Bucket)
    requires Valid(cf, s) && i < cf.counterNum
    ensures b.counter == H.GetCnt(s.counterCH, i) && |b.heavy| == |s.slots[i]|
    ensures forall j :: 0 <= j < |b.heavy| ==>
      b.heavy[j] == W.Entry(Freq(cf, s, i, j), s.slots[i][j].key, s.slots[i][j].flag)
  {
    W.Bucket(H.GetCnt(s.counterCH, i),
      seq(|s.slots[i]|, j requires 0 <= j < |s.slots[i]| => W.Entry(Freq(cf, s, i, j), s.slots[i][j].key, s.slots[i][j].flag)))
  }

  /** The plain WavingSketch this sketch stands for. */
  function View(cf: W.Config, s: Sketch): (v: W.Sketch)
    requires Valid(cf, s)
    ensures W.Valid(cf, v)
    ensures forall i :: 0 <= i < cf.counterNum ==> v.buckets[i] == BucketView(cf, s, i)
  {
    W.Sketch(seq(cf.counterNum, i requires 0 <= i < cf.counterNum => BucketView(cf, s, i)))
  }

  lemma ViewKeys(cf: W.Config, s: Sketch, i: nat)
    requires Valid(cf, s) && i < cf.counterNum
    ensures W.Keys(BucketView(cf, s, i).heavy) == SlotKeys(s.slots[i])
    ensures W.Freqs(BucketView(cf, s, i).heavy) == SlotFreqs(cf, s, i)
  {
  }

  /** Two buckets that agree on the counter and on every entry are equal. */
  lemma BucketExtensional(a: W.Bucket, b: W.Bucket)
    requires a.counter == b.counter && |a.heavy| == |b.heavy|
    requires forall j :: 0 <= j < |a.heavy| ==> a.heavy[j] == b.heavy[j]
    ensures a == b
  {
  }

  /** The update keeps the sketch valid and leaves every other bucket's view alone. */
  lemma UpdateOthers(cf: W.Config, s: Sketch, key: FlowKey, val: int, i: nat)
    requires W.WellFormed(cf) && Valid(cf, s)
    requires i < cf.counterNum && i != W.Index(cf, key)
    ensures Valid(cf, Update(cf, s, key, val))
    ensures BucketView(cf, Update(cf, s, key, val), i) == BucketView(cf, s, i)
  {
    var k := W.Index(cf, key);
    var r := Update(cf, s, key, val);
    UpdateValid(cf, s, key, val);
    forall j | 0 <= j < cf.hpl
      ensures H.GetCnt(r.heavyCH, HeavyIdx(cf, i, j)) == H.GetCnt(s.heavyCH, HeavyIdx(cf, i, j))
    {
      forall j2 | 0 <= j2 < cf.hpl
        ensures HeavyIdx(cf, i, j) != HeavyIdx(cf, k, j2)
      {
        HeavyIdxInjective(cf, i, j, k, j2);
      }
    }
    BucketExtensional(BucketView(cf, r, i), BucketView(cf, s, i));
  }

  lemma UpdateValid(cf: W.Config, s: Sketch, key: FlowKey, val: int)
    requires W.WellFormed(cf) && Valid(cf, s)
    ensures Valid(cf, Update(cf, s, key, val))
  {
    var k := W.Index(cf, key);
    var r := Update(cf, s, key, val);
    var sl := s.slots[k];
    var id := W.FindID(SlotKeys(sl), key);
    forall i, j | 0 <= i < cf.counterNum && |r.slots[i]| <= j < cf.hpl
      ensures H.GetCnt(r.heavyCH, HeavyIdx(cf, i, j)) == 0
    {
      if id != -1 {
        HeavyIdxInjective(cf, i, j, k, id);
      } else if |sl| < cf.hpl {
        HeavyIdxInjective(cf, i, j, k, |sl|);
      } else {
        HeavyIdxInjective(cf, i, j, k, W.SmallestID(SlotFreqs(cf, s, k)));
      }
    }
  }

  /** The updated bucket's view is the plain update of its view. */
  lemma UpdateBucketView(cf: W.Config, s: Sketch, key: FlowKey, val: int)
    requires W.WellFormed(cf) && Valid(cf, s)
    ensures Valid(cf, Update(cf, s, key, val))
    ensures BucketView(cf, Update(cf, s, key, val), W.Index(cf, key))
         == W.BucketUpdate(cf, BucketView(cf, s, W.Index(cf, key)), key, val)
  {
    var k := W.Index(cf, key);
    var r := Update(cf, s, key, val);
    UpdateValid(cf, s, key, val);
    var b := BucketView(cf, s, k);
    ViewKeys(cf, s, k);
    var sl := s.slots[k];
    var id := W.FindID(SlotKeys(sl), key);
    var want := W.BucketUpdate(cf, b, key, val);
    var got := BucketView(cf, r, k);
    if id != -1 {
      forall j | 0 <= j < |sl|
        ensures got.heavy[j] == want.heavy[j]
      {
        HeavyIdxInjective(cf, k, j, k, id);
      }
    } else if |sl| < cf.hpl {
      forall j | 0 <= j < |sl| + 1
        ensures got.heavy[j] == want.heavy[j]
      {
        HeavyIdxInjective(cf, k, j, k, |sl|);
      }
    } else {
      var rr := W.SmallestID(SlotFreqs(cf, s, k));
      forall j | 0 <= j < |sl|
        ensures got.heavy[j] == want.heavy[j]
      {
        HeavyIdxInjective(cf, k, j, k, rr);
      }
    }
    BucketExtensional(got, want);
  }

  /** `View(update(s)) == update(View(s))`: the hierarchies change nothing
      about what the sketch computes. */
  lemma UpdateView(cf: W.Config, s: Sketch, key: FlowKey, val: int)
    requires W.WellFormed(cf) && Valid(cf, s)
    ensures Valid(cf, Update(cf, s, key, val))
    ensures View(cf, Update(cf, s, key, val)) == W.Update(cf, View(cf, s), key, val)
  {
    var r := Update(cf, s, key, val);
    UpdateBucketView(cf, s, key, val);
    forall i | 0 <= i < cf.counterNum && i != W.Index(cf, key)
      ensures BucketView(cf, r, i) == BucketView(cf, s, i)
    {
      UpdateOthers(cf, s, key, val, i);
    }
    assert View(cf, r).buckets == W.Update(cf, View(cf, s), key, val).buckets;
  }

  /** `getHeavyHitter(threshold)`: the scan reads every used slot's `getCnt`,
      which is the view's entry, so it is the plain report on the view; each
      reported key carries the heavy-store count of one of its slots. */
  function HeavyHitters(cf: W.Config, s: Sketch, thr: real): (m: map<FlowKey, int>)
    requires Valid(cf, s)
    ensures forall k :: k in m <==> exists i, j ::
      0 <= i < cf.counterNum && 0 <= j < |s.slots[i]| && s.slots[i][j].key == k && Freq(cf, s, i, j) as real >= thr
    ensures forall k :: k in m ==> exists i, j ::
      0 <= i < cf.counterNum && 0 <= j < |s.slots[i]| && s.slots[i][j].key == k && m[k] == Freq(cf, s, i, j) && Freq(cf, s, i, j) as real >= thr
  {
    var v := View(cf, s);
    var m := W.HeavyHitters(cf, v, thr);
    forall k | k in m
      ensures exists i, j :: 0 <= i < cf.counterNum && 0 <= j < |s.slots[i]| && s.slots[i][j].key == k && m[k] == Freq(cf, s, i, j) && Freq(cf, s, i, j) as real >= thr
    {
      var i, e :| 0 <= i < cf.counterNum && e in v.buckets[i].heavy && e.key == k && e.freq == m[k] && e.freq as real >= thr;
      var j :| 0 <= j < |v.buckets[i].heavy| && v.buckets[i].heavy[j] == e;
    }
    forall k | exists i, j :: 0 <= i < cf.counterNum && 0 <= j < |s.slots[i]| && s.slots[i][j].key == k && Freq(cf, s, i, j) as real >= thr
      ensures k in m
    {
      var i, j :| 0 <= i < cf.counterNum && 0 <= j < |s.slots[i]| && s.slots[i][j].key == k && Freq(cf, s, i, j) as real >= thr;
      assert v.buckets[i].heavy[j] in v.buckets[i].heavy;
    }
    m
  }

  // ---------------------------------------------------------------------------
  // Streams

  function Run(cf: W.Config, st: seq<Item>): (s: Sketch)
    requires W.WellFormed(cf)
    ensures Valid(cf, s)
  {
    if |st| == 0 then Init(cf)
    else
      var pre := Run(cf, st[..|st| - 1]);
      UpdateValid(cf, pre, st[|st| - 1].key, st[|st| - 1].val);
      Update(cf, pre, st[|st| - 1].key, st[|st| - 1].val)
  }

  /** After any stream the sketch stands for the plain WavingSketch fed the same stream. */
  lemma {:induction false} RunView(cf: W.Config, st: seq<Item>)
    requires W.WellFormed(cf)
    ensures View(cf, Run(cf, st)) == W.Run(cf, st)
  {
    if |st| == 0 {
      var v := View(cf, Init(cf));
      forall i | 0 <= i < cf.counterNum
        ensures v.buckets[i] == W.Bucket(0, [])
      {
      }
      assert v.buckets == W.Run(cf, st).buckets;
    } else {
      RunView(cf, st[..|st| - 1]);
      UpdateView(cf, Run(cf, st[..|st| - 1]), st[|st| - 1].key, st[|st| - 1].val);
    }
  }

  /** A flow holding a flagged slot is answered with its exact total. */
  lemma FlaggedQueryExact(cf: W.Config, st: seq<Item>, x: FlowKey)
    requires W.WellFormed(cf)
    requires var s := Run(cf, st); var i := W.Index(cf, x);
      W.FindID(SlotKeys(s.slots[i]), x) != -1 && s.slots[i][W.FindID(SlotKeys(s.slots[i]), x)].flag
    ensures Query(cf, Run(cf, st), x) == Total(st, x)
  {
    var s := Run(cf, st);
    RunView(cf, st);
    ViewKeys(cf, s, W.Index(cf, x));
    W.FlaggedQueryExact(cf, st, x);
  }

  /** While a bucket has a free slot, every flow hashed to it is answered exactly. */
  lemma RoomyBucketExact(cf: W.Config, st: seq<Item>, x: FlowKey)
    requires W.WellFormed(cf)
    requires |Run(cf, st).slots[W.Index(cf, x)]| < cf.hpl
    ensures Query(cf, Run(cf, st), x) == Total(st, x)
  {
    var s := Run(cf, st);
    RunView(cf, st);
    W.RoomyBucketExact(cf, st, x);
  }
}
