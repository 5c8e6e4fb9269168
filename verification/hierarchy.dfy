/** The counter hierarchy (CH) as its clients see it. The hierarchy itself
    (layered counters, decoding) is not part of this model: every sketch
    addresses layer-0 counters by index, adds to them (`updateCnt`), reads
    them back (`getCnt`, `getEstCnt`, `getOriginalCnt`), overwrites them
    (`resetCnt`) and zeroes them (`clear`). The model reads every counter back
    exactly, which is what the hierarchy promises once it is decoded without
    error. The layer sizes of the hierarchy are computed by each sketch's
    constructor and are modelled here once. */
module Hierarchy {
  import opened Common

  /** The layer-0 counters of a hierarchy. */
  datatype Store = Store(cnt: seq<int>)

  /** A hierarchy whose `n` layer-0 counters are all zero. */
  function Fresh(n: nat): (s: Store)
    ensures |s.cnt| == n
    ensures forall i :: 0 <= i < n ==> s.cnt[i] == 0
  {
    Store(seq(n, _ => 0))
  }

  /** `getCnt`, `getEstCnt` and `getOriginalCnt`: the value of counter `i`. */
  function GetCnt(s: Store, i: nat): int
    requires i < |s.cnt|
  {
    s.cnt[i]
  }

  /** `updateCnt(i, v)`: counter `i` grows by `v`, no other counter moves. */
  function UpdateCnt(s: Store, i: nat, v: int): (r: Store)
    requires i < |s.cnt|
    ensures |r.cnt| == |s.cnt|
    ensures GetCnt(r, i) == GetCnt(s, i) + v
    ensures forall j :: 0 <= j < |s.cnt| && j != i ==> r.cnt[j] == s.cnt[j]
  {
    Store(s.cnt[i := s.cnt[i] + v])
  }

  /** `resetCnt(i, v)`: counter `i` becomes `v`, no other counter moves. */
  function ResetCnt(s: Store, i: nat, v: int): (r: Store)
    requires i < |s.cnt|
    ensures |r.cnt| == |s.cnt|
    ensures GetCnt(r, i) == v
    ensures forall j :: 0 <= j < |s.cnt| && j != i ==> r.cnt[j] == s.cnt[j]
  {
    Store(s.cnt[i := v])
  }

  /** `clear()`: every counter back to zero. */
  function Clear(s: Store): (r: Store)
    ensures r == Fresh(|s.cnt|)
  {
    Store(seq(|s.cnt|, _ => 0))
  }

  /** The constructors accept a ratio of counters between adjacent layers only
      inside the open interval (0, 1) and throw `std::out_of_range` otherwise. */
  function CheckRatio(ratio: real): (r: Result<()>)
    ensures r.Ok? <==> 0.0 < ratio < 1.0
    ensures r.Err? ==> r.error == OutOfRange
  {
    if ratio <= 0.0 || ratio >= 1.0 then Err(OutOfRange) else Ok(())
  }

  /** The sizes of the `noLayer` layers: layer 0 has `n0` counters and layer
      `i` has `NextPrime(ceil(size(i - 1) * ratio))`. */
  function LayerSizes(n0: nat, ratio: real, noLayer: nat, np: nat -> nat): (r: seq<nat>)
    requires 0.0 <= ratio
    requires noLayer >= 1
    decreases noLayer
  {
    if noLayer == 1 then [n0]
    else
      var prev := LayerSizes(n0, ratio, noLayer - 1, np);
      prev + [NextLayer(prev[|prev| - 1], ratio, np)]
  }

  /** `NextPrime(std::ceil(last_layer * ratio))`. */
  function NextLayer(last: nat, ratio: real, np: nat -> nat): nat
    requires 0.0 <= ratio
  {
    np(Ceil(last as real * ratio))
  }

  /** Layer size `upper` holds at least `ratio` times the `lower` counters. */
  predicate AtLeastRatio(upper: nat, lower: nat, ratio: real)
  {
    upper as real >= lower as real * ratio
  }

  lemma NextLayerRatio(last: nat, ratio: real, np: nat -> nat)
    requires 0.0 <= ratio
    requires IsNextPrime(np)
    ensures AtLeastRatio(NextLayer(last, ratio, np), last, ratio)
  {
    var x := last as real * ratio;
    assert np(Ceil(x)) >= Ceil(x);
  }

  /** There is one size per layer, layer 0 has the requested size, and every
      layer holds at least `ratio` times as many counters as the one below it. */
  lemma {:induction false} LayerSizesShape(n0: nat, ratio: real, noLayer: nat, np: nat -> nat)
    requires 0.0 <= ratio
    requires noLayer >= 1
    requires IsNextPrime(np)
    ensures |LayerSizes(n0, ratio, noLayer, np)| == noLayer
    ensures LayerSizes(n0, ratio, noLayer, np)[0] == n0
    ensures forall i :: 1 <= i < noLayer ==>
      AtLeastRatio(LayerSizes(n0, ratio, noLayer, np)[i], LayerSizes(n0, ratio, noLayer, np)[i - 1], ratio)
  {
    if noLayer > 1 {
      LayerSizesShape(n0, ratio, noLayer - 1, np);
      var prev := LayerSizes(n0, ratio, noLayer - 1, np);
      var r := LayerSizes(n0, ratio, noLayer, np);
      assert r == prev + [NextLayer(prev[|prev| - 1], ratio, np)];
      NextLayerRatio(prev[|prev| - 1], ratio, np);
      forall i | 1 <= i < noLayer - 1
        ensures AtLeastRatio(r[i], r[i - 1], ratio)
      {
        assert r[i] == prev[i] && r[i - 1] == prev[i - 1];
      }
    }
  }
}
