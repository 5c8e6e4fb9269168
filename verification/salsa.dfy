/** The counter rows shared by the SALSA Count-Min and SALSA CU sketches.
    A row is `width` one-byte counters plus a bitmap of merge flags: flag
    `p` set means byte `p` and byte `p + 1` belong to one counter. A counter
    is a maximal run of joined bytes and holds a big-endian number. A counter
    whose new value no longer fits its bytes merges with a neighbouring
    counter (right when its left end is 0 or has the larger power of two,
    left otherwise), and the merged counter takes the larger of the two
    values. */
module Salsa {
  import opened Common
  import opened FlowKeys

  /** `maxCounterLen = sizeof(T) / sizeof(uint8_t)` for the 32-bit counter type. */
  const MaxCounterLen: nat := 4

  /** `counter[rowIdx]`, and the merge flags `bitMap[rowIdx]` packs one per
      bit (`Pack` below relates the two). */
  datatype Row = Row(counter: seq<int>, flags: seq<bool>)

  /** The shape the constructor allocates: `width` bytes and a flag for each;
      every counter byte is a `uint8_t`. */
  predicate RowOk(width: nat, r: Row)
  {
    && |r.counter| == width
    && |r.flags| == width
    && forall p :: 0 <= p < width ==> 0 <= r.counter[p] < 256
  }

  /** `width * NextPrime(width_ / maxCounterLen)` rounded to whole counters. */
  function Width(requested: nat, np: nat -> nat): (w: nat)
    ensures w % MaxCounterLen == 0
  {
    MaxCounterLen * np(requested / MaxCounterLen)
  }

  /** A row of zero bytes and clear flags: the constructor's and `clear()`'s row. */
  function ZeroRow(width: nat): (r: Row)
    ensures RowOk(width, r)
    ensures forall p :: 0 <= p < width ==> r.counter[p] == 0 && !r.flags[p]
  {
    Row(seq(width, _ => 0), seq(width, _ => false))
  }

  // ---------------------------------------------------------------------------
  // The packed bitmap

  /** The first `n` flags packed into `(|fl| + 7) / 8` bytes, bit `q % 8` of
      byte `q / 8` holding flag `q`; later bits are clear. */
  function PackPrefix(fl: seq<bool>, n: nat): (bm: seq<bv8>)
    requires n <= |fl|
    ensures |bm| == (|fl| + 7) / 8
    ensures forall q :: 0 <= q < 8 * |bm| ==> GetBit(bm, q) == (q < n && fl[q])
  {
    if n == 0 then ZeroKey((|fl| + 7) / 8)
    else SetBit(PackPrefix(fl, n - 1), n - 1, fl[n - 1])
  }

  /** `bitMap[rowIdx]`: the row's flags as the constructor lays them out. */
  function Pack(fl: seq<bool>): (bm: seq<bv8>)
    ensures |bm| == (|fl| + 7) / 8
    ensures forall q :: 0 <= q < |fl| ==> GetBit(bm, q) == fl[q]
    ensures forall q :: |fl| <= q < 8 * |bm| ==> !GetBit(bm, q)
  {
    PackPrefix(fl, |fl|)
  }

  /** `getFlagBit(rowIdx, idx)` reads flag `idx` out of the packed bitmap. */
  lemma GetFlagBitPacked(fl: seq<bool>, idx: nat)
    requires idx < |fl|
    ensures idx < 8 * |Pack(fl)| && GetBit(Pack(fl), idx) == Flag(fl, idx)
  {
  }

  /** `setFlagBit(rowIdx, idx)` on the packed bitmap is `SetFlag` on the flags. */
  lemma SetFlagBitPacked(fl: seq<bool>, idx: nat)
    requires idx < |fl|
    ensures idx < 8 * |Pack(fl)|
    ensures SetBit(Pack(fl), idx, true) == Pack(SetFlag(fl, idx))
  {
    KeyExtensional(SetBit(Pack(fl), idx, true), Pack(SetFlag(fl, idx)));
  }

  /** The constructor's and `clear()`'s zero-filled bitmap holds no flag. */
  lemma ZeroBitmapPacked(width: nat)
    ensures Pack(ZeroRow(width).flags) == ZeroKey((width + 7) / 8)
  {
    KeyExtensional(Pack(ZeroRow(width).flags), ZeroKey((width + 7) / 8));
  }

  // ---------------------------------------------------------------------------
  // Flags and counter boundaries

  /** `getFlagBit(rowIdx, idx)`: byte `idx` is joined to byte `idx + 1`. */
  predicate Flag(fl: seq<bool>, idx: nat)
    requires idx < |fl|
  {
    fl[idx]
  }

  /** `setFlagBit(rowIdx, idx)`: join byte `idx` with byte `idx + 1`. */
  function SetFlag(fl: seq<bool>, idx: nat): (fl': seq<bool>)
    requires idx < |fl|
    ensures |fl'| == |fl|
    ensures Flag(fl', idx)
    ensures forall q :: 0 <= q < |fl| && q != idx ==> Flag(fl', q) == Flag(fl, q)
  {
    fl[idx := true]
  }

  /** The bitmap covers every byte of a row. */
  lemma BitmapCovers(width: nat, r: Row)
    requires RowOk(width, r)
    ensures width <= |r.flags|
  {
  }

  /** The first loop of `getBoundary`: walk left while the byte to the left is joined. */
  function LeftEnd(fl: seq<bool>, idx: nat): (l: nat)
    requires idx < |fl|
    ensures l <= idx
    ensures l == 0 || !Flag(fl, l - 1)
    ensures forall q :: l <= q < idx ==> Flag(fl, q)
    decreases idx
  {
    if idx >= 1 && Flag(fl, idx - 1) then LeftEnd(fl, idx - 1) else idx
  }

  /** The second loop of `getBoundary`: walk right while this byte is joined
      to the next, stopping at the last byte of the row. */
  function RightEnd(fl: seq<bool>, width: nat, idx: nat): (e: nat)
    requires idx < width <= |fl|
    ensures idx <= e < width
    ensures e == width - 1 || !Flag(fl, e)
    ensures forall q :: idx <= q < e ==> Flag(fl, q)
    decreases width - idx
  {
    if idx < width - 1 && Flag(fl, idx) then RightEnd(fl, width, idx + 1) else idx
  }

  /** `[a, b]` is a whole counter: joined inside, not joined to either neighbour. */
  predicate IsRun(fl: seq<bool>, width: nat, a: nat, b: nat)
    requires a <= b < width <= |fl|
  {
    && (a == 0 || !Flag(fl, a - 1))
    && (b == width - 1 || !Flag(fl, b))
    && forall q :: a <= q < b ==> Flag(fl, q)
  }

  /** `getBoundary` finds exactly the run a byte lies in. */
  lemma BoundaryOfRun(fl: seq<bool>, width: nat, a: nat, b: nat, p: nat)
    requires a <= p <= b < width <= |fl|
    requires IsRun(fl, width, a, b)
    ensures LeftEnd(fl, p) == a && RightEnd(fl, width, p) == b
  {
  }

  /** The boundaries `getBoundary` returns always form a run. */
  lemma BoundaryIsRun(fl: seq<bool>, width: nat, p: nat)
    requires p < width <= |fl|
    ensures IsRun(fl, width, LeftEnd(fl, p), RightEnd(fl, width, p))
  {
  }

  // ---------------------------------------------------------------------------
  // Counter values

  /** `getCounterVal(rowIdx, left, right)`: the bytes `left..right` read as a
      big-endian number; `n` one-byte digits read a number in `[0, 256^n)`. */
  function GetCounterVal(c: seq<int>, left: nat, right: nat): (v: int)
    requires left <= right < |c|
    ensures (forall p :: left <= p <= right ==> 0 <= c[p] < 256) ==> 0 <= v < Pow(256, right - left + 1)
    decreases right - left
  {
    if right == left then c[left]
    else
      var g := GetCounterVal(c, left, right - 1);
      var p := Pow(256, right - left);
      if 0 <= g < p then MulLeq(g, p - 1, 256); g * 256 + c[right]
      else g * 256 + c[right]
  }

  /** `setCounterVal(rowIdx, left, right, val)`: write `val % 256` into the
      last byte, shift `val` right by eight bits, and continue leftwards. On
      a negative value both steps agree with Euclidean `%` and `/` by 256. */
  function SetCounterVal(c: seq<int>, left: nat, right: nat, val: int): (c': seq<int>)
    requires left <= right < |c|
    ensures |c'| == |c|
    ensures forall p :: 0 <= p < |c| && (p < left || right < p) ==> c'[p] == c[p]
    ensures forall p :: left <= p <= right ==> 0 <= c'[p] < 256
    decreases right - left
  {
    if right == left then c[left := val % 256]
    else SetCounterVal(c[right := val % 256], left, right - 1, val / 256)
  }

  /** The value of a counter depends on its own bytes only. */
  lemma {:induction false} GetFrame(c: seq<int>, c': seq<int>, left: nat, right: nat)
    requires left <= right < |c| && right < |c'|
    requires forall p :: left <= p <= right ==> c[p] == c'[p]
    ensures GetCounterVal(c, left, right) == GetCounterVal(c', left, right)
    decreases right - left
  {
    if right > left {
      GetFrame(c, c', left, right - 1);
    }
  }


  /** Euclidean remainders split digit by digit. */
  lemma ModSplit(v: int, p: nat)
    requires p > 0
    ensures (v / 256 % p) * 256 + v % 256 == v % (256 * p)
  {
    var q := v / 256;
    var r0 := v % 256;
    var q2 := q / p;
    var r1 := q % p;
    assert v == 256 * (p * q2) + (256 * r1 + r0);
    assert 256 * (p * q2) == (256 * p) * q2;
    MulLeq(r1, p - 1, 256);
    ModUnique(v, 256 * p, q2, 256 * r1 + r0);
  }

  /** Reading back what `setCounterVal` wrote gives the value modulo the
      counter's range; a value that fits comes back exactly. */
  lemma {:induction false} GetSetCounterVal(c: seq<int>, left: nat, right: nat, val: int)
    requires left <= right < |c|
    ensures GetCounterVal(SetCounterVal(c, left, right, val), left, right) == val % Pow(256, right - left + 1)
    decreases right - left
  {
    if right > left {
      var c1 := c[right := val % 256];
      var c' := SetCounterVal(c1, left, right - 1, val / 256);
      GetSetCounterVal(c1, left, right - 1, val / 256);
      assert c'[right] == val % 256;
      ModSplit(val, Pow(256, right - left));
    }
  }

  /** The value of the counter byte `p` belongs to. */
  function Value(r: Row, width: nat, p: nat): (v: int)
    requires RowOk(width, r) && p < width
    ensures 0 <= v < Pow(256, Len(r, width, p))
  {
    GetCounterVal(r.counter, LeftEnd(r.flags, p), RightEnd(r.flags, width, p))
  }

  /** The number of bytes of the counter byte `p` belongs to. */
  function Len(r: Row, width: nat, p: nat): nat
    requires RowOk(width, r) && p < width
  {
    RightEnd(r.flags, width, p) - LeftEnd(r.flags, p) + 1
  }

  /** `x & (-x)` on a non-negative two's-complement integer: the largest
      power of two dividing `x`, and 0 for 0. */
  function LowBit(x: nat): nat
  {
    if x == 0 then 0 else if x % 2 == 1 then 1 else 2 * LowBit(x / 2)
  }

  /** `mergeCounter(rowIdx, left, right, val)` on the counter `[left, right]`:
      join it with the counter to its right when `left` is 0 or has the
      larger power of two, with the one to its left otherwise, and write the
      larger of `val` and the neighbour's value into the joined counter. A
      counter that ends the row has no right neighbour in it. The source's
      `getBoundary(rowIdx, width)` then returns the one byte `[width, width]`,
      and since all rows are one block, on every row but the last that byte
      is byte 0 of the next row: the merge reads it, flags the row's last
      byte and overwrites it. On the last row it is past the allocation. The
      model reports `OutOfRange` instead of reproducing either. */
  function MergeCounter(r: Row, width: nat, left: nat, right: nat, val: int): (res: Result<Row>)
    requires RowOk(width, r) && left <= right < width
    requires IsRun(r.flags, width, left, right)
    ensures res.Ok? ==> RowOk(width, res.value)
    ensures res.Err? <==> (left == 0 || LowBit(left) > LowBit(right + 1)) && right + 1 == width
    ensures res.Err? ==> res.error == OutOfRange
  {
    BitmapCovers(width, r);
    if left == 0 || LowBit(left) > LowBit(right + 1) then
      if right + 1 == width then Err(OutOfRange)
      else
        var nr := RightEnd(r.flags, width, right + 1);
        var nv := Max(val, GetCounterVal(r.counter, right + 1, nr));
        Ok(Row(SetCounterVal(r.counter, left, nr, nv), SetFlag(r.flags, right)))
    else
      var nl := LeftEnd(r.flags, left - 1);
      var nv := Max(val, GetCounterVal(r.counter, nl, left - 1));
      Ok(Row(SetCounterVal(r.counter, nl, right, nv), SetFlag(r.flags, left - 1)))
  }

  /** Write `val` into the counter of byte `idx`: in place when it fits the
      counter's bytes, by a merge otherwise. This is the body of the CM
      sketch's `updateCounter` and the CU sketch's `changeCounterVal` once
      each has computed the new value. The fit test `val < 1 << (len << 3)`
      is read as `val < 256^len`. */
  function WriteCounter(r: Row, width: nat, idx: nat, val: int): (res: Result<Row>)
    requires RowOk(width, r) && idx < width
    ensures res.Ok? ==> RowOk(width, res.value)
    ensures res.Err? ==> res.error == OutOfRange
  {
    BitmapCovers(width, r);
    var left := LeftEnd(r.flags, idx);
    var right := RightEnd(r.flags, width, idx);
    if val < Pow(256, right - left + 1) then Ok(Row(SetCounterVal(r.counter, left, right, val), r.flags))
    else
      BoundaryIsRun(r.flags, width, idx);
      MergeCounter(r, width, left, right, val)
  }

  /** Writing `nv` into `[a, b]` with a bitmap that makes `[a, b]` one counter
      and agrees with the old bitmap outside it: every byte of `[a, b]` reads
      `nv` and every other byte reads what it read before. */
  lemma Rewrite(width: nat, r: Row, fl: seq<bool>, a: nat, b: nat, nv: int)
    requires RowOk(width, r) && a <= b < width && |fl| == |r.flags|
    requires IsRun(fl, width, a, b)
    requires forall q :: 0 <= q < |fl| && (q < a || b <= q) ==> Flag(fl, q) == Flag(r.flags, q)
    requires 0 <= nv < Pow(256, b - a + 1)
    ensures RowOk(width, Row(SetCounterVal(r.counter, a, b, nv), fl))
    ensures forall p :: a <= p <= b ==> Value(Row(SetCounterVal(r.counter, a, b, nv), fl), width, p) == nv
    ensures forall p :: 0 <= p < width && (p < a || b < p) ==>
      Value(Row(SetCounterVal(r.counter, a, b, nv), fl), width, p) == Value(r, width, p)
  {
    var r' := Row(SetCounterVal(r.counter, a, b, nv), fl);
    GetSetCounterVal(r.counter, a, b, nv);
    ModUnique(nv, Pow(256, b - a + 1), 0, nv);
    forall p | a <= p <= b
      ensures Value(r', width, p) == nv
    {
      BoundaryOfRun(r'.flags, width, a, b, p);
    }
    forall p | 0 <= p < width && (p < a || b < p)
      ensures Value(r', width, p) == Value(r, width, p)
    {
      RewriteOutside(width, r, r', a, b, p);
    }
  }

  /** One byte outside the rewritten counter keeps its value. */
  lemma RewriteOutside(width: nat, r: Row, r': Row, a: nat, b: nat, p: nat)
    requires RowOk(width, r) && RowOk(width, r') && a <= b < width && |r'.flags| == |r.flags|
    requires IsRun(r'.flags, width, a, b)
    requires forall q :: 0 <= q < |r'.flags| && (q < a || b <= q) ==> Flag(r'.flags, q) == Flag(r.flags, q)
    requires forall k :: 0 <= k < width && (k < a || b < k) ==> r'.counter[k] == r.counter[k]
    requires p < width && (p < a || b < p)
    ensures Value(r', width, p) == Value(r, width, p)
  {
    BitmapCovers(width, r);
    var pa := LeftEnd(r.flags, p);
    var pb := RightEnd(r.flags, width, p);
    BoundaryIsRun(r.flags, width, p);
    assert a == 0 || !Flag(r.flags, a - 1);
    assert b == width - 1 || !Flag(r.flags, b);
    assert pb < a || b < pa;
    BoundaryOfRun(r'.flags, width, pa, pb, p);
    GetFrame(r.counter, r'.counter, pa, pb);
  }

  /** After writing `val` through the counter `[l, e]`: the row is still
      well formed, every byte of `[l, e]` reads at least `val`, and no byte
      of the row reads less than before. */
  ghost predicate Grown(width: nat, r: Row, r': Row, l: nat, e: nat, val: int)
  {
    && RowOk(width, r) && RowOk(width, r') && l <= e < width
    && (forall p :: l <= p <= e ==> Value(r', width, p) >= val)
    && (forall p :: 0 <= p < width ==> Value(r', width, p) >= Value(r, width, p))
  }

  /** A value that fits its counter's bytes is written without a merge. */
  lemma WriteFits(r: Row, width: nat, idx: nat, val: int)
    requires RowOk(width, r) && idx < width
    requires val < Pow(256, Len(r, width, idx))
    ensures WriteCounter(r, width, idx, val)
      == Ok(Row(SetCounterVal(r.counter, LeftEnd(r.flags, idx), RightEnd(r.flags, width, idx), val), r.flags))
  {
  }

  /** A value that fits is written in place: its own counter reads exactly
      `val` and every other counter keeps its value. */
  lemma WriteInPlace(r: Row, width: nat, idx: nat, val: int)
    requires RowOk(width, r) && idx < width
    requires 0 <= val < Pow(256, Len(r, width, idx))
    ensures WriteCounter(r, width, idx, val).Ok?
    ensures RowOk(width, WriteCounter(r, width, idx, val).value)
    ensures Value(WriteCounter(r, width, idx, val).value, width, idx) == val
    ensures forall p :: 0 <= p < width && (p < LeftEnd(r.flags, idx) || RightEnd(r.flags, width, idx) < p) ==>
      Value(WriteCounter(r, width, idx, val).value, width, p) == Value(r, width, p)
  {
    var l := LeftEnd(r.flags, idx);
    var e := RightEnd(r.flags, width, idx);
    BoundaryIsRun(r.flags, width, idx);
    WriteFits(r, width, idx, val);
    Rewrite(width, r, r.flags, l, e, val);
  }

  /** Setting the flag between two adjacent counters joins them into one. */
  lemma JoinRuns(fl: seq<bool>, width: nat, a: nat, m: nat, b: nat)
    requires a <= m < b < width <= |fl|
    requires IsRun(fl, width, a, m) && IsRun(fl, width, m + 1, b)
    ensures IsRun(SetFlag(fl, m), width, a, b)
  {
    var fl1 := SetFlag(fl, m);
    forall q | a <= q < b
      ensures Flag(fl1, q)
    {
      if q != m {
        assert Flag(fl, q);
      }
    }
  }

  /** A value at most one byte beyond its `k1`-byte counter, and a
      neighbour's value, both fit a joined counter of `k` bytes. */
  lemma FitsJoined(val: int, nbv: int, k1: nat, k2: nat, k: nat)
    requires 1 <= k1 && 1 <= k2 && k1 + k2 == k
    requires 0 <= val < Pow(256, k1) + 256 && 0 <= nbv < Pow(256, k2)
    ensures 0 <= Max(val, nbv) < Pow(256, k)
  {
    PowMono(256, 1, k1);
    assert val < Pow(256, k1 + 1);
    PowMono(256, k1 + 1, k);
    PowMono(256, k2, k);
  }

  /** Joining the adjacent counters `[a, m]` and `[m + 1, b]` and writing a
      value at least both of theirs: the joined counter reads that value and
      no byte of the row reads less than before. */
  lemma JoinGrows(width: nat, r: Row, a: nat, m: nat, b: nat, nv: int)
    requires RowOk(width, r) && a <= m < b < width
    requires IsRun(r.flags, width, a, m) && IsRun(r.flags, width, m + 1, b)
    requires 0 <= nv < Pow(256, b - a + 1)
    requires GetCounterVal(r.counter, a, m) <= nv && GetCounterVal(r.counter, m + 1, b) <= nv
    ensures RowOk(width, Row(SetCounterVal(r.counter, a, b, nv), SetFlag(r.flags, m)))
    ensures forall p :: a <= p <= b ==> Value(Row(SetCounterVal(r.counter, a, b, nv), SetFlag(r.flags, m)), width, p) == nv
    ensures forall p :: 0 <= p < width ==>
      Value(Row(SetCounterVal(r.counter, a, b, nv), SetFlag(r.flags, m)), width, p) >= Value(r, width, p)
  {
    BitmapCovers(width, r);
    JoinRuns(r.flags, width, a, m, b);
    Rewrite(width, r, SetFlag(r.flags, m), a, b, nv);
    forall p | a <= p <= m
      ensures Value(r, width, p) <= nv
    {
      BoundaryOfRun(r.flags, width, a, m, p);
    }
    forall p | m + 1 <= p <= b
      ensures Value(r, width, p) <= nv
    {
      BoundaryOfRun(r.flags, width, m + 1, b, p);
    }
  }

  /** Joining a counter with its right neighbour never loses a count. */
  lemma MergeRightGrows(r: Row, width: nat, l: nat, e: nat, val: int)
    requires RowOk(width, r) && l <= e && e + 1 < width && IsRun(r.flags, width, l, e)
    requires l == 0 || LowBit(l) > LowBit(e + 1)
    requires GetCounterVal(r.counter, l, e) <= val < Pow(256, e - l + 1) + 256
    ensures MergeCounter(r, width, l, e, val).Ok?
    ensures Grown(width, r, MergeCounter(r, width, l, e, val).value, l, e, val)
  {
    BitmapCovers(width, r);
    var nr := RightEnd(r.flags, width, e + 1);
    BoundaryIsRun(r.flags, width, e + 1);
    assert LeftEnd(r.flags, e + 1) == e + 1;
    var nbv := GetCounterVal(r.counter, e + 1, nr);
    assert 0 <= nbv < Pow(256, nr - e);
    assert 0 <= GetCounterVal(r.counter, l, e);
    var nv := Max(val, nbv);
    FitsJoined(val, nbv, e - l + 1, nr - e, nr - l + 1);
    JoinGrows(width, r, l, e, nr, nv);
  }

  /** Joining a counter with its left neighbour never loses a count. */
  lemma MergeLeftGrows(r: Row, width: nat, l: nat, e: nat, val: int)
    requires RowOk(width, r) && 0 < l <= e < width && IsRun(r.flags, width, l, e)
    requires !(LowBit(l) > LowBit(e + 1))
    requires GetCounterVal(r.counter, l, e) <= val < Pow(256, e - l + 1) + 256
    ensures MergeCounter(r, width, l, e, val).Ok?
    ensures Grown(width, r, MergeCounter(r, width, l, e, val).value, l, e, val)
  {
    BitmapCovers(width, r);
    var nl := LeftEnd(r.flags, l - 1);
    BoundaryIsRun(r.flags, width, l - 1);
    assert RightEnd(r.flags, width, l - 1) == l - 1;
    var nbv := GetCounterVal(r.counter, nl, l - 1);
    assert 0 <= nbv < Pow(256, l - nl);
    assert 0 <= GetCounterVal(r.counter, l, e);
    var nv := Max(val, nbv);
    FitsJoined(val, nbv, e - l + 1, l - nl, e - nl + 1);
    JoinGrows(width, r, nl, l - 1, e, nv);
  }

  /** Writing a value at least the counter's own, and at most one byte's
      worth beyond what it can hold, never lowers any counter of the row and
      leaves the written counter at least `val`. A merge only happens when
      the value overflows its counter, and a value that overflows by at most
      one byte always fits the joined counter. */
  lemma WriteGrows(r: Row, width: nat, idx: nat, val: int)
    requires RowOk(width, r) && idx < width
    requires Value(r, width, idx) <= val < Pow(256, Len(r, width, idx)) + 256
    requires WriteCounter(r, width, idx, val).Ok?
    ensures RowOk(width, WriteCounter(r, width, idx, val).value)
    ensures Value(WriteCounter(r, width, idx, val).value, width, idx) >= val
    ensures forall p :: 0 <= p < width ==> Value(WriteCounter(r, width, idx, val).value, width, p) >= Value(r, width, p)
  {
    BitmapCovers(width, r);
    var l := LeftEnd(r.flags, idx);
    var e := RightEnd(r.flags, width, idx);
    BoundaryIsRun(r.flags, width, idx);
    if val < Pow(256, e - l + 1) {
      WriteInPlace(r, width, idx, val);
      forall p | l <= p <= e
        ensures Value(WriteCounter(r, width, idx, val).value, width, p) >= Value(r, width, p)
      {
        BoundaryOfRun(r.flags, width, l, e, p);
        BoundaryOfRun(r.flags, width, l, e, idx);
        BoundaryOfRun(WriteCounter(r, width, idx, val).value.flags, width, l, e, p);
        BoundaryOfRun(WriteCounter(r, width, idx, val).value.flags, width, l, e, idx);
      }
    } else {
      if l == 0 || LowBit(l) > LowBit(e + 1) {
        MergeRightGrows(r, width, l, e, val);
      } else {
        MergeLeftGrows(r, width, l, e, val);
      }
    }
  }

  /** Updates of at most one byte's worth each, the packet counts the sketch
      is built for: such a value never overflows a counter by more than one
      byte, so one merge always makes room. */
  predicate ByteUpdates(st: seq<Item>)
  {
    forall n :: 0 <= n < |st| ==> 0 <= st[n].val <= 256
  }
}
