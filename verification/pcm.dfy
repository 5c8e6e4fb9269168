/** The Pyramid Count-Min sketch. Layer 0 is an array of 64-bit words, each
    packing `64 / c` counters of `c = 2^lg` bits; a key picks one word and,
    per hash row, one counter in it. A counter that overflows keeps its low
    `c` bits and carries the rest into the same counter position of the
    word one layer up, whose index is half the word index. Above layer 0 a
    counter keeps `c - 2` count bits and two flag bits recording whether
    its left or right child has carried into it.

    A word is modelled as the `uint64_t` value itself, a `nat` below 2^64,
    and every shift, mask and `+=` of the source as the arithmetic it
    performs on that value. The `Shift` lemmas relate that arithmetic to
    the counters a word packs. */
module PCM {
  import opened Common

  /** `uint64_t` arithmetic wraps modulo 2^64. */
  const Word64: nat := 0x1_0000_0000_0000_0000
  /** `word_index_size`: the low 18 bits of the hash pick the word. */
  const WordIndexBits: nat := 18
  /** `MAX_HASH_NUM`, the length of the per-row arrays of `update`. */
  const MaxHashNum: nat := 30
  /** `flag = 0xFFFFFFF` of `update` has bits 0..27 set. */
  const FlagBits: nat := 28
  /** `1 << 30`, where `query` starts its minimum. */
  const MinSeed: nat := 0x4000_0000

  /** `wordNum` is `NextPrime(word_num_)`, `d` the number of rows, `lg`
      the `lg_used_bits`, `depth` the `pyramid_depth`, `hf` the single
      hash object. */
  datatype Config = Config(wordNum: nat, d: nat, lg: nat, depth: nat, hf: FlowKey -> nat)

  /** What the constructor establishes (`lg` in [1, 5]), together with
      what the code silently relies on: a word to index, a layer 0, and at
      most `MAX_HASH_NUM` rows. */
  predicate WellFormed(cf: Config)
  {
    1 <= cf.lg <= 5 && cf.wordNum >= 1 && cf.depth >= 1 && cf.d <= MaxHashNum
  }

  /** The constructor: `lg_used_bits` outside [1, 5] is `out_of_range`. */
  function MakeConfig(wordNum: nat, hashNum: nat, lg: int, depth: nat, np: nat -> nat, hf: FlowKey -> nat): (r: Result<Config>)
    ensures r.Ok? <==> 1 <= lg <= 5
    ensures r.Err? ==> r.error == OutOfRange
    ensures r.Ok? && IsNextPrime(np) && wordNum >= 1 && depth >= 1 && hashNum <= MaxHashNum ==> WellFormed(r.value)
  {
    if lg >= 6 || lg <= 0 then Err(OutOfRange)
    else Ok(Config(np(wordNum), hashNum, lg, depth, hf))
  }

  /** `1 << lg_used_bits`: the bits of one counter. */
  function CBits(cf: Config): nat
  {
    Pow(2, cf.lg)
  }

  /** `1 << counter_index_size`: the counters in one word. */
  function Slots(cf: Config): nat
    requires WellFormed(cf)
  {
    Pow(2, 6 - cf.lg)
  }

  /** `MY_MASK + 1`: one more than the largest counter of layer 0. */
  function Base(cf: Config): nat
  {
    Pow(2, CBits(cf))
  }

  /** `HIGHER_MASK + 1`: one more than the largest count above layer 0. */
  function HighBase(cf: Config): nat
    requires WellFormed(cf)
  {
    Pow(2, CBits(cf) - 2)
  }

  function MyMask(cf: Config): int
  {
    Base(cf) - 1
  }

  function HigherMask(cf: Config): int
    requires WellFormed(cf)
  {
    HighBase(cf) - 1
  }

  /** `counter_num = word_num << counter_index_size`. */
  function CounterNum(cf: Config): nat
    requires WellFormed(cf)
  {
    cf.wordNum * Slots(cf)
  }

  /** `(word_num + (1 << i) - 1) >> i`: the words of layer `i`. */
  function LayerLen(cf: Config, i: nat): nat
  {
    (cf.wordNum + Pow(2, i) - 1) / Pow(2, i)
  }

  /** The shape the constructor gives: the counters of a word fill its 64
      bits, a layer-0 counter carries two bits more than a higher one, and
      layer `i` has `wordNum / 2^i` words rounded up. */
  lemma Geometry(cf: Config)
    requires WellFormed(cf)
    ensures CBits(cf) >= 2 && CBits(cf) * Slots(cf) == 64 && 1 <= Slots(cf) <= 32
    ensures Base(cf) == 4 * HighBase(cf) && HighBase(cf) >= 1
    ensures MyMask(cf) == 4 * HigherMask(cf) + 3
    ensures Pow(2, 64) == Word64
  {
    PowAdd(2, cf.lg, 6 - cf.lg);
    assert Pow(2, 6) == 64;
    PowMono(2, 1, cf.lg);
    PowMono(2, 0, 6 - cf.lg);
    PowMono(2, 6 - cf.lg, 5);
    assert Pow(2, 5) == 32;
    PowAdd(2, 2, CBits(cf) - 2);
    assert Pow(2, 2) == 4;
    PowAdd(2, 2, 2);
    PowAdd(2, 4, 4);
    PowAdd(2, 8, 8);
    PowAdd(2, 16, 16);
    PowAdd(2, 32, 32);
  }

  /** Layer `i` covers `wordNum` words of layer 0, each word of it covering
      `2^i` of them. */
  lemma LayerLenCovers(cf: Config, i: nat)
    ensures LayerLen(cf, i) * Pow(2, i) >= cf.wordNum
    ensures cf.wordNum >= 1 ==> (LayerLen(cf, i) - 1) * Pow(2, i) < cf.wordNum
  {
    var p := Pow(2, i);
    var x := cf.wordNum + p - 1;
    assert x == p * (x / p) + x % p;
  }

  /** Each layer halves the one below it, rounding up, so the parent `q / 2`
      of a word `q` of layer `i` is a word of layer `i + 1`. */
  lemma LayerHalf(cf: Config, i: nat, q: nat)
    requires q < LayerLen(cf, i)
    ensures LayerLen(cf, i + 1) == (LayerLen(cf, i) + 1) / 2
    ensures q / 2 < LayerLen(cf, i + 1)
  {
    var p := Pow(2, i);
    var x := cf.wordNum + p - 1;
    assert Pow(2, i + 1) == p * 2;
    DivDiv(x + p, p, 2);
    ModUnique(x + p, p, x / p + 1, x % p);
  }

  /** `1 << (o << lg_used_bits)`: the unit of counter `o` of a word. */
  function Unit(cf: Config, o: nat): (u: nat)
    ensures u > 0
  {
    Pow(2, o * CBits(cf))
  }

  /** `(w >> (o << lg_used_bits)) & MY_MASK`: counter `o` of word `w`. */
  function Slot(cf: Config, w: nat, o: nat): (v: nat)
    ensures v < Base(cf)
  {
    (w / Unit(cf, o)) % Base(cf)
  }

  /** Bit `t` of `x`: `(x >> t) & 1`. */
  function Bit(x: nat, t: nat): (b: nat)
    ensures b <= 1
  {
    (x / Pow(2, t)) % 2
  }

  /** `w += (uint64_t)v << (o << lg_used_bits)`. */
  function AddAt(cf: Config, w: int, o: nat, v: int): (r: nat)
    ensures r < Word64
  {
    (w + v * Unit(cf, o)) % Word64
  }

  /** `w &= ~(((1 << nb) - 1) << (o << lg_used_bits))`: clear the low `nb`
      bits of counter `o`. */
  function ClearAt(cf: Config, w: nat, o: nat, nb: nat): int
  {
    w - ((w / Unit(cf, o)) % Pow(2, nb)) * Unit(cf, o)
  }

  /** `w |= 1 << pos`. */
  function SetBit(w: nat, pos: nat): nat
  {
    if Bit(w, pos) == 1 then w else w + Pow(2, pos)
  }

  // ---------------------------------------------------------------------
  // Counters packed in a word

  /** The units of consecutive counters differ by the base of a counter. */
  lemma UnitStep(cf: Config, o: nat)
    ensures Unit(cf, o + 1) == Unit(cf, o) * Base(cf)
  {
    assert (o + 1) * CBits(cf) == o * CBits(cf) + CBits(cf);
    PowAdd(2, o * CBits(cf), CBits(cf));
  }

  lemma UnitSplit(cf: Config, o: nat, o2: nat)
    requires o <= o2
    ensures Unit(cf, o2) == Unit(cf, o) * Unit(cf, o2 - o)
  {
    assert o2 * CBits(cf) == o * CBits(cf) + (o2 - o) * CBits(cf);
    PowAdd(2, o * CBits(cf), (o2 - o) * CBits(cf));
  }

  /** The last counter of a word ends at bit 64. */
  lemma UnitTop(cf: Config)
    requires WellFormed(cf)
    ensures Unit(cf, Slots(cf)) == Word64
  {
    Geometry(cf);
    assert Slots(cf) * CBits(cf) == 64;
  }

  /** A value written as `h` units of `p * b`, a digit `s < b` of unit `p`
      and a remainder below `p` has exactly those three parts. */
  lemma FieldJoin(w: nat, h: nat, s: nat, l: nat, p: nat, b: nat)
    requires p > 0 && b > 0 && s < b && l < p && w == h * (p * b) + s * p + l
    ensures (w / p) % b == s && w % p == l && w / (p * b) == h
  {
    var m := h * b + s;
    assert h * (p * b) == p * (h * b) by {
      MulSwap(h, p, b);
    }
    assert w == p * m + l;
    ModUnique(w, p, m, l);
    ModUnique(m, b, h, s);
    DivDiv(w, p, b);
  }

  /** Every value splits into the part above digit `p`, the digit and the
      part below. */
  lemma FieldSplit(w: nat, p: nat, b: nat)
    requires p > 0 && b > 0
    ensures w == (w / (p * b)) * (p * b) + ((w / p) % b) * p + w % p
  {
    var m := w / p;
    assert w == p * m + w % p;
    assert m == b * (m / b) + m % b;
    DivDiv(w, p, b);
    assert (m / b) * (p * b) == p * (b * (m / b)) by {
      MulSwap(m / b, p, b);
    }
  }

  /** A digit below position `u * b * r` depends only on the remainder
      modulo `u * b * r`. */
  lemma LowField(w: nat, u: nat, b: nat, r: nat)
    requires u > 0 && b > 0 && r > 0
    ensures (w / u) % b == ((w % (u * (b * r))) / u) % b
  {
    var m := u * (b * r);
    var h := w / m;
    var l := w % m;
    var x := l / u;
    assert w == h * m + l;
    assert h * m == u * (h * (b * r)) by {
      MulSwap(h, u, b * r);
    }
    assert w == u * (h * (b * r) + x) + l % u;
    ModUnique(w, u, h * (b * r) + x, l % u);
    var y := h * r + x / b;
    assert h * (b * r) + x == b * y + x % b;
    ModUnique(h * (b * r) + x, b, y, x % b);
  }

  /** The counters other than `o` are the same in two words that agree
      above and below counter `o`. */
  lemma SlotElsewhere(cf: Config, w: nat, w2: nat, o: nat, o2: nat)
    requires o2 != o
    requires w / Unit(cf, o + 1) == w2 / Unit(cf, o + 1)
    requires w % Unit(cf, o) == w2 % Unit(cf, o)
    ensures Slot(cf, w, o2) == Slot(cf, w2, o2)
  {
    var b := Base(cf);
    if o2 < o {
      var u := Unit(cf, o2);
      var r := Unit(cf, o - (o2 + 1));
      UnitSplit(cf, o2 + 1, o);
      UnitStep(cf, o2);
      MulAssoc(u, b, r);
      LowField(w, u, b, r);
      LowField(w2, u, b, r);
    } else {
      var u1 := Unit(cf, o + 1);
      var r := Unit(cf, o2 - (o + 1));
      UnitSplit(cf, o + 1, o2);
      DivDiv(w, u1, r);
      DivDiv(w2, u1, r);
    }
  }

  /** `ShiftArith` on plain numbers: adding `delta` units `u` to `w`, whose
      digit of unit `u` and base `b` stays in range, moves that digit by
      `delta`, keeps the parts above (`mb = u * b`) and below it, and stays
      below `mb * t`. */
  lemma ShiftArith(w: nat, u: nat, b: nat, mb: nat, t: nat, delta: int)
    requires u > 0 && b > 0 && t > 0 && mb == u * b && w < mb * t
    requires 0 <= (w / u) % b + delta < b
    ensures 0 <= w + delta * u < mb * t
    ensures ((w + delta * u) / u) % b == (w / u) % b + delta
    ensures (w + delta * u) / mb == w / mb && (w + delta * u) % u == w % u
  {
    var s := (w / u) % b;
    var h := w / mb;
    var l := w % u;
    var w2 := w + delta * u;
    assert w2 == h * mb + (s + delta) * u + l by {
      FieldSplit(w, u, b);
      assert (s + delta) * u == s * u + delta * u;
    }
    assert 0 <= w2 by {
      MulLeq(0, s + delta, u);
      MulLeq(0, h, mb);
    }
    assert h < t by {
      HighBelow(w, h, mb, t);
    }
    FieldBelow(h, s + delta, l, u, b, t);
    FieldJoin(w2, h, s + delta, l, u, b);
  }

  /** The part of `w` above a field is below the number of fields' worth
      of room `w` has. */
  lemma HighBelow(w: nat, h: nat, mb: nat, t: nat)
    requires mb > 0 && h == w / mb && w < mb * t
    ensures h < t
  {
    assert h * mb <= w;
    if h >= t {
      MulLeq(t, h, mb);
      assert false;
    }
  }

  /** A value assembled from a high part below `t`, a digit below `b` and a
      low part below `u` fits in `t` fields of width `u * b`. */
  lemma FieldBelow(h: nat, s: nat, l: nat, u: nat, b: nat, t: nat)
    requires u > 0 && b > 0 && s < b && l < u && h < t
    ensures h * (u * b) + s * u + l < (u * b) * t
  {
    MulLeq(s + 1, b, u);
    assert s * u + l < u * b;
    MulLeq(h + 1, t, u * b);
  }

  /** Adding `delta` units of counter `o` to a word whose counter `o` stays
      within its bits changes that counter by `delta`, keeps every other
      counter, and keeps the word below 2^64. */
  lemma Shift(cf: Config, w: nat, o: nat, delta: int)
    requires WellFormed(cf) && w < Word64 && o < Slots(cf)
    requires 0 <= Slot(cf, w, o) + delta < Base(cf)
    ensures 0 <= w + delta * Unit(cf, o) < Word64
    ensures Slot(cf, w + delta * Unit(cf, o), o) == Slot(cf, w, o) + delta
    ensures forall o2 :: 0 <= o2 < Slots(cf) && o2 != o ==>
      Slot(cf, w + delta * Unit(cf, o), o2) == Slot(cf, w, o2)
  {
    var u := Unit(cf, o);
    var b := Base(cf);
    var mb := Unit(cf, o + 1);
    var t := Unit(cf, Slots(cf) - (o + 1));
    UnitStep(cf, o);
    UnitTop(cf);
    UnitSplit(cf, o + 1, Slots(cf));
    ShiftArith(w, u, b, mb, t, delta);
    var w2 := w + delta * u;
    forall o2 | 0 <= o2 < Slots(cf) && o2 != o
      ensures Slot(cf, w2, o2) == Slot(cf, w, o2)
    {
      SlotElsewhere(cf, w, w2, o, o2);
    }
  }

  /** `AddAt` within the counter's bits is a plain addition: the counter
      grows by `v` and the other counters stay. */
  lemma AddAtFits(cf: Config, w: nat, o: nat, v: int)
    requires WellFormed(cf) && w < Word64 && o < Slots(cf)
    requires 0 <= Slot(cf, w, o) + v < Base(cf)
    ensures AddAt(cf, w, o, v) == w + v * Unit(cf, o)
    ensures Slot(cf, AddAt(cf, w, o, v), o) == Slot(cf, w, o) + v
    ensures forall o2 :: 0 <= o2 < Slots(cf) && o2 != o ==> Slot(cf, AddAt(cf, w, o, v), o2) == Slot(cf, w, o2)
  {
    Shift(cf, w, o, v);
    var w2 := w + v * Unit(cf, o);
    ModUnique(w2, Word64, 0, w2);
  }

  lemma ModMod(x: nat, p: nat, q: nat)
    requires p > 0 && q > 0
    ensures (x % (p * q)) % p == x % p
  {
    var h := x / (p * q);
    var r := x % (p * q);
    assert x == h * (p * q) + r;
    assert h * (p * q) == p * (h * q) by {
      MulSwap(h, p, q);
    }
    assert x == p * (h * q + r / p) + r % p;
    ModUnique(x, p, h * q + r / p, r % p);
  }

  /** `ClearAt` subtracts the counter's low `nb` bits, in units of the
      counter. */
  lemma ClearAtIsShift(cf: Config, w: nat, o: nat, nb: nat)
    requires nb <= CBits(cf)
    ensures ClearAt(cf, w, o, nb) == w + (-(Slot(cf, w, o) % Pow(2, nb))) * Unit(cf, o)
  {
    PowAdd(2, nb, CBits(cf) - nb);
    ClearArith(w, Unit(cf, o), Pow(2, nb), Pow(2, CBits(cf) - nb));
  }

  /** The arithmetic of `ClearAtIsShift` on plain numbers: the low bits of a
      field are the low bits of the field taken modulo a larger power. */
  lemma ClearArith(w: nat, u: nat, p: nat, q: nat)
    requires u > 0 && p > 0 && q > 0
    ensures w - ((w / u) % p) * u == w + (-(((w / u) % (p * q)) % p)) * u
  {
    var x: nat := w / u;
    ModMod(x, p, q);
    var low := x % p;
    assert (-low) * u == -(low * u);
  }

  lemma ModLe(s: nat, p: nat)
    requires p > 0
    ensures s % p <= s
  {
    MulLeq(0, s / p, p);
    assert s == (s / p) * p + s % p;
  }

  /** `ClearAt` of `nb` bits of counter `o` drops the counter's low `nb`
      bits and keeps the other counters. */
  lemma ClearAtSlot(cf: Config, w: nat, o: nat, nb: nat)
    requires WellFormed(cf) && w < Word64 && o < Slots(cf) && nb <= CBits(cf)
    ensures 0 <= ClearAt(cf, w, o, nb) < Word64
    ensures Slot(cf, ClearAt(cf, w, o, nb), o) == Slot(cf, w, o) - Slot(cf, w, o) % Pow(2, nb)
    ensures forall o2 :: 0 <= o2 < Slots(cf) && o2 != o ==>
      Slot(cf, ClearAt(cf, w, o, nb), o2) == Slot(cf, w, o2)
  {
    var s := Slot(cf, w, o);
    ClearAtIsShift(cf, w, o, nb);
    ModLe(s, Pow(2, nb));
    Shift(cf, w, o, -(s % Pow(2, nb)));
  }

  /** The bit just above counter `o`'s first `t` bits has weight
      `Unit(o) * 2^t`. */
  lemma UnitPow(cf: Config, o: nat, t: nat)
    ensures Pow(2, o * CBits(cf) + t) == Unit(cf, o) * Pow(2, t)
  {
    PowAdd(2, o * CBits(cf), t);
  }

  /** The arithmetic of `BitOfSlot` on plain numbers. */
  lemma BitArith(w: nat, u: nat, pt: nat, r: nat)
    requires u > 0 && pt > 0 && r > 0
    ensures (w / (u * pt)) % 2 == (((w / u) % (pt * (2 * r))) / pt) % 2
  {
    DivDiv(w, u, pt);
    LowField(w / u, pt, 2, r);
  }

  /** A bit of a counter is the bit of the word at the counter's offset. */
  lemma BitOfSlot(cf: Config, w: nat, o: nat, t: nat)
    requires t < CBits(cf)
    ensures Pow(2, o * CBits(cf) + t) == Unit(cf, o) * Pow(2, t)
    ensures Bit(w, o * CBits(cf) + t) == Bit(Slot(cf, w, o), t)
  {
    UnitPow(cf, o, t);
    var k: nat := CBits(cf) - t - 1;
    assert Base(cf) == Pow(2, t) * (2 * Pow(2, k)) by {
      PowAdd(2, t, 1 + k);
      PowAdd(2, 1, k);
    }
    BitArith(w, Unit(cf, o), Pow(2, t), Pow(2, k));
  }

  /** Setting a clear bit of a field leaves it inside the field. */
  lemma ClearBitRoom(s: nat, pt: nat, r: nat)
    requires pt > 0 && r > 0 && s < pt * (2 * r) && (s / pt) % 2 == 0
    ensures s + pt < pt * (2 * r)
  {
    var q := s / pt;
    assert s == pt * q + s % pt;
    if q >= 2 * r {
      MulLeq(2 * r, q, pt);
      assert false;
    }
    assert q <= 2 * r - 2;
    MulLeq(q + 2, 2 * r, pt);
    assert pt * (q + 2) == pt * q + 2 * pt;
  }

  lemma MulComm(a: int, b: int)
    ensures a * b == b * a
  {
  }

  /** Setting a clear bit adds its power of two. */
  lemma SetClearBit(w: nat, pos: nat, e: int)
    requires Bit(w, pos) == 0 && Pow(2, pos) == e
    ensures SetBit(w, pos) == w + e
  {
  }

  /** Setting a clear bit of counter `o` adds `2^t` units of the counter. */
  lemma SetClearBitWord(cf: Config, w: nat, o: nat, t: nat)
    requires t < CBits(cf) && Bit(Slot(cf, w, o), t) == 0
    ensures SetBit(w, o * CBits(cf) + t) == w + Unit(cf, o) * Pow(2, t)
  {
    BitOfSlot(cf, w, o, t);
    SetClearBit(w, o * CBits(cf) + t, Unit(cf, o) * Pow(2, t));
  }

  /** A clear bit of a counter can be set without leaving the counter. */
  lemma ClearBitFits(cf: Config, w: nat, o: nat, t: nat)
    requires t < CBits(cf) && Bit(Slot(cf, w, o), t) == 0
    ensures 0 <= Slot(cf, w, o) + Pow(2, t) < Base(cf)
  {
    var k: nat := CBits(cf) - t - 1;
    PowAdd(2, t, 1 + k);
    PowAdd(2, 1, k);
    ClearBitRoom(Slot(cf, w, o), Pow(2, t), Pow(2, k));
  }

  /** Setting bit `t` of counter `o`: the counter gains `2^t` when that bit
      was clear, and the other counters stay. */
  lemma SetBitSlot(cf: Config, w: nat, o: nat, t: nat)
    requires WellFormed(cf) && w < Word64 && o < Slots(cf) && t < CBits(cf)
    ensures SetBit(w, o * CBits(cf) + t) < Word64
    ensures Slot(cf, SetBit(w, o * CBits(cf) + t), o) ==
      Slot(cf, w, o) + (if Bit(Slot(cf, w, o), t) == 1 then 0 else Pow(2, t))
    ensures forall o2 :: 0 <= o2 < Slots(cf) && o2 != o ==>
      Slot(cf, SetBit(w, o * CBits(cf) + t), o2) == Slot(cf, w, o2)
  {
    if Bit(Slot(cf, w, o), t) == 0 {
      SetClearBitWord(cf, w, o, t);
      MulComm(Unit(cf, o), Pow(2, t));
      ClearBitFits(cf, w, o, t);
      Shift(cf, w, o, Pow(2, t));
    } else {
      BitOfSlot(cf, w, o, t);
    }
  }

  /** Two to a power at least one is even: `c` is at least 2 and at most 32. */
  lemma CBitsRange(cf: Config)
    requires WellFormed(cf)
    ensures 2 <= CBits(cf) <= 32 && HighBase(cf) >= 1
  {
    PowMono(2, 1, cf.lg);
    PowMono(2, cf.lg, 5);
    assert Pow(2, 5) == 32;
  }

  /** Clearing the low `nb` bits of a field below `p * q` and putting back
      `x < p` stays below `p * q`. */
  lemma LowRoom(s: nat, p: nat, q: nat, x: nat)
    requires p > 0 && q > 0 && s < p * q && x < p
    ensures s - s % p + x < p * q
  {
    var k := s / p;
    assert s == k * p + s % p;
    if k >= q {
      MulLeq(q, k, p);
      assert false;
    }
    MulLeq(k + 1, q, p);
  }

  /** Clearing the low `nb` bits of counter `o` and adding `x < 2^nb`
      replaces those bits by `x` and keeps the other counters. */
  lemma ReplaceLow(cf: Config, w: nat, o: nat, nb: nat, x: nat)
    requires WellFormed(cf) && w < Word64 && o < Slots(cf) && nb <= CBits(cf) && x < Pow(2, nb)
    ensures Slot(cf, AddAt(cf, ClearAt(cf, w, o, nb), o, x), o) == Slot(cf, w, o) - Slot(cf, w, o) % Pow(2, nb) + x
    ensures forall o2 :: 0 <= o2 < Slots(cf) && o2 != o ==>
      Slot(cf, AddAt(cf, ClearAt(cf, w, o, nb), o, x), o2) == Slot(cf, w, o2)
  {
    ClearAtSlot(cf, w, o, nb);
    ReplaceRoom(Slot(cf, w, o), nb, CBits(cf), x);
    AddAtFits(cf, ClearAt(cf, w, o, nb), o, x);
  }

  /** Replacing the low `nb` bits of a `cb`-bit value by `x < 2^nb` leaves
      a `cb`-bit value. */
  lemma ReplaceRoom(s: nat, nb: nat, cb: nat, x: nat)
    requires nb <= cb && s < Pow(2, cb) && x < Pow(2, nb)
    ensures 0 <= s - s % Pow(2, nb) + x < Pow(2, cb)
  {
    var p := Pow(2, nb);
    var q := Pow(2, cb - nb);
    assert Pow(2, cb) == p * q by {
      PowAdd(2, nb, cb - nb);
    }
    LowRoom(s, p, q, x);
    ModLe(s, p);
  }

  /** A higher-layer counter that holds flag `lor` and count `x`: the count
      is its low bits, flag `lor` reads 1 and the other flag 0. */
  lemma FlagCount(c2: nat, lor: nat, x: nat)
    requires lor <= 1 && x < Pow(2, c2)
    ensures (Pow(2, c2 + lor) + x) % Pow(2, c2) == x
    ensures Bit(Pow(2, c2 + lor) + x, c2 + lor) == 1
    ensures Bit(Pow(2, c2 + lor) + x, c2 + (1 - lor)) == 0
  {
    var p := Pow(2, c2);
    PowAdd(2, c2, 1);
    assert Pow(2, c2 + 1) == p * 2;
    var v := Pow(2, c2 + lor) + x;
    if lor == 0 {
      ModUnique(v, p, 1, x);
      ModUnique(v, p * 2, 0, v);
    } else {
      ModUnique(v, p, 2, x);
      ModUnique(v, p * 2, 1, x);
    }
  }

  /** A counter holding flag `lor` and count `x` is climbed past and
      yields `x`. */
  lemma FlaggedCount(cf: Config, lor: nat, x: nat)
    requires WellFormed(cf) && lor <= 1 && x < HighBase(cf)
    ensures CBits(cf) >= 2
    ensures Climbs(cf, Pow(2, CBits(cf) - 2 + lor) + x, lor)
    ensures Count(cf, Pow(2, CBits(cf) - 2 + lor) + x, lor) == x
  {
    CBitsRange(cf);
    var c2 := CBits(cf) - 2;
    var v := Pow(2, c2 + lor) + x;
    assert Bit(v, c2 + lor) == 1 && v % HighBase(cf) == x && Bit(v, c2 + (1 - lor)) == 0 by {
      FlagCount(c2, lor, x);
    }
  }

  // ---------------------------------------------------------------------
  // The pyramid

  /** `counter[i]` for each layer `i`, word by word. */
  datatype Sketch = Sketch(layers: seq<seq<nat>>)

  /** The constructor's shape: `pyramid_depth` layers, layer `i` holding
      `LayerLen(i)` words of 64 bits. */
  predicate Valid(cf: Config, s: Sketch)
  {
    |s.layers| == cf.depth &&
    (forall i :: 0 <= i < cf.depth ==> |s.layers[i]| == LayerLen(cf, i)) &&
    forall i, q :: 0 <= i < cf.depth && 0 <= q < |s.layers[i]| ==> s.layers[i][q] < Word64
  }

  /** The constructor's zero-filled layers. */
  function Init(cf: Config): (s: Sketch)
    ensures Valid(cf, s)
    ensures forall i, q :: 0 <= i < cf.depth && 0 <= q < LayerLen(cf, i) ==> s.layers[i][q] == 0
  {
    Sketch(seq(cf.depth, i requires 0 <= i => seq(LayerLen(cf, i), _ => 0)))
  }

  /** `clear()`: every word of every layer back to zero, the shape kept. */
  function Clear(cf: Config, s: Sketch): (r: Sketch)
    requires Valid(cf, s)
    ensures Valid(cf, r)
    ensures forall i :: 0 <= i < cf.depth ==> |r.layers[i]| == |s.layers[i]|
    ensures forall i, q :: 0 <= i < cf.depth && 0 <= q < |r.layers[i]| ==> r.layers[i][q] == 0
  {
    Init(cf)
  }

  /** Store word `w` at position `q` of layer `i`. */
  function Put(cf: Config, s: Sketch, i: nat, q: nat, w: nat): (r: Sketch)
    requires Valid(cf, s) && i < cf.depth && q < |s.layers[i]| && w < Word64
    ensures Valid(cf, r) && r.layers[i][q] == w
    ensures forall j, k :: 0 <= j < cf.depth && 0 <= k < |s.layers[j]| && (j, k) != (i, q) ==>
      r.layers[j][k] == s.layers[j][k]
  {
    var row: seq<nat> := s.layers[i][q := w];
    Sketch(s.layers[i := row])
  }

  // ---------------------------------------------------------------------
  // Hashing

  /** `hash_fns(flowkey)` as a `uint64_t`. */
  function HashValue(cf: Config, key: FlowKey): (h: nat)
    ensures h < Word64
  {
    cf.hf(key) % Word64
  }

  /** `my_word_index`: the low 18 bits of the hash modulo the word count. */
  function WordIndex(cf: Config, key: FlowKey): (wi: nat)
    requires WellFormed(cf)
    ensures wi < cf.wordNum
  {
    (HashValue(cf, key) % Pow(2, WordIndexBits)) % cf.wordNum
  }

  /** `counter_offset[i]`: the hash without its 18 word-index bits and
      without the `i` counter-index fields the earlier rows consumed, its
      low 12 bits taken modulo the counters of a word. */
  function Offset(cf: Config, key: FlowKey, i: nat): (o: nat)
    requires WellFormed(cf)
    ensures o < Slots(cf)
  {
    ((HashValue(cf, key) / Pow(2, WordIndexBits) / Pow(Slots(cf), i)) % 0x1000) % Slots(cf)
  }

  /** `counter_num` is positive. */
  lemma CounterNumPos(cf: Config)
    requires WellFormed(cf)
    ensures CounterNum(cf) >= Slots(cf) >= 1
  {
    MulLeq(1, cf.wordNum, Slots(cf));
  }

  /** `index[i]`: the counter's position among the layer-0 counters. */
  function Index(cf: Config, wi: nat, o: nat): (index: nat)
    requires WellFormed(cf)
    ensures index < CounterNum(cf)
  {
    CounterNumPos(cf);
    (wi * Slots(cf) + o) % CounterNum(cf)
  }

  /** `index >> counter_index_size` and `index % (1 << counter_index_size)`
      recover the word and the offset `index[i]` was built from. */
  lemma IndexSplit(cf: Config, wi: nat, o: nat)
    requires WellFormed(cf) && wi < cf.wordNum && o < Slots(cf)
    ensures Index(cf, wi, o) / Slots(cf) == wi && Index(cf, wi, o) % Slots(cf) == o
  {
    var n := Slots(cf);
    RowMajorBound(wi, o, cf.wordNum, n);
    assert n * cf.wordNum == CounterNum(cf);
    ModUnique(wi * n + o, CounterNum(cf), 0, wi * n + o);
    ModUnique(wi * n + o, n, wi, o);
  }

  /** A counter position names a word of layer 0. */
  lemma WordOfIndex(cf: Config, index: nat)
    requires WellFormed(cf) && index < CounterNum(cf)
    ensures index / Slots(cf) < cf.wordNum && index % Slots(cf) < Slots(cf)
  {
    var n := Slots(cf);
    CounterNumPos(cf);
    assert index == (index / n) * n + index % n;
    if index / n >= cf.wordNum {
      MulLeq(cf.wordNum, index / n, n);
      assert false;
    }
  }

  /** Layer 0 has `wordNum` words. */
  lemma LayerZero(cf: Config)
    ensures LayerLen(cf, 0) == cf.wordNum
  {
  }

  // ---------------------------------------------------------------------
  // Carrying and reading back

  /** Bit `c - 2 + lor` of counter `o`: the flag recording that the left
      (`lor = 0`) or right (`lor = 1`) child carried into it. */
  function FlagPos(cf: Config, o: nat, lor: nat): nat
    requires WellFormed(cf)
  {
    CBitsRange(cf);
    o * CBits(cf) + (CBits(cf) - 2 + lor)
  }

  /** `counter[i][word_index] |= ...`: the parent word with the flag of
      child `lor` set in counter `o`. */
  function Flagged(cf: Config, w: nat, o: nat, lor: nat): nat
    requires WellFormed(cf)
  {
    SetBit(w, FlagPos(cf, o, lor))
  }

  /** `value & HIGHER_MASK`: the count bits of counter `o` of the flagged
      parent word. */
  function HighCount(cf: Config, w: nat, o: nat, lor: nat): nat
    requires WellFormed(cf)
  {
    Slot(cf, Flagged(cf, w, o, lor), o) % HighBase(cf)
  }

  /** Whether the carry fits the count bits, so that the loop returns. */
  function CarryFits(cf: Config, w: nat, o: nat, lor: nat, val: int): bool
    requires WellFormed(cf)
  {
    HighCount(cf, w, o, lor) + val <= HigherMask(cf)
  }

  /** The parent word after one pass of the loop of `carry`: flagged, then
      either the carry added to counter `o`, or its count bits replaced by
      the low `c - 2` bits of count plus carry. */
  function ParentWord(cf: Config, w: nat, o: nat, lor: nat, val: int): (r: nat)
    requires WellFormed(cf)
    ensures r < Word64
  {
    CBitsRange(cf);
    var w1 := Flagged(cf, w, o, lor);
    if CarryFits(cf, w, o, lor, val) then AddAt(cf, w1, o, val)
    else AddAt(cf, ClearAt(cf, w1, o, CBits(cf) - 2), o, (HighCount(cf, w, o, lor) + val) % HighBase(cf))
  }

  /** `new_val >> ((1 << lg_used_bits) - 2)`: what climbs to the next layer. */
  function CarryOut(cf: Config, w: nat, o: nat, lor: nat, val: int): int
    requires WellFormed(cf)
  {
    (HighCount(cf, w, o, lor) + val) / HighBase(cf)
  }

  /** One pass of the loop of `carry`: the state after layer `i`, whether
      the loop returned there, and the carry for the layer above. */
  datatype Step = Step(s: Sketch, done: bool, out: int)

  /** One pass of the loop of `carry` at layer `i`: `q` is the word of
      layer `i - 1` that overflowed at offset `o`, `val` what it carries;
      `q / 2` is the parent word and `q % 2` tells the child. */
  function CarryStep(cf: Config, s: Sketch, i: nat, q: nat, o: nat, val: int): (r: Step)
    requires WellFormed(cf) && Valid(cf, s) && 1 <= i < cf.depth && q < LayerLen(cf, i - 1) && o < Slots(cf)
    ensures Valid(cf, r.s)
    ensures forall j :: 0 <= j < cf.depth && j != i ==> r.s.layers[j] == s.layers[j]
  {
    LayerHalf(cf, i - 1, q);
    var w := s.layers[i][q / 2];
    Step(Put(cf, s, i, q / 2, ParentWord(cf, w, o, q % 2, val)),
      CarryFits(cf, w, o, q % 2, val), CarryOut(cf, w, o, q % 2, val))
  }

  /** The loop of `carry` from layer `i` on. Past the top layer the carry
      is an overflow. */
  function CarryFrom(cf: Config, s: Sketch, i: nat, q: nat, o: nat, val: int): (r: Result<Sketch>)
    requires WellFormed(cf) && Valid(cf, s) && 1 <= i && q < LayerLen(cf, i - 1) && o < Slots(cf)
    ensures r.Ok? ==> Valid(cf, r.value)
    ensures r.Ok? ==> forall j :: 0 <= j < i && j < cf.depth ==> r.value.layers[j] == s.layers[j]
    ensures r.Err? ==> r.error == OverflowError
    decreases cf.depth - i
  {
    if i >= cf.depth then Err(OverflowError)
    else
      LayerHalf(cf, i - 1, q);
      var st := CarryStep(cf, s, i, q, o, val);
      if st.done then Ok(st.s) else CarryFrom(cf, st.s, i + 1, q / 2, o, st.out)
  }

  /** `carry(index, val)`. */
  function Carry(cf: Config, s: Sketch, index: nat, val: int): (r: Result<Sketch>)
    requires WellFormed(cf) && Valid(cf, s) && index < CounterNum(cf)
    ensures r.Ok? ==> Valid(cf, r.value)
    ensures r.Err? ==> r.error == OverflowError
  {
    WordOfIndex(cf, index);
    CarryFrom(cf, s, 1, index / Slots(cf), index % Slots(cf), val)
  }

  /** `carry` of the counter at offset `o` of layer-0 word `wi` starts at
      that word's parent. */
  lemma CarryAt(cf: Config, s: Sketch, wi: nat, o: nat, val: int)
    requires WellFormed(cf) && Valid(cf, s) && wi < cf.wordNum && o < Slots(cf)
    ensures At(cf, s, 1, wi, o)
    ensures Carry(cf, s, Index(cf, wi, o), val) == CarryFrom(cf, s, 1, wi, o, val)
  {
    IndexSplit(cf, wi, o);
    LayerZero(cf);
  }

  /** `new_val > MY_MASK`: adding `val` overflows counter `o` of a
      layer-0 word. */
  function Overflows(cf: Config, w: nat, o: nat, val: int): bool
  {
    Slot(cf, w, o) + val > MyMask(cf)
  }

  /** The layer-0 word after adding `val` to counter `o`: on overflow the
      counter keeps the low `c` bits of the sum. */
  function BaseWord(cf: Config, w: nat, o: nat, val: int): (r: nat)
    ensures r < Word64
  {
    if Overflows(cf, w, o, val) then AddAt(cf, ClearAt(cf, w, o, CBits(cf)), o, (Slot(cf, w, o) + val) % Base(cf))
    else AddAt(cf, w, o, val)
  }

  /** The body of one row of `update` whose offset has not been seen in
      this call: add `val` to counter `o` of layer-0 word `wi`, carrying
      `new_val >> c` when it overflows. */
  function UpdateSlot(cf: Config, s: Sketch, wi: nat, o: nat, val: int): (r: Result<Sketch>)
    requires WellFormed(cf) && Valid(cf, s) && wi < cf.wordNum && o < Slots(cf)
    ensures r.Ok? ==> Valid(cf, r.value)
    ensures r.Err? ==> r.error == OverflowError
  {
    var w := s.layers[0][wi];
    var s1 := Put(cf, s, 0, wi, BaseWord(cf, w, o, val));
    if Overflows(cf, w, o, val) then Carry(cf, s1, Index(cf, wi, o), (Slot(cf, w, o) + val) / Base(cf))
    else Ok(s1)
  }

  /** `UpdateSlot` either stores the new layer-0 word, or stores it and
      carries from its parent. */
  lemma UpdateSlotSplit(cf: Config, s: Sketch, wi: nat, o: nat, val: int)
    requires WellFormed(cf) && Valid(cf, s) && wi < cf.wordNum && o < Slots(cf)
    ensures At(cf, Put(cf, s, 0, wi, BaseWord(cf, s.layers[0][wi], o, val)), 1, wi, o)
    ensures !Overflows(cf, s.layers[0][wi], o, val) ==>
      UpdateSlot(cf, s, wi, o, val) == Ok(Put(cf, s, 0, wi, BaseWord(cf, s.layers[0][wi], o, val)))
    ensures Overflows(cf, s.layers[0][wi], o, val) ==>
      UpdateSlot(cf, s, wi, o, val) == CarryFrom(cf, Put(cf, s, 0, wi, BaseWord(cf, s.layers[0][wi], o, val)), 1, wi, o,
        (Slot(cf, s.layers[0][wi], o) + val) / Base(cf))
  {
    var w := s.layers[0][wi];
    var s1 := Put(cf, s, 0, wi, BaseWord(cf, w, o, val));
    CarryAt(cf, s1, wi, o, (Slot(cf, w, o) + val) / Base(cf));
  }

  /** What one unit of a layer-`i` count is worth in layer-0 units: layer 0
      carries every `2^c`, each higher layer every `2^(c - 2)`. */
  function Weight(cf: Config, i: nat): nat
    requires WellFormed(cf) && i >= 1
  {
    Base(cf) * Pow(HighBase(cf), i - 1)
  }

  /** One more than the largest value a counter position holds before a
      carry runs off the top layer. */
  function Capacity(cf: Config): nat
    requires WellFormed(cf)
  {
    Weight(cf, cf.depth)
  }

  /** The flag of child `lor` in a higher-layer counter: whether
      `get_value` climbs past it. */
  function Climbs(cf: Config, value: nat, lor: nat): bool
    requires WellFormed(cf)
  {
    CBitsRange(cf);
    Bit(value, CBits(cf) - 2 + lor) == 1
  }

  /** What `get_value` takes from a higher-layer counter it climbs past:
      the count bits less the sibling's flag. */
  function Count(cf: Config, value: nat, lor: nat): int
    requires WellFormed(cf) && lor <= 1
  {
    CBitsRange(cf);
    value % HighBase(cf) - Bit(value, CBits(cf) - 2 + (1 - lor))
  }

  /** The loop of `get_value` from layer `i` on, with the weight of a
      layer-`i` count as the carries give it. A clear flag for this child
      ends the climb; a set one adds the count at the layer's weight.
      Past the top layer nothing more is added, and over empty parents
      nothing is read. */
  function GetValueFrom(cf: Config, s: Sketch, i: nat, q: nat, o: nat): (r: int)
    requires WellFormed(cf) && Valid(cf, s) && 1 <= i && q < LayerLen(cf, i - 1) && o < Slots(cf)
    ensures ZeroFrom(cf, s, i, o) ==> r == 0
    decreases cf.depth - i
  {
    if i >= cf.depth then 0
    else
      LayerHalf(cf, i - 1, q);
      CBitsRange(cf);
      var value := Slot(cf, s.layers[i][q / 2], o);
      assert ZeroFrom(cf, s, i, o) ==> !Climbs(cf, value, q % 2) by {
        assert Bit(0, CBits(cf) - 2 + q % 2) == 0;
      }
      if !Climbs(cf, value, q % 2) then 0
      else Count(cf, value, q % 2) * Weight(cf, i) + GetValueFrom(cf, s, i + 1, q / 2, o)
  }

  /** `get_value(index)`: nothing over empty parents. */
  function GetValue(cf: Config, s: Sketch, index: nat): (r: int)
    requires WellFormed(cf) && Valid(cf, s) && index < CounterNum(cf)
    ensures ZeroFrom(cf, s, 1, index % Slots(cf)) ==> r == 0
  {
    WordOfIndex(cf, index);
    GetValueFrom(cf, s, 1, index / Slots(cf), index % Slots(cf))
  }

  /** The loop of `get_value` as the source writes it: a layer-`i` count
      weighs `2^(c - 2 + 2i)`, and leaving the loop past the top layer is
      an overflow error. For 4-bit counters that weight is the one the
      carries give, so a read that does not throw agrees with the
      corrected one. */
  function GetValueAsWritten(cf: Config, s: Sketch, i: nat, q: nat, o: nat): (r: Result<int>)
    requires WellFormed(cf) && Valid(cf, s) && 1 <= i && q < LayerLen(cf, i - 1) && o < Slots(cf)
    ensures r.Err? ==> r.error == OverflowError
    ensures cf.lg == 2 && r.Ok? ==> r.value == GetValueFrom(cf, s, i, q, o)
    decreases cf.depth - i
  {
    if i >= cf.depth then Err(OverflowError)
    else
      LayerHalf(cf, i - 1, q);
      CBitsRange(cf);
      var value := Slot(cf, s.layers[i][q / 2], o);
      if !Climbs(cf, value, q % 2) then Ok(0)
      else
        match GetValueAsWritten(cf, s, i + 1, q / 2, o)
        case Err(e) => Err(e)
        case Ok(rest) =>
          assert cf.lg == 2 ==> Pow(2, CBits(cf) - 2 + 2 * i) == Weight(cf, i) by {
            if cf.lg == 2 {
              FourBitWeight(cf, i);
            }
          }
          Ok(Count(cf, value, q % 2) * Pow(2, CBits(cf) - 2 + 2 * i) + rest)
  }

  /** With 4-bit counters a layer-`i` unit weighs `2^(c - 2 + 2i)`: the
      carries' weight and the one `get_value` as written uses agree. */
  lemma {:induction false} FourBitWeight(cf: Config, i: nat)
    requires WellFormed(cf) && cf.lg == 2 && i >= 1
    ensures CBits(cf) == 4 && Weight(cf, i) == Pow(2, CBits(cf) - 2 + 2 * i)
    decreases i
  {
    assert CBits(cf) == 4 && HighBase(cf) == 4 && Base(cf) == 16 by {
      assert Pow(2, 2) == 4;
      assert Pow(2, 4) == 16;
    }
    if i > 1 {
      FourBitWeight(cf, i - 1);
      assert Pow(4, i - 1) == 4 * Pow(4, i - 2);
      PowAdd(2, 2, 2 * i);
      assert Pow(2, 2 + 2 * (i - 1)) == Pow(2, 2 * i);
    }
  }

  /** The estimate of row offset `o` in word `wi`: the layer-0 counter plus
      what `get_value` reads above it, which is the layer-0 counter alone
      when every parent is empty at `o`. */
  function Estimate(cf: Config, s: Sketch, wi: nat, o: nat): (r: int)
    requires WellFormed(cf) && Valid(cf, s) && wi < cf.wordNum && o < Slots(cf)
    ensures ZeroFrom(cf, s, 1, o) ==> r == Slot(cf, s.layers[0][wi], o)
  {
    IndexSplit(cf, wi, o);
    Slot(cf, s.layers[0][wi], o) + GetValue(cf, s, Index(cf, wi, o))
  }

  // ---------------------------------------------------------------------
  // update and query

  /** The rows of `update` from row `i` on. `pending` holds the offsets
      whose bit of `flag` is still set: a row whose offset is not pending
      is skipped, so each counter of the word takes `val` once. */
  function UpdateRows(cf: Config, s: Sketch, key: FlowKey, val: int, i: nat, pending: set<nat>): (r: Result<Sketch>)
    requires WellFormed(cf) && Valid(cf, s)
    ensures r.Ok? ==> Valid(cf, r.value)
    ensures r.Err? ==> r.error == OverflowError
    decreases cf.d - i
  {
    if i >= cf.d then Ok(s)
    else
      var o := Offset(cf, key, i);
      if o !in pending then UpdateRows(cf, s, key, val, i + 1, pending)
      else
        match UpdateSlot(cf, s, WordIndex(cf, key), o, val)
        case Err(e) => Err(e)
        case Ok(s') => UpdateRows(cf, s', key, val, i + 1, pending - {o})
  }

  /** The offsets below `n`. */
  function Below(n: nat): (r: set<nat>)
    ensures forall o: int :: o in r <==> 0 <= o < n
  {
    if n == 0 then {} else Below(n - 1) + {n - 1}
  }

  /** `update(key, val)` with `flag` covering every offset of a word. */
  function Update(cf: Config, s: Sketch, key: FlowKey, val: int): (r: Result<Sketch>)
    requires WellFormed(cf) && Valid(cf, s)
    ensures r.Ok? ==> Valid(cf, r.value)
    ensures r.Err? ==> r.error == OverflowError
  {
    UpdateRows(cf, s, key, val, 0, Below(Slots(cf)))
  }

  /** `update(key, val)` as written: `flag = 0xFFFFFFF` marks only the
      offsets below 28 as pending. */
  function UpdateAsWritten(cf: Config, s: Sketch, key: FlowKey, val: int): (r: Result<Sketch>)
    requires WellFormed(cf) && Valid(cf, s)
    ensures r.Ok? ==> Valid(cf, r.value)
  {
    UpdateRows(cf, s, key, val, 0, Below(FlagBits))
  }

  /** `query(key)`: the smallest row estimate, starting from `1 << 30`. */
  function Query(cf: Config, s: Sketch, key: FlowKey): (r: int)
    requires WellFormed(cf) && Valid(cf, s)
    ensures r <= MinSeed
    ensures forall i :: 0 <= i < cf.d ==> r <= Estimate(cf, s, WordIndex(cf, key), Offset(cf, key, i))
    ensures r == MinSeed || exists i :: 0 <= i < cf.d && r == Estimate(cf, s, WordIndex(cf, key), Offset(cf, key, i))
  {
    var wi := WordIndex(cf, key);
    var ests := seq(cf.d, i requires 0 <= i < cf.d => Estimate(cf, s, wi, Offset(cf, key, i)));
    assert forall i :: 0 <= i < cf.d ==> ests[i] == Estimate(cf, s, wi, Offset(cf, key, i));
    MinFrom(MinSeed, ests)
  }

  /** `query(key)` as written: a row whose `get_value` overflows makes the
      query fail with `overflow_error`; otherwise it answers at most
      `1 << 30`. */
  function QueryAsWritten(cf: Config, s: Sketch, key: FlowKey): (r: Result<int>)
    requires WellFormed(cf) && Valid(cf, s)
    ensures r.Err? ==> r.error == OverflowError
    ensures r.Ok? ==> r.value <= MinSeed
  {
    var wi := WordIndex(cf, key);
    if forall i :: 0 <= i < cf.d ==> GetValueAsWritten(cf, s, 1, wi, Offset(cf, key, i)).Ok? then
      Ok(MinFrom(MinSeed, seq(cf.d, i requires 0 <= i < cf.d =>
        Slot(cf, s.layers[0][wi], Offset(cf, key, i)) + GetValueAsWritten(cf, s, 1, wi, Offset(cf, key, i)).value)))
    else Err(OverflowError)
  }

  /** With 4-bit counters the query as written, when it does not throw,
      answers what the corrected query answers. */
  lemma QueryAsWrittenFourBit(cf: Config, s: Sketch, key: FlowKey)
    requires WellFormed(cf) && Valid(cf, s) && cf.lg == 2
    ensures QueryAsWritten(cf, s, key).Ok? ==> QueryAsWritten(cf, s, key).value == Query(cf, s, key)
  {
    var wi := WordIndex(cf, key);
    if QueryAsWritten(cf, s, key).Ok? {
      var a := seq(cf.d, i requires 0 <= i < cf.d =>
        Slot(cf, s.layers[0][wi], Offset(cf, key, i)) + GetValueAsWritten(cf, s, 1, wi, Offset(cf, key, i)).value);
      var b := seq(cf.d, i requires 0 <= i < cf.d => Estimate(cf, s, wi, Offset(cf, key, i)));
      forall i | 0 <= i < cf.d
        ensures a[i] == b[i]
      {
        IndexSplit(cf, wi, Offset(cf, key, i));
      }
      assert a == b;
    }
  }

  // ---------------------------------------------------------------------
  // One word at a time

  /** A counter below `2^c` whose count bits can take a non-negative carry
      stays below `2^c` when the carry is added. */
  lemma CountRoom(cf: Config, value: nat, val: int)
    requires WellFormed(cf) && value < Base(cf) && 0 <= val
    requires value % HighBase(cf) + val <= HigherMask(cf)
    ensures 0 <= value + val < Base(cf)
  {
    CBitsRange(cf);
    PowAdd(2, 2, CBits(cf) - 2);
    assert Pow(2, 2) == 4;
    LowRoom(value, HighBase(cf), 4, value % HighBase(cf) + val);
  }

  /** Setting a flag keeps the word below 2^64 and the other counters. */
  lemma FlaggedLocal(cf: Config, w: nat, o: nat, lor: nat)
    requires WellFormed(cf) && w < Word64 && o < Slots(cf) && lor <= 1
    ensures Flagged(cf, w, o, lor) < Word64
    ensures forall o2 :: 0 <= o2 < Slots(cf) && o2 != o ==> Slot(cf, Flagged(cf, w, o, lor), o2) == Slot(cf, w, o2)
  {
    CBitsRange(cf);
    SetBitSlot(cf, w, o, CBits(cf) - 2 + lor);
  }

  /** A pass of `carry` with a non-negative carry changes only counter `o`
      of the parent word and passes a non-negative carry on. */
  lemma ParentWordLocal(cf: Config, w: nat, o: nat, lor: nat, val: int, o2: nat)
    requires WellFormed(cf) && w < Word64 && o < Slots(cf) && lor <= 1
    requires 0 <= val && o2 < Slots(cf) && o2 != o
    ensures Slot(cf, ParentWord(cf, w, o, lor, val), o2) == Slot(cf, w, o2)
    ensures CarryOut(cf, w, o, lor, val) >= 0
  {
    CBitsRange(cf);
    FlaggedLocal(cf, w, o, lor);
    var w1: nat := Flagged(cf, w, o, lor);
    var nv := HighCount(cf, w, o, lor) + val;
    if CarryFits(cf, w, o, lor, val) {
      CountRoom(cf, Slot(cf, w1, o), val);
      AddAtFits(cf, w1, o, val);
      assert ParentWord(cf, w, o, lor, val) == AddAt(cf, w1, o, val);
    } else {
      ReplaceLow(cf, w1, o, CBits(cf) - 2, nv % HighBase(cf));
      assert ParentWord(cf, w, o, lor, val) == AddAt(cf, ClearAt(cf, w1, o, CBits(cf) - 2), o, nv % HighBase(cf));
    }
    assert Slot(cf, w1, o2) == Slot(cf, w, o2);
    NonNegDiv(nv, HighBase(cf));
  }

  lemma DivPos(a: int, b: nat)
    requires 0 < b <= a
    ensures a / b >= 1
  {
  }

  lemma NonNegDiv(a: int, b: nat)
    requires 0 <= a && 0 < b
    ensures a / b >= 0
  {
  }

  /** Flagging an empty counter leaves just the flag in it. */
  lemma FlaggedZero(cf: Config, w: nat, o: nat, lor: nat)
    requires WellFormed(cf) && w < Word64 && o < Slots(cf) && lor <= 1 && Slot(cf, w, o) == 0
    ensures CBits(cf) >= 2 && Flagged(cf, w, o, lor) < Word64
    ensures Slot(cf, Flagged(cf, w, o, lor), o) == Pow(2, CBits(cf) - 2 + lor)
    ensures HighCount(cf, w, o, lor) == 0
  {
    CBitsRange(cf);
    var c2 := CBits(cf) - 2;
    assert Flagged(cf, w, o, lor) == SetBit(w, o * CBits(cf) + (c2 + lor));
    SetBitEmpty(cf, w, o, c2 + lor);
    FlagCount(c2, lor, 0);
    assert HighBase(cf) == Pow(2, c2);
  }

  /** Setting bit `t` of an empty counter leaves `2^t` in it. */
  lemma SetBitEmpty(cf: Config, w: nat, o: nat, t: nat)
    requires WellFormed(cf) && w < Word64 && o < Slots(cf) && t < CBits(cf) && Slot(cf, w, o) == 0
    ensures SetBit(w, o * CBits(cf) + t) < Word64
    ensures Slot(cf, SetBit(w, o * CBits(cf) + t), o) == Pow(2, t)
  {
    SetBitSlot(cf, w, o, t);
    assert Bit(0, t) == 0;
  }

  /** `ParentWordZero` when the carry fits the count bits. */
  lemma ParentWordZeroFits(cf: Config, w: nat, o: nat, lor: nat, val: int)
    requires WellFormed(cf) && w < Word64 && o < Slots(cf) && lor <= 1
    requires 0 <= val < HighBase(cf) && Slot(cf, w, o) == 0
    ensures CBits(cf) >= 2 && CarryFits(cf, w, o, lor, val)
    ensures Slot(cf, ParentWord(cf, w, o, lor, val), o) == Pow(2, CBits(cf) - 2 + lor) + val
  {
    FlaggedZero(cf, w, o, lor);
    var w1 := Flagged(cf, w, o, lor);
    CountRoom(cf, Pow(2, CBits(cf) - 2 + lor), val);
    AddAtFits(cf, w1, o, val);
    assert ParentWord(cf, w, o, lor, val) == AddAt(cf, w1, o, val);
  }

  /** `ParentWordZero` when the carry does not fit the count bits. */
  lemma ParentWordZeroCarries(cf: Config, w: nat, o: nat, lor: nat, val: int)
    requires WellFormed(cf) && w < Word64 && o < Slots(cf) && lor <= 1
    requires HighBase(cf) <= val && Slot(cf, w, o) == 0
    ensures CBits(cf) >= 2 && !CarryFits(cf, w, o, lor, val)
    ensures Slot(cf, ParentWord(cf, w, o, lor, val), o) == Pow(2, CBits(cf) - 2 + lor) + val % HighBase(cf)
  {
    CBitsRange(cf);
    var c2 := CBits(cf) - 2;
    FlaggedZero(cf, w, o, lor);
    ParentWordOverflows(cf, w, o, lor, val);
    FlagThenLow(cf, Flagged(cf, w, o, lor), o, c2, lor, val % HighBase(cf));
  }

  /** A carry into an empty counter that does not fit its count bits
      leaves the flag and the carry's low bits. */
  lemma ParentWordOverflows(cf: Config, w: nat, o: nat, lor: nat, val: int)
    requires WellFormed(cf) && CBits(cf) >= 2 && HighCount(cf, w, o, lor) == 0 && HighBase(cf) <= val
    ensures !CarryFits(cf, w, o, lor, val)
    ensures ParentWord(cf, w, o, lor, val) == AddAt(cf, ClearAt(cf, Flagged(cf, w, o, lor), o, CBits(cf) - 2), o, val % HighBase(cf))
  {
  }

  /** Writing a count below the flag bits of a slot that holds only its flag
      keeps the flag and adds the count. */
  lemma FlagThenLow(cf: Config, w1: nat, o: nat, c2: nat, lor: nat, x: nat)
    requires WellFormed(cf) && w1 < Word64 && o < Slots(cf) && lor <= 1 && c2 <= CBits(cf)
    requires Slot(cf, w1, o) == Pow(2, c2 + lor) && x < Pow(2, c2)
    ensures Slot(cf, AddAt(cf, ClearAt(cf, w1, o, c2), o, x), o) == Pow(2, c2 + lor) + x
  {
    FlagCount(c2, lor, 0);
    ReplaceLow(cf, w1, o, c2, x);
  }

  /** A pass of `carry` into an empty counter: the counter gets the flag
      and the carry's low `c - 2` bits; the loop returns exactly when the
      carry fits them, and passes the rest on. */
  lemma ParentWordZero(cf: Config, w: nat, o: nat, lor: nat, val: int)
    requires WellFormed(cf) && w < Word64 && o < Slots(cf) && lor <= 1
    requires 0 <= val && Slot(cf, w, o) == 0
    ensures CBits(cf) >= 2
    ensures Slot(cf, ParentWord(cf, w, o, lor, val), o) == Pow(2, CBits(cf) - 2 + lor) + val % HighBase(cf)
    ensures CarryFits(cf, w, o, lor, val) <==> val < HighBase(cf)
    ensures CarryOut(cf, w, o, lor, val) == val / HighBase(cf)
  {
    FlaggedZero(cf, w, o, lor);
    if val < HighBase(cf) {
      ParentWordZeroFits(cf, w, o, lor, val);
      ModUnique(val, HighBase(cf), 0, val);
    } else {
      ParentWordZeroCarries(cf, w, o, lor, val);
    }
  }

  /** Adding a non-negative value at layer 0 changes only counter `o`. */
  lemma BaseWordLocal(cf: Config, w: nat, o: nat, val: int, o2: nat)
    requires WellFormed(cf) && w < Word64 && o < Slots(cf)
    requires 0 <= val && o2 < Slots(cf) && o2 != o
    ensures Slot(cf, BaseWord(cf, w, o, val), o2) == Slot(cf, w, o2)
  {
    if Overflows(cf, w, o, val) {
      ReplaceLow(cf, w, o, CBits(cf), (Slot(cf, w, o) + val) % Base(cf));
    } else {
      AddAtFits(cf, w, o, val);
    }
  }

  /** Adding a non-negative value to an empty layer-0 counter leaves its
      low `c` bits there, overflowing exactly when it exceeds `MY_MASK`. */
  lemma BaseWordZero(cf: Config, w: nat, o: nat, val: int)
    requires WellFormed(cf) && w < Word64 && o < Slots(cf)
    requires 0 <= val && Slot(cf, w, o) == 0
    ensures Slot(cf, BaseWord(cf, w, o, val), o) == val % Base(cf)
    ensures Overflows(cf, w, o, val) <==> val >= Base(cf)
  {
    if Overflows(cf, w, o, val) {
      ReplaceLow(cf, w, o, CBits(cf), val % Base(cf));
    } else {
      AddAtFits(cf, w, o, val);
      ModUnique(val, Base(cf), 0, val);
    }
  }

  // ---------------------------------------------------------------------
  // Counter positions are independent

  /** Counter `o` of every word of every layer reads the same in `s` and
      `t`. */
  ghost predicate SameSlot(cf: Config, s: Sketch, t: Sketch, o: nat)
    requires Valid(cf, s) && Valid(cf, t)
  {
    forall i, q :: 0 <= i < cf.depth && 0 <= q < LayerLen(cf, i) ==>
      Slot(cf, t.layers[i][q], o) == Slot(cf, s.layers[i][q], o)
  }

  /** A pass of `carry` with a non-negative carry keeps counter `o2` of
      word `k` of layer `j`, and passes a non-negative carry on. */
  lemma CarryStepLocal(cf: Config, s: Sketch, i: nat, q: nat, o: nat, val: int, o2: nat, j: nat, k: nat)
    requires At(cf, s, i, q, o) && i < cf.depth
    requires 0 <= val && o2 < Slots(cf) && o2 != o && j < cf.depth && k < LayerLen(cf, j)
    ensures Slot(cf, CarryStep(cf, s, i, q, o, val).s.layers[j][k], o2) == Slot(cf, s.layers[j][k], o2)
    ensures CarryStep(cf, s, i, q, o, val).out >= 0
  {
    LayerHalf(cf, i - 1, q);
    var w := s.layers[i][q / 2];
    ParentWordLocal(cf, w, o, q % 2, val, o2);
  }

  /** `carry` of a non-negative value at offset `o` keeps counter `o2` of
      word `k` of layer `j`. */
  lemma {:induction false} CarryFromLocal(cf: Config, s: Sketch, i: nat, q: nat, o: nat, val: int, o2: nat, j: nat, k: nat)
    requires At(cf, s, i, q, o)
    requires 0 <= val && o2 < Slots(cf) && o2 != o && j < cf.depth && k < LayerLen(cf, j)
    requires CarryFrom(cf, s, i, q, o, val).Ok?
    ensures Slot(cf, CarryFrom(cf, s, i, q, o, val).value.layers[j][k], o2) == Slot(cf, s.layers[j][k], o2)
    decreases cf.depth - i
  {
    if i >= cf.depth {
      assert false;
    } else {
      LayerHalf(cf, i - 1, q);
      var st := CarryStep(cf, s, i, q, o, val);
      CarryStepLocal(cf, s, i, q, o, val, o2, j, k);
      if !st.done {
        CarryFromLocal(cf, st.s, i + 1, q / 2, o, st.out, o2, j, k);
      }
    }
  }

  /** Adding a non-negative value at offset `o` of a layer-0 word, carry
      included, keeps counter `o2` of word `k` of layer `j`. */
  lemma UpdateSlotLocalAt(cf: Config, s: Sketch, wi: nat, o: nat, val: int, o2: nat, j: nat, k: nat)
    requires WellFormed(cf) && Valid(cf, s) && wi < cf.wordNum && o < Slots(cf)
    requires 0 <= val && o2 < Slots(cf) && o2 != o && j < cf.depth && k < LayerLen(cf, j)
    requires UpdateSlot(cf, s, wi, o, val).Ok?
    ensures Slot(cf, UpdateSlot(cf, s, wi, o, val).value.layers[j][k], o2) == Slot(cf, s.layers[j][k], o2)
  {
    var w := s.layers[0][wi];
    var s1 := Put(cf, s, 0, wi, BaseWord(cf, w, o, val));
    BaseWordLocal(cf, w, o, val, o2);
    UpdateSlotSplit(cf, s, wi, o, val);
    NonNegDiv(Slot(cf, w, o) + val, Base(cf));
    SplitLocal(cf, s, s1, wi, o, (Slot(cf, w, o) + val) / Base(cf), Overflows(cf, w, o, val),
      UpdateSlot(cf, s, wi, o, val), o2, j, k);
  }

  /** Whichever way `UpdateSlot` went, it kept counter `o2` of word `k` of
      layer `j` if the stored layer-0 word did. */
  lemma SplitLocal(cf: Config, s: Sketch, s1: Sketch, wi: nat, o: nat, c: int, over: bool, r: Result<Sketch>,
                   o2: nat, j: nat, k: nat)
    requires At(cf, s1, 1, wi, o) && Valid(cf, s) && 0 <= c
    requires o2 < Slots(cf) && o2 != o && j < cf.depth && k < LayerLen(cf, j)
    requires !over ==> r == Ok(s1)
    requires over ==> r == CarryFrom(cf, s1, 1, wi, o, c)
    requires r.Ok? && Valid(cf, r.value)
    requires Slot(cf, s1.layers[j][k], o2) == Slot(cf, s.layers[j][k], o2)
    ensures Slot(cf, r.value.layers[j][k], o2) == Slot(cf, s.layers[j][k], o2)
  {
    if over {
      CarryFromLocal(cf, s1, 1, wi, o, c, o2, j, k);
    }
  }

  /** Adding a non-negative value at offset `o` of a layer-0 word, carry
      included, keeps every other counter position of the sketch. */
  lemma UpdateSlotLocal(cf: Config, s: Sketch, wi: nat, o: nat, val: int, o2: nat)
    requires WellFormed(cf) && Valid(cf, s) && wi < cf.wordNum && o < Slots(cf)
    requires 0 <= val && o2 < Slots(cf) && o2 != o
    requires UpdateSlot(cf, s, wi, o, val).Ok?
    ensures SameSlot(cf, s, UpdateSlot(cf, s, wi, o, val).value, o2)
  {
    forall j, k | 0 <= j < cf.depth && 0 <= k < LayerLen(cf, j)
      ensures Slot(cf, UpdateSlot(cf, s, wi, o, val).value.layers[j][k], o2) == Slot(cf, s.layers[j][k], o2)
    {
      UpdateSlotLocalAt(cf, s, wi, o, val, o2, j, k);
    }
  }

  // ---------------------------------------------------------------------
  // A counter reads back what was added to it

  /** Counter `o` is empty in every word from layer `i` up. */
  ghost predicate ZeroFrom(cf: Config, s: Sketch, i: nat, o: nat)
    requires Valid(cf, s)
  {
    forall j, q :: i <= j < cf.depth && 0 <= q < LayerLen(cf, j) ==> Slot(cf, s.layers[j][q], o) == 0
  }

  /** A parent counter holding this child's flag and count `x` adds `x`
      units of its layer's weight to what the layers above add. */
  lemma GetValueFlagged(cf: Config, s: Sketch, i: nat, q: nat, o: nat, x: nat)
    requires At(cf, s, i, q, o) && i < cf.depth
    requires x < HighBase(cf) && CBits(cf) >= 2
    requires q / 2 < LayerLen(cf, i) && Slot(cf, s.layers[i][q / 2], o) == Pow(2, CBits(cf) - 2 + q % 2) + x
    ensures GetValueFrom(cf, s, i, q, o) == x * Weight(cf, i) + GetValueFrom(cf, s, i + 1, q / 2, o)
  {
    LayerHalf(cf, i - 1, q);
    var value := Slot(cf, s.layers[i][q / 2], o);
    assert Climbs(cf, value, q % 2) && Count(cf, value, q % 2) == x by {
      FlaggedCount(cf, q % 2, x);
    }
    assert GetValueFrom(cf, s, i, q, o) ==
      Count(cf, value, q % 2) * Weight(cf, i) + GetValueFrom(cf, s, i + 1, q / 2, o);
  }

  /** A pass of `carry` into an empty parent counter: the loop returns
      exactly when the carry fits the count bits, the rest climbs on, and
      the layers above stay empty. */
  lemma CarryStepNext(cf: Config, s: Sketch, i: nat, q: nat, o: nat, val: int)
    requires At(cf, s, i, q, o) && i < cf.depth
    requires ZeroFrom(cf, s, i, o) && 0 <= val
    ensures q / 2 < LayerLen(cf, i) && At(cf, CarryStep(cf, s, i, q, o, val).s, i + 1, q / 2, o)
    ensures CarryStep(cf, s, i, q, o, val).done <==> val < HighBase(cf)
    ensures CarryStep(cf, s, i, q, o, val).out == val / HighBase(cf) >= 0
    ensures ZeroFrom(cf, CarryStep(cf, s, i, q, o, val).s, i + 1, o)
  {
    LayerHalf(cf, i - 1, q);
    var w := s.layers[i][q / 2];
    assert (CarryFits(cf, w, o, q % 2, val) <==> val < HighBase(cf)) &&
      CarryOut(cf, w, o, q % 2, val) == val / HighBase(cf) by {
      ParentWordZero(cf, w, o, q % 2, val);
    }
    NonNegDiv(val, HighBase(cf));
  }

  /** A pass of `carry` into an empty parent counter leaves this child's
      flag and the low bits of the carry there. */
  lemma CarryStepExact(cf: Config, s: Sketch, i: nat, q: nat, o: nat, val: int)
    requires At(cf, s, i, q, o) && i < cf.depth
    requires ZeroFrom(cf, s, i, o) && 0 <= val
    ensures q / 2 < LayerLen(cf, i) && CBits(cf) >= 2
    ensures Slot(cf, CarryStep(cf, s, i, q, o, val).s.layers[i][q / 2], o) ==
      Pow(2, CBits(cf) - 2 + q % 2) + val % HighBase(cf)
  {
    LayerHalf(cf, i - 1, q);
    var w := s.layers[i][q / 2];
    ParentWordZero(cf, w, o, q % 2, val);
  }

  /** A layer weighs `2^(c - 2)` of the layer below. */
  lemma WeightStep(cf: Config, i: nat)
    requires WellFormed(cf) && i >= 1
    ensures Weight(cf, i + 1) == Weight(cf, i) * HighBase(cf)
  {
    var h := HighBase(cf);
    assert Pow(h, i) == h * Pow(h, i - 1);
    MulAssoc(Base(cf), Pow(h, i - 1), h);
  }

  /** Splitting a value into a remainder and a quotient at two adjacent
      weights loses nothing. */
  lemma SplitWeighted(v: int, h: nat, w: int)
    requires h > 0
    ensures (v % h) * w + (v / h) * (w * h) == v * w
  {
    var a := v / h;
    var b := v % h;
    assert v == a * h + b;
    assert a * (w * h) == (a * h) * w;
    assert (a * h + b) * w == (a * h) * w + b * w;
  }

  /** `CarryExact` when the carry fits the first parent. */
  lemma CarryExactFits(cf: Config, s: Sketch, i: nat, q: nat, o: nat, val: int)
    requires At(cf, s, i, q, o) && i < cf.depth
    requires ZeroFrom(cf, s, i, o) && 0 <= val < HighBase(cf)
    ensures CarryFrom(cf, s, i, q, o, val).Ok?
    ensures GetValueFrom(cf, CarryFrom(cf, s, i, q, o, val).value, i, q, o) == val * Weight(cf, i)
  {
    LayerHalf(cf, i - 1, q);
    CarryStepNext(cf, s, i, q, o, val);
    var r := CarryStep(cf, s, i, q, o, val).s;
    assert CarryFrom(cf, s, i, q, o, val) == Ok(r);
    assert GetValueFrom(cf, r, i, q, o) == val * Weight(cf, i) by {
      CarryStepExact(cf, s, i, q, o, val);
      ModUnique(val, HighBase(cf), 0, val);
      GetValueFlagged(cf, r, i, q, o, val);
    }
  }

  /** `CarryExact` when the carry climbs past the first parent, given what
      the layers above read back. */
  lemma CarryExactClimbs(cf: Config, s: Sketch, i: nat, q: nat, o: nat, val: int)
    requires At(cf, s, i, q, o) && i < cf.depth
    requires ZeroFrom(cf, s, i, o) && HighBase(cf) <= val && q / 2 < LayerLen(cf, i)
    requires CarryFrom(cf, CarryStep(cf, s, i, q, o, val).s, i + 1, q / 2, o, val / HighBase(cf)).Ok?
    requires GetValueFrom(cf, CarryFrom(cf, CarryStep(cf, s, i, q, o, val).s, i + 1, q / 2, o, val / HighBase(cf)).value, i + 1, q / 2, o)
      == (val / HighBase(cf)) * Weight(cf, i + 1)
    ensures CarryFrom(cf, s, i, q, o, val).Ok?
    ensures GetValueFrom(cf, CarryFrom(cf, s, i, q, o, val).value, i, q, o) == val * Weight(cf, i)
  {
    var h := HighBase(cf);
    var st := CarryStep(cf, s, i, q, o, val);
    CarryStepNext(cf, s, i, q, o, val);
    assert CarryFrom(cf, s, i, q, o, val) == CarryFrom(cf, st.s, i + 1, q / 2, o, val / h);
    var r := CarryFrom(cf, s, i, q, o, val).value;
    var w := Weight(cf, i);
    var g1 := GetValueFrom(cf, r, i + 1, q / 2, o);
    assert g1 == (val / h) * (w * h) by {
      WeightStep(cf, i);
    }
    assert GetValueFrom(cf, r, i, q, o) == (val % h) * w + g1 by {
      assert r.layers[i] == st.s.layers[i];
      CarryStepExact(cf, s, i, q, o, val);
      GetValueFlagged(cf, r, i, q, o, val % h);
    }
    SplitWeighted(val, h, w);
  }

  /** The arguments of a pass of `carry` or `get_value` at layer `i`:
      word `q` of layer `i - 1` and counter offset `o`. */
  predicate At(cf: Config, s: Sketch, i: nat, q: nat, o: nat)
  {
    WellFormed(cf) && Valid(cf, s) && 1 <= i && q < LayerLen(cf, i - 1) && o < Slots(cf)
  }

  /** `carry` of a non-negative value into empty parents that succeeds is
      read back exactly by `get_value`: `val` units of layer `i`. */
  lemma {:induction false} CarryExact(cf: Config, s: Sketch, i: nat, q: nat, o: nat, val: int)
    requires At(cf, s, i, q, o) && ZeroFrom(cf, s, i, o) && 0 <= val
    requires CarryFrom(cf, s, i, q, o, val).Ok?
    ensures GetValueFrom(cf, CarryFrom(cf, s, i, q, o, val).value, i, q, o) == val * Weight(cf, i)
    decreases cf.depth - i
  {
    if i >= cf.depth {
      assert false;
    } else if val < HighBase(cf) {
      CarryExactFits(cf, s, i, q, o, val);
    } else {
      var h := HighBase(cf);
      var st := CarryStep(cf, s, i, q, o, val);
      CarryStepNext(cf, s, i, q, o, val);
      assert CarryFrom(cf, s, i, q, o, val) == CarryFrom(cf, st.s, i + 1, q / 2, o, val / h);
      CarryExact(cf, st.s, i + 1, q / 2, o, val / h);
      CarryExactClimbs(cf, s, i, q, o, val);
    }
  }

  /** Quotient and product bound each other. */
  lemma DivLt(v: int, h: nat, p: int)
    requires h > 0 && v >= 0
    ensures v / h < p <==> v < h * p
  {
    var a := v / h;
    assert v == h * a + v % h;
    if a < p {
      assert h * a + h == h * (a + 1);
      MulLeq(a + 1, p, h);
      assert (a + 1) * h == h * (a + 1) && p * h == h * p;
    } else if p >= 0 {
      MulLeq(p, a, h);
      assert p * h == h * p && a * h == h * a;
    } else {
      assert h * p < 0;
    }
  }

  /** The arithmetic of `CarryOkClimbs`: a value past one layer fits the
      `n` layers from here exactly when its quotient fits the `n - 1` above. */
  lemma ClimbArith(val: int, h: nat, n: nat)
    requires h > 0 && h <= val && n >= 1
    ensures (n >= 2 && val / h < Pow(h, n - 1)) <==> val < Pow(h, n)
  {
    assert Pow(h, n) == h * Pow(h, n - 1);
    if n >= 2 {
      DivLt(val, h, Pow(h, n - 1));
    } else {
      assert Pow(h, n - 1) == 1;
    }
  }

  /** The arithmetic of `UpdateSlotOkZero`: a value past layer 0 fits the
      capacity exactly when its carry fits the `n` layers above. */
  lemma CapArith(val: int, b: nat, p: nat, n: nat)
    requires b > 0 && b <= val && (n == 0 ==> p == 1)
    ensures (n >= 1 && val / b < p) <==> val < b * p
  {
    DivLt(val, b, p);
  }

  /** `CarryOkZero` when the carry fits the first parent. */
  lemma CarryOkFits(cf: Config, s: Sketch, i: nat, q: nat, o: nat, val: int)
    requires At(cf, s, i, q, o) && i < cf.depth
    requires ZeroFrom(cf, s, i, o) && 0 <= val < HighBase(cf)
    ensures CarryFrom(cf, s, i, q, o, val).Ok?
    ensures val < Pow(HighBase(cf), cf.depth - i)
  {
    CarryStepNext(cf, s, i, q, o, val);
    var h := HighBase(cf);
    assert h <= Pow(h, cf.depth - i) by {
      PowMono(h, 1, cf.depth - i);
      assert Pow(h, 1) == h;
    }
  }

  /** `CarryOkZero` when the carry climbs past the first parent, given when
      the layers above succeed. */
  lemma CarryOkClimbs(cf: Config, s: Sketch, i: nat, q: nat, o: nat, val: int)
    requires At(cf, s, i, q, o) && i < cf.depth && q / 2 < LayerLen(cf, i)
    requires ZeroFrom(cf, s, i, o) && HighBase(cf) <= val
    requires CarryFrom(cf, CarryStep(cf, s, i, q, o, val).s, i + 1, q / 2, o, val / HighBase(cf)).Ok?
      <==> i + 1 < cf.depth && val / HighBase(cf) < Pow(HighBase(cf), cf.depth - (i + 1))
    ensures CarryFrom(cf, s, i, q, o, val).Ok? <==> val < Pow(HighBase(cf), cf.depth - i)
  {
    var h := HighBase(cf);
    var st := CarryStep(cf, s, i, q, o, val);
    CarryStepNext(cf, s, i, q, o, val);
    assert CarryFrom(cf, s, i, q, o, val) == CarryFrom(cf, st.s, i + 1, q / 2, o, val / h);
    ClimbArith(val, h, cf.depth - i);
  }

  /** `carry` of a non-negative value into empty parents succeeds exactly
      when the value fits the layers from `i` up. */
  lemma {:induction false} CarryOkZero(cf: Config, s: Sketch, i: nat, q: nat, o: nat, val: int)
    requires At(cf, s, i, q, o) && ZeroFrom(cf, s, i, o) && 0 <= val
    ensures CarryFrom(cf, s, i, q, o, val).Ok? <==> i < cf.depth && val < Pow(HighBase(cf), cf.depth - i)
    decreases cf.depth - i
  {
    if i < cf.depth {
      if val < HighBase(cf) {
        CarryOkFits(cf, s, i, q, o, val);
      } else {
        var st := CarryStep(cf, s, i, q, o, val);
        CarryStepNext(cf, s, i, q, o, val);
        CarryOkZero(cf, st.s, i + 1, q / 2, o, val / HighBase(cf));
        CarryOkClimbs(cf, s, i, q, o, val);
      }
    }
  }

  /** Storing a new layer-0 word keeps the layers above empty. */
  lemma PutZeroAbove(cf: Config, s: Sketch, wi: nat, w: nat, o: nat)
    requires WellFormed(cf) && Valid(cf, s) && wi < |s.layers[0]| && w < Word64 && ZeroFrom(cf, s, 0, o)
    ensures ZeroFrom(cf, Put(cf, s, 0, wi, w), 1, o)
  {
  }

  /** Adding a value that overflows an empty layer-0 counter stores its low
      `c` bits there and carries the rest into layer 1, whose counter
      position is still empty. */
  lemma UpdateSlotCarriesZero(cf: Config, s: Sketch, wi: nat, o: nat, val: int)
    requires WellFormed(cf) && Valid(cf, s) && wi < cf.wordNum && o < Slots(cf)
    requires ZeroFrom(cf, s, 0, o) && Base(cf) <= val
    ensures var s1 := Put(cf, s, 0, wi, BaseWord(cf, s.layers[0][wi], o, val));
      && At(cf, s1, 1, wi, o)
      && ZeroFrom(cf, s1, 1, o)
      && Slot(cf, s1.layers[0][wi], o) == val % Base(cf)
      && UpdateSlot(cf, s, wi, o, val) == CarryFrom(cf, s1, 1, wi, o, val / Base(cf))
  {
    var w := s.layers[0][wi];
    var b := Base(cf);
    assert Slot(cf, w, o) == 0 by {
      LayerZero(cf);
    }
    assert Overflows(cf, w, o, val) && Slot(cf, BaseWord(cf, w, o, val), o) == val % b by {
      BaseWordZero(cf, w, o, val);
    }
    var s1 := Put(cf, s, 0, wi, BaseWord(cf, w, o, val));
    assert UpdateSlot(cf, s, wi, o, val) == Carry(cf, s1, Index(cf, wi, o), val / b);
    CarryAt(cf, s1, wi, o, val / b);
    PutZeroAbove(cf, s, wi, BaseWord(cf, w, o, val), o);
  }

  /** `UpdateSlotOkZero` when the value overflows the layer-0 counter. */
  lemma UpdateSlotOkCarries(cf: Config, s: Sketch, wi: nat, o: nat, val: int)
    requires WellFormed(cf) && Valid(cf, s) && wi < cf.wordNum && o < Slots(cf)
    requires ZeroFrom(cf, s, 0, o) && Base(cf) <= val
    ensures UpdateSlot(cf, s, wi, o, val).Ok? <==> val < Capacity(cf)
  {
    var s1 := Put(cf, s, 0, wi, BaseWord(cf, s.layers[0][wi], o, val));
    var b := Base(cf);
    var c := val / b;
    UpdateSlotCarriesZero(cf, s, wi, o, val);
    NonNegDiv(val, b);
    CarryOkZero(cf, s1, 1, wi, o, c);
    CapArith(val, b, Pow(HighBase(cf), cf.depth - 1), cf.depth - 1);
  }

  /** Adding a non-negative value to an empty counter position succeeds
      exactly when the value is below the capacity. */
  lemma UpdateSlotOkZero(cf: Config, s: Sketch, wi: nat, o: nat, val: int)
    requires WellFormed(cf) && Valid(cf, s) && wi < cf.wordNum && o < Slots(cf)
    requires ZeroFrom(cf, s, 0, o) && 0 <= val
    ensures UpdateSlot(cf, s, wi, o, val).Ok? <==> val < Capacity(cf)
  {
    var b := Base(cf);
    if val < b {
      assert !Overflows(cf, s.layers[0][wi], o, val) by {
        BaseWordZero(cf, s.layers[0][wi], o, val);
      }
      UpdateSlotSplit(cf, s, wi, o, val);
      var p := Pow(HighBase(cf), cf.depth - 1);
      assert b <= b * p by {
        MulLeq(1, p, b);
        MulComm(p, b);
      }
    } else {
      UpdateSlotOkCarries(cf, s, wi, o, val);
    }
  }

  /** `UpdateSlotExact` when the value fits the layer-0 counter. */
  lemma UpdateSlotExactFits(cf: Config, s: Sketch, wi: nat, o: nat, val: int)
    requires WellFormed(cf) && Valid(cf, s) && wi < cf.wordNum && o < Slots(cf)
    requires ZeroFrom(cf, s, 0, o) && 0 <= val < Base(cf)
    ensures UpdateSlot(cf, s, wi, o, val).Ok?
    ensures Estimate(cf, UpdateSlot(cf, s, wi, o, val).value, wi, o) == val
  {
    var w := s.layers[0][wi];
    var r := Put(cf, s, 0, wi, BaseWord(cf, w, o, val));
    assert !Overflows(cf, w, o, val) && Slot(cf, r.layers[0][wi], o) == val by {
      BaseWordZero(cf, w, o, val);
      ModUnique(val, Base(cf), 0, val);
    }
    UpdateSlotSplit(cf, s, wi, o, val);
    IndexSplit(cf, wi, o);
    PutZeroAbove(cf, s, wi, BaseWord(cf, w, o, val), o);
  }

  /** A layer-1 unit weighs one more than the largest layer-0 counter. */
  lemma WeightOne(cf: Config)
    requires WellFormed(cf)
    ensures Weight(cf, 1) == Base(cf)
  {
    assert Pow(HighBase(cf), 0) == 1;
  }

  /** `UpdateSlotExact` when the value overflows the layer-0 counter. */
  lemma UpdateSlotExactCarries(cf: Config, s: Sketch, wi: nat, o: nat, val: int)
    requires WellFormed(cf) && Valid(cf, s) && wi < cf.wordNum && o < Slots(cf)
    requires ZeroFrom(cf, s, 0, o) && Base(cf) <= val < Capacity(cf)
    ensures UpdateSlot(cf, s, wi, o, val).Ok?
    ensures Estimate(cf, UpdateSlot(cf, s, wi, o, val).value, wi, o) == val
  {
    var s1 := Put(cf, s, 0, wi, BaseWord(cf, s.layers[0][wi], o, val));
    var b := Base(cf);
    var c := val / b;
    UpdateSlotCarriesZero(cf, s, wi, o, val);
    NonNegDiv(val, b);
    assert CarryFrom(cf, s1, 1, wi, o, c).Ok? by {
      UpdateSlotOkCarries(cf, s, wi, o, val);
    }
    var r := CarryFrom(cf, s1, 1, wi, o, c).value;
    assert r.layers[0] == s1.layers[0];
    assert GetValueFrom(cf, r, 1, wi, o) == c * b by {
      CarryExact(cf, s1, 1, wi, o, c);
      WeightOne(cf);
    }
    assert Estimate(cf, r, wi, o) == val % b + c * b by {
      IndexSplit(cf, wi, o);
    }
    DivModSplit(val, b);
  }

  lemma DivModSplit(v: int, d: nat)
    requires d > 0
    ensures v == v % d + (v / d) * d
  {
  }

  /** Adding a non-negative value below the capacity to an empty counter
      position is read back exactly: the row's estimate becomes `val`. */
  lemma UpdateSlotExact(cf: Config, s: Sketch, wi: nat, o: nat, val: int)
    requires WellFormed(cf) && Valid(cf, s) && wi < cf.wordNum && o < Slots(cf)
    requires ZeroFrom(cf, s, 0, o) && 0 <= val < Capacity(cf)
    ensures UpdateSlot(cf, s, wi, o, val).Ok?
    ensures Estimate(cf, UpdateSlot(cf, s, wi, o, val).value, wi, o) == val
  {
    if val < Base(cf) {
      UpdateSlotExactFits(cf, s, wi, o, val);
    } else {
      UpdateSlotExactCarries(cf, s, wi, o, val);
    }
  }

  /** `get_value` only looks at counter position `o`. */
  lemma {:induction false} GetValueFromSame(cf: Config, s: Sketch, t: Sketch, i: nat, q: nat, o: nat)
    requires At(cf, s, i, q, o) && Valid(cf, t)
    requires SameSlot(cf, s, t, o)
    ensures GetValueFrom(cf, t, i, q, o) == GetValueFrom(cf, s, i, q, o)
    decreases cf.depth - i
  {
    if i < cf.depth {
      LayerHalf(cf, i - 1, q);
      assert Slot(cf, t.layers[i][q / 2], o) == Slot(cf, s.layers[i][q / 2], o);
      GetValueFromSame(cf, s, t, i + 1, q / 2, o);
    }
  }

  /** A row's estimate only looks at its counter position. */
  lemma EstimateSame(cf: Config, s: Sketch, t: Sketch, wi: nat, o: nat)
    requires WellFormed(cf) && Valid(cf, s) && Valid(cf, t) && wi < cf.wordNum && o < Slots(cf)
    requires SameSlot(cf, s, t, o)
    ensures Estimate(cf, t, wi, o) == Estimate(cf, s, wi, o)
  {
    IndexSplit(cf, wi, o);
    GetValueFromSame(cf, s, t, 1, wi, o);
  }

  /** What `update(key, val)` on a fresh sketch keeps while it walks the
      rows: a pending offset is still empty, a finished one reads `val`. */
  ghost predicate RowsInv(cf: Config, s: Sketch, wi: nat, val: int, pending: set<nat>)
    requires WellFormed(cf) && Valid(cf, s) && wi < cf.wordNum
  {
    forall o :: 0 <= o < Slots(cf) ==>
      (o in pending ==> ZeroFrom(cf, s, 0, o)) && (o !in pending ==> Estimate(cf, s, wi, o) == val)
  }

  /** One row of `UpdateRowsExact`: adding `val` at a pending offset keeps
      the invariant with that offset finished. */
  lemma RowStep(cf: Config, s: Sketch, wi: nat, o: nat, val: int, pending: set<nat>)
    requires WellFormed(cf) && Valid(cf, s) && wi < cf.wordNum && o < Slots(cf) && 0 <= val < Capacity(cf)
    requires RowsInv(cf, s, wi, val, pending) && o in pending
    ensures UpdateSlot(cf, s, wi, o, val).Ok?
    ensures RowsInv(cf, UpdateSlot(cf, s, wi, o, val).value, wi, val, pending - {o})
  {
    UpdateSlotExact(cf, s, wi, o, val);
    var s' := UpdateSlot(cf, s, wi, o, val).value;
    forall o2 | 0 <= o2 < Slots(cf)
      ensures (o2 in pending - {o} ==> ZeroFrom(cf, s', 0, o2)) &&
        (o2 !in pending - {o} ==> Estimate(cf, s', wi, o2) == val)
    {
      if o2 != o {
        UpdateSlotLocal(cf, s, wi, o, val, o2);
        EstimateSame(cf, s, s', wi, o2);
      }
    }
  }

  /** The rows of `update` from row `i` on, over a sketch that keeps
      `RowsInv`, succeed and leave every row's estimate at `val`. */
  lemma {:induction false} UpdateRowsExact(cf: Config, s: Sketch, key: FlowKey, val: int, i: nat, pending: set<nat>)
    requires WellFormed(cf) && Valid(cf, s) && 0 <= val < Capacity(cf)
    requires RowsInv(cf, s, WordIndex(cf, key), val, pending)
    requires forall j :: 0 <= j < i ==> Offset(cf, key, j) !in pending
    ensures UpdateRows(cf, s, key, val, i, pending).Ok?
    ensures forall j :: 0 <= j < cf.d ==>
      Estimate(cf, UpdateRows(cf, s, key, val, i, pending).value, WordIndex(cf, key), Offset(cf, key, j)) == val
    decreases cf.d - i
  {
    var wi := WordIndex(cf, key);
    if i < cf.d {
      var o := Offset(cf, key, i);
      if o !in pending {
        UpdateRowsExact(cf, s, key, val, i + 1, pending);
      } else {
        RowStep(cf, s, wi, o, val, pending);
        var s' := UpdateSlot(cf, s, wi, o, val).value;
        assert UpdateRows(cf, s, key, val, i, pending) == UpdateRows(cf, s', key, val, i + 1, pending - {o});
        UpdateRowsExact(cf, s', key, val, i + 1, pending - {o});
      }
    }
  }

  /** Every counter position of a fresh sketch is empty. */
  lemma InitZero(cf: Config, o: nat)
    requires WellFormed(cf)
    ensures ZeroFrom(cf, Init(cf), 0, o)
  {
    forall j, q | 0 <= j < cf.depth && 0 <= q < LayerLen(cf, j)
      ensures Slot(cf, Init(cf).layers[j][q], o) == 0
    {
      assert Init(cf).layers[j][q] == 0;
      ModUnique(0, Unit(cf, o), 0, 0);
      ModUnique(0, Base(cf), 0, 0);
    }
  }

  /** Update then query on a fresh sketch: a non-negative value below the
      capacity is stored and every row reads it back exactly, so the query
      answers it (capped at the starting minimum `1 << 30`). */
  lemma UpdateExact(cf: Config, key: FlowKey, val: int)
    requires WellFormed(cf) && 0 <= val < Capacity(cf)
    ensures Update(cf, Init(cf), key, val).Ok?
    ensures forall j :: 0 <= j < cf.d ==>
      Estimate(cf, Update(cf, Init(cf), key, val).value, WordIndex(cf, key), Offset(cf, key, j)) == val
    ensures cf.d >= 1 ==> Query(cf, Update(cf, Init(cf), key, val).value, key) == Min(val, MinSeed)
  {
    var wi := WordIndex(cf, key);
    forall o | 0 <= o < Slots(cf)
      ensures ZeroFrom(cf, Init(cf), 0, o)
    {
      InitZero(cf, o);
    }
    UpdateRowsExact(cf, Init(cf), key, val, 0, Below(Slots(cf)));
  }

  /** A value at or past the capacity overflows the top layer: `update`
      on a fresh sketch with at least one row fails with an overflow. */
  lemma UpdateOverflows(cf: Config, key: FlowKey, val: int)
    requires WellFormed(cf) && cf.d >= 1 && Capacity(cf) <= val
    ensures Update(cf, Init(cf), key, val) == Err(OverflowError)
  {
    var wi := WordIndex(cf, key);
    var o := Offset(cf, key, 0);
    InitZero(cf, o);
    UpdateSlotOkZero(cf, Init(cf), wi, o, val);
    assert o in Below(Slots(cf));
  }

  /** A cleared sketch answers 0 for every key that has a row. */
  lemma QueryClear(cf: Config, s: Sketch, key: FlowKey)
    requires WellFormed(cf) && Valid(cf, s) && cf.d >= 1
    ensures Query(cf, Clear(cf, s), key) == 0
  {
    var wi := WordIndex(cf, key);
    forall j | 0 <= j < cf.d
      ensures Estimate(cf, Clear(cf, s), wi, Offset(cf, key, j)) == 0
    {
      var o := Offset(cf, key, j);
      InitZero(cf, o);
      IndexSplit(cf, wi, o);
    }
  }
}
