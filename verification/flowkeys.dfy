/** Bit access on flow keys. Bit `pos` of a key is bit `pos % 8` of byte
    `pos / 8`, counting from the least significant bit of the byte, which is
    the layout `get_bit` and `set_bit` of the SketchLearn sketch spell out. */
module FlowKeys {
  import opened Common

  /** `1 << p` as a byte. */
  function Mask(p: nat): bv8
    requires p < 8
  {
    match p
    case 0 => 1
    case 1 => 2
    case 2 => 4
    case 3 => 8
    case 4 => 16
    case 5 => 32
    case 6 => 64
    case _ => 128
  }

  /** The table is the shift it stands for. */
  lemma MaskIsShift(p: nat)
    requires p < 8
    ensures Mask(p) == (1 as bv8) << (p as bv8)
  {
  }

  predicate ByteBit(b: bv8, p: nat)
    requires p < 8
  {
    b & Mask(p) != 0
  }

  function SetByteBit(b: bv8, p: nat, v: bool): (r: bv8)
    requires p < 8
    ensures ByteBit(r, p) == v
    ensures forall q :: 0 <= q < 8 && q != p ==> ByteBit(r, q) == ByteBit(b, q)
  {
    var r := if v then b | Mask(p) else b & !Mask(p);
    forall q | 0 <= q < 8 && q != p
      ensures ByteBit(r, q) == ByteBit(b, q)
    {
      OtherByteBit(b, p, v, q);
    }
    r
  }

  /** Setting or clearing one bit of a byte leaves another bit alone. */
  lemma OtherByteBit(b: bv8, p: nat, v: bool, q: nat)
    requires p < 8 && q < 8 && q != p
    ensures ByteBit(if v then b | Mask(p) else b & !Mask(p), q) == ByteBit(b, q)
  {
  }

  /** Two bytes that agree on all eight bits are equal. */
  lemma ByteExtensional(a: bv8, b: bv8)
    requires forall q :: 0 <= q < 8 ==> ByteBit(a, q) == ByteBit(b, q)
    ensures a == b
  {
    assert ByteBit(a, 0) == ByteBit(b, 0);
    assert ByteBit(a, 1) == ByteBit(b, 1);
    assert ByteBit(a, 2) == ByteBit(b, 2);
    assert ByteBit(a, 3) == ByteBit(b, 3);
    assert ByteBit(a, 4) == ByteBit(b, 4);
    assert ByteBit(a, 5) == ByteBit(b, 5);
    assert ByteBit(a, 6) == ByteBit(b, 6);
    assert ByteBit(a, 7) == ByteBit(b, 7);
  }

  /** `FlowKey::getBit(pos)`. */
  predicate GetBit(k: FlowKey, pos: nat)
    requires pos < 8 * |k|
  {
    ByteBit(k[pos / 8], pos % 8)
  }

  /** `FlowKey::setBit(pos, v)`: bit `pos` becomes `v`, every other bit is kept. */
  function SetBit(k: FlowKey, pos: nat, v: bool): (r: FlowKey)
    requires pos < 8 * |k|
    ensures |r| == |k|
    ensures GetBit(r, pos) == v
    ensures forall q :: 0 <= q < 8 * |k| && q != pos ==> GetBit(r, q) == GetBit(k, q)
  {
    var r := k[pos / 8 := SetByteBit(k[pos / 8], pos % 8, v)];
    assert forall q :: 0 <= q < 8 * |k| && q != pos && q / 8 == pos / 8 ==> q % 8 != pos % 8;
    r
  }

  /** `FlowKey<key_len> fk{}`: the all-zero key. */
  function ZeroKey(len: nat): (r: FlowKey)
    ensures |r| == len
    ensures forall q :: 0 <= q < 8 * len ==> !GetBit(r, q)
  {
    seq(len, _ => 0)
  }

  /** Two keys of one length that agree on every bit are the same key. */
  lemma KeyExtensional(a: FlowKey, b: FlowKey)
    requires |a| == |b|
    requires forall q :: 0 <= q < 8 * |a| ==> GetBit(a, q) == GetBit(b, q)
    ensures a == b
  {
    forall i | 0 <= i < |a|
      ensures a[i] == b[i]
    {
      forall p | 0 <= p < 8
        ensures ByteBit(a[i], p) == ByteBit(b[i], p)
      {
        var q := 8 * i + p;
        assert q / 8 == i && q % 8 == p;
        assert GetBit(a, q) == GetBit(b, q);
      }
      ByteExtensional(a[i], b[i]);
    }
  }
}
