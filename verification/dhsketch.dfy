/** DHSketch: `bucketNum` nodes, each a 32-byte array `heavy` shared by
    three kinds of entry and a `usage` word saying how the bytes are split.
    Level-2 entries (2 bytes: an 8-bit fingerprint and an 8-bit count) come
    first, level-3 entries (3 bytes: a 12-bit fingerprint and a 12-bit
    count) next, level-4 entries (4 bytes: a 16-bit fingerprint and a 16-bit
    count) last. A key is sent to bucket `hash % bucketNum` with the 16-bit
    fingerprint of the same hash. `insert` adds one packet to the first
    matching entry, searching level 4, then 3, then 2, and hands a saturated
    or missing entry to `levelup`; `query` returns the first match's count.

    `levelup` draws `rand()` and compares against `pow`; it is a parameter
    here, only trusted to keep a node well-formed. */
module DHSketch {
  import opened Common

  // ----- The fingerprint -----

  /** The MurmurHash3 `fmix32` finaliser on `unsigned int`, so both
      multiplications wrap modulo 2^32. Zero is its fixed point. */
  function Mix(h0: bv32): (r: bv32)
    ensures h0 == 0 ==> r == 0
  {
    var h1 := h0 ^ (h0 >> 16);
    var h2 := h1 * 0x85ebca6b;
    var h3 := h2 ^ (h2 >> 13);
    var h4 := h3 * 0xc2b2ae35;
    h4 ^ (h4 >> 16)
  }

  /** `DHSFingerPrint(hash)`: the low 16 bits of the mixed hash, as the
      `ushort` it returns. A zero hash has the zero fingerprint. */
  function FingerPrint(h: bv32): (f: bv16)
    ensures h == 0 ==> f == 0
  {
    (Mix(h) & 0xFFFF) as bv16
  }

  // ----- A node -----

  type Byte = b: int | 0 <= b < 256

  /** `landa_h`: the bytes of every node. */
  const LandaH: nat := 32

  datatype Node = Node(heavy: seq<Byte>, usage: nat)

  /** `num3 = (usage >> 8) & 15`: the level-3 entries. */
  function Num3(u: nat): (k: nat)
    ensures k < 16
  {
    (u / 0x100) % 16
  }

  /** `num4 = (usage >> 16) & 15`: the level-4 entries. */
  function Num4(u: nat): (k: nat)
    ensures k < 16
  {
    (u / 0x1_0000) % 16
  }

  /** `num2 = 16 - num4 * 2 - num3 * 3 / 2`: the level-2 entries, which the
      node keeps implicit. It goes negative once the other two levels
      claim more than the 32 bytes. */
  function Num2(u: nat): int
  {
    16 - Num4(u) * 2 - Num3(u) * 3 / 2
  }

  /** The three regions always account for 32 bytes plus one for an odd
      `num3`: a level-3 pair takes the room of three level-2 entries, and
      a lone level-3 entry rounds the wrong way. */
  lemma LayoutSpan(u: nat)
    ensures 2 * Num2(u) + 3 * Num3(u) + 4 * Num4(u) == LandaH + Num3(u) % 2
  {
  }

  /** A node whose regions tile its bytes. `levelup` only ever adds level-3
      entries in pairs and only while `num2` stays positive, so every node
      it builds is of this shape; `insert` and `query` read outside the
      array for any other. */
  predicate NodeOk(n: Node)
  {
    |n.heavy| == LandaH && Num3(n.usage) % 2 == 0 && Num2(n.usage) >= 0
  }

  datatype Level = L2 | L3 | L4

  /** The bytes of one entry of the level. */
  function Stride(lv: Level): (w: nat)
    ensures 2 <= w <= 4
  {
    match lv
    case L2 => 2
    case L3 => 3
    case L4 => 4
  }

  /** The largest count an entry of the level holds. */
  function Cap(lv: Level): nat
  {
    match lv
    case L2 => 0xFF
    case L3 => 0xFFF
    case L4 => 0xFFFF
  }

  /** The number `levelup` is called with when an entry of the level is
      full. */
  function Promotion(lv: Level): nat
  {
    match lv
    case L2 => 2
    case L3 => 3
    case L4 => 4
  }

  /** The part of the 16-bit fingerprint an entry of the level keeps:
      `f & 255`, `f & 4095` or all of `f`. */
  function Tag(lv: Level, f: nat): nat
  {
    match lv
    case L2 => f % 0x100
    case L3 => f % 0x1000
    case L4 => f
  }

  /** The number of entries of the level. */
  function Slots(u: nat, lv: Level): nat
    requires Num2(u) >= 0
  {
    match lv
    case L2 => Num2(u) as nat
    case L3 => Num3(u)
    case L4 => Num4(u)
  }

  /** The first byte of the level's region: `0`, `num2 * 2` and
      `num2 * 2 + num3 * 3`. */
  function Start(u: nat, lv: Level): nat
    requires Num2(u) >= 0
  {
    match lv
    case L2 => 0
    case L3 => 2 * Num2(u)
    case L4 => 2 * Num2(u) + 3 * Num3(u)
  }

  /** The first byte of entry `e` of the level. */
  function Pos(u: nat, lv: Level, e: nat): nat
    requires Num2(u) >= 0
  {
    match lv
    case L2 => Start(u, lv) + 2 * e
    case L3 => Start(u, lv) + 3 * e
    case L4 => Start(u, lv) + 4 * e
  }

  /** In a well-formed node every entry lies inside its level's region,
      and the regions follow each other up to the last byte. */
  lemma EntryInside(n: Node, lv: Level, e: nat)
    requires NodeOk(n) && e < Slots(n.usage, lv)
    ensures Start(n.usage, lv) <= Pos(n.usage, lv, e)
    ensures Pos(n.usage, lv, e) + Stride(lv) <= Start(n.usage, lv) + Stride(lv) * Slots(n.usage, lv) <= LandaH
  {
    LayoutSpan(n.usage);
  }

  /** Two different entries of a well-formed node share no byte. */
  lemma EntriesDisjoint(n: Node, lv: Level, e: nat, lv2: Level, e2: nat)
    requires NodeOk(n) && e < Slots(n.usage, lv) && e2 < Slots(n.usage, lv2)
    requires lv != lv2 || e != e2
    ensures Pos(n.usage, lv, e) + Stride(lv) <= Pos(n.usage, lv2, e2) ||
            Pos(n.usage, lv2, e2) + Stride(lv2) <= Pos(n.usage, lv, e)
  {
    EntryInside(n, lv, e);
    EntryInside(n, lv2, e2);
  }

  /** The fingerprint stored in the entry of the level at byte `p`:
      `heavy[p]`, `heavy[p] << 4 | heavy[p + 1] >> 4` or
      `heavy[p] << 8 | heavy[p + 1]`. */
  function FpAt(h: seq<Byte>, lv: Level, p: nat): nat
    requires p + Stride(lv) <= |h|
  {
    match lv
    case L2 => h[p] as nat
    case L3 => (h[p] as nat) * 0x10 + (h[p + 1] as nat) / 0x10
    case L4 => (h[p] as nat) * 0x100 + h[p + 1] as nat
  }

  /** The count stored in the entry of the level at byte `p`: `heavy[p + 1]`,
      `(heavy[p + 1] & 15) << 8 | heavy[p + 2]` or
      `heavy[p + 2] << 8 | heavy[p + 3]`. */
  function CountAt(h: seq<Byte>, lv: Level, p: nat): (c: nat)
    requires p + Stride(lv) <= |h|
    ensures c <= Cap(lv)
  {
    match lv
    case L2 => h[p + 1] as nat
    case L3 => (h[p + 1] as nat % 0x10) * 0x100 + h[p + 2] as nat
    case L4 => (h[p + 2] as nat) * 0x100 + h[p + 3] as nat
  }

  /** An entry's fields read only the entry's own bytes. */
  lemma FieldsFrame(h: seq<Byte>, h2: seq<Byte>, lv: Level, p: nat)
    requires p + Stride(lv) <= |h| && p + Stride(lv) <= |h2|
    requires forall q :: p <= q < p + Stride(lv) ==> h2[q] == h[q]
    ensures FpAt(h2, lv, p) == FpAt(h, lv, p) && CountAt(h2, lv, p) == CountAt(h, lv, p)
  {
    assert h2[p] == h[p] && h2[p + 1] == h[p + 1];
    if lv != L2 {
      assert h2[p + 2] == h[p + 2];
    }
    if lv == L4 {
      assert h2[p + 3] == h[p + 3];
    }
  }

  /** The fingerprint of entry `e` of the level. */
  function EntryFp(n: Node, lv: Level, e: nat): nat
    requires NodeOk(n) && e < Slots(n.usage, lv)
  {
    EntryInside(n, lv, e);
    FpAt(n.heavy, lv, Pos(n.usage, lv, e))
  }

  /** The count of entry `e` of the level. */
  function EntryCount(n: Node, lv: Level, e: nat): (c: nat)
    requires NodeOk(n) && e < Slots(n.usage, lv)
    ensures c <= Cap(lv)
  {
    EntryInside(n, lv, e);
    CountAt(n.heavy, lv, Pos(n.usage, lv, e))
  }

  /** The fingerprints of the level's entries, in entry order. */
  function Fps(n: Node, lv: Level): (s: seq<nat>)
    requires NodeOk(n)
    ensures |s| == Slots(n.usage, lv)
    ensures forall e :: 0 <= e < |s| ==> s[e] == EntryFp(n, lv, e)
  {
    seq(Slots(n.usage, lv), e requires 0 <= e < Slots(n.usage, lv) => EntryFp(n, lv, e))
  }

  /** The loop of `insert` and `query` over entries `e ..` of one level,
      given the level's fingerprints: the first whose fingerprint is `t`,
      if any. */
  function Find(fps: seq<nat>, e: nat, t: nat): (r: Option<nat>)
    requires e <= |fps|
    ensures r.Some? ==> e <= r.value < |fps| && fps[r.value] == t
    ensures r.Some? ==> forall e2 :: e <= e2 < r.value ==> fps[e2] != t
    ensures r.None? <==> forall e2 :: e <= e2 < |fps| ==> fps[e2] != t
    decreases |fps| - e
  {
    if e == |fps| then None
    else if fps[e] == t then Some(e)
    else Find(fps, e + 1, t)
  }

  /** An entry: its level and its number within the level. */
  datatype Hit = Hit(lv: Level, e: nat)

  /** The first matching entry of one level. */
  function FindIn(n: Node, lv: Level, f: nat): (r: Option<Hit>)
    requires NodeOk(n)
    ensures r.Some? ==> r.value.lv == lv && r.value.e < Slots(n.usage, lv) && EntryFp(n, lv, r.value.e) == Tag(lv, f)
    ensures r.None? <==> forall e :: 0 <= e < Slots(n.usage, lv) ==> EntryFp(n, lv, e) != Tag(lv, f)
  {
    match Find(Fps(n, lv), 0, Tag(lv, f))
    case None => None
    case Some(e) => Some(Hit(lv, e))
  }

  /** The entry `insert` and `query` settle on: the first match in level 4,
      else the first in level 3, else the first in level 2. */
  function Locate(n: Node, f: nat): (r: Option<Hit>)
    requires NodeOk(n)
    ensures r.Some? ==> r.value.e < Slots(n.usage, r.value.lv) && EntryFp(n, r.value.lv, r.value.e) == Tag(r.value.lv, f)
    ensures r.Some? && r.value.lv != L4 ==> forall e :: 0 <= e < Num4(n.usage) ==> EntryFp(n, L4, e) != Tag(L4, f)
    ensures r.Some? && r.value.lv == L2 ==> forall e :: 0 <= e < Num3(n.usage) ==> EntryFp(n, L3, e) != Tag(L3, f)
    ensures r.None? <==> forall lv, e :: 0 <= e < Slots(n.usage, lv) ==> EntryFp(n, lv, e) != Tag(lv, f)
  {
    match FindIn(n, L4, f)
    case Some(hit) => Some(hit)
    case None =>
      match FindIn(n, L3, f)
      case Some(hit) => Some(hit)
      case None =>
        FindIn(n, L2, f)
  }

  /** `DHSNode::query(f, hash)`: the count of the matching entry, 0 when no
      entry matches. */
  function QueryNode(n: Node, f: nat): (q: nat)
    requires NodeOk(n)
    ensures q <= Cap(L4)
    ensures Locate(n, f).Some? ==> q <= Cap(Locate(n, f).value.lv)
    ensures Locate(n, f).None? ==> q == 0
  {
    match Locate(n, f)
    case None => 0
    case Some(hit) => EntryCount(n, hit.lv, hit.e)
  }

  /** The byte tests by which `insert` decides an entry can still count:
      a level-4 entry unless both count bytes are 255, a level-3 entry
      unless its count byte is 255 and its count nibble 15, a level-2
      entry while its count byte is below 255. */
  predicate Room(h: seq<Byte>, lv: Level, p: nat)
    requires p + Stride(lv) <= |h|
  {
    match lv
    case L4 => h[p + 3] < 0xFF || h[p + 2] != 0xFF
    case L3 => h[p + 2] < 0xFF || h[p + 1] % 0x10 != 0xF
    case L2 => h[p + 1] < 0xFF
  }

  /** The byte tests say exactly that the entry's count is below its cap. */
  lemma RoomIsBelowCap(h: seq<Byte>, lv: Level, p: nat)
    requires p + Stride(lv) <= |h|
    ensures Room(h, lv, p) <==> CountAt(h, lv, p) < Cap(lv)
  {
  }

  /** Raising a byte whose low nibble is below 15 raises that nibble and
      keeps the high one. */
  lemma NibbleCarry(b: nat)
    requires b < 0x100 && b % 0x10 != 0xF
    ensures (b + 1) / 0x10 == b / 0x10 && (b + 1) % 0x10 == b % 0x10 + 1
  {
  }

  /** The in-place increment of `insert`: the low count byte goes up by one,
      or, when it is 255, it wraps to 0 and the byte (or nibble) above it
      goes up by one. */
  function BumpBytes(h: seq<Byte>, lv: Level, p: nat): (r: seq<Byte>)
    requires p + Stride(lv) <= |h| && Room(h, lv, p)
    ensures |r| == |h|
    ensures CountAt(r, lv, p) == CountAt(h, lv, p) + 1
    ensures FpAt(r, lv, p) == FpAt(h, lv, p)
    ensures forall q :: 0 <= q < |h| && (q < p || p + Stride(lv) <= q) ==> r[q] == h[q]
  {
    match lv
    case L4 =>
      if h[p + 3] < 0xFF then h[p + 3 := h[p + 3] + 1]
      else h[p + 2 := h[p + 2] + 1][p + 3 := 0]
    case L3 =>
      if h[p + 2] < 0xFF then h[p + 2 := h[p + 2] + 1]
      else
        NibbleCarry(h[p + 1] as nat);
        h[p + 1 := h[p + 1] + 1][p + 2 := 0]
    case L2 => h[p + 1 := h[p + 1] + 1]
  }

  /** The node after the in-place increment of one of its entries. */
  function Bump(n: Node, hit: Hit): (r: Node)
    requires NodeOk(n) && hit.e < Slots(n.usage, hit.lv)
    requires Room(n.heavy, hit.lv, Pos(n.usage, hit.lv, hit.e))
    ensures NodeOk(r) && r.usage == n.usage
  {
    EntryInside(n, hit.lv, hit.e);
    n.(heavy := BumpBytes(n.heavy, hit.lv, Pos(n.usage, hit.lv, hit.e)))
  }

  /** `levelup(level, f)`: replaces the node. */
  type Promote = (Node, nat, nat) -> Node

  /** `levelup` keeps a well-formed node well-formed. */
  ghost predicate KeepsShape(lu: Promote)
  {
    forall n: Node, level: nat, f: nat {:trigger lu(n, level, f)} :: NodeOk(n) ==> NodeOk(lu(n, level, f))
  }

  /** `DHSNode::insert(f, hash)`. A matching entry with room counts the
      packet in place. A full level-4 entry calls `levelup(4)`, whose
      `switch` has no such case, so nothing changes; a full level-3 or
      level-2 entry is handed to `levelup(3)` or `levelup(2)`; with no match
      `levelup(1)` makes room for the key. */
  function Insert(n: Node, f: nat, lu: Promote): (r: Node)
    requires NodeOk(n)
    ensures Locate(n, f).None? ==> r == lu(n, 1, f)
    ensures KeepsShape(lu) ==> NodeOk(r)
  {
    match Locate(n, f)
    case None => lu(n, 1, f)
    case Some(hit) =>
      EntryInside(n, hit.lv, hit.e);
      if Room(n.heavy, hit.lv, Pos(n.usage, hit.lv, hit.e)) then Bump(n, hit)
      else if hit.lv == L4 then n
      else lu(n, Promotion(hit.lv), f)
  }

  /** Counting in place moves no fingerprint, and changes no count but the
      one it raises by one. */
  lemma BumpFrame(n: Node, hit: Hit)
    requires NodeOk(n) && hit.e < Slots(n.usage, hit.lv)
    requires Room(n.heavy, hit.lv, Pos(n.usage, hit.lv, hit.e))
    ensures forall lv, e :: 0 <= e < Slots(n.usage, lv) ==> EntryFp(Bump(n, hit), lv, e) == EntryFp(n, lv, e)
    ensures forall lv, e :: 0 <= e < Slots(n.usage, lv) ==>
      EntryCount(Bump(n, hit), lv, e) == EntryCount(n, lv, e) + (if lv == hit.lv && e == hit.e then 1 else 0)
  {
    var r := Bump(n, hit);
    forall lv, e | 0 <= e < Slots(n.usage, lv)
      ensures EntryFp(r, lv, e) == EntryFp(n, lv, e)
      ensures EntryCount(r, lv, e) == EntryCount(n, lv, e) + (if lv == hit.lv && e == hit.e then 1 else 0)
    {
      EntryInside(n, lv, e);
      EntryInside(n, hit.lv, hit.e);
      if lv != hit.lv || e != hit.e {
        EntriesDisjoint(n, lv, e, hit.lv, hit.e);
        FieldsFrame(n.heavy, r.heavy, lv, Pos(n.usage, lv, e));
      }
    }
  }

  /** The search only looks at fingerprints: two nodes of the same shape
      whose entries carry the same fingerprints settle on the same entry. */
  lemma LocateSame(n: Node, n2: Node, f: nat)
    requires NodeOk(n) && NodeOk(n2) && n2.usage == n.usage
    requires forall lv, e :: 0 <= e < Slots(n.usage, lv) ==> EntryFp(n2, lv, e) == EntryFp(n, lv, e)
    ensures Locate(n2, f) == Locate(n, f)
  {
    assert Fps(n2, L4) == Fps(n, L4);
    assert Fps(n2, L3) == Fps(n, L3);
    assert Fps(n2, L2) == Fps(n, L2);
  }

  /** Inserting a key whose entry has room raises by one the answer of
      every key that settles on the same entry, the key itself included,
      and leaves every other key's answer alone. */
  lemma InsertCounts(n: Node, f: nat, lu: Promote, g: nat)
    requires NodeOk(n) && Locate(n, f).Some?
    requires EntryCount(n, Locate(n, f).value.lv, Locate(n, f).value.e) < Cap(Locate(n, f).value.lv)
    ensures NodeOk(Insert(n, f, lu)) && Insert(n, f, lu).usage == n.usage
    ensures QueryNode(Insert(n, f, lu), g) == QueryNode(n, g) + (if Locate(n, g) == Locate(n, f) then 1 else 0)
  {
    var hit := Locate(n, f).value;
    EntryInside(n, hit.lv, hit.e);
    RoomIsBelowCap(n.heavy, hit.lv, Pos(n.usage, hit.lv, hit.e));
    var r := Insert(n, f, lu);
    assert r == Bump(n, hit);
    BumpFrame(n, hit);
    LocateSame(n, r, g);
  }

  /** A key whose level-4 entry is full stays at the cap: the node does not
      change at all. */
  lemma InsertFullTop(n: Node, f: nat, lu: Promote)
    requires NodeOk(n) && Locate(n, f).Some? && Locate(n, f).value.lv == L4
    requires EntryCount(n, L4, Locate(n, f).value.e) == Cap(L4)
    ensures Insert(n, f, lu) == n && QueryNode(n, f) == Cap(L4)
  {
    var hit := Locate(n, f).value;
    EntryInside(n, hit.lv, hit.e);
    RoomIsBelowCap(n.heavy, hit.lv, Pos(n.usage, hit.lv, hit.e));
  }

  /** A key whose level-3 or level-2 entry is full is promoted: the node is
      whatever `levelup` makes of it. */
  lemma InsertFullPromotes(n: Node, f: nat, lu: Promote)
    requires NodeOk(n) && Locate(n, f).Some? && Locate(n, f).value.lv != L4
    requires EntryCount(n, Locate(n, f).value.lv, Locate(n, f).value.e) == Cap(Locate(n, f).value.lv)
    ensures Insert(n, f, lu) == lu(n, Promotion(Locate(n, f).value.lv), f)
  {
    var hit := Locate(n, f).value;
    EntryInside(n, hit.lv, hit.e);
    RoomIsBelowCap(n.heavy, hit.lv, Pos(n.usage, hit.lv, hit.e));
  }

  /** A new node: 32 zero bytes and `usage == 0`, so all 16 entries are
      level-2 ones. */
  function FreshNode(): (n: Node)
    ensures NodeOk(n) && Num2(n.usage) == 16 && Num3(n.usage) == 0 && Num4(n.usage) == 0
  {
    Node(seq(LandaH, _ => 0), 0)
  }

  /** A node of zero bytes with `usage == 0`, as `DHSNode()` builds it. */
  predicate Blank(n: Node)
  {
    NodeOk(n) && n.usage == 0 && forall q :: 0 <= q < |n.heavy| ==> n.heavy[q] == 0
  }

  lemma FreshIsBlank()
    ensures Blank(FreshNode())
  {
  }

  /** Every entry of a blank node is a level-2 entry holding zeros. */
  lemma BlankEntry(n: Node, lv: Level, e: nat)
    requires Blank(n) && e < Slots(n.usage, lv)
    ensures lv == L2 && EntryFp(n, lv, e) == 0 && EntryCount(n, lv, e) == 0
  {
    EntryInside(n, lv, e);
    var p := Pos(n.usage, lv, e);
    assert n.heavy[p] == 0 && n.heavy[p + 1] == 0;
  }

  /** A blank node has no level-4 or level-3 entries to search. */
  lemma BlankNoHigh(n: Node, f: nat)
    requires Blank(n)
    ensures FindIn(n, L4, f).None? && FindIn(n, L3, f).None?
  {
    assert Slots(n.usage, L4) == 0 && Slots(n.usage, L3) == 0;
  }

  /** A blank node's level-2 search: its first entry when the fingerprint's
      low byte is 0, otherwise nothing. */
  lemma BlankLevel2(n: Node, f: nat)
    requires Blank(n)
    ensures FindIn(n, L2, f) == if f % 0x100 == 0 then Some(Hit(L2, 0)) else None
  {
    if f % 0x100 == 0 {
      BlankLevel2Zero(n, f);
    } else {
      BlankLevel2Other(n, f);
    }
  }

  lemma BlankLevel2Zero(n: Node, f: nat)
    requires Blank(n) && f % 0x100 == 0
    ensures FindIn(n, L2, f) == Some(Hit(L2, 0))
  {
    assert Slots(n.usage, L2) == 16;
    BlankEntry(n, L2, 0);
    assert Find(Fps(n, L2), 0, Tag(L2, f)) == Some(0);
  }

  lemma BlankLevel2Other(n: Node, f: nat)
    requires Blank(n) && f % 0x100 != 0
    ensures FindIn(n, L2, f).None?
  {
    forall e | 0 <= e < Slots(n.usage, L2)
      ensures EntryFp(n, L2, e) != Tag(L2, f)
    {
      BlankEntry(n, L2, e);
    }
  }

  /** A blank node's search: the first level-2 entry when the
      fingerprint's low byte is 0, otherwise nothing. */
  lemma BlankLocate(n: Node, f: nat)
    requires Blank(n)
    ensures Locate(n, f) == if f % 0x100 == 0 then Some(Hit(L2, 0)) else None
  {
    BlankNoHigh(n, f);
    BlankLevel2(n, f);
  }

  /** Every key reads 0 from a blank node. */
  lemma BlankQuery(n: Node, f: nat)
    requires Blank(n)
    ensures QueryNode(n, f) == 0
  {
    BlankLocate(n, f);
    if f % 0x100 == 0 {
      BlankEntry(n, L2, 0);
    }
  }

  /** Every key reads 0 from a new node. */
  lemma FreshQuery(f: nat)
    ensures QueryNode(FreshNode(), f) == 0
  {
    FreshIsBlank();
    BlankQuery(FreshNode(), f);
  }

  /** An empty level-2 entry holds fingerprint byte 0, and `insert` does not
      tell it from a stored key: in a new node, a key whose fingerprint has
      a zero low byte counts itself in the first entry without `levelup`,
      and every such key then reads 1. */
  lemma FreshInsertZeroByte(f: nat, lu: Promote, g: nat)
    requires f % 0x100 == 0
    ensures NodeOk(Insert(FreshNode(), f, lu)) && Insert(FreshNode(), f, lu).usage == 0
    ensures QueryNode(Insert(FreshNode(), f, lu), g) == if g % 0x100 == 0 then 1 else 0
  {
    FreshIsBlank();
    BlankInsertZeroByte(FreshNode(), f, lu, g);
  }

  lemma BlankInsertZeroByte(n: Node, f: nat, lu: Promote, g: nat)
    requires Blank(n) && f % 0x100 == 0
    ensures NodeOk(Insert(n, f, lu)) && Insert(n, f, lu).usage == 0
    ensures QueryNode(Insert(n, f, lu), g) == if g % 0x100 == 0 then 1 else 0
  {
    BlankLocate(n, f);
    BlankEntry(n, L2, 0);
    BlankQuery(n, g);
    BlankLocate(n, g);
    InsertFirstEntry(n, f, lu, g);
  }

  /** Counting a key into an empty first level-2 entry. */
  lemma InsertFirstEntry(n: Node, f: nat, lu: Promote, g: nat)
    requires NodeOk(n) && Locate(n, f) == Some(Hit(L2, 0)) && EntryCount(n, L2, 0) == 0
    requires QueryNode(n, g) == 0 && Locate(n, g) == if g % 0x100 == 0 then Some(Hit(L2, 0)) else None
    ensures NodeOk(Insert(n, f, lu)) && Insert(n, f, lu).usage == n.usage
    ensures QueryNode(Insert(n, f, lu), g) == if g % 0x100 == 0 then 1 else 0
  {
    InsertCounts(n, f, lu, g);
  }

  /** Any other key reaches a new node through `levelup(1)`. */
  lemma FreshInsertOther(f: nat, lu: Promote)
    requires f % 0x100 != 0
    ensures Insert(FreshNode(), f, lu) == lu(FreshNode(), 1, f)
  {
    FreshIsBlank();
    BlankLocate(FreshNode(), f);
  }

  // ----- The sketch -----

  /** `bucketNum` (already through `NextPrime`) and the key hash. */
  datatype Config = Config(buckets: nat, hf: FlowKey -> bv32)

  predicate WellFormed(cf: Config)
  {
    cf.buckets >= 1
  }

  datatype Sketch = Sketch(nodes: seq<Node>)

  predicate Valid(cf: Config, sk: Sketch)
  {
    |sk.nodes| == cf.buckets && forall b :: 0 <= b < |sk.nodes| ==> NodeOk(sk.nodes[b])
  }

  datatype Built = Built(cf: Config, sk: Sketch)

  /** The constructor: `NextPrime(bucketNum_)` new nodes. */
  function New(bucketNum: nat, hf: FlowKey -> bv32, np: nat -> nat): (r: Built)
    requires IsNextPrime(np)
    ensures r.cf.buckets >= bucketNum && WellFormed(r.cf) && Valid(r.cf, r.sk)
    ensures forall b :: 0 <= b < |r.sk.nodes| ==> r.sk.nodes[b] == FreshNode()
  {
    var cf := Config(np(bucketNum), hf);
    Built(cf, Sketch(seq(cf.buckets, _ => FreshNode())))
  }

  /** `hash % bucketNum`. */
  function Bucket(cf: Config, key: FlowKey): (b: nat)
    requires WellFormed(cf)
    ensures b < cf.buckets
  {
    (cf.hf(key) as nat) % cf.buckets
  }

  /** `DHSFingerPrint(hash)` of the key's hash. */
  function Fp(cf: Config, key: FlowKey): nat
  {
    FingerPrint(cf.hf(key)) as nat
  }

  /** `update(key, val)`: the source asserts `val == 1`, counting packets
      only; the key's bucket takes one `insert`. */
  function Update(cf: Config, lu: Promote, sk: Sketch, key: FlowKey, val: int): (r: Sketch)
    requires WellFormed(cf) && Valid(cf, sk) && KeepsShape(lu) && val == 1
    ensures Valid(cf, r)
    ensures forall b :: 0 <= b < cf.buckets && b != Bucket(cf, key) ==> r.nodes[b] == sk.nodes[b]
  {
    var b := Bucket(cf, key);
    sk.(nodes := sk.nodes[b := Insert(sk.nodes[b], Fp(cf, key), lu)])
  }

  /** `query(key)`: the answer of the key's bucket. */
  function Query(cf: Config, sk: Sketch, key: FlowKey): (q: nat)
    requires WellFormed(cf) && Valid(cf, sk)
    ensures q <= Cap(L4)
  {
    QueryNode(sk.nodes[Bucket(cf, key)], Fp(cf, key))
  }

  /** A new sketch answers 0 for every key. */
  lemma QueryNew(bucketNum: nat, hf: FlowKey -> bv32, np: nat -> nat, key: FlowKey)
    requires IsNextPrime(np)
    ensures Query(New(bucketNum, hf, np).cf, New(bucketNum, hf, np).sk, key) == 0
  {
    var r := New(bucketNum, hf, np);
    FreshQuery(Fp(r.cf, key));
  }

  /** An update only touches its own bucket: keys of other buckets keep
      their answers. */
  lemma UpdateElsewhere(cf: Config, lu: Promote, sk: Sketch, x: FlowKey, y: FlowKey)
    requires WellFormed(cf) && Valid(cf, sk) && KeepsShape(lu)
    requires Bucket(cf, y) != Bucket(cf, x)
    ensures Query(cf, Update(cf, lu, sk, x, 1), y) == Query(cf, sk, y)
  {
  }

  /** An update whose key already has an entry with room adds exactly one
      to that key's answer, and to the answer of every key settling on the
      same entry of the same bucket; all other answers stay. */
  lemma UpdateCounts(cf: Config, lu: Promote, sk: Sketch, x: FlowKey, y: FlowKey)
    requires WellFormed(cf) && Valid(cf, sk) && KeepsShape(lu)
    requires Locate(sk.nodes[Bucket(cf, x)], Fp(cf, x)).Some?
    requires var n := sk.nodes[Bucket(cf, x)]; var hit := Locate(n, Fp(cf, x)).value;
      EntryCount(n, hit.lv, hit.e) < Cap(hit.lv)
    ensures Query(cf, Update(cf, lu, sk, x, 1), y) == Query(cf, sk, y) +
      (if Bucket(cf, y) == Bucket(cf, x) && Locate(sk.nodes[Bucket(cf, x)], Fp(cf, y)) == Locate(sk.nodes[Bucket(cf, x)], Fp(cf, x))
       then 1 else 0)
  {
    if Bucket(cf, y) == Bucket(cf, x) {
      InsertCounts(sk.nodes[Bucket(cf, x)], Fp(cf, x), lu, Fp(cf, y));
    }
  }
}
