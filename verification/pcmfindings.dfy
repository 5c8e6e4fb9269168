/** Three places where the Pyramid Count-Min code as written departs from
    what the rest of the sketch evidently intends, each shown on a concrete
    configuration: the `flag` of `update` has too few bits, the weight
    `get_value` gives a layer is wrong once a counter has more than 4 bits,
    and `get_value` throws when a read climbs through the top layer. The
    corrected behaviour is the one `PCM.Update` and `PCM.Query` model, and
    `PCM.UpdateExact` proves it reads every value back. */
module PCMFindings {
  import opened Common
  import opened PCM

  /** Over two words, a key whose hash `h` has its 18 word-index bits clear
      lands in word 0 and, in row 0, at offset `h >> 18` (for hashes of
      fewer than 30 bits). */
  lemma SmallHash(cf: Config, key: FlowKey)
    requires WellFormed(cf) && cf.wordNum == 2 && cf.hf(key) < 0x4000_0000 && cf.hf(key) % 0x4_0000 == 0
    ensures WordIndex(cf, key) == 0
    ensures Offset(cf, key, 0) == (cf.hf(key) / 0x4_0000) % Slots(cf)
  {
    assert Pow(2, WordIndexBits) == 0x4_0000 by {
      assert Pow(2, 6) == 64;
      PowAdd(2, 6, 6);
      PowAdd(2, 12, 6);
    }
    assert HashValue(cf, key) == cf.hf(key);
    assert Pow(Slots(cf), 0) == 1;
  }

  /** With one row, two words and a key in word 0 at offset 0, `update`
      is the update of that one counter position. */
  lemma OneRowUpdate(cf: Config, key: FlowKey, val: int)
    requires WellFormed(cf) && cf.wordNum == 2 && cf.d == 1
    requires WordIndex(cf, key) == 0 && Offset(cf, key, 0) == 0
    ensures Update(cf, Init(cf), key, val) == UpdateSlot(cf, Init(cf), 0, 0, val)
  {
    var pending := Below(Slots(cf));
    assert 0 in pending;
    match UpdateSlot(cf, Init(cf), 0, 0, val)
    case Err(e) =>
    case Ok(s') =>
      assert UpdateRows(cf, s', key, val, 1, pending - {0}) == Ok(s');
  }

  // ---------------------------------------------------------------------
  // The `flag` of `update`

  /** The key of `FlagMissesHighOffsets` lands on offset 28 of 32. */
  lemma HighOffset(cf: Config, key: FlowKey)
    requires WellFormed(cf) && cf.lg == 1 && cf.wordNum == 2 && cf.hf(key) == 0x70_0000
    ensures Slots(cf) == 32 && WordIndex(cf, key) == 0 && Offset(cf, key, 0) == 28
  {
    assert Slots(cf) == 32 by {
      assert Pow(2, 5) == 32;
    }
    SmallHash(cf, key);
    assert cf.hf(key) / 0x4_0000 == 28;
  }

  /** 2-bit counters: a fresh sketch holds values below 4 per position. */
  lemma TwoBitCapacity(cf: Config)
    requires WellFormed(cf) && cf.lg == 1
    ensures Capacity(cf) == 4
  {
    assert CBits(cf) == 2 && HighBase(cf) == 1 by {
      assert Pow(2, 1) == 2 && Pow(2, 0) == 1;
    }
    PowOne(cf.depth - 1);
  }

  /** `flag = 0xFFFFFFF` marks only offsets 0..27 as not yet updated. With
      2-bit counters a word has 32 of them, so a key whose row lands on
      offset 28 is skipped: the update is lost and the query answers 0,
      where the full flag stores the value and the query returns it. */
  lemma FlagMissesHighOffsets(cf: Config, key: FlowKey)
    requires WellFormed(cf) && cf.lg == 1 && cf.wordNum == 2 && cf.d == 1 && cf.hf(key) == 0x70_0000
    ensures Slots(cf) == 32 && Offset(cf, key, 0) == 28
    ensures UpdateAsWritten(cf, Init(cf), key, 1) == Ok(Init(cf))
    ensures Query(cf, Init(cf), key) == 0
    ensures Update(cf, Init(cf), key, 1).Ok?
    ensures Query(cf, Update(cf, Init(cf), key, 1).value, key) == 1
  {
    HighOffset(cf, key);
    assert UpdateAsWritten(cf, Init(cf), key, 1) == Ok(Init(cf)) by {
      var pending := Below(FlagBits);
      assert 28 !in pending;
      assert UpdateRows(cf, Init(cf), key, 1, 1, pending) == Ok(Init(cf));
    }
    QueryClear(cf, Init(cf), key);
    TwoBitCapacity(cf);
    UpdateExact(cf, key, 1);
  }

  // ---------------------------------------------------------------------
  // The weight of a layer in `get_value`

  /** The constants of 8-bit counters over four layers of two words. */
  lemma EightBit(cf: Config)
    requires WellFormed(cf) && cf.lg == 3 && cf.wordNum == 2 && cf.depth == 4
    ensures CBits(cf) == 8 && Base(cf) == 256 && HighBase(cf) == 64 && Slots(cf) == 8
    ensures LayerLen(cf, 3) == 1
    ensures Capacity(cf) == 0x400_0000
  {
    assert Pow(2, 3) == 8 && Pow(2, 6) == 64;
    assert Pow(2, 8) == 256 by {
      PowAdd(2, 6, 2);
    }
    assert Pow(64, 3) == 0x4_0000;
  }

  /** 16384 = 2^14 added to an empty position of 8-bit counters leaves 0
      in layer 0, carries 64 into layer 1, which keeps 0 and passes 1 on
      to layer 2, and leaves layer 3 empty. */
  lemma CarriedTwice(cf: Config, key: FlowKey)
    requires WellFormed(cf) && cf.lg == 3 && cf.wordNum == 2 && cf.d == 1 && cf.depth == 4 && cf.hf(key) == 0
    ensures Update(cf, Init(cf), key, 16384).Ok?
    ensures var r := Update(cf, Init(cf), key, 16384).value;
      && Slot(cf, r.layers[0][0], 0) == 0
      && Slot(cf, r.layers[1][0], 0) == 64
      && Slot(cf, r.layers[2][0], 0) == 65
      && Slot(cf, r.layers[3][0], 0) == 0
  {
    EightBit(cf);
    SmallHash(cf, key);
    assert Offset(cf, key, 0) == 0;
    OneRowUpdate(cf, key, 16384);
    InitZero(cf, 0);
    UpdateSlotCarriesZero(cf, Init(cf), 0, 0, 16384);
    var s1 := Put(cf, Init(cf), 0, 0, BaseWord(cf, Init(cf).layers[0][0], 0, 16384));
    CarryStepNext(cf, s1, 1, 0, 0, 64);
    CarryStepExact(cf, s1, 1, 0, 0, 64);
    var t1 := CarryStep(cf, s1, 1, 0, 0, 64).s;
    assert CarryFrom(cf, s1, 1, 0, 0, 64) == CarryFrom(cf, t1, 2, 0, 0, 1);
    CarryStepNext(cf, t1, 2, 0, 0, 1);
    CarryStepExact(cf, t1, 2, 0, 0, 1);
    var t2 := CarryStep(cf, t1, 2, 0, 0, 1).s;
    assert CarryFrom(cf, t1, 2, 0, 0, 1) == Ok(t2);
    assert t2.layers[1] == t1.layers[1] && t2.layers[0] == s1.layers[0];
  }

  /** `get_value` as written over the layers `CarriedTwice` leaves: the
      count 1 of layer 2 weighs `2^(8 - 2 + 4) = 1024`. */
  lemma ReadTwiceAsWritten(cf: Config, r: Sketch)
    requires WellFormed(cf) && cf.lg == 3 && cf.wordNum == 2 && cf.depth == 4 && Valid(cf, r)
    requires Slot(cf, r.layers[1][0], 0) == 64 && Slot(cf, r.layers[2][0], 0) == 65 && Slot(cf, r.layers[3][0], 0) == 0
    ensures GetValueAsWritten(cf, r, 1, 0, 0) == Ok(1024)
  {
    EightBit(cf);
    assert Pow(2, 10) == 1024 by {
      PowAdd(2, 6, 4);
    }
    assert Bit(64, 6) == 1 && Bit(64, 7) == 0 && Bit(65, 6) == 1 && Bit(65, 7) == 0 && Bit(0, 6) == 0;
    assert GetValueAsWritten(cf, r, 3, 0, 0) == Ok(0);
    assert GetValueAsWritten(cf, r, 2, 0, 0) == Ok(1024);
  }

  /** `get_value` weighs a layer-`i` count as `2^(c - 2 + 2i)`, which is
      what the carries give it only for 4-bit counters: a carry into layer
      `i` is worth `2^c * 2^((c - 2)(i - 1))`. With 8-bit counters and four
      layers, `update` stores 16384, every row reads it back, and the query
      as written answers 1024. */
  lemma LayerWeightAsWritten(cf: Config, key: FlowKey)
    requires WellFormed(cf) && cf.lg == 3 && cf.wordNum == 2 && cf.d == 1 && cf.depth == 4 && cf.hf(key) == 0
    ensures Update(cf, Init(cf), key, 16384).Ok?
    ensures Query(cf, Update(cf, Init(cf), key, 16384).value, key) == 16384
    ensures QueryAsWritten(cf, Update(cf, Init(cf), key, 16384).value, key) == Ok(1024)
  {
    EightBit(cf);
    SmallHash(cf, key);
    assert Offset(cf, key, 0) == 0;
    UpdateExact(cf, key, 16384);
    CarriedTwice(cf, key);
    var r := Update(cf, Init(cf), key, 16384).value;
    ReadTwiceAsWritten(cf, r);
    var ests := seq(cf.d, i requires 0 <= i < cf.d =>
      Slot(cf, r.layers[0][0], Offset(cf, key, i)) + GetValueAsWritten(cf, r, 1, 0, Offset(cf, key, i)).value);
    assert ests == [1024];
  }

  // ---------------------------------------------------------------------
  // Reading through the top layer

  /** The constants of 4-bit counters. */
  lemma FourBit(cf: Config)
    requires WellFormed(cf) && cf.lg == 2
    ensures CBits(cf) == 4 && Base(cf) == 16 && HighBase(cf) == 4 && Slots(cf) == 16
  {
    assert Pow(2, 2) == 4 && Pow(2, 4) == 16;
  }

  /** 16 added to an empty position of 4-bit counters over two layers
      leaves 0 in layer 0 and carries 1 into layer 1, whose counter then
      holds the left child's flag and count 1. */
  lemma CarriedOnce(cf: Config, key: FlowKey)
    requires WellFormed(cf) && cf.lg == 2 && cf.wordNum == 2 && cf.d == 1 && cf.depth == 2 && cf.hf(key) == 0
    ensures Update(cf, Init(cf), key, 16).Ok?
    ensures Slot(cf, Update(cf, Init(cf), key, 16).value.layers[1][0], 0) == 5
  {
    FourBit(cf);
    SmallHash(cf, key);
    assert Offset(cf, key, 0) == 0;
    OneRowUpdate(cf, key, 16);
    InitZero(cf, 0);
    UpdateSlotCarriesZero(cf, Init(cf), 0, 0, 16);
    var s1 := Put(cf, Init(cf), 0, 0, BaseWord(cf, Init(cf).layers[0][0], 0, 16));
    CarryStepNext(cf, s1, 1, 0, 0, 1);
    CarryStepExact(cf, s1, 1, 0, 0, 1);
    assert CarryFrom(cf, s1, 1, 0, 0, 1) == Ok(CarryStep(cf, s1, 1, 0, 0, 1).s);
  }

  /** `get_value` ends its loop by throwing `overflow_error`, so a read
      that climbs through the top layer fails although `carry` stored the
      value there without overflowing. With 4-bit counters and two layers,
      16 carries 1 into layer 1: `update` succeeds, every row reads 16 back,
      and the query as written throws. */
  lemma TopLayerReadFails(cf: Config, key: FlowKey)
    requires WellFormed(cf) && cf.lg == 2 && cf.wordNum == 2 && cf.d == 1 && cf.depth == 2 && cf.hf(key) == 0
    ensures Update(cf, Init(cf), key, 16).Ok?
    ensures Query(cf, Update(cf, Init(cf), key, 16).value, key) == 16
    ensures QueryAsWritten(cf, Update(cf, Init(cf), key, 16).value, key) == Err(OverflowError)
  {
    FourBit(cf);
    SmallHash(cf, key);
    assert Offset(cf, key, 0) == 0;
    assert Capacity(cf) == 64 by {
      assert Pow(4, 1) == 4;
    }
    UpdateExact(cf, key, 16);
    CarriedOnce(cf, key);
    var r := Update(cf, Init(cf), key, 16).value;
    assert GetValueAsWritten(cf, r, 1, 0, 0).Err? by {
      assert Bit(5, 2) == 1;
    }
  }

  lemma {:induction false} PowOne(n: nat)
    ensures Pow(1, n) == 1
  {
    if n > 0 {
      PowOne(n - 1);
    }
  }
}
