/** WavingSketch: `counter_num` buckets, each with a signed "waving" counter
    and a heavy part of at most `heavy_part_length` entries (frequency, key,
    flag). An entry whose flag is still set has counted its flow exactly
    since the flow's first packet; a cleared flag marks an entry that took a
    slot over and whose frequency started from the waving counter's estimate. */
module Waving {
  import opened Common

  datatype Entry = Entry(freq: int, key: FlowKey, flag: bool)

  datatype Bucket = Bucket(counter: int, heavy: seq<Entry>)

  /** `h` is hash object 0 (bucket choice) and `s_` is hash object 1 (sign);
      `counterNum` is the prime the constructor picked. */
  datatype Config = Config(counterNum: nat, hpl: nat, h: Hash)

  datatype Sketch = Sketch(buckets: seq<Bucket>)

  /** At least one bucket and room for at least one heavy entry
      (`smallestID` reads entry 0 of a full heavy part). */
  predicate WellFormed(cf: Config)
  {
    cf.counterNum > 0 && cf.hpl > 0
  }

  predicate Valid(cf: Config, s: Sketch)
  {
    |s.buckets| == cf.counterNum && forall i :: 0 <= i < |s.buckets| ==> |s.buckets[i].heavy| <= cf.hpl
  }

  /** The constructor: `counter_num = NextPrime(bucket_num)`, every counter
      zero and every heavy part empty. */
  function New(buckets: nat, hpl: nat, h: Hash, np: nat -> nat): (r: (Config, Sketch))
    requires IsNextPrime(np)
    ensures r.0.counterNum >= buckets && r.0.hpl == hpl && Valid(r.0, r.1)
    ensures forall i :: 0 <= i < r.0.counterNum ==> r.1.buckets[i] == Bucket(0, [])
  {
    var cf := Config(np(buckets), hpl, h);
    (cf, Sketch(seq(cf.counterNum, _ => Bucket(0, []))))
  }

  function Index(cf: Config, key: FlowKey): (i: nat)
    requires cf.counterNum > 0
    ensures i < cf.counterNum
  {
    cf.h(0, key) % cf.counterNum
  }

  /** `s(key) = 2 * (s_(key) % 2) - 1`: a sign. */
  function Sign(cf: Config, key: FlowKey): (r: int)
    ensures r == 1 || r == -1
  {
    2 * (cf.h(1, key) % 2) - 1
  }

  /** The keys of a heavy part, in slot order. */
  function Keys(hs: seq<Entry>): (ks: seq<FlowKey>)
    ensures |ks| == |hs| && forall j :: 0 <= j < |hs| ==> ks[j] == hs[j].key
  {
    seq(|hs|, j requires 0 <= j < |hs| => hs[j].key)
  }

  /** The frequencies of a heavy part, in slot order. */
  function Freqs(hs: seq<Entry>): (fs: seq<int>)
    ensures |fs| == |hs| && forall j :: 0 <= j < |hs| ==> fs[j] == hs[j].freq
  {
    seq(|hs|, j requires 0 <= j < |hs| => hs[j].freq)
  }

  /** `findID(key)` from position `i` on: the first position of `key`, or -1. */
  function FindFrom(ks: seq<FlowKey>, key: FlowKey, i: nat): (r: int)
    requires i <= |ks|
    ensures -1 <= r < |ks|
    ensures r >= 0 ==> i <= r && ks[r] == key && forall j :: i <= j < r ==> ks[j] != key
    ensures r == -1 ==> forall j :: i <= j < |ks| ==> ks[j] != key
    decreases |ks| - i
  {
    if i == |ks| then -1
    else if ks[i] == key then i
    else FindFrom(ks, key, i + 1)
  }

  /** `findID(key)`: the first slot holding `key`, or -1 when none does. */
  function FindID(ks: seq<FlowKey>, key: FlowKey): (r: int)
    ensures -1 <= r < |ks|
    ensures r >= 0 ==> ks[r] == key && forall j :: 0 <= j < r ==> ks[j] != key
    ensures r == -1 <==> forall j :: 0 <= j < |ks| ==> ks[j] != key
  {
    FindFrom(ks, key, 0)
  }

  /** `smallestID()` over the first `n` frequencies: the first position of
      the smallest one (the scan replaces its candidate only on a strictly
      smaller value). */
  function SmallestIn(fs: seq<int>, n: nat): (r: nat)
    requires 0 < n <= |fs|
    ensures r < n
    ensures forall j :: 0 <= j < n ==> fs[r] <= fs[j]
    ensures forall j :: 0 <= j < r ==> fs[j] > fs[r]
  {
    if n == 1 then 0
    else
      var r := SmallestIn(fs, n - 1);
      if fs[n - 1] < fs[r] then n - 1 else r
  }

  function SmallestID(fs: seq<int>): (r: nat)
    requires |fs| > 0
    ensures r < |fs|
    ensures forall j :: 0 <= j < |fs| ==> fs[r] <= fs[j]
    ensures forall j :: 0 <= j < r ==> fs[j] > fs[r]
  {
    SmallestIn(fs, |fs|)
  }

  /** The three cases of `update` on the bucket the key hashes to. */
  function BucketUpdate(cf: Config, b: Bucket, key: FlowKey, val: int): (r: Bucket)
    requires WellFormed(cf) && |b.heavy| <= cf.hpl
    ensures |r.heavy| <= cf.hpl
  {
    var id := FindID(Keys(b.heavy), key);
    if id != -1 then
      // the flow holds an entry: count it; a taken-over entry also waves
      var e := b.heavy[id];
      Bucket(if e.flag then b.counter else b.counter + Sign(cf, key),
             b.heavy[id := e.(freq := e.freq + val)])
    else if |b.heavy| < cf.hpl then
      // room left: a new exact entry
      Bucket(b.counter, b.heavy + [Entry(val, key, true)])
    else
      // full: wave, and take over the smallest entry if the estimate beats it
      var sei := Sign(cf, key);
      var fi := sei * b.counter;
      var c1 := b.counter + sei;
      var r := SmallestID(Freqs(b.heavy));
      var e := b.heavy[r];
      if e.freq <= fi then
        Bucket(if e.flag then c1 + e.freq * Sign(cf, e.key) else c1, b.heavy[r := Entry(fi + 1, key, false)])
      else Bucket(c1, b.heavy)
  }

  /** `update(key, val)`: only the bucket the key hashes to changes. */
  function Update(cf: Config, s: Sketch, key: FlowKey, val: int): (r: Sketch)
    requires WellFormed(cf) && Valid(cf, s)
    ensures Valid(cf, r)
    ensures forall i :: 0 <= i < cf.counterNum && i != Index(cf, key) ==> r.buckets[i] == s.buckets[i]
  {
    var i := Index(cf, key);
    Sketch(s.buckets[i := BucketUpdate(cf, s.buckets[i], key, val)])
  }

  /** `query(key)`: the frequency of the key's first entry when that entry's
      flag is set; the waving counter times the key's sign when the key holds
      no entry or its first entry is unflagged. */
  function Query(cf: Config, s: Sketch, key: FlowKey): (q: int)
    requires WellFormed(cf) && Valid(cf, s)
    ensures var b := s.buckets[Index(cf, key)];
      (forall j :: 0 <= j < |b.heavy| ==> b.heavy[j].key != key) ==> q == Sign(cf, key) * b.counter
    ensures var b := s.buckets[Index(cf, key)];
      forall j :: (0 <= j < |b.heavy| && b.heavy[j].key == key && b.heavy[j].flag &&
                   forall l :: 0 <= l < j ==> b.heavy[l].key != key) ==> q == b.heavy[j].freq
    ensures var b := s.buckets[Index(cf, key)];
      forall j :: (0 <= j < |b.heavy| && b.heavy[j].key == key && !b.heavy[j].flag &&
                   forall l :: 0 <= l < j ==> b.heavy[l].key != key) ==> q == Sign(cf, key) * b.counter
  {
    var b := s.buckets[Index(cf, key)];
    var id := FindID(Keys(b.heavy), key);
    if id == -1 || !b.heavy[id].flag then Sign(cf, key) * b.counter else b.heavy[id].freq
  }

  /** Every heavy entry of every bucket, bucket by bucket. */
  function Entries(cf: Config, s: Sketch): (es: seq<Entry>)
    requires Valid(cf, s)
    ensures forall e :: e in es <==> exists i :: 0 <= i < cf.counterNum && e in s.buckets[i].heavy
  {
    var rows := seq(cf.counterNum, i requires 0 <= i < cf.counterNum => s.buckets[i].heavy);
    var es := Flatten(rows);
    forall e | e in es
      ensures exists i :: 0 <= i < cf.counterNum && e in s.buckets[i].heavy
    {
      var i, j :| 0 <= i < |rows| && 0 <= j < |rows[i]| && rows[i][j] == e;
      assert e in s.buckets[i].heavy;
    }
    forall e | exists i :: 0 <= i < cf.counterNum && e in s.buckets[i].heavy
      ensures e in es
    {
      var i :| 0 <= i < cf.counterNum && e in s.buckets[i].heavy;
      var j :| 0 <= j < |rows[i]| && rows[i][j] == e;
    }
    es
  }

  /** The report loop of `getHeavyHitter`: every entry whose frequency
      reaches the threshold writes its frequency under its key, later
      entries overwriting earlier ones. */
  function Report(es: seq<Entry>, thr: real): (m: map<FlowKey, int>)
    ensures forall k :: k in m <==> exists e :: e in es && e.key == k && e.freq as real >= thr
    ensures forall k :: k in m ==> exists e :: e in es && e.key == k && e.freq == m[k] && e.freq as real >= thr
  {
    if |es| == 0 then map[]
    else
      var e := es[|es| - 1];
      var m := Report(es[..|es| - 1], thr);
      assert forall x :: x in es <==> x in es[..|es| - 1] || x == e;
      if e.freq as real >= thr then m[e.key := e.freq] else m
  }

  /** `getHeavyHitter(threshold)`. */
  function HeavyHitters(cf: Config, s: Sketch, thr: real): (m: map<FlowKey, int>)
    requires Valid(cf, s)
    ensures forall k :: k in m <==>
      exists i, e :: 0 <= i < cf.counterNum && e in s.buckets[i].heavy && e.key == k && e.freq as real >= thr
    ensures forall k :: k in m ==>
      exists i, e :: 0 <= i < cf.counterNum && e in s.buckets[i].heavy && e.key == k && e.freq == m[k] && e.freq as real >= thr
  {
    Report(Entries(cf, s), thr)
  }

  // ---------------------------------------------------------------------------
  // Invariant over a stream

  /** The heavy part of bucket `i` after the stream `st`: no key twice, every
      key hashes to `i`, every flagged entry holds its flow's exact total,
      and while the heavy part has room every flow seen in this bucket holds
      an entry. */
  ghost predicate BucketInv(cf: Config, i: nat, b: Bucket, st: seq<Item>)
    requires cf.counterNum > 0
  {
    && |b.heavy| <= cf.hpl
    && (forall j, j2 :: 0 <= j < j2 < |b.heavy| ==> b.heavy[j].key != b.heavy[j2].key)
    && (forall j :: 0 <= j < |b.heavy| ==> Index(cf, b.heavy[j].key) == i)
    && (forall j :: 0 <= j < |b.heavy| && b.heavy[j].flag ==> b.heavy[j].freq == Total(st, b.heavy[j].key))
    && (|b.heavy| < cf.hpl ==>
         forall x :: Index(cf, x) == i && Seen(st, x) ==> exists j :: 0 <= j < |b.heavy| && b.heavy[j].key == x)
    && (|b.heavy| < cf.hpl ==> b.counter == 0 && forall j :: 0 <= j < |b.heavy| ==> b.heavy[j].flag)
  }

  ghost predicate Inv(cf: Config, s: Sketch, st: seq<Item>)
    requires WellFormed(cf)
  {
    Valid(cf, s) && forall i :: 0 <= i < cf.counterNum ==> BucketInv(cf, i, s.buckets[i], st)
  }

  /** The bucket the update lands in keeps its invariant. */
  lemma BucketStep(cf: Config, b: Bucket, st: seq<Item>, key: FlowKey, val: int)
    requires WellFormed(cf)
    requires BucketInv(cf, Index(cf, key), b, st)
    ensures BucketInv(cf, Index(cf, key), BucketUpdate(cf, b, key, val), st + [Item(key, val)])
  {
    var id := FindID(Keys(b.heavy), key);
    if id == -1 && |b.heavy| < cf.hpl {
      BucketStepNew(cf, b, st, key, val);
    } else if id != -1 {
      BucketStepHit(cf, b, st, key, val);
    } else {
      BucketStepFull(cf, b, st, key, val);
    }
  }

  /** The stream with one more update, flow by flow. */
  lemma SnocFacts(st: seq<Item>, key: FlowKey, val: int)
    ensures forall x :: Total(st + [Item(key, val)], x) == Total(st, x) + (if x == key then val else 0)
    ensures forall x :: Seen(st + [Item(key, val)], x) <==> Seen(st, x) || x == key
  {
    forall x
      ensures Total(st + [Item(key, val)], x) == Total(st, x) + (if x == key then val else 0)
      ensures Seen(st + [Item(key, val)], x) <==> Seen(st, x) || x == key
    {
      TotalSnoc(st, Item(key, val), x);
    }
  }

  /** A new flow in a bucket with room gets an exact entry. */
  lemma BucketStepNew(cf: Config, b: Bucket, st: seq<Item>, key: FlowKey, val: int)
    requires WellFormed(cf)
    requires BucketInv(cf, Index(cf, key), b, st)
    requires FindID(Keys(b.heavy), key) == -1 && |b.heavy| < cf.hpl
    ensures BucketInv(cf, Index(cf, key), BucketUpdate(cf, b, key, val), st + [Item(key, val)])
  {
    var i := Index(cf, key);
    var st' := st + [Item(key, val)];
    var r := BucketUpdate(cf, b, key, val);
    SnocFacts(st, key, val);
    assert !Seen(st, key) by {
      assert forall j :: 0 <= j < |b.heavy| ==> b.heavy[j].key != key;
    }
    UnseenTotal(st, key);
    assert r.heavy == b.heavy + [Entry(val, key, true)];
    forall x | Index(cf, x) == i && Seen(st', x)
      ensures exists j :: 0 <= j < |r.heavy| && r.heavy[j].key == x
    {
      if x == key {
        assert r.heavy[|b.heavy|].key == x;
      } else {
        var j :| 0 <= j < |b.heavy| && b.heavy[j].key == x;
        assert r.heavy[j].key == x;
      }
    }
  }

  /** A flow holding an entry counts it there. */
  lemma BucketStepHit(cf: Config, b: Bucket, st: seq<Item>, key: FlowKey, val: int)
    requires WellFormed(cf)
    requires BucketInv(cf, Index(cf, key), b, st)
    requires FindID(Keys(b.heavy), key) != -1
    ensures BucketInv(cf, Index(cf, key), BucketUpdate(cf, b, key, val), st + [Item(key, val)])
  {
    var i := Index(cf, key);
    var st' := st + [Item(key, val)];
    var r := BucketUpdate(cf, b, key, val);
    var id := FindID(Keys(b.heavy), key);
    SnocFacts(st, key, val);
    forall x | |r.heavy| < cf.hpl && Index(cf, x) == i && Seen(st', x)
      ensures exists j :: 0 <= j < |r.heavy| && r.heavy[j].key == x
    {
      if x == key {
        assert r.heavy[id].key == x;
      } else {
        var j :| 0 <= j < |b.heavy| && b.heavy[j].key == x;
        assert r.heavy[j].key == x;
      }
    }
  }

  /** A new flow in a full bucket waves and may take over an entry. */
  lemma BucketStepFull(cf: Config, b: Bucket, st: seq<Item>, key: FlowKey, val: int)
    requires WellFormed(cf)
    requires BucketInv(cf, Index(cf, key), b, st)
    requires FindID(Keys(b.heavy), key) == -1 && |b.heavy| == cf.hpl
    ensures BucketInv(cf, Index(cf, key), BucketUpdate(cf, b, key, val), st + [Item(key, val)])
  {
    SnocFacts(st, key, val);
  }

  /** Another bucket keeps its invariant: the update's key does not hash to it. */
  lemma OtherBucketStep(cf: Config, i: nat, b: Bucket, st: seq<Item>, key: FlowKey, val: int)
    requires WellFormed(cf) && i < cf.counterNum && i != Index(cf, key)
    requires BucketInv(cf, i, b, st)
    ensures BucketInv(cf, i, b, st + [Item(key, val)])
  {
    var st' := st + [Item(key, val)];
    forall x
      ensures Total(st', x) == Total(st, x) + (if x == key then val else 0)
      ensures Seen(st', x) <==> Seen(st, x) || x == key
    {
      TotalSnoc(st, Item(key, val), x);
    }
  }

  function Run(cf: Config, st: seq<Item>): (s: Sketch)
    requires WellFormed(cf)
    ensures Valid(cf, s)
  {
    if |st| == 0 then Sketch(seq(cf.counterNum, _ => Bucket(0, [])))
    else Update(cf, Run(cf, st[..|st| - 1]), st[|st| - 1].key, st[|st| - 1].val)
  }

  /** Every stream leaves every bucket in its invariant. */
  lemma {:induction false} RunInv(cf: Config, st: seq<Item>)
    requires WellFormed(cf)
    ensures Inv(cf, Run(cf, st), st)
  {
    if |st| > 0 {
      var pre := st[..|st| - 1];
      var it := st[|st| - 1];
      assert st == pre + [Item(it.key, it.val)];
      RunInv(cf, pre);
      var s := Run(cf, pre);
      forall i | 0 <= i < cf.counterNum
        ensures BucketInv(cf, i, Run(cf, st).buckets[i], st)
      {
        if i == Index(cf, it.key) {
          BucketStep(cf, s.buckets[i], pre, it.key, it.val);
        } else {
          OtherBucketStep(cf, i, s.buckets[i], pre, it.key, it.val);
        }
      }
    }
  }

  /** A flow that holds an entry with its flag set is answered exactly. */
  lemma FlaggedQueryExact(cf: Config, st: seq<Item>, x: FlowKey)
    requires WellFormed(cf)
    requires var b := Run(cf, st).buckets[Index(cf, x)];
      FindID(Keys(b.heavy), x) != -1 && b.heavy[FindID(Keys(b.heavy), x)].flag
    ensures Query(cf, Run(cf, st), x) == Total(st, x)
  {
    RunInv(cf, st);
  }

  /** While a bucket's heavy part has room, every flow hashed to it is
      answered exactly: a seen flow holds a flagged entry, and an unseen one
      reads the waving counter, which is still zero. */
  lemma RoomyBucketExact(cf: Config, st: seq<Item>, x: FlowKey)
    requires WellFormed(cf)
    requires |Run(cf, st).buckets[Index(cf, x)].heavy| < cf.hpl
    ensures Query(cf, Run(cf, st), x) == Total(st, x)
  {
    RunInv(cf, st);
    var b := Run(cf, st).buckets[Index(cf, x)];
    if Seen(st, x) {
      var j :| 0 <= j < |b.heavy| && b.heavy[j].key == x;
      assert FindID(Keys(b.heavy), x) != -1;
    } else {
      UnseenTotal(st, x);
    }
  }

  /** Every entry sits in the bucket its key hashes to, and no bucket holds a
      key twice. */
  ghost predicate Placed(cf: Config, s: Sketch)
    requires WellFormed(cf) && Valid(cf, s)
  {
    forall i :: 0 <= i < cf.counterNum ==>
      && (forall j :: 0 <= j < |s.buckets[i].heavy| ==> Index(cf, s.buckets[i].heavy[j].key) == i)
      && (forall j, j2 :: 0 <= j < j2 < |s.buckets[i].heavy| ==> s.buckets[i].heavy[j].key != s.buckets[i].heavy[j2].key)
  }

  /** With every key in one slot at most, `getHeavyHitter` reports for a key
      exactly the frequency of that key's entry. */
  lemma PlacedReportExact(cf: Config, s: Sketch, thr: real, i: nat, j: nat)
    requires WellFormed(cf) && Valid(cf, s) && Placed(cf, s)
    requires i < cf.counterNum && j < |s.buckets[i].heavy|
    requires s.buckets[i].heavy[j].freq as real >= thr
    ensures var e := s.buckets[i].heavy[j];
      e.key in HeavyHitters(cf, s, thr) && HeavyHitters(cf, s, thr)[e.key] == e.freq
  {
    var h := s.buckets[i].heavy;
    var e := h[j];
    var es := Entries(cf, s);
    assert e in es by {
      assert e in h;
    }
    forall e2 | e2 in es && e2.key == e.key
      ensures e2 == e
    {
      var i2 :| 0 <= i2 < cf.counterNum && e2 in s.buckets[i2].heavy;
      var j2 :| 0 <= j2 < |s.buckets[i2].heavy| && s.buckets[i2].heavy[j2] == e2;
      assert Index(cf, s.buckets[i2].heavy[j2].key) == i2;
      assert Index(cf, h[j].key) == i;
      assert h[j2].key == h[j].key;
      assert !(j2 < j) && !(j < j2);
    }
    ReportUnique(es, thr, e);
  }

  /** An entry whose key no other entry holds is reported with its own
      frequency. */
  lemma ReportUnique(es: seq<Entry>, thr: real, e: Entry)
    requires e in es && e.freq as real >= thr
    requires forall e2 :: e2 in es && e2.key == e.key ==> e2 == e
    ensures e.key in Report(es, thr) && Report(es, thr)[e.key] == e.freq
  {
  }

  /** After any stream each flow appears in the heavy parts at most once, so
      `getHeavyHitter` reports for a key exactly the frequency of its entry. */
  lemma HeavyHittersExact(cf: Config, st: seq<Item>, thr: real, i: nat, j: nat)
    requires WellFormed(cf) && i < cf.counterNum
    requires j < |Run(cf, st).buckets[i].heavy|
    requires Run(cf, st).buckets[i].heavy[j].freq as real >= thr
    ensures var e := Run(cf, st).buckets[i].heavy[j];
      e.key in HeavyHitters(cf, Run(cf, st), thr) && HeavyHitters(cf, Run(cf, st), thr)[e.key] == e.freq
  {
    var s := Run(cf, st);
    RunInv(cf, st);
    assert Placed(cf, s) by {
      forall i | 0 <= i < cf.counterNum
        ensures BucketInv(cf, i, s.buckets[i], st)
      {
      }
    }
    PlacedReportExact(cf, s, thr, i, j);
  }
}
