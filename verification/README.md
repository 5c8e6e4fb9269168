# OmniSketch sketch cores in Dafny

This project models the update, query and encoding rules of the streaming
sketches of OmniSketch, a C++ library for network-flow measurement. Each
sketch is a pure Dafny module over immutable `seq`-based state:

- the plain-array sketches: MV-Sketch, Deltoid, Waving Sketch and LD-Sketch;
- the compact-counter encodings: SALSA (CM and CU), Counter Tree, the
  Pyramid Count-Min sketch (PCM), DHSketch and Counter Braids;
- the Counter-Hierarchy ("CH") variants: CU, Count Sketch, the counting
  Bloom filters, Deltoid, HashPipe, Waving Sketch, UnivMon and the integer
  part of SketchLearn.

The collaborators the sketches call but whose code is not part of this
model are parameters:

- a hash object `hash_fns[i]` is a function `h(i, key)`, so a row index is
  `h(i, key) % width`;
- `Util::NextPrime` is a function `np` with `np(n) >= n` and `np(n) >= 2`;
- a `FlowKey<key_len>` is a sequence of bytes with `getBit`/`setBit` on bit
  `pos % 8` of byte `pos / 8`;
- `CounterHierarchy` is an exact counter store (`Hierarchy`): `updateCnt`
  adds, `getCnt` reads the exact sum, and `resetCnt` sets the value. The
  last of these is an assumption about code that is not part of this model.

The counter type `T` is an unbounded `int`. In the compact-counter
encodings (Counter Tree, PCM, SALSA, DHSketch, Counter Braids) the packing
carries are written out; the few places where a 32-bit `T` or `int` would
itself overflow are listed under "Left out". C++ integer division, which truncates toward zero, is `Common.Half`
where the sign matters. Every stream-level property is stated over
`Run(cf, st)`: the sketch after feeding the stream `st` of `Item(key, val)`
to a fresh sketch. It is compared with the exact totals `Common.Total(st, key)`.

Modules and files: `common.dfy` (Common), `flowkeys.dfy` (FlowKeys),
`hierarchy.dfy` (Hierarchy), `grid.dfy` (Grid), `mv.dfy` (MV), `deltoid.dfy`
(Deltoid), `chdeltoid.dfy` (CHDeltoid), `waving.dfy` (Waving), `chwaving.dfy`
(CHWaving), `ld.dfy` (LD), `salsa.dfy` (Salsa), `salsacm.dfy` (SalsaCM),
`salsacu.dfy` (SalsaCU), `countertree.dfy` (CounterTree), `pcm.dfy` (PCM),
`pcmfindings.dfy` (PCMFindings), `dhsketch.dfy` (DHSketch),
`counterbraids.dfy` (CounterBraids), `chcu.dfy` (CHCU), `chcount.dfy`
(CHCount), `cbf.dfy` (CBF), `qcbf.dfy` (QCBF), `bloom.dfy` (Bloom),
`hashpipe.dfy` (CHHashPipe), `univmon.dfy` (UnivMon) and `sketchlearn.dfy`
(SketchLearn).

## Model

| member | source | states |
|---|---|---|
| MV.MakeConfig | src/sketch/MVSketch.h:66-76 | the row width is at least the requested width (it goes through `NextPrime`); the depth is kept |
| MV.Clear | src/sketch/MVSketch.h:119-122 | every bucket of every row is back to V = C = 0, and the shape is kept |
| MV.Update | src/sketch/MVSketch.h:86-102 | in each row only the bucket the key hashes to changes: V grows by val; C grows by val when K is the key, otherwise it shrinks by val, and a negative C makes the key the candidate and is negated |
| MV.BucketUpdate | src/sketch/MVSketch.h:89-100 | V grows by the value; K stays or becomes the new key, and a newly elected key starts with a positive vote; a non-negative value keeps a non-negative vote non-negative |
| MV.Query | src/sketch/MVSketch.h:104-117 | the answer is at most every row's estimate, `(V + C) / 2` for the candidate and `(V - C) / 2` otherwise, with C++ truncating division |
| MV.QueryAttained | src/sketch/MVSketch.h:104-117 | the answer is some row's estimate, so with `MV.Query` it is the minimum |
| MV.QueryBounds | src/sketch/MVSketch.h:132-144 | the upper bound is `query`; the lower bound is at least every row's C when K is the key and 0 otherwise |
| MV.LowerAttained | src/sketch/MVSketch.h:136-143 | the lower bound is some row's bound, so it is the maximum |
| MV.BucketStep | src/sketch/MVSketch.h:89-100 | one update step keeps the majority-vote invariant of a bucket: V is the mass, 0 <= C <= the candidate's total, and `V + C` (candidate) or `V - C` (other key) is at least twice the key's total |
| MV.RunInvariant | src/sketch/MVSketch.h:86-102 | after any non-negative stream every bucket keeps that invariant for the sub-stream hashed to it |
| MV.QueryNeverUnderestimates | src/sketch/MVSketch.h:104-117 | on a non-negative stream `query` is at least the key's true total |
| MV.BoundsBracketTotal | src/sketch/MVSketch.h:132-144 | on a non-negative stream the lower bound is at most the true total and the upper bound at least it |
| MV.QueryAfterClear | src/sketch/MVSketch.h:119-122 | after `clear` every key reads 0 |
| MV.Candidates | src/sketch/MVSketch.h:152-157 | a key is a candidate exactly when some bucket with V >= threshold holds it as K |
| MV.HeavyHitters | src/sketch/MVSketch.h:146-169 | a key is reported exactly when some bucket with V >= threshold holds it and its `query` reaches the threshold; it is reported with that query |
| Deltoid.MakeConfig | src/sketch/Deltoid.h:89-92 | the group count is at least the requested one (`NextPrime`); the key has `8 * key_len` bits |
| Deltoid.Init | src/sketch/Deltoid.h:89-127 | every counter of both arrays and `sum_` start at zero |
| Deltoid.Clear | src/sketch/Deltoid.h:225-231 | `clear` gives back the freshly constructed sketch |
| Deltoid.Update | src/sketch/Deltoid.h:148-163 | `sum_` grows by val and the shape is kept (the per-bit effect is stated by `Deltoid.UpdateConserves` and `Deltoid.AloneGroupCounters`) |
| Deltoid.RowMin | src/sketch/Deltoid.h:167-176 | a row's running minimum, seeded with the largest `T`, is at most every bit-selected counter of the key's group and is the seed or one of them |
| Deltoid.Query | src/sketch/Deltoid.h:165-179 | the answer is at most the seed and every bit-selected counter of every row |
| Deltoid.QueryAttained | src/sketch/Deltoid.h:165-179 | the answer is the seed or one of those counters, so it is their minimum |
| Deltoid.InitConserves | src/sketch/Deltoid.h:99-126 | the fresh sketch satisfies the invariant: set-bit plus clear-bit counter is the group total, and each row's group totals add up to `sum_` |
| Deltoid.UpdateConserves | src/sketch/Deltoid.h:148-163 | `update` keeps that invariant |
| Deltoid.RunConserves | src/sketch/Deltoid.h:148-163 | after any stream the invariant holds |
| Deltoid.PickCoversTotal | src/sketch/Deltoid.h:152-162 | on a non-negative stream every counter selected by a key's bits holds at least the key's total |
| Deltoid.QueryNeverUnderestimates | src/sketch/Deltoid.h:165-179 | on a non-negative stream `query` is at least the key's total (capped by the seed) |
| Deltoid.ReadBits | src/sketch/Deltoid.h:193-206 | the rebuilt key has bit k set exactly when the group's set-bit counter exceeds the threshold |
| Deltoid.GroupKey | src/sketch/Deltoid.h:189-212 | a group yields a key exactly when its total exceeds the threshold and every bit is decided (exactly one of the two counters exceeds it); the key's bits are the set-bit decisions |
| Deltoid.GroupKeys | src/sketch/Deltoid.h:188-214 | the candidate keys are exactly those some group yields |
| Deltoid.HeavyHitters | src/sketch/Deltoid.h:181-216 | with the threshold truncated to `T`, a key is reported exactly when some group yields it, and it is reported with its `query` |
| Deltoid.AloneGroupCounters | src/sketch/Deltoid.h:151-162 | in a group only one flow reaches, the total slot holds its total, and the set-bit (clear-bit) counters hold its total where its bit is set (clear) and 0 elsewhere |
| Deltoid.AloneFlowIsRecovered | src/sketch/Deltoid.h:183-212 | such a flow whose total exceeds a non-negative threshold is rebuilt from its group and reported |
| CHDeltoid.Idx1Layout | src/sketch/CHDeltoid2Tuple.h:114-151 | `get_idx1_(i, j, k)` is `(i * G + j) * (nbits + 1) + k` and lies below the layer-0 size `H * G * (nbits + 1)` |
| CHDeltoid.Idx1Injective | src/sketch/CHDeltoid2Tuple.h:114-117 | `get_idx1_` sends distinct (row, group, bit) cells to distinct counters |
| CHDeltoid.Idx0Layout | src/sketch/CHDeltoid2Tuple.h:119-152 | `get_idx0_(i, j, k)` is `(i * G + j) * nbits + k` and lies below `H * G * nbits` |
| CHDeltoid.Idx0Injective | src/sketch/CHDeltoid2Tuple.h:119-122 | `get_idx0_` is injective on (row, group, bit) cells |
| CHDeltoid.New | src/sketch/CHDeltoid2Tuple.h:124-164 | the constructor succeeds exactly when the ratio lies in (0, 1) and throws `out_of_range` otherwise; both hierarchies start at zero with `no_layer` layers whose layer 0 has one counter per cell |
| CHDeltoid.Clear | src/sketch/CHDeltoid2Tuple.h:260-265 | `sum_` and both hierarchies are back to zero |
| CHDeltoid.Update | src/sketch/CHDeltoid2Tuple.h:173-195 | `sum_` grows by val (the counter effect is stated by `CHDeltoid.UpdateRowsEffect` and `CHDeltoid.UpdateView`) |
| CHDeltoid.UpdateBitsEffect | src/sketch/CHDeltoid2Tuple.h:186-192 | after the bit loop of one row, the set-bit counter of bit k grows by val exactly when k is one of the key's set bits in that row and group; likewise the clear-bit counters for clear bits; nothing else changes |
| CHDeltoid.UpdateRowsEffect | src/sketch/CHDeltoid2Tuple.h:184-194 | after the row loop, each row's group of the key has its set-bit (clear-bit) counters grown by val where the key's bit is set (clear) and its total slot grown by val; nothing else changes |
| CHDeltoid.View | src/sketch/CHDeltoid2Tuple.h:114-122 | reading the two stores through `get_idx1_`/`get_idx0_` gives a Deltoid sketch with the same sum |
| CHDeltoid.UpdateView | src/sketch/CHDeltoid2Tuple.h:173-195 | `update` on the stores is Deltoid's `update` on the view |
| CHDeltoid.Query | src/sketch/CHDeltoid2Tuple.h:197-212 | `query` on the stores is Deltoid's `query` on the view |
| CHDeltoid.RowsView | src/sketch/CHDeltoid2Tuple.h:199-210 | each row's running minimum over the stores is Deltoid's row minimum on the view |
| CHDeltoid.HeavyHitters | src/sketch/CHDeltoid2Tuple.h:214-249 | a key is reported exactly when some group of the stores (read through the index maps) yields it under the truncated threshold, and it is reported with `query` |
| CHDeltoid.InitView | src/sketch/CHDeltoid2Tuple.h:148-163 | the freshly built stores view as Deltoid's fresh sketch |
| CHDeltoid.RunView | src/sketch/CHDeltoid2Tuple.h:173-195 | after any stream the stores view as Deltoid's sketch after the same stream |
| CHDeltoid.QueryNeverUnderestimates | src/sketch/CHDeltoid2Tuple.h:197-212 | on a non-negative stream `query` is at least the key's total (capped by the largest `T`) |
| CHDeltoid.AloneFlowIsReported | src/sketch/CHDeltoid2Tuple.h:214-249 | a flow alone in one of its groups whose total exceeds a non-negative threshold is reported |
| Waving.New | src/sketch/WavingSketch.h:159-169 | `counter_num` is at least the requested bucket count (`NextPrime`); every bucket starts with a zero counter and an empty heavy part |
| Waving.Sign | src/sketch/WavingSketch.h:195-199 | `s(key)` is always -1 or +1 |
| Waving.FindID | src/sketch/WavingSketch.h:140-150 | `findID` returns the first slot whose key matches, and -1 exactly when no slot matches |
| Waving.SmallestID | src/sketch/WavingSketch.h:125-139 | `smallestID` returns a slot of least frequency, and the first such slot |
| Waving.BucketUpdate | src/sketch/WavingSketch.h:202-239 | a bucket never holds more than `heavy_part_length` entries |
| Waving.Update | src/sketch/WavingSketch.h:201-239 | only the bucket the key hashes to changes |
| Waving.Query | src/sketch/WavingSketch.h:241-253 | a key with no entry in its bucket is answered by the waving counter times its sign; a key whose first entry there is flagged is answered with that entry's frequency, and one whose first entry is unflagged by the waving counter times its sign |
| Waving.Entries | src/sketch/WavingSketch.h:260-265 | the scanned entries are exactly those of the buckets' heavy parts |
| Waving.Report | src/sketch/WavingSketch.h:263-270 | a key is reported exactly when some scanned entry of it reaches the threshold, and with the frequency of such an entry |
| Waving.HeavyHitters | src/sketch/WavingSketch.h:255-273 | a key is reported exactly when some resident entry of it has frequency at least the threshold |
| Waving.BucketStep | src/sketch/WavingSketch.h:202-239 | `update` keeps the bucket invariant: at most `heavy_part_length` entries, distinct keys all hashing to the bucket, every flagged entry holding its flow's exact total, and, while there is room, every flow seen by the bucket resident, the counter zero and every entry flagged |
| Waving.BucketStepNew | src/sketch/WavingSketch.h:216-219 | a new flow inserted into a bucket with room keeps the invariant |
| Waving.BucketStepHit | src/sketch/WavingSketch.h:207-215 | a hit on a resident flow keeps the invariant |
| Waving.BucketStepFull | src/sketch/WavingSketch.h:220-238 | a miss on a full bucket (waving, possibly evicting the smallest entry) keeps the invariant |
| Waving.OtherBucketStep | src/sketch/WavingSketch.h:204-205 | a bucket the key does not hash to keeps its invariant |
| Waving.RunInv | src/sketch/WavingSketch.h:201-239 | after any stream every bucket satisfies the invariant |
| Waving.FlaggedQueryExact | src/sketch/WavingSketch.h:241-253 | a flow resident with its flag set is answered with its exact total |
| Waving.RoomyBucketExact | src/sketch/WavingSketch.h:241-253 | while the key's bucket has room, `query` is the key's exact total |
| Waving.PlacedReportExact | src/sketch/WavingSketch.h:255-273 | when no key sits in two slots, every entry reaching the threshold is reported with its own frequency |
| Waving.HeavyHittersExact | src/sketch/WavingSketch.h:255-273 | after any stream, every resident entry reaching the threshold is reported with its own frequency |
| CHWaving.HeavyIdx | src/sketch/CHWavingSketch.h:246-250 | `getHeavyIdx(i, j) = i * heavy_part_length + j` lies below `counter_num * heavy_part_length` |
| CHWaving.HeavyIdxInjective | src/sketch/CHWavingSketch.h:246-250 | distinct (bucket, slot) pairs get distinct heavy-store counters |
| CHWaving.New | src/sketch/CHWavingSketch.h:178-231 | the constructor succeeds exactly when both ratios lie in (0, 1) and throws `out_of_range` otherwise; the buckets are empty, both stores zero, and layer 0 has one counter per bucket and one per heavy slot |
| CHWaving.Init | src/sketch/CHWavingSketch.h:210-230 | empty heavy parts over zero stores |
| CHWaving.Update | src/sketch/CHWavingSketch.h:274-316 | `update` rewrites the slot list of the key's bucket only; every other bucket keeps its slots |
| CHWaving.BucketView | src/sketch/CHWavingSketch.h:320-331 | a bucket reads as a Waving bucket whose counter is the counter store's value and whose entries carry the heavy store's values |
| CHWaving.UpdateOthers | src/sketch/CHWavingSketch.h:274-316 | a bucket the key does not hash to reads the same after `update` |
| CHWaving.UpdateBucketView | src/sketch/CHWavingSketch.h:274-316 | the key's bucket after `update` reads as Waving's bucket update of what it read before, over the three branches (hit, insert, wave and evict) |
| CHWaving.UpdateView | src/sketch/CHWavingSketch.h:274-316 | `update` on the stores is Waving's `update` on the view |
| CHWaving.Query | src/sketch/CHWavingSketch.h:318-332 | `query` on the stores is Waving's `query` on the view |
| CHWaving.HeavyHitters | src/sketch/CHWavingSketch.h:334-354 | a key is reported exactly when some used slot of it holds a store value at least the threshold |
| CHWaving.RunView | src/sketch/CHWavingSketch.h:274-316 | after any stream the stores read as Waving's sketch after the same stream |
| CHWaving.FlaggedQueryExact | src/sketch/CHWavingSketch.h:318-332 | a flow resident with its flag set is answered with its exact total |
| CHWaving.RoomyBucketExact | src/sketch/CHWavingSketch.h:318-332 | while the key's bucket has a free slot, `query` is the key's exact total |
| LD.MakeConfig | src/sketch/LDSketch.h:172-175 | the constructor keeps the depth, rounds the width up to a prime no smaller than asked, and sets the expansion to `eps * threshold` |
| LD.Init | src/sketch/LDSketch.h:102 | every bucket starts as `Bucket()`: V, e and l zero and an empty table |
| LD.Clear | src/sketch/LDSketch.h:157-162 | `clear` gives back the freshly constructed sketch |
| LD.Index | src/sketch/LDSketch.h:198 | the row index `hash % width` is a bucket of the row |
| LD.FindSpec | src/sketch/LDSketch.h:118-151 | `A.find` misses exactly the keys the table does not hold, and a hit is an entry of the table |
| LD.FindEntry | src/sketch/LDSketch.h:118-120 | in a table with distinct keys, `find` returns that key's own counter |
| LD.AddTo | src/sketch/LDSketch.h:119-120 | adding to a held key changes that key's counter by `val` and no other, keeps the key set and the size |
| LD.Emplace | src/sketch/LDSketch.h:121-141 | `emplace` of a new key grows the table by one, gives that key `val` and leaves every other key's counter |
| LD.Cnts | src/sketch/LDSketch.h:127-128 | the counters the `e_cap` minimum ranges over are those of the table, in order |
| LD.Decrement | src/sketch/LDSketch.h:130-136 | the decrement loop never grows the table and leaves only positive counters |
| LD.FindDecrement | src/sketch/LDSketch.h:130-136 | after the decrement a key's counter is its old counter less `e_cap` when that stays positive, and the key is erased otherwise |
| LD.DecrementDistinct | src/sketch/LDSketch.h:130-136 | the decrement keeps the table's keys distinct |
| LD.BucketUpdate | src/sketch/LDSketch.h:105-144 | `Bucket::update` adds `val` to V and keeps at most one counter per key |
| LD.BucketQuery | src/sketch/LDSketch.h:147-155 | the bounds differ by exactly e and the lower one is the key's counter, zero when it has none |
| LD.Update | src/sketch/LDSketch.h:194-201 | `update` steps the bucket the key hashes to in every row and leaves every other bucket unchanged |
| LD.Uppers | src/sketch/LDSketch.h:222-226 | one upper bound per row, each the query of the key's bucket in that row |
| LD.UpperMin | src/sketch/LDSketch.h:228 | the estimate is no larger than any row's upper bound |
| LD.Candidates | src/sketch/LDSketch.h:212-218 | the keys visited are exactly those held by some bucket whose V reaches the threshold |
| LD.CandidatesVisited | src/sketch/LDSketch.h:212-218 | the visited keys, read over the rows and columns of the sketch, are those held by a bucket whose V reaches the threshold |
| LD.HeavyHitters | src/sketch/LDSketch.h:203-236 | a key is reported exactly when some bucket whose V reaches the threshold holds it and its smallest upper bound reaches the threshold, and it is reported with that bound |
| LD.ShiftStep | src/sketch/LDSketch.h:116-142 | the hit, the insertion into a table with room and the growth of `l` keep the bracketing invariant: V is the sub-stream's mass, e is non-negative and every key's total lies between its counter and its counter plus e |
| LD.DecrementStep | src/sketch/LDSketch.h:124-138 | the decrement by `e_cap`, with e growing by `e_cap` and the new key keeping what is left of `val`, keeps the bracketing invariant |
| LD.LowDecrement | src/sketch/LDSketch.h:130-136 | a key's lower bound after the decrement is its old one less `e_cap`, floored at zero |
| LD.BucketStep | src/sketch/LDSketch.h:105-144 | every branch of `Bucket::update` with a non-negative value keeps the bracketing invariant |
| LD.Run | src/sketch/LDSketch.h:194-201 | after any stream the sketch keeps its shape and distinct keys in every table |
| LD.RunInvariant | src/sketch/LDSketch.h:194-201 | after a non-negative stream every bucket brackets every key's total over the sub-stream that reached it |
| LD.QueryBracketsTotal | src/sketch/LDSketch.h:147-201 | on a non-negative stream every row's query of a key brackets the key's true total |
| LD.ReportNeverUnderestimates | src/sketch/LDSketch.h:203-236 | a reported heavy hitter's estimate is never below its true total |
| LD.SkippedBucketHoldsNoHeavyKey | src/sketch/LDSketch.h:215-216 | a bucket's V is at least the total of every key hashing to it, so a bucket the report skips holds no key at or above the threshold |
| Salsa.Width | src/sketch/SALSACM.h:188-189 | the row width the constructor settles on is a whole number of `maxCounterLen`-byte counters |
| Salsa.ZeroRow | src/sketch/SALSACM.h:192-202 | the constructor's and `clear`'s row has every byte zero and no byte joined to the next |
| Salsa.PackPrefix | src/sketch/SALSACM.h:197-199 | the bitmap has `(width + 7) / 8` bytes and bit `q % 8` of byte `q / 8` holds flag `q` |
| Salsa.Pack | src/sketch/SALSACM.h:197-199 | the packed bitmap has `(width + 7) / 8` bytes, holds every flag at its bit and nothing past the last one |
| Salsa.GetFlagBitPacked | src/sketch/SALSACM.h:100-103 | `getFlagBit` reads from the packed bitmap exactly the flag of the byte |
| Salsa.SetFlagBitPacked | src/sketch/SALSACM.h:105-108 | `setFlagBit` on the packed bitmap is setting the one flag and packing again |
| Salsa.ZeroBitmapPacked | src/sketch/SALSACM.h:197-202 | the zero-filled bitmap packs the all-clear flags |
| Salsa.SetFlag | src/sketch/SALSACM.h:105-108 | setting a flag joins that byte to the next and changes no other flag |
| Salsa.BitmapCovers | src/sketch/SALSACM.h:197-199 | the bitmap has a flag for every byte of the row |
| Salsa.LeftEnd | src/sketch/SALSACM.h:114-116 | the left walk stops at or before the byte, at the row start or after an unjoined byte, and every byte it crossed is joined |
| Salsa.RightEnd | src/sketch/SALSACM.h:117-119 | the right walk stops within the row, at its last byte or at an unjoined byte, and every byte it crossed is joined |
| Salsa.BoundaryOfRun | src/sketch/SALSACM.h:110-121 | `getBoundary` of any byte of a counter returns exactly that counter's ends |
| Salsa.BoundaryIsRun | src/sketch/SALSACM.h:110-121 | what `getBoundary` returns is always a whole counter |
| Salsa.SetCounterVal | src/sketch/SALSACM.h:138-150 | `setCounterVal` writes only the bytes `left..right`, each a value of one byte |
| Salsa.GetFrame | src/sketch/SALSACM.h:152-161 | `getCounterVal` depends on the counter's own bytes only |
| Salsa.GetCounterVal | src/sketch/SALSACM.h:152-161 | a counter of `n` one-byte digits reads a number in `[0, 256^n)` |
| Salsa.GetSetCounterVal | src/sketch/SALSACM.h:138-161 | reading back what `setCounterVal` wrote gives the value modulo `256^len`, so a value that fits comes back exactly |
| Salsa.Value | src/sketch/SALSACM.h:110-161 | the counter a byte belongs to, found by `getBoundary`, holds a number its bytes can represent |
| Salsa.MergeCounter | src/sketch/SALSACM.h:163-185 | a merge fails, with `OutOfRange`, exactly when it must join the row's last counter to a right neighbour; a successful merge leaves a row of the same shape with one-byte digits |
| Salsa.WriteCounter | src/sketch/SALSACM.h:124-136 | writing a counter, in place or by a merge, fails only with `OutOfRange` and otherwise leaves a row of the same shape with one-byte digits |
| Salsa.Rewrite | src/sketch/SALSACM.h:138-174 | writing a fitting value into a counter that the new bitmap makes whole: each of its bytes reads the value and every other byte reads as before |
| Salsa.RewriteOutside | src/sketch/SALSACM.h:138-150 | a byte outside the rewritten counter reads as before |
| Salsa.WriteFits | src/sketch/SALSACM.h:129-131 | a value below `1 << (len << 3)` is written with `setCounterVal`, without a merge |
| Salsa.WriteInPlace | src/sketch/SALSACM.h:124-136 | a fitting value is stored exactly in its own counter and every other counter keeps its value |
| Salsa.JoinRuns | src/sketch/SALSACM.h:173-182 | setting the flag between two adjacent counters makes them one counter |
| Salsa.JoinGrows | src/sketch/SALSACM.h:171-183 | joining two adjacent counters and writing the larger of the two values leaves the joined counter with that value and no byte reading less than before |
| Salsa.MergeRightGrows | src/sketch/SALSACM.h:165-174 | a merge to the right (at the row start, or when the left end has the larger power of two) succeeds and never loses a count |
| Salsa.MergeLeftGrows | src/sketch/SALSACM.h:175-184 | a merge to the left succeeds and never loses a count |
| Salsa.WriteGrows | src/sketch/SALSACM.h:124-136 | writing a value at least the counter's own, and at most one byte beyond what it holds, never lowers any counter and leaves the written one at least that value |
| SalsaCM.MakeConfig | src/sketch/SALSACM.h:188-189 | the row width is a multiple of `maxCounterLen` and within one counter of the width asked for |
| SalsaCM.Init | src/sketch/SALSACM.h:188-202 | every counter byte of a fresh sketch is zero and every flag clear |
| SalsaCM.Clear | src/sketch/SALSACM.h:298-303 | `clear` zeroes every byte and flag and keeps the shape |
| SalsaCM.Index | src/sketch/SALSACM.h:231 | the index `hash % width` lies within the row |
| SalsaCM.Estimate | src/sketch/SALSACM.h:262-267 | a row's counter for the key is a number its bytes can represent |
| SalsaCM.UpdateRow | src/sketch/SALSACM.h:124-136 | `updateCounter` fails only with `OutOfRange` and otherwise leaves a row of the same shape with one-byte digits |
| SalsaCM.Update | src/sketch/SALSACM.h:227-253 | `update` succeeds exactly when every row's counter update succeeds, and keeps the shape |
| SalsaCM.Query | src/sketch/SALSACM.h:255-287 | `query` is the smallest of the key's counters, capped at the largest `T` |
| SalsaCM.Run | src/sketch/SALSACM.h:227-253 | a successful run keeps the sketch's shape |
| SalsaCM.UpdateRowGrows | src/sketch/SALSACM.h:124-136 | a successful counter update by at most one byte never lowers a counter and raises the key's own by at least the value |
| SalsaCM.UpdateCovers | src/sketch/SALSACM.h:227-253 | an update keeps every key's counters at or above its true total |
| SalsaCM.UpdateCoversAt | src/sketch/SALSACM.h:227-253 | after an update every counter of a key is at least its total over the extended stream |
| SalsaCM.RunCovers | src/sketch/SALSACM.h:227-253 | after a successful run of byte-sized updates every counter of every key is at least its true total |
| SalsaCM.QueryNeverUnderestimates | src/sketch/SALSACM.h:255-287 | after a successful run of byte-sized updates, `query` is never below the true total, capped at the largest `T` |
| SalsaCM.UpdateRowExact | src/sketch/SALSACM.h:124-131 | a sum that fits its counter is stored exactly |
| SalsaCM.QueryInit | src/sketch/SALSACM.h:255-287 | a fresh or cleared sketch answers 0 for every key |
| SalsaCU.MinVal | src/sketch/SALSACU.h:231-249 | `min_val` is the smallest of `val` plus the key's counter over all rows, starting from the largest `T` |
| SalsaCU.UpdateRow | src/sketch/SALSACU.h:250-253 | a row whose counter already reaches the minimum is left unchanged |
| SalsaCU.Update | src/sketch/SALSACU.h:226-258 | `update` succeeds exactly when every row's step succeeds, and keeps the shape |
| SalsaCU.Run | src/sketch/SALSACU.h:226-258 | a successful run keeps the sketch's shape |
| SalsaCU.UpdateRowGrows | src/sketch/SALSACU.h:124-136 | a successful row step never lowers a counter and leaves the key's counter at least the minimum |
| SalsaCU.MinValCovers | src/sketch/SALSACU.h:231-249 | when every counter covers its key's total, the minimum covers the key's new total, capped at the largest `T` |
| SalsaCU.UpdateCoversAt | src/sketch/SALSACU.h:226-258 | after an update every counter of a key is at least its capped total over the extended stream |
| SalsaCU.UpdateCovers | src/sketch/SALSACU.h:226-258 | the conservative update keeps every counter at or above its key's capped true total |
| SalsaCU.RunCovers | src/sketch/SALSACU.h:226-258 | after a successful run of byte-sized updates every counter covers its key's capped true total |
| SalsaCU.QueryNeverUnderestimates | src/sketch/SALSACU.h:263-290 | after a successful run of byte-sized updates, `query` never falls below the true total, capped at the largest `T` |
| SalsaCU.UpdateRowExact | src/sketch/SALSACU.h:250-253 | when the minimum fits the counter, the key's counter becomes the larger of its old value and the minimum |
| CounterTree.MakeConfig | src/sketch/CounterTree.h:100-113 | the constructor keeps `b`, `d` and `r`, rounds the leaf count `m` up to a prime no smaller than asked, and builds for `h_ = 0` what it builds for `h_ = 1`; the parameters are covered exactly when `b <= 16`, `d >= 1` and `r >= 1` |
| CounterTree.Bound | src/sketch/CounterTree.h:117 | `bound_of_counters = 1 << b` is positive |
| CounterTree.LeavesPerTop | src/sketch/CounterTree.h:103-107 | `dh = d^(h-1)` is positive |
| CounterTree.TrueM | src/sketch/CounterTree.h:108-110 | `true_m` is `m` rounded up to a multiple of `dh`: at least `m` and less than `m + dh` |
| CounterTree.LayerSizeNext | src/sketch/CounterTree.h:112-116 | each round of the constructor's loop takes the ceiling of the previous layer size over `d` |
| CounterTree.LayerExact | src/sketch/CounterTree.h:108-116 | since `true_m` is a multiple of `dh`, every ceiling is exact: layer `k` has `tops * d^(h-1-k)` counters |
| CounterTree.StartMono | src/sketch/CounterTree.h:111-116 | the layers are laid out one after another in the counter array |
| CounterTree.LeafLayer | src/sketch/CounterTree.h:110-111 | a counter lies below `true_m` exactly when it is a leaf, and every counter lies inside the array |
| CounterTree.ParentInLayers | src/sketch/CounterTree.h:159-164 | `get_parent` of counter `j` of layer `k` is counter `j / d` of layer `k + 1`, and -1 on the top layer |
| CounterTree.ParentTop | src/sketch/CounterTree.h:159-164 | on the top layer `get_parent` returns -1 |
| CounterTree.ParentLayer | src/sketch/CounterTree.h:159-164 | below the top layer the parent's position lies inside the next layer |
| CounterTree.ParentSlot | src/sketch/CounterTree.h:162 | the parent's position in the next layer is `j / d`, inside that layer |
| CounterTree.ParentBelowTop | src/sketch/CounterTree.h:159-164 | below the top layer the parent index lies inside the counter array |
| CounterTree.LeftSonInLayers | src/sketch/CounterTree.h:166-170 | `get_left_son(idx) + i` is counter `j * d + i` of the layer below, inside it |
| CounterTree.ParentOfLeftSon | src/sketch/CounterTree.h:159-170 | every son that `get_left_son` places has its father as parent |
| CounterTree.GetParent | src/sketch/CounterTree.h:159-164 | `get_parent` answers -1 or an inner counter of the array, never a leaf |
| CounterTree.GetLeftSon | src/sketch/CounterTree.h:166-170 | for an inner counter, the first and the last of the `d` sons from `get_left_son` have it as their parent |
| CounterTree.Init | src/sketch/CounterTree.h:118-123 | the constructor zeroes every counter, flag and exact total, and `n` |
| CounterTree.SetCnt | src/sketch/CounterTree.h:199-214 | writing one counter changes that counter only |
| CounterTree.Mark | src/sketch/CounterTree.h:210 | setting one flag changes that flag only |
| CounterTree.UpdateCounter | src/sketch/CounterTree.h:194-216 | `update_counter` touches only counters and flags, never `n` or the exact totals |
| CounterTree.LeafOf | src/sketch/CounterTree.h:227 | the leaf an update picks lies below `m`, among the leaves |
| CounterTree.HashLeaf | src/sketch/CounterTree.h:278 | each of a key's query leaves lies below `m`, among the leaves |
| CounterTree.UpdateLeaf | src/sketch/CounterTree.h:221-230 | an update adds `val` to `n` and to the leaf's exact total, and to no other exact total |
| CounterTree.Update | src/sketch/CounterTree.h:218-231 | `update` adds `val` to `n` and to the exact total of the leaf the chosen hash function picks |
| CounterTree.Run | src/sketch/CounterTree.h:218-231 | a successful run keeps the sketch's shape |
| CounterTree.BoundFits | src/sketch/CounterTree.h:117-196 | with `b` at most 16, a `uint16_t` counter holds every value below the bound |
| CounterTree.CarryExact | src/sketch/CounterTree.h:199-203 | on overflow the counter keeps a remainder below the bound and the parent receives a positive quotient with `quotient * bound = result - remainder` |
| CounterTree.Scaled | src/sketch/CounterTree.h:258-259 | a counter of layer `k` stands for `bound^k` packets |
| CounterTree.LeafLayers | src/sketch/CounterTree.h:120 | the exact totals sit on the leaf layer only |
| CounterTree.TreeSumBump | src/sketch/CounterTree.h:233-266 | changing one entry changes the sum of exactly the subtrees that contain it |
| CounterTree.UpdateCounterStores | src/sketch/CounterTree.h:212-215 | a sum below the bound is stored as it is |
| CounterTree.UpdateCounterCarries | src/sketch/CounterTree.h:196-211 | a sum at or above the bound stores the remainder, carries the quotient to the parent and sets the flag |
| CounterTree.MarkValid | src/sketch/CounterTree.h:210 | setting a flag keeps every counter below the bound |
| CounterTree.SetCntValid | src/sketch/CounterTree.h:199-214 | storing a value below the bound keeps every counter below it |
| CounterTree.UpdateCounterValid | src/sketch/CounterTree.h:194-216 | `update_counter` keeps every counter below the bound |
| CounterTree.UpdateCounterWeighted | src/sketch/CounterTree.h:194-216 | `update_counter` adds exactly `val * bound^k` to the weighted total of all counters: carrying loses nothing |
| CounterTree.UpdateCounterFlags | src/sketch/CounterTree.h:194-216 | flags are only ever set, and never on the top layer |
| CounterTree.UpdateCounterSubtree | src/sketch/CounterTree.h:194-216 | a subtree not containing the counter keeps its weighted sum, and an unflagged subtree containing it gains exactly `val * bound^k` |
| CounterTree.InitExact | src/sketch/CounterTree.h:118-123 | a fresh sketch satisfies the exactness invariant: counters below the bound, no flag on top, every unflagged subtree's weighted sum equal to its leaves' exact totals, and the weighted total, the exact totals and `n` in agreement |
| CounterTree.UpdateTopClear | src/sketch/CounterTree.h:200-209 | an update never flags a top-layer counter |
| CounterTree.UpdateTotals | src/sketch/CounterTree.h:218-231 | an update keeps the weighted total of the counters, the sum of the exact totals and `n` equal |
| CounterTree.UpdateLeafExact | src/sketch/CounterTree.h:218-231 | an update that does not overflow the top layer keeps the exactness invariant |
| CounterTree.RunExact | src/sketch/CounterTree.h:218-231 | after a run of non-negative packets the sketch is exact, `n` is the packets' total and every exact total is the mass sent to that leaf |
| CounterTree.CountSubTree | src/sketch/CounterTree.h:233-244 | on a leaf `count_sub_tree` succeeds exactly when `pow` is 1 |
| CounterTree.CountSons | src/sketch/CounterTree.h:258-264 | the sons' loop fails only with the error that stands for `count_sub_tree`'s `exit(0)` at a leaf with `pow != 1` |
| CounterTree.CountSubTreeWeighted | src/sketch/CounterTree.h:233-266 | started with `pow = bound^k`, `count_sub_tree` succeeds and returns the weighted sum of the subtree's counters |
| CounterTree.CountSonsWeighted | src/sketch/CounterTree.h:258-264 | the sons' loop returns the weighted sum of the sons' subtrees |
| CounterTree.Climb | src/sketch/CounterTree.h:175-189 | the climb of `get_estimated_val` stops at an ancestor that is unflagged or on the top layer |
| CounterTree.EstimatedVal | src/sketch/CounterTree.h:172-192 | `get_estimated_val` fails only with the error that stands for `count_sub_tree`'s `exit(0)` |
| CounterTree.TreeSumCovers | src/sketch/CounterTree.h:233-266 | with nothing negative, a subtree's sum is at least any of its leaves |
| CounterTree.EstimateCovers | src/sketch/CounterTree.h:172-192 | on an exact sketch `get_estimated_val` succeeds, equals `r` times the exact totals under the reached counter less the correction, and so is at least `r` times the leaf's own total less the correction |
| CounterTree.Query | src/sketch/CounterTree.h:268-283 | `query` succeeds exactly when every estimate does, and is the mean of the `r` estimates truncated toward zero: within 1 of the mean, no further from zero than it, and of its sign |
| CounterTree.QuerySumCovers | src/sketch/CounterTree.h:270-281 | on an exact sketch the sum of the `r` estimates succeeds and is at least the sum of their lower bounds |
| CounterTree.LeafSumCovers | src/sketch/CounterTree.h:270-281 | the exact totals of a key's `r` leaves add up to at least the packets of that key sent through them |
| CounterTree.QueryLowerBound | src/sketch/CounterTree.h:268-283 | after a run of non-negative packets without a top-layer overflow, `query` succeeds and exceeds the key's true total less the mean correction, less one |
| PCM.MakeConfig | src/sketch/PCMSketch.h:102-117 | the constructor succeeds exactly when `lg_used_bits` lies in [1, 5] and throws `out_of_range` otherwise; with a prime word count and at least one layer the configuration is well formed |
| PCM.Geometry | src/sketch/PCMSketch.h:113-121 | the counters of a word fill its 64 bits, a layer-0 counter has two bits more than the count bits of a higher one, and `MY_MASK = 4 * HIGHER_MASK + 3` |
| PCM.LayerLenCovers | src/sketch/PCMSketch.h:120-125 | layer `i`, of `(word_num + 2^i - 1) >> i` words, covers the `word_num` words of layer 0 and has no word to spare |
| PCM.LayerHalf | src/sketch/PCMSketch.h:121 | each layer halves the one below it, rounding up, so the parent `q / 2` of a word is a word of the next layer |
| PCM.Slot | src/sketch/PCMSketch.h:163-209 | reading counter `o` of a word with `MY_MASK` gives a value below `2^c` |
| PCM.AddAt | src/sketch/PCMSketch.h:175-180 | adding at a counter's offset keeps the word a 64-bit value |
| PCM.UnitStep | src/sketch/PCMSketch.h:163 | the units of consecutive counters of a word differ by `2^c` |
| PCM.UnitTop | src/sketch/PCMSketch.h:113-117 | the last counter of a word ends at bit 64 |
| PCM.SlotElsewhere | src/sketch/PCMSketch.h:163 | a counter depends only on its own bits of the word |
| PCM.Shift | src/sketch/PCMSketch.h:180-256 | adding within a counter's bits changes that counter by the value, keeps every other counter and keeps the word below 2^64 |
| PCM.AddAtFits | src/sketch/PCMSketch.h:180-256 | an addition that stays within the counter's bits is plain addition on that counter and leaves the others |
| PCM.ClearAtIsShift | src/sketch/PCMSketch.h:174 | masking out a counter's low bits subtracts them in units of the counter |
| PCM.ClearAtSlot | src/sketch/PCMSketch.h:174 | masking out `nb` low bits of counter `o` drops exactly those bits and keeps the other counters |
| PCM.BitOfSlot | src/sketch/PCMSketch.h:251-294 | a bit of a counter is the word's bit at the counter's offset plus the bit's position |
| PCM.SetClearBit | src/sketch/PCMSketch.h:251 | setting a clear bit adds its power of two |
| PCM.SetClearBitWord | src/sketch/PCMSketch.h:251 | setting a clear bit of counter `o` adds `2^t` units of that counter |
| PCM.ClearBitFits | src/sketch/PCMSketch.h:251 | a clear bit of a counter can be set without leaving the counter |
| PCM.SetBitSlot | src/sketch/PCMSketch.h:251 | setting bit `t` of counter `o` adds `2^t` to it when the bit was clear, nothing otherwise, and keeps the other counters |
| PCM.CBitsRange | src/sketch/PCMSketch.h:113-114 | counters have between 2 and 32 bits and the count bits hold at least one value |
| PCM.ReplaceLow | src/sketch/PCMSketch.h:173-175 | clearing the low bits of a counter and adding a value below their range replaces those bits by the value and keeps the other counters |
| PCM.FlagCount | src/sketch/PCMSketch.h:251-297 | a higher-layer counter holding one child's flag and count `x` has `x` as its count bits, that child's flag set and the other's clear |
| PCM.FlaggedCount | src/sketch/PCMSketch.h:294-297 | `get_value` climbs past a counter holding this child's flag and count `x`, and takes `x` from it |
| PCM.Init | src/sketch/PCMSketch.h:119-125 | the constructor zero-fills every layer |
| PCM.Clear | src/sketch/PCMSketch.h:229-235 | `clear` zeroes every word of every layer and keeps the shape |
| PCM.Put | src/sketch/PCMSketch.h:174-180 | storing one word changes that word only |
| PCM.HashValue | src/sketch/PCMSketch.h:150 | the hash is a 64-bit value |
| PCM.WordIndex | src/sketch/PCMSketch.h:151 | `my_word_index`, the low 18 bits of the hash modulo `word_num`, is a word of layer 0 |
| PCM.Offset | src/sketch/PCMSketch.h:152-161 | each row's offset, taken from its own bits of the hash modulo the counters of a word, is a counter of the word |
| PCM.CounterNumPos | src/sketch/PCMSketch.h:116-117 | `counter_num = word_num << counter_index_size` is at least the counters of one word |
| PCM.Index | src/sketch/PCMSketch.h:159 | `index[i]` is a counter position below `counter_num` |
| PCM.IndexSplit | src/sketch/PCMSketch.h:242-243 | `carry` and `get_value` recover from `index` the word and the offset it was built from |
| PCM.WordOfIndex | src/sketch/PCMSketch.h:242-243 | every counter position names a word of layer 0 and a counter of it |
| PCM.LayerZero | src/sketch/PCMSketch.h:121 | layer 0 has `word_num` words |
| PCM.ParentWord | src/sketch/PCMSketch.h:251-262 | one pass of `carry` keeps the parent word a 64-bit value |
| PCM.CarryStep | src/sketch/PCMSketch.h:245-264 | one pass of `carry` changes only its own layer |
| PCM.CarryFrom | src/sketch/PCMSketch.h:237-269 | `carry` leaves the layers below where it starts unchanged and fails only with `overflow_error` |
| PCM.Carry | src/sketch/PCMSketch.h:237-269 | `carry` keeps the shape and fails only with `overflow_error` |
| PCM.CarryAt | src/sketch/PCMSketch.h:242-249 | `carry` of a counter position starts at the parent of its layer-0 word |
| PCM.BaseWord | src/sketch/PCMSketch.h:170-181 | the new layer-0 word is a 64-bit value |
| PCM.UpdateSlot | src/sketch/PCMSketch.h:170-181 | one row of `update` keeps the shape and fails only with `overflow_error` |
| PCM.UpdateSlotSplit | src/sketch/PCMSketch.h:170-181 | a row either stores the new layer-0 word, or, when the sum exceeds `MY_MASK`, stores its low bits and carries `new_val >> c` from the word's parent |
| PCM.UpdateRows | src/sketch/PCMSketch.h:156-182 | the loop of `update` keeps the shape and fails only with `overflow_error` |
| PCM.Below | src/sketch/PCMSketch.h:154 | the full flag marks exactly the offsets of a word as pending |
| PCM.Update | src/sketch/PCMSketch.h:141-184 | corrected (see Findings): `update` with a flag covering every offset keeps the shape and fails only with `overflow_error` |
| PCM.UpdateAsWritten | src/sketch/PCMSketch.h:141-184 | `update` with `flag = 0xFFFFFFF` keeps the shape |
| PCM.Query | src/sketch/PCMSketch.h:186-220 | corrected (see Findings): `query` reads each row with the weights the carries give, never fails, and answers the smallest row estimate, capped at `1 << 30`; the source's reading is `PCM.QueryAsWritten` |
| PCM.QueryAsWritten | src/sketch/PCMSketch.h:186-220 | the source's `query` fails only with `overflow_error`, and otherwise answers at most `1 << 30` |
| PCM.QueryAsWrittenFourBit | src/sketch/PCMSketch.h:186-220 | with 4-bit counters the source's `query`, when it does not fail, answers what the corrected query answers |
| PCM.CountRoom | src/sketch/PCMSketch.h:254-256 | when the count bits can take the carry, the counter stays within its bits |
| PCM.FlaggedLocal | src/sketch/PCMSketch.h:251 | setting a flag keeps the word a 64-bit value and every other counter |
| PCM.ParentWordLocal | src/sketch/PCMSketch.h:251-263 | a pass of `carry` with a non-negative carry changes only its own counter of the parent word and passes on a non-negative carry |
| PCM.FlaggedZero | src/sketch/PCMSketch.h:251 | flagging an empty counter leaves only the flag, with a count of zero |
| PCM.SetBitEmpty | src/sketch/PCMSketch.h:251 | setting a bit of an empty counter leaves exactly that bit |
| PCM.ParentWordZeroFits | src/sketch/PCMSketch.h:254-257 | a carry that fits the count bits of an empty parent is stored there beside the flag and the loop returns |
| PCM.ParentWordZeroCarries | src/sketch/PCMSketch.h:260-263 | a carry that does not fit keeps its low count bits beside the flag |
| PCM.ParentWordZero | src/sketch/PCMSketch.h:251-263 | a pass into an empty counter leaves the flag and the carry's low `c - 2` bits, returns exactly when the carry fits them, and passes on the quotient |
| PCM.BaseWordLocal | src/sketch/PCMSketch.h:170-181 | adding a non-negative value at layer 0 changes only its own counter |
| PCM.BaseWordZero | src/sketch/PCMSketch.h:170-181 | adding to an empty layer-0 counter leaves the low `c` bits of the value and overflows exactly when the value exceeds `MY_MASK` |
| PCM.CarryStepLocal | src/sketch/PCMSketch.h:245-264 | a pass of `carry` keeps every other counter position of the sketch |
| PCM.CarryFromLocal | src/sketch/PCMSketch.h:237-269 | `carry` keeps every other counter position of the sketch |
| PCM.UpdateSlotLocalAt | src/sketch/PCMSketch.h:170-181 | a row of `update`, carry included, keeps every other counter position of every layer |
| PCM.UpdateSlotLocal | src/sketch/PCMSketch.h:170-181 | a row of `update` keeps every other counter position of the sketch |
| PCM.GetValueFrom | src/sketch/PCMSketch.h:271-298 | reading over empty parents adds nothing |
| PCM.GetValue | src/sketch/PCMSketch.h:271-276 | `get_value` of a counter position whose parents are empty is 0 |
| PCM.GetValueAsWritten | src/sketch/PCMSketch.h:271-301 | the source's loop fails only with `overflow_error`, and for 4-bit counters a read that does not fail is the corrected read |
| PCM.FourBitWeight | src/sketch/PCMSketch.h:297 | with 4-bit counters the weight `2^(c - 2 + 2i)` the source uses is the weight the carries give a layer-`i` unit |
| PCM.Estimate | src/sketch/PCMSketch.h:209-210 | a row whose parents are empty estimates its layer-0 counter alone |
| PCM.SplitLocal | src/sketch/PCMSketch.h:170-181 | whichever way a row of `update` goes, storing the new layer-0 word or carrying from it, every counter position other than the key's that the store left unchanged stays unchanged |
| PCM.GetValueFlagged | src/sketch/PCMSketch.h:284-297 | a parent holding this child's flag and count `x` adds `x` units of its layer's weight to what the layers above add |
| PCM.CarryStepNext | src/sketch/PCMSketch.h:245-264 | a pass into an empty parent returns exactly when the carry fits the count bits, passes the quotient on, and leaves the layers above empty |
| PCM.CarryStepExact | src/sketch/PCMSketch.h:251-262 | a pass into an empty parent leaves this child's flag and the carry's low bits there |
| PCM.WeightStep | src/sketch/PCMSketch.h:263 | each higher layer weighs `2^(c - 2)` of the layer below |
| PCM.CarryExactFits | src/sketch/PCMSketch.h:254-257 | a carry that fits the first parent is read back as that many units of its layer |
| PCM.CarryExactClimbs | src/sketch/PCMSketch.h:260-264 | a carry that climbs past the first parent is read back exactly when what it passes on is |
| PCM.CarryExact | src/sketch/PCMSketch.h:237-298 | a successful `carry` into empty parents is read back exactly: `val` units of the layer it started at |
| PCM.CarryOkFits | src/sketch/PCMSketch.h:254-257 | a carry that fits the first parent succeeds and fits the layers from there up |
| PCM.CarryOkClimbs | src/sketch/PCMSketch.h:260-268 | a carry that climbs past the first parent succeeds exactly when it fits the layers from there up |
| PCM.CarryOkZero | src/sketch/PCMSketch.h:237-269 | `carry` into empty parents succeeds exactly when the value fits the layers from its start to the top |
| PCM.PutZeroAbove | src/sketch/PCMSketch.h:174-180 | storing a layer-0 word keeps the layers above empty |
| PCM.UpdateSlotCarriesZero | src/sketch/PCMSketch.h:171-176 | a value overflowing an empty layer-0 counter leaves its low `c` bits there and carries the rest into an empty layer 1 |
| PCM.UpdateSlotOkCarries | src/sketch/PCMSketch.h:171-176 | such a value is stored without error exactly when it is below the capacity |
| PCM.UpdateSlotOkZero | src/sketch/PCMSketch.h:170-181 | adding a non-negative value to an empty counter position succeeds exactly when it is below the capacity |
| PCM.UpdateSlotExactFits | src/sketch/PCMSketch.h:178-181 | a value that fits the layer-0 counter is read back exactly |
| PCM.WeightOne | src/sketch/PCMSketch.h:176 | a layer-1 unit is worth `2^c` |
| PCM.UpdateSlotExactCarries | src/sketch/PCMSketch.h:171-176 | a value that overflows layer 0 and stays below the capacity is read back exactly |
| PCM.UpdateSlotExact | src/sketch/PCMSketch.h:170-210 | adding a non-negative value below the capacity to an empty counter position makes that row's estimate exactly the value |
| PCM.GetValueFromSame | src/sketch/PCMSketch.h:271-298 | `get_value` reads only its own counter position |
| PCM.EstimateSame | src/sketch/PCMSketch.h:209-210 | a row's estimate reads only its own counter position |
| PCM.RowStep | src/sketch/PCMSketch.h:165-181 | a row at a pending offset succeeds and keeps the rows' invariant with that offset done |
| PCM.UpdateRowsExact | src/sketch/PCMSketch.h:156-182 | the loop of `update` succeeds and leaves every row's estimate at the value, even when two rows share an offset |
| PCM.InitZero | src/sketch/PCMSketch.h:119-125 | every counter position of a fresh sketch is empty |
| PCM.UpdateExact | src/sketch/PCMSketch.h:141-220 | corrected (see Findings): on a fresh sketch an update below the capacity succeeds, every row reads it back, and `query` answers it, capped at `1 << 30` |
| PCM.UpdateOverflows | src/sketch/PCMSketch.h:170-269 | on a fresh sketch a value at or past the capacity overflows the top layer |
| PCM.QueryClear | src/sketch/PCMSketch.h:186-235 | a cleared sketch answers 0 for every key |
| PCMFindings.SmallHash | src/sketch/PCMSketch.h:150-158 | with two words, a key whose hash is below 2^30 with its 18 word-index bits clear lands in word 0, at offset `hash >> 18` in row 0 |
| PCMFindings.OneRowUpdate | src/sketch/PCMSketch.h:141-184 | with one row, two words and a key in word 0 at offset 0, `update` is the update of that one counter position |
| PCMFindings.HighOffset | src/sketch/PCMSketch.h:150-158 | the key of the flag finding lands on offset 28 of 32 |
| PCMFindings.TwoBitCapacity | src/sketch/PCMSketch.h:113-121 | with 2-bit counters a position holds values below 4 |
| PCMFindings.FlagMissesHighOffsets | src/sketch/PCMSketch.h:154-168 | with `flag = 0xFFFFFFF` a row at offset 28 is skipped: the update is lost and `query` answers 0, while with the full flag it answers the value |
| PCMFindings.EightBit | src/sketch/PCMSketch.h:113-121 | the constants of 8-bit counters over four layers of two words |
| PCMFindings.CarriedTwice | src/sketch/PCMSketch.h:170-264 | 16384 added to an empty 8-bit position leaves 0 in layer 0, 64 in layer 1, flag plus 1 in layer 2 and nothing in layer 3 |
| PCMFindings.ReadTwiceAsWritten | src/sketch/PCMSketch.h:271-301 | `get_value` as written reads those layers back as 1024 |
| PCMFindings.LayerWeightAsWritten | src/sketch/PCMSketch.h:297 | with 8-bit counters and four layers the query as written answers 1024 for a stored 16384, while the corrected query answers 16384 |
| PCMFindings.FourBit | src/sketch/PCMSketch.h:113-121 | the constants of 4-bit counters |
| PCMFindings.CarriedOnce | src/sketch/PCMSketch.h:170-264 | 16 added to an empty 4-bit position over two layers leaves the left child's flag and count 1 in layer 1 |
| PCMFindings.TopLayerReadFails | src/sketch/PCMSketch.h:284-301 | with two layers the query as written throws `overflow_error` on a value that `carry` stored without overflow, while the corrected query answers it |
| DHSketch.Num3 | src/sketch/DHSketch.h:468-539 | `num3 = (usage >> 8) & 15` is below 16 |
| DHSketch.Num4 | src/sketch/DHSketch.h:469-540 | `num4 = (usage >> 16) & 15` is below 16 |
| DHSketch.LayoutSpan | src/sketch/DHSketch.h:468-474 | the three regions take `landa_h = 32` bytes, plus one byte when `num3` is odd because `num3 * 3 / 2` rounds down |
| DHSketch.Stride | src/sketch/DHSketch.h:475-519 | an entry takes 2, 3 or 4 bytes by level |
| DHSketch.Mix | src/sketch/DHSketch.h:62-70 | the 32-bit mixer, with both multiplications wrapping modulo 2^32, maps 0 to 0 |
| DHSketch.FingerPrint | src/sketch/DHSketch.h:62-70 | `DHSFingerPrint` is the low 16 bits of the mixed hash, and a zero hash has the zero fingerprint |
| DHSketch.EntryInside | src/sketch/DHSketch.h:473-518 | in a well-formed node every entry lies inside its level's region and the regions end within the 32 bytes |
| DHSketch.EntriesDisjoint | src/sketch/DHSketch.h:473-518 | two different entries of a well-formed node share no byte |
| DHSketch.CountAt | src/sketch/DHSketch.h:551-573 | the count read from an entry is at most its level's cap |
| DHSketch.FieldsFrame | src/sketch/DHSketch.h:478-573 | an entry's fingerprint and count read only its own bytes |
| DHSketch.EntryCount | src/sketch/DHSketch.h:551-573 | an entry's count is at most its level's cap |
| DHSketch.Find | src/sketch/DHSketch.h:475-523 | the scan of one level finds the first entry whose fingerprint matches, and finds none exactly when no entry matches |
| DHSketch.FindIn | src/sketch/DHSketch.h:475-523 | a level's scan finds an entry with the fingerprint truncated to that level, and none exactly when no entry has it |
| DHSketch.Locate | src/sketch/DHSketch.h:472-532 | `insert` and `query` settle on a matching entry of level 4 first, then level 3, then level 2, and on none exactly when no level has a match |
| DHSketch.QueryNode | src/sketch/DHSketch.h:537-579 | `DHSNode::query` answers at most its entry's cap, and 0 when no entry matches |
| DHSketch.RoomIsBelowCap | src/sketch/DHSketch.h:481-525 | the byte tests of `insert` hold exactly when the entry's count is below its cap |
| DHSketch.BumpBytes | src/sketch/DHSketch.h:481-525 | the in-place increment raises the entry's count by one and changes no fingerprint and no other byte |
| DHSketch.Bump | src/sketch/DHSketch.h:481-525 | counting in place keeps the node well formed and its usage |
| DHSketch.Insert | src/sketch/DHSketch.h:465-536 | `insert` with no match is `levelup(1)`, and keeps the node well formed when `levelup` does |
| DHSketch.BumpFrame | src/sketch/DHSketch.h:481-525 | counting in place moves no fingerprint and changes only the count it raises by one |
| DHSketch.Fps | src/sketch/DHSketch.h:475-523 | the scan compares the level's fingerprints, one per entry, in entry order |
| DHSketch.LocateSame | src/sketch/DHSketch.h:472-532 | two nodes of one shape with the same fingerprints settle on the same entry |
| DHSketch.InsertCounts | src/sketch/DHSketch.h:465-579 | inserting a key whose entry has room raises by one the answer of every key settling on that entry, and of no other key |
| DHSketch.InsertFullTop | src/sketch/DHSketch.h:461-490 | a key whose level-4 entry is full stays at the cap: `levelup(4)` has no case, so the node does not change |
| DHSketch.InsertFullPromotes | src/sketch/DHSketch.h:509-529 | a full level-3 or level-2 entry is handed to `levelup(3)` or `levelup(2)` |
| DHSketch.FreshNode | src/sketch/DHSketch.h:90-99 | a new node has 32 zero bytes and sixteen level-2 entries |
| DHSketch.BlankEntry | src/sketch/DHSketch.h:90-99 | every entry of a new node is a level-2 entry with fingerprint byte 0 and count 0 |
| DHSketch.BlankLocate | src/sketch/DHSketch.h:519-574 | in a new node a key whose fingerprint's low byte is 0 settles on the first level-2 entry, and no other key settles anywhere |
| DHSketch.FreshQuery | src/sketch/DHSketch.h:537-579 | a new node answers 0 for every key |
| DHSketch.BlankQuery | src/sketch/DHSketch.h:537-579 | a blank node, fresh or cleared, answers 0 for every key |
| DHSketch.FreshInsertZeroByte | src/sketch/DHSketch.h:519-530 | an empty entry is not told from a stored fingerprint byte 0: in a new node such a key counts itself in place, and every key with a zero low byte then reads 1 |
| DHSketch.BlankInsertZeroByte | src/sketch/DHSketch.h:519-530 | the same on any blank node |
| DHSketch.FreshInsertOther | src/sketch/DHSketch.h:534-535 | any other key reaches a new node through `levelup(1)` |
| DHSketch.New | src/sketch/DHSketch.h:603-607 | the constructor makes `NextPrime(bucketNum_)` new nodes, at least as many as asked |
| DHSketch.Bucket | src/sketch/DHSketch.h:618-624 | `hash % bucketNum` is a bucket |
| DHSketch.Update | src/sketch/DHSketch.h:614-619 | `update` (of one packet) changes only the key's bucket and keeps every node well formed |
| DHSketch.Query | src/sketch/DHSketch.h:621-625 | `query` answers at most the level-4 cap |
| DHSketch.QueryNew | src/sketch/DHSketch.h:603-625 | a new sketch answers 0 for every key |
| DHSketch.UpdateElsewhere | src/sketch/DHSketch.h:614-625 | keys of other buckets keep their answers after an update |
| DHSketch.UpdateCounts | src/sketch/DHSketch.h:614-625 | an update whose key has an entry with room adds one to the answer of that key and of every key settling on the same entry of the same bucket, and to no other |
| CounterBraids.Cap | src/sketch/CounterBraids.h:358 | a counter of `width_cnt[l]` bits holds values below `2^width`, at least 2 |
| CounterBraids.Empty | src/sketch/CounterBraids.h:352-363 | the freshly allocated sketch (zero counters, clear status bits, no lazy update, no key) is well shaped |
| CounterBraids.WidthsFitSum | src/sketch/CounterBraids.h:341-349 | the running-sum check on `width_cnt` passes exactly when the widths sum to at most `sizeof(T) * 8` |
| CounterBraids.New | src/sketch/CounterBraids.h:290-366 | the constructor succeeds exactly when `no_layer >= 1`, the three vectors have `no_layer` entries, no width or hash count is zero and the widths fit `sizeof(T) * 8`; it throws `invalid_argument` otherwise; on success every `no_cnt` entry has gone through `NextPrime` and the sketch is empty |
| CounterBraids.Lazy | src/sketch/CounterBraids.h:382-384 | adding to the lazy updates keeps their length |
| CounterBraids.Update | src/sketch/CounterBraids.h:378-387 | `update` moves no counter or status bit and adds the key to the key set |
| CounterBraids.Hits | src/sketch/CounterBraids.h:382-384 | a counter is hit at most once per layer-0 hash |
| CounterBraids.LazyAt | src/sketch/CounterBraids.h:382-384 | each lazy update grows by the value times the number of layer-0 hashes that send the key there |
| CounterBraids.Run | src/sketch/CounterBraids.h:378-387 | a run keeps the sketch well shaped |
| CounterBraids.RunLoad | src/sketch/CounterBraids.h:378-387 | after a run no counter or status bit has moved, each lazy update is the counter's total load from the stream, and the key set is exactly the stream's keys |
| CounterBraids.AddCounter | src/sketch/CounterBraids.h:172 | adding to a counter keeps the sum modulo `2^width` and returns the rest as the overflow, with nothing lost; the overflow is zero exactly when the sum fits |
| CounterBraids.Spread | src/sketch/CounterBraids.h:181-185 | spreading an overflow keeps the next layer's update vector length |
| CounterBraids.SpreadSum | src/sketch/CounterBraids.h:181-185 | spreading adds the overflow once per hash of the next layer to its total |
| CounterBraids.Step | src/sketch/CounterBraids.h:171-187 | one iteration keeps the shapes and fails only with `overflow_error` |
| CounterBraids.StepFacts | src/sketch/CounterBraids.h:171-187 | one iteration throws exactly when it overflows on the last layer; otherwise it stores the wrapped sum, sets the status bit on overflow and carries `no_hash[l + 1]` copies of the overflow upward |
| CounterBraids.LayerLoop | src/sketch/CounterBraids.h:166-190 | `updateLayer` keeps the layer's length and fails only with `overflow_error` |
| CounterBraids.Ovfs | src/sketch/CounterBraids.h:172 | the overflows of the counters the loop visited |
| CounterBraids.LayerLoopErr | src/sketch/CounterBraids.h:176-179 | `updateLayer` throws exactly when the layer is the last one and some counter overflows there |
| CounterBraids.LayerLoopAt | src/sketch/CounterBraids.h:171-188 | after the loop each visited counter holds the wrapped sum, its status bit is set by an overflow and kept otherwise, and counters not visited are unchanged |
| CounterBraids.LayerConserves | src/sketch/CounterBraids.h:166-190 | nothing is lost in a layer: the counters now hold what they gained less `2^width` per unit of overflow |
| CounterBraids.LayerCarries | src/sketch/CounterBraids.h:180-186 | below the last layer, each unit of overflow arrives `no_hash[l + 1]` times in the layer above |
| CounterBraids.LayerQuiet | src/sketch/CounterBraids.h:166-190 | a layer whose every sum fits adds the updates in place, sets no status bit and carries nothing |
| CounterBraids.FlushFrom | src/sketch/CounterBraids.h:393-395 | pushing the updates through the layers keeps the sketch well shaped and fails only with `overflow_error` |
| CounterBraids.Flush | src/sketch/CounterBraids.h:392-396 | the first half of `decode` empties the lazy updates, keeps the key set and fails only with `overflow_error` |
| CounterBraids.FlushNothing | src/sketch/CounterBraids.h:392-396 | pushing nothing through the layers changes nothing |
| CounterBraids.FlushExact | src/sketch/CounterBraids.h:378-396 | when no layer-0 counter overflows, decoding a run leaves each layer-0 counter holding its total load, no status bit set, and every higher layer zero |
| CounterBraids.Size | src/sketch/CounterBraids.h:413-427 | `size` is the counters' and status bits' bits floored to bytes, plus the hash objects |
| CounterBraids.Clear | src/sketch/CounterBraids.h:429-443 | `clear` resets every counter, status bit, lazy update and the key set |
| CounterBraids.ClearFlushes | src/sketch/CounterBraids.h:392-443 | a cleared sketch decodes without overflow and stays as it is |
| Hierarchy.Fresh | src/sketch/CHCUSketch.h:113-115 | a new hierarchy's layer-0 counters are all zero |
| Hierarchy.UpdateCnt | src/sketch/CHCUSketch.h:144 | `updateCnt(i, v)` adds `v` to counter `i` and moves no other counter |
| Hierarchy.ResetCnt | src/sketch/CHWavingSketch.h:312 | `resetCnt(i, v)` sets counter `i` to `v` and moves no other counter |
| Hierarchy.Clear | src/sketch/CHCUSketch.h:172-174 | `clear` gives back a fresh hierarchy of the same size |
| Hierarchy.CheckRatio | src/sketch/CHCUSketch.h:100-105 | the ratio check passes exactly on the open interval (0, 1) and throws `out_of_range` otherwise |
| Hierarchy.NextLayerRatio | src/sketch/CHCUSketch.h:108-111 | `NextPrime(ceil(last * ratio))` is at least `ratio` times the layer below |
| Hierarchy.LayerSizesShape | src/sketch/CHCUSketch.h:106-111 | there is one size per layer, layer 0 has the requested size and every layer at least `ratio` times the one below |
| Grid.MakeConfig | src/sketch/CHCUSketch.h:97 | the width is rounded up to a prime no smaller than asked and the depth kept |
| Grid.CHIdxLayout | src/sketch/CHCUSketch.h:75-77 | `getCHIdx(i, j) = i * width + j` lies inside the hierarchy and names each cell by one counter |
| Grid.Clear | src/sketch/CHCountSketch.h:193-196 | `clear` gives back a fresh hierarchy of the same size; `CHCUSketch::clear` (CHCUSketch.h:170-174) is the same `ch->clear()` |
| Grid.Index | src/sketch/CHCUSketch.h:133 | `hash % width` is a column |
| Grid.Slot | src/sketch/CHCUSketch.h:133-134 | the counter a row uses for a key lies inside the hierarchy |
| Grid.CellOf | src/sketch/CHCUSketch.h:75-77 | every hierarchy counter is the cell of some row and column |
| CHCU.New | src/sketch/CHCUSketch.h:89-116 | the constructor succeeds exactly when the ratio lies in (0, 1) and throws `out_of_range` otherwise; on success layer 0 has one zero counter per cell |
| CHCU.Ests | src/sketch/CHCUSketch.h:129-140 | `EstVal` holds the key's counter in every row |
| CHCU.Raise | src/sketch/CHCUSketch.h:142-146 | the raising loop keeps the hierarchy's size |
| CHCU.Update | src/sketch/CHCUSketch.h:125-147 | `update` keeps the hierarchy's size |
| CHCU.Query | src/sketch/CHCUSketch.h:149-159 | `query` is the smallest of the key's counters, capped at the largest `T` |
| CHCU.RaiseAt | src/sketch/CHCUSketch.h:142-146 | after the loop a key's counter in a row whose estimate was below the target holds the target, and every other counter its old value |
| CHCU.UpdateAt | src/sketch/CHCUSketch.h:125-147 | `update` raises the key's counter in every row to the target when it is below it, and leaves every other counter |
| CHCU.UpdateNegative | src/sketch/CHCUSketch.h:141-146 | a negative value changes nothing, since the target is below every counter |
| CHCU.QueryAfterUpdate | src/sketch/CHCUSketch.h:125-159 | with a non-negative value the key's query grows by exactly the value, capped at the largest `T` |
| CHCU.Run | src/sketch/CHCUSketch.h:125-147 | a run keeps the hierarchy's size |
| CHCU.UpdateCoversAt | src/sketch/CHCUSketch.h:125-147 | after an update every counter of a key is at least its capped total over the extended stream |
| CHCU.UpdateCovers | src/sketch/CHCUSketch.h:125-147 | the conservative update keeps every counter at or above its key's capped true total |
| CHCU.RunCovers | src/sketch/CHCUSketch.h:125-147 | on a non-negative stream every counter covers its key's capped true total |
| CHCU.QueryNeverUnderestimates | src/sketch/CHCUSketch.h:149-159 | on a non-negative stream `query` never falls below the true total, capped at the largest `T` |
| CHCount.Sign | src/sketch/CHCountSketch.h:141-175 | a key's sign in a row, `(hash & 1) * 2 - 1`, is 1 or -1 |
| CHCount.New | src/sketch/CHCountSketch.h:108-127 | the constructor keeps the depth, rounds the width up, makes `2 * depth` hash objects and one zero counter per cell; it does not check the ratio, so every non-negative ratio is accepted and each upper layer has at least `ratio` times the layer below |
| CHCount.UpdateRows | src/sketch/CHCountSketch.h:138-142 | the update loop keeps the hierarchy's size |
| CHCount.Update | src/sketch/CHCountSketch.h:135-143 | `update` keeps the hierarchy's size |
| CHCount.Values | src/sketch/CHCountSketch.h:171-176 | `values` holds each row's counter for the key times the key's sign there |
| CHCount.Query | src/sketch/CHCountSketch.h:177-182 | the median, made non-negative by `std::abs`, is never negative |
| CHCount.UpdateRowsAt | src/sketch/CHCountSketch.h:138-142 | after the loop over the first rows, exactly the key's counter in each of them has gained the signed value |
| CHCount.UpdateAt | src/sketch/CHCountSketch.h:135-143 | `update` adds the signed value to exactly the key's counter in every row and leaves every other counter |
| CHCount.Run | src/sketch/CHCountSketch.h:135-143 | a run keeps the hierarchy's size |
| CHCount.RunLoad | src/sketch/CHCountSketch.h:135-143 | after a run every counter holds the signed total of the keys hashed to it |
| CHCount.AloneLoad | src/sketch/CHCountSketch.h:135-143 | without collisions, the key's counter in each row is its signed total |
| CHCount.QueryAlone | src/sketch/CHCountSketch.h:145-183 | a key that collides with no other key is estimated exactly: `query` returns the magnitude of its total |
| CHCount.QueryAfterClear | src/sketch/CHCountSketch.h:145-196 | after `clear` every key queries zero |
| Bloom.MakeConfig | src/sketch/QueryingCountingBloomFilter.h:81-91 | the filter holds at least the requested number of counters (rounded up to the next prime) and keeps the requested number of hash functions |
| Bloom.Idx | src/sketch/QueryingCountingBloomFilter.h:102-104 | every hash function picks a counter inside the array |
| Bloom.AddAll | src/sketch/QueryingCountingBloomFilter.h:99-106 | adding through every hash function keeps the counter array's shape |
| Bloom.HitsPicked | src/sketch/QueryingCountingBloomFilter.h:102-104 | a counter some hash function picks for a key is hit at least once |
| Bloom.HitsUnpicked | src/sketch/QueryingCountingBloomFilter.h:102-104 | a counter no hash function picks for a key is never hit |
| Bloom.AddAllAt | src/sketch/QueryingCountingBloomFilter.h:99-106 | each counter grows by the value once for every hash function that picks it, so colliding hash functions add twice |
| QCBF.New | src/sketch/QueryingCountingBloomFilter.h:81-91 | the plain filter starts as one layer of at least `num_cnt` zero counters of the requested width |
| QCBF.NewCH | src/sketch/CHQueryingCountingBloomFilter.h:91-124 | construction succeeds exactly when the ratio lies strictly between 0 and 1, fails with an out-of-range error otherwise, and on success layer 0 holds at least `num_cnt` zero counters |
| QCBF.Update | src/sketch/CHQueryingCountingBloomFilter.h:132-138 | an update keeps the counter array's shape |
| QCBF.Picked | src/sketch/QueryingCountingBloomFilter.h:108-118 | lists, in hash-function order, exactly the counters the key hashes to |
| QCBF.Query | src/sketch/QueryingCountingBloomFilter.h:108-118 | the answer is the minimum of the key's hashed counters: no larger than any of them and equal to one of them |
| QCBF.Clear | src/sketch/QueryingCountingBloomFilter.h:129-132 | `clear` returns every counter to zero |
| QCBF.UpdateAt | src/sketch/QueryingCountingBloomFilter.h:99-106 | an update moves each counter by the value once per hash function that picks it, and leaves counters the key does not hash to unchanged |
| QCBF.Run | src/sketch/QueryingCountingBloomFilter.h:99-106 | feeding a stream keeps the counter array's shape |
| QCBF.RunLoad | src/sketch/QueryingCountingBloomFilter.h:99-106 | after a stream every counter holds exactly the sum of the updates hashed to it |
| QCBF.LoadCovers | src/sketch/QueryingCountingBloomFilter.h:99-106 | on a non-negative stream each counter a key hashes to carries at least that key's total |
| QCBF.QueryNeverUnderestimates | src/sketch/QueryingCountingBloomFilter.h:99-118 | on a non-negative stream the query never falls below the key's true total |
| QCBF.QueryAfterClear | src/sketch/QueryingCountingBloomFilter.h:108-132 | after `clear` every key queries zero |
| CBF.New | src/sketch/CHCountingBloomFilter.h:107-143 | construction succeeds exactly when the ratio lies strictly between 0 and 1, fails with an out-of-range error otherwise, and on success layer 0 holds at least `num_cnt` zero counters |
| CBF.Lookup | src/sketch/CHCountingBloomFilter.h:179-200 | a key is reported present exactly when none of its hashed counters is zero |
| CBF.Insert | src/sketch/CHCountingBloomFilter.h:151-177 | an insert keeps the array's shape and changes nothing when every hashed counter is already non-zero |
| CBF.Remove | src/sketch/CHCountingBloomFilter.h:202-227 | a remove keeps the array's shape and changes nothing when some hashed counter is zero |
| CBF.Clear | src/sketch/CHCountingBloomFilter.h:237-240 | `clear` returns every counter to zero |
| CBF.InsertAt | src/sketch/CHCountingBloomFilter.h:151-177 | when the insert fires, each counter grows by one per hash function that picks it |
| CBF.InsertGrows | src/sketch/CHCountingBloomFilter.h:151-177 | an insert never lowers a counter |
| CBF.InsertNoNegative | src/sketch/CHCountingBloomFilter.h:151-177 | an insert keeps all counters non-negative |
| CBF.InsertThenLookup | src/sketch/CHCountingBloomFilter.h:151-200 | right after inserting a key, looking it up reports it present |
| CBF.InsertTwice | src/sketch/CHCountingBloomFilter.h:151-177 | inserting the same key twice is the same as inserting it once |
| CBF.RemoveUndoesInsert | src/sketch/CHCountingBloomFilter.h:151-227 | removing a key that was absent before an insert restores the filter exactly |
| CBF.InsertAll | src/sketch/CHCountingBloomFilter.h:151-177 | inserting a sequence of keys keeps the array's shape |
| CBF.InsertAllNoNegative | src/sketch/CHCountingBloomFilter.h:151-177 | inserting only ever leaves counters non-negative |
| CBF.LookupStays | src/sketch/CHCountingBloomFilter.h:151-200 | a key once reported present stays present under further inserts |
| CBF.NoFalseNegatives | src/sketch/CHCountingBloomFilter.h:151-200 | after inserting a sequence of keys, every inserted key is reported present |
| CHHashPipe.Idx | src/sketch/CHHashPipe.h:193-233 | every stage hashes a key to a slot inside its row |
| CHHashPipe.CHIdx | src/sketch/CHHashPipe.h:254-268 | the counter of a CH stage's slot lies inside the shared hierarchy of `ch_depth * width` counters |
| CHHashPipe.CHIdxInjective | src/sketch/CHHashPipe.h:254-268 | distinct CH slots address distinct counters |
| CHHashPipe.OtherCounter | src/sketch/CHHashPipe.h:254-268 | writing one CH slot's counter never touches another slot's |
| CHHashPipe.SetAt | src/sketch/CHHashPipe.h:220-269 | writing a key and value into a slot keeps the sketch's shape |
| CHHashPipe.SetAtEffect | src/sketch/CHHashPipe.h:220-295 | writing a slot leaves exactly that key and value there and changes no other slot; on a CH stage the counter is moved by the difference to the estimate, so it reads back the new value |
| CHHashPipe.AddAt | src/sketch/CHHashPipe.h:199-256 | merging into a slot keeps the sketch's shape |
| CHHashPipe.AddAtEffect | src/sketch/CHHashPipe.h:199-283 | a merge raises exactly that slot's value by the carried amount, keeps its key and changes no other slot |
| CHHashPipe.ClaimAsWritten | src/sketch/CHHashPipe.h:258-288 | the source's claim of an empty slot keeps the sketch's shape |
| CHHashPipe.ClaimAsWrittenEffect | src/sketch/CHHashPipe.h:201-288 | the source's claim writes the key; an entry stage takes the carried value, but a CH stage adds it to what the counter already held; no other slot changes |
| CHHashPipe.Claim | src/sketch/CHHashPipe.h:219-261 | the corrected claim keeps the sketch's shape |
| CHHashPipe.Pipe | src/sketch/CHHashPipe.h:214-271 | the later stages, however they merge, claim, swap or pass, keep the sketch's shape |
| CHHashPipe.PipeKeepsEarlier | src/sketch/CHHashPipe.h:214-271 | the carried key only travels forward: stages before the current one are left untouched |
| CHHashPipe.UpdateWith | src/sketch/CHHashPipe.h:189-340 | an update keeps the sketch's shape under either reading of the claim |
| CHHashPipe.UpdateAsWritten | src/sketch/CHHashPipe.h:189-340 | the source's update keeps the sketch's shape |
| CHHashPipe.Update | src/sketch/CHHashPipe.h:189-340 | the corrected update keeps the sketch's shape |
| CHHashPipe.UpdateResident | src/sketch/CHHashPipe.h:193-296 | after an update the key sits in its first-stage slot with the old value plus the update on a hit and with the update otherwise, except that the source's claim of an empty CH first stage adds the update to whatever its counter held |
| CHHashPipe.Init | src/sketch/CHHashPipe.h:112-177 | a fresh sketch holds the empty key and value zero in every slot |
| CHHashPipe.Clear | src/sketch/CHHashPipe.h:436-460 | `clear` leaves the empty key and value zero in every slot |
| CHHashPipe.New | src/sketch/CHHashPipe.h:112-177 | construction succeeds exactly when the ratio lies strictly between 0 and 1 and `ch_depth` (`depth` when given as -1) lies in `[0, depth]`, fails with an out-of-range error otherwise, and on success holds a fresh sketch whose hierarchy's first layer has `width * ch_depth` counters |
| CHHashPipe.StoredKeys | src/sketch/CHHashPipe.h:376-402 | collects exactly the keys stored in some slot of some stage |
| CHHashPipe.HeavyHitters | src/sketch/CHHashPipe.h:372-404 | reports exactly the stored keys whose query reaches the threshold, each with its query |
| CHHashPipe.OwnSame | src/sketch/CHHashPipe.h:343-369 | a one-slot change does not move the contribution of other stages, nor of that stage for keys hashing elsewhere |
| CHHashPipe.QSumChange | src/sketch/CHHashPipe.h:343-369 | a one-slot change moves the partial query sum by exactly that slot's change in contribution |
| CHHashPipe.QueryChange | src/sketch/CHHashPipe.h:343-369 | a one-slot change moves a key's query by that slot's change in contribution, and not at all for keys hashing elsewhere in that stage |
| CHHashPipe.QSum | src/sketch/CHHashPipe.h:343-369 | the partial sum over the first `n` stages is zero when none of them holds the key in its slot, and non-negative when all of those slots hold non-negative values |
| CHHashPipe.Query | src/sketch/CHHashPipe.h:343-369 | a key held in none of its slots reads zero, and non-negative slot values give a non-negative answer |
| CHHashPipe.HitStep | src/sketch/CHHashPipe.h:216-257 | merging into the slot holding the carried key raises that key's query by the carried value and no other key's |
| CHHashPipe.HitPreserves | src/sketch/CHHashPipe.h:216-257 | a merge keeps every key in at most its own slots and every value non-negative |
| CHHashPipe.ClaimStep | src/sketch/CHHashPipe.h:219-261 | the corrected claim of an empty slot raises the carried key's query by at most the carried value and no other key's query at all |
| CHHashPipe.SwapStep | src/sketch/CHHashPipe.h:223-270 | a swap moves the evicted key's value out of its query and the carried value into the carried key's query |
| CHHashPipe.SetPreserves | src/sketch/CHHashPipe.h:220-269 | writing a key at its own slot keeps every key in its own slots and every value non-negative |
| CHHashPipe.PipeInv | src/sketch/CHHashPipe.h:214-273 | carrying a key down the pipeline never lifts any key's query above its true total |
| CHHashPipe.UpdateInv | src/sketch/CHHashPipe.h:189-340 | an update by a non-negative value keeps every query at most the true total of the stream extended by that update |
| CHHashPipe.Run | src/sketch/CHHashPipe.h:189-340 | feeding a stream keeps the sketch's shape |
| CHHashPipe.RunAsWritten | src/sketch/CHHashPipe.h:189-340 | feeding a stream the source's way keeps the sketch's shape |
| CHHashPipe.QSumInit | src/sketch/CHHashPipe.h:343-369 | a fresh sketch answers zero for every key |
| CHHashPipe.RunInv | src/sketch/CHHashPipe.h:189-369 | after any non-negative stream every query is at most the key's true total |
| CHHashPipe.QueryNeverOverestimates | src/sketch/CHHashPipe.h:189-369 | with the corrected claim, the sketch never over-estimates a key on a non-negative stream |
| CHHashPipe.QueryAfterHit | src/sketch/CHHashPipe.h:197-284 | a first-stage hit raises the key's query by exactly the update and leaves every other key's query alone |
| CHHashPipe.QueryOneStage | src/sketch/CHHashPipe.h:343-369 | a one-stage sketch answers with its only stage's contribution |
| CHHashPipe.FirstOfTwo | src/sketch/CHHashPipe.h:277-289 | on one CH stage of one slot, the empty key merges into the empty slot under either reading |
| CHHashPipe.SecondOfTwo | src/sketch/CHHashPipe.h:277-289 | another key then finds the slot "empty": the source's claim answers the old counter plus one, the corrected claim answers one |
| CHHashPipe.ClaimAsWrittenOverestimates | src/sketch/CHHashPipe.h:285-288 | a stream of the empty key with 5 then another key with 1 makes the source's sketch answer 6 for a key whose total is 1, while the corrected sketch answers 1 |
| CHHashPipe.ClaimAsWrittenExample | src/sketch/CHHashPipe.h:285-288 | the same over-estimate with the one-byte keys `[0]` and `[1]` |
| CHHashPipe.QueryAfterClear | src/sketch/CHHashPipe.h:436-460 | after `clear` every key queries zero |
| UnivMon.WidthsFrom | src/sketch/THD_CHHHUnivMon.h:194-199 | the width loop yields one width per level, each at least 2 (a prime) |
| UnivMon.WidthsHalve | src/sketch/THD_CHHHUnivMon.h:194-199 | level `s` is the next prime of the start width halved `s` times, never below one |
| UnivMon.HalvedShift | src/sketch/THD_CHHHUnivMon.h:198 | halving `s + 1` times is halving once and then `s` times |
| UnivMon.HalvedMono | src/sketch/THD_CHHHUnivMon.h:198 | halving keeps the order of its starting points |
| UnivMon.WidthsAtLeast | src/sketch/THD_CHHHUnivMon.h:180-199 | rounding the start width up to a prime and then each level again never makes a level narrower than the halved request |
| UnivMon.OffsetGrows | src/sketch/THD_CHHHUnivMon.h:194-201 | `width_idx` places every later level after the end of an earlier one |
| UnivMon.CHIdxLayout | src/sketch/THD_CHHHUnivMon.h:155-210 | `getCHIdx` puts every cell of every level inside the hierarchy's first layer of `depth * total_length` counters, and distinct cells on distinct counters |
| UnivMon.New | src/sketch/THD_CHHHUnivMon.h:168-227 | construction fails with `bad_array_new_length` when `logn` is 0, otherwise succeeds exactly when the ratio lies strictly between 0 and 1 and fails with an out-of-range error when it does not; on success it has `logn` levels no narrower than the halved request, zeroed counters, every `sum[s]` holding whatever the uninitialised `new T[logn]` gave (`heap(s)`), and a first layer of `depth * total_length` counters |
| UnivMon.GlobalHash | src/sketch/THD_CHHHUnivMon.h:160-166 | the level bit is 0 or 1, and always 1 on level 0 |
| UnivMon.ReachFrom | src/sketch/THD_CHHHUnivMon.h:268-286 | the level walk stops at the first level whose bit is clear, every level it passes having its bit set |
| UnivMon.Reach | src/sketch/THD_CHHHUnivMon.h:268-286 | the number of levels a key reaches: all below have their bit set, the next one, if any, has it clear, and with at least one level every key reaches level 0 |
| UnivMon.Col | src/sketch/THD_CHHHUnivMon.h:116-149 | a row hashes the key to a column inside its level |
| UnivMon.Sign | src/sketch/THD_CHHHUnivMon.h:119-150 | a key's sign in a row is +1 or -1 |
| UnivMon.Slot | src/sketch/THD_CHHHUnivMon.h:149-151 | a key's cell in a row of a level is a counter of the hierarchy |
| UnivMon.UpdateRows | src/sketch/THD_CHHHUnivMon.h:146-153 | `updateSketch` keeps the hierarchy's size |
| UnivMon.UpdateRowsAt | src/sketch/THD_CHHHUnivMon.h:146-153 | `updateSketch` on a level adds the signed value to the key's cell in each updated row and leaves every other counter, on any level, unchanged |
| UnivMon.UpdateLevels | src/sketch/THD_CHHHUnivMon.h:268-276 | the level loop of `update` keeps the sketch's shape |
| UnivMon.UpdateLevelsAt | src/sketch/THD_CHHHUnivMon.h:268-276 | after updating the first `n` levels exactly the key's cells on those levels moved, each by its signed value |
| UnivMon.UpdateLevelsSum | src/sketch/THD_CHHHUnivMon.h:268-276 | after updating the first `n` levels exactly their sums grew by the value |
| UnivMon.Update | src/sketch/THD_CHHHUnivMon.h:265-277 | an update keeps the sketch's shape |
| UnivMon.UpdateAt | src/sketch/THD_CHHHUnivMon.h:265-277 | an update adds the value to the sum and the signed value to the key's cell in every row of exactly the levels the key reaches, and changes nothing else |
| UnivMon.Values | src/sketch/THD_CHHHUnivMon.h:130-137 | one signed counter per row: the key's cell times its sign |
| UnivMon.QuerySketch | src/sketch/THD_CHHHUnivMon.h:112-144 | a level's estimate is never negative |
| UnivMon.Estimates | src/sketch/THD_CHHHUnivMon.h:288-290 | lists every level's estimate of the key, level by level |
| UnivMon.CombineClosed | src/sketch/THD_CHHHUnivMon.h:288-291 | each step of the query's loop matches the closed form weighted by powers of two |
| UnivMon.Query | src/sketch/THD_CHHHUnivMon.h:279-293 | the query is the deepest reached level's estimate times `2^(L-1)` less each shallower level's estimate times `2^j` |
| UnivMon.CombineFromZero | src/sketch/THD_CHHHUnivMon.h:288-291 | the whole loop of `query`, over any estimates, equals that closed form |
| UnivMon.CombineConstant | src/sketch/THD_CHHHUnivMon.h:288-291 | when every reached level estimates the same value, the query's loop returns that value |
| UnivMon.Fresh | src/sketch/THD_CHHHUnivMon.h:208-226 | the fresh sketch is well shaped and its sums are the starting values it is given |
| UnivMon.Run | src/sketch/THD_CHHHUnivMon.h:265-277 | feeding a stream, from any starting sums, keeps the sketch's shape |
| UnivMon.RunLoad | src/sketch/THD_CHHHUnivMon.h:265-277 | after a stream every cell holds the signed total of the updates hashed to it on that level, and every level's sum has grown from its starting value by the mass of the keys reaching it |
| UnivMon.LevelZeroMass | src/sketch/THD_CHHHUnivMon.h:268-270 | every key reaches level 0, so the mass `sum[0]` gains is the whole stream's mass |
| UnivMon.AloneLoad | src/sketch/THD_CHHHUnivMon.h:265-277 | on a level a key reaches and shares with no other key, its cell in every row holds its signed total |
| UnivMon.QuerySketchAlone | src/sketch/THD_CHHHUnivMon.h:130-144 | such a level estimates the key exactly |
| UnivMon.QueryAlone | src/sketch/THD_CHHHUnivMon.h:279-293 | a key that shares no cell on any level it reaches is estimated exactly |
| SketchLearn.ChIdxLayout | src/sketch/CHSketchLearn2Tuple.h:284-286 | `chIdx` puts every cell of every layer inside the hierarchy's first layer of `(l + 1) * r * c` counters, and distinct cells on distinct counters |
| SketchLearn.GetBitOf | src/sketch/CHSketchLearn2Tuple.h:300-312 | `get_bit` answers 0 or 1 |
| SketchLearn.SetBitOf | src/sketch/CHSketchLearn2Tuple.h:314-327 | `set_bit` keeps the length of the byte string |
| SketchLearn.SetThenGet | src/sketch/CHSketchLearn2Tuple.h:300-327 | `get_bit` reads back the bit `set_bit` wrote (set for 1, cleared for anything else) and every other bit is unchanged |
| SketchLearn.Col | src/sketch/CHSketchLearn2Tuple.h:718 | a row hashes the key to a column in `1 .. c` |
| SketchLearn.Slot | src/sketch/CHSketchLearn2Tuple.h:284-292 | a key's cell in a row of a layer is a counter of the hierarchy |
| SketchLearn.ZeroTable | src/sketch/CHSketchLearn2Tuple.h:935-944 | the table the constructor and `clear` leave is correctly shaped and all zero |
| SketchLearn.New | src/sketch/CHSketchLearn2Tuple.h:638-677 | construction succeeds exactly when the ratio lies strictly between 0 and 1, fails with an out-of-range error otherwise, and on success has zero counters and table, no large flow, `updated` set and a first layer of `(l + 1) * r * c` counters |
| SketchLearn.AddRows | src/sketch/CHSketchLearn2Tuple.h:716-737 | adding along the rows of a layer keeps the hierarchy's size |
| SketchLearn.AddRowsAt | src/sketch/CHSketchLearn2Tuple.h:716-737 | adding along the first `n` rows of a layer moves exactly the key's cell in each of those rows, by the value |
| SketchLearn.AddLayers | src/sketch/CHSketchLearn2Tuple.h:730-743 | the layer loop of `update` keeps the hierarchy's size |
| SketchLearn.AddLayersAt | src/sketch/CHSketchLearn2Tuple.h:716-743 | after the first `m` layers, exactly the key's cells on the layers that count it moved, each by the value |
| SketchLearn.AddLayersStep | src/sketch/CHSketchLearn2Tuple.h:730-743 | each further layer touches only its own cells |
| SketchLearn.Update | src/sketch/CHSketchLearn2Tuple.h:707-744 | an update changes only the hierarchy: the table, the flag and the large flows stay |
| SketchLearn.UpdateAt | src/sketch/CHSketchLearn2Tuple.h:707-744 | an update adds the value to the key's column in every row of layer 0 and of every layer whose key bit is set, and to no other counter |
| SketchLearn.Run | src/sketch/CHSketchLearn2Tuple.h:707-744 | feeding a stream keeps the hierarchy's size |
| SketchLearn.RunLoad | src/sketch/CHSketchLearn2Tuple.h:707-744 | after a stream every counter holds the total of the keys hashed to it that the layer counts |
| SketchLearn.LayerBelowZero | src/sketch/CHSketchLearn2Tuple.h:707-744 | on a non-negative stream a bit layer holds between zero and layer 0's count; a key with the bit set is covered by the bit layer, one with it clear by the difference to layer 0 |
| SketchLearn.Counter | src/sketch/CHSketchLearn2Tuple.h:294-298 | `chGetCnt` reads the hierarchy counter of that cell |
| SketchLearn.LearnRow | src/sketch/CHSketchLearn2Tuple.h:752-762 | the copy of one row sets each column `1 .. c` to its counter and leaves column 0 alone |
| SketchLearn.LearnRowAsWritten | src/sketch/CHSketchLearn2Tuple.h:752-757 | the release build's copy of one row adds each counter to what the column already held |
| SketchLearn.Learn | src/sketch/CHSketchLearn2Tuple.h:752-762 | the learned table holds, in every layer and row, exactly the hierarchy's counters |
| SketchLearn.LearnAsWritten | src/sketch/CHSketchLearn2Tuple.h:752-757 | the release build's learned table is the old table plus the counters |
| SketchLearn.LearnTwice | src/sketch/CHSketchLearn2Tuple.h:752-762 | learning twice from unchanged counters gives the same table as learning once |
| SketchLearn.LearnFromZero | src/sketch/CHSketchLearn2Tuple.h:752-757 | from the zero table of the constructor and `clear`, the release build's first learning is the debug build's |
| SketchLearn.FirstLearnNeverUnderestimates | src/sketch/CHSketchLearn2Tuple.h:752-928 | so the release build's first learning never underestimates either, capped at `0xfffffff` |
| SketchLearn.RowMin | src/sketch/CHSketchLearn2Tuple.h:916-926 | the bit loop of one row answers no more than its start value nor any bit's comparison, and equals one of them |
| SketchLearn.RowsMin | src/sketch/CHSketchLearn2Tuple.h:913-927 | the row loop answers no more than `0xfffffff` nor any comparison of the rows walked, and equals one of them |
| SketchLearn.Query | src/sketch/CHSketchLearn2Tuple.h:912-928 | the fallback answer is the smallest of `0xfffffff` and every row's and bit's comparison: the bit layer for a set bit, layer 0 minus the bit layer for a clear one |
| SketchLearn.QueryOfEqual | src/sketch/CHSketchLearn2Tuple.h:912-928 | when every comparison is the same value the fallback answers it, capped at `0xfffffff` |
| SketchLearn.QueryNeverUnderestimates | src/sketch/CHSketchLearn2Tuple.h:912-928 | on a non-negative stream the fallback over the learned table never falls below the key's true total, capped at `0xfffffff` |
| SketchLearn.OnlyLoad | src/sketch/CHSketchLearn2Tuple.h:707-744 | with a single key, each of its cells holds its total on the layers that count it and zero elsewhere |
| SketchLearn.LearnAsWrittenDoubles | src/sketch/CHSketchLearn2Tuple.h:752-757 | with a single key, one learning makes the fallback answer its total, while a second learning in the release build makes it answer twice its total |
| SketchLearn.SubRows | src/sketch/CHSketchLearn2Tuple.h:552-564 | taking a flow off the rows of a layer keeps the table's shape |
| SketchLearn.SubRowsAt | src/sketch/CHSketchLearn2Tuple.h:552-564 | taking a flow off the first `n` rows of a layer lowers exactly its cell in each of those rows, by its size |
| SketchLearn.SubLayers | src/sketch/CHSketchLearn2Tuple.h:557-566 | the layer loop of `RemoveFlows` keeps the table's shape |
| SketchLearn.SubLayersAt | src/sketch/CHSketchLearn2Tuple.h:552-566 | after the first `m` layers exactly the flow's cells on the layers whose bit it has set (and layer 0) lost its size |
| SketchLearn.SubLayersStep | src/sketch/CHSketchLearn2Tuple.h:557-566 | each further layer touches only its own cells |
| SketchLearn.RemoveFlow | src/sketch/CHSketchLearn2Tuple.h:548-567 | removing one flow keeps the table's shape |
| SketchLearn.RemoveFlows | src/sketch/CHSketchLearn2Tuple.h:544-568 | removing every listed flow keeps the table's shape |
| SketchLearn.RemoveUndoesUpdate | src/sketch/CHSketchLearn2Tuple.h:544-568 | removing a flow takes its size off exactly the cells `update` added it to: learn after an update, then remove, equals learning before the update |
| SketchLearn.Clear | src/sketch/CHSketchLearn2Tuple.h:931-955 | `clear` zeroes the hierarchy and the table, forgets every large flow and resets `updated` |
| SketchLearn.QueryAfterClear | src/sketch/CHSketchLearn2Tuple.h:912-955 | after `clear` the fallback answers zero for every key |
| Common.Half | src/sketch/THD_CHHHUnivMon.h:123 | halving a signed integer truncates toward zero, as C++ `/` does: the remainder lies between -1 and 1 and has the sign of the dividend |
| Common.Sort | src/sketch/THD_CHHHUnivMon.h:121 | `std::sort` yields a sorted permutation of its input |
| Common.MedianAbsOfConstant | src/sketch/THD_CHHHUnivMon.h:121-126 | when every row agrees on one signed value, the median estimator answers its magnitude, for an odd or an even number of rows |
| Common.Collect | src/sketch/CHHashPipe.h:372-404 | the heavy-hitter report holds exactly the candidates the test accepts, each with its estimate |
| FlowKeys.SetBit | src/sketch/Deltoid.h:204 | `setBit` makes the bit the given value and keeps every other bit |
| FlowKeys.ZeroKey | src/sketch/CHHashPipe.h:194 | the default key has the given length and no bit set |
| MV.Init | src/sketch/MVSketch.h:66-76 | the freshly allocated rows have the configured shape |
| MV.Index | src/sketch/MVSketch.h:90-139 | a row hashes the key to a bucket inside the row |
| MV.Run | src/sketch/MVSketch.h:86-102 | feeding a stream keeps the sketch's shape |
| Deltoid.Index | src/sketch/Deltoid.h:153-169 | a row hashes the key to one of its groups |
| Deltoid.Run | src/sketch/Deltoid.h:148-163 | feeding a stream keeps the sketch's shape |
| CHDeltoid.UpdateRows | src/sketch/CHDeltoid2Tuple.h:184-194 | the row loop of `update` keeps both stores' sizes and leaves `sum_` alone |
| CHDeltoid.Run | src/sketch/CHDeltoid2Tuple.h:173-195 | feeding a stream keeps both stores' sizes |
| Waving.Index | src/sketch/WavingSketch.h:204-243 | the key hashes to a bucket inside the table |
| Waving.Run | src/sketch/WavingSketch.h:201-239 | feeding a stream keeps every bucket within `heavy_part_length` entries |
| Waving.ReportUnique | src/sketch/WavingSketch.h:263-270 | an entry reaching the threshold whose key no other entry holds is reported with its own frequency |
| CHWaving.SlotFreqs | src/sketch/CHWavingSketch.h:141-158 | the frequencies `smallestID` compares are the heavy store's estimates of the bucket's used slots, in slot order |
| CHWaving.UpdateValid | src/sketch/CHWavingSketch.h:274-316 | an update keeps the buckets within `heavy_part_length` entries and the stores' sizes |
| CHWaving.Run | src/sketch/CHWavingSketch.h:274-316 | feeding a stream keeps the sketch's shape |

## Left out

- `size()` of every sketch except Counter Braids: it is `sizeof`-based byte accounting and calls `print_rate`, which only prints.
- `printf` diagnostics, the debug counters of `MY_DEBUG` builds and destructors: they have no effect on the sketch state.
- `CounterHierarchy` internals (`common/hierarchy.h` is not part of this model): `Hierarchy` is an exact store, so `getCnt`, `getEstCnt` and `getOriginalCnt` all read the exact sum. That `resetCnt(i, v)` sets the value to `v` is an assumption.
- Hash classes, `Util::NextPrime` and `FlowKey` are not part of this model. They are parameters or byte sequences. The bit layout of `FlowKey::getBit` is taken to be the one `get_bit` of SketchLearn uses.
- The counter type `T` is an unbounded `int` in MV-Sketch, Deltoid, Waving Sketch, LD-Sketch and the CH variants: their 32-bit wrap-around is not modelled. In the compact-counter encodings (SALSA, Counter Tree, PCM, DHSketch, Counter Braids) the packing carries are written out; the 32-bit overflows of their own arithmetic are listed below, member by member.
- HeavyKeeper and CH HeavyKeeper: their decay is random (`rand()`, `pow` over doubles) and their buckets are pointer-linked lists.
- CH NitroSketch: its sampling comes from `std::default_random_engine` and its deltas are doubles.
- CH MV-Sketch: its update relies on `guess_sign` and `get_current_cnt` of the unseen hierarchy. The MV algorithm itself is modelled through MVSketch.h.
- HHUnivMon only composes `CountSketch` and `StreamSummary`, which are not part of this model. THD_CHHHUnivMon.h covers its level logic.
- UnivMon: the `StreamSummary` heaps that `update` fills with `estSketch` and that `getHeavyHitter` reads are not modelled, for the same reason. Its `clear` has an empty body, so there is nothing to model.
- SketchLearn: the learning half is floating point, so it is left out. That covers `Sketch2N_p_sigma`, `cal_hat_p`, `normalCFD`, `Terminate`, `ExtractLargeFlows`, `find_possible_flows` and `getHeavyHitter`. Also left out are the learned-large-flow lookup of `query` and its `cnt_distrib` printing. The fallback query is modelled over a given table. `p` and `sigma` are doubles, so `clear` is modelled on the hierarchy, the table, the flag and the flow lists only.
- CounterTree: `get_estimated_val` and `query` are modelled with reals. `update`'s `rand() % r` choice of hash function is the parameter `choice`. The `USE_RANDKEY` build and the debug dump are left out.
- PCM: the ARE and `query_time` bookkeeping that `query` does through `const_cast`, and the `original_counter` debug array, only record statistics.
- LD-Sketch: `expansion` (a double) is a real; the heavy-hitter threshold arithmetic is over reals.
- DHSketch.Insert: `DHSNode::levelup` uses `rand()` and `pow` and walks 3-byte entries with inconsistent strides. It is a parameter `lu`, and the node is claimed to stay well formed only when `lu` keeps the shape (`KeepsShape`).
- DHSketch.Mix: the 32-bit mixer is modelled bit for bit, but its contract states only that 0 is a fixed point. Its invertibility is not stated: bit-vector proofs about `fmix32` are too costly for the solver.
- DHSketch.FingerPrint: beyond the 16-bit range its `bv16` result type gives, only the zero hash's fingerprint is stated, for the reason above.
- DHSketch: the `(T)` cast of the node count and the `size` report are left out.
- CounterBraids: `decodeLayer` (message passing over doubles and sets) and the second half of `decode` are left out. The `DynamicIntX` counter, which is not part of this model, is taken to add modulo `2^width` and return the floored overflow. After an `overflow_error` the model returns the error and no state.
- CounterBraids.New: the constructor tests `no_cnt` for zero entries after rounding them through `NextPrime`, so that test can never fail. The model follows the code; the constructor's doc comment (CounterBraids.h:112-121) lists a zero item in these vectors as a condition that throws.
- SALSA: the fit test `val < 1 << (len << 3)` overflows `int` when `len = 4`. It is read as `val < 256^len`.
- SalsaCM.RunCovers: the estimate is proved never to fall below the true total only for updates of at most one byte (`ByteUpdates`). A larger update can need more than one merge, and `setCounterVal` then truncates it.
- CHHashPipe: only the `USE_ONE_CH` layout is modelled, with one hierarchy and stage `i` slot `j` at counter `i * width + j`. Under an exact store the per-stage hierarchies of the other build read the same values.
- CHHashPipe.UpdateWith: with `depth = 0`, `update` indexes stage 0 of arrays that have no stage 0, which is undefined behaviour. The model requires at least one stage.
- CHHashPipe.New: with `ch_depth = 0` the constructor stores `Keys[0]` into an array of zero pointers, which is undefined behaviour. The model builds that sketch normally.
- CHCount.Query: its contract states only that the answer is never negative. The median it computes is related to the stream by `CHCount.QueryAlone` and, for one shared estimator, by `Common.MedianAbsOfConstant`.
- UnivMon.QuerySketch: its contract states only non-negativity. `UnivMon.QuerySketchAlone` and `UnivMon.Query` relate it to the stream and to `query`.
- CHCount.New: a negative ratio is outside the model. The layer sizes come from `CounterHierarchy`, which is not part of this model, and `Hierarchy.LayerSizes` is stated for non-negative ratios only.
- CounterTree.WellFormed: `b` above 16 is outside the model. With `bound_of_counters = 1 << b` above 65536 the `uint16_t` stores `counter[idx] = result % bound_of_counters` and `counter[idx] = result` (CounterTree.h:199, 214) wrap modulo 2^16, so mass is lost and none of the exactness lemmas holds; `d = 0` and `r = 0` divide by zero in the source.
- CounterTree.CountSubTreeWeighted: `pow` is a `T`, and `pow * bound_of_counters` (CounterTree.h:187) and `ans *= pow` (CounterTree.h:258) overflow a 32-bit `T` once `bound^k` or the weighted count reaches 2^31. The model computes them unbounded.
- CounterTree.EstimateCovers: besides `pow`, the correction `n * k * r` (CounterTree.h:190) is computed in `T` before the conversion to `double` and can overflow for a large `n`. The model computes it unbounded.
- CounterTree.Query: states the mean of the estimates under the same unbounded `pow`, `n * k * r` and weighted counts; the 32-bit wrap of any of them is not modelled.
- CounterTree.QueryLowerBound: holds for the unbounded arithmetic above. A stream whose weighted counts or `n * k * r` pass 2^31 is outside what it states.
- PCM.Geometry: `MY_MASK = (1 << (1 << lg_used_bits)) - 1` (PCMSketch.h:113) shifts an `int` by 32 when `lg_used_bits = 5`, which is undefined behaviour in C++. The model reads it as `2^32 - 1`.
- Salsa.GetCounterVal: the source accumulates in a `uint64_t` and returns `(T)ret` (SALSACM.h:160). With `maxCounterLen = sizeof(T)` (SALSACM.h:95) a whole-row counter of a 4-byte signed `T` can read 2^31 or more, which the cast wraps negative. The model returns the unbounded value.
- Salsa.MergeCounter: when the counter to merge ends the row (`right + 1 == width`), the source calls `getBoundary(rowIdx, width, ...)` (SALSACM.h:170). Its left walk reads flag `width - 1`, which is inside the row, and it returns the one-byte neighbour `[width, width]`. The rows are one contiguous block (SALSACM.h:192-196), so on rows `0 .. depth - 2` that byte is byte 0 of the next row: the merge reads it, sets the row's last flag and writes the joined value over it, corrupting the next row's first counter. Only on the last row is the access past the allocation, which is undefined behaviour. The model reproduces neither and returns `Err(OutOfRange)` on every row.
- Test harnesses and the generated documentation are not sketch logic.

## Findings

| source | as written | input that shows it | evidently intended | confidence | as-written member | corrected member |
|---|---|---|---|---|---|---|
| src/sketch/PCMSketch.h:154, 165-168 | `flag = 0xFFFFFFF` has only 28 bits set, so a row whose offset is 28 or more is skipped by `update` | 2-bit counters, two words, one row, hash `0x700000`: offset 28, so `update(key, 1)` leaves the sketch empty and `query` answers 0 | a flag with a bit for every offset of the word (`0xFFFFFFFF`), so every row is updated once | not executed | PCMFindings.FlagMissesHighOffsets | PCM.UpdateExact |
| src/sketch/PCMSketch.h:297 | `get_value` weighs a layer-`i` count by `2^(c - 2 + 2i)`, which matches the carries only for 4-bit counters | 8-bit counters, four layers, two words, hash 0: `update(key, 16384)` succeeds and `query` answers 1024 | the weight a carry gives layer `i`: `2^c * 2^((c - 2)(i - 1))` | not executed | PCMFindings.LayerWeightAsWritten | PCM.UpdateExact |
| src/sketch/PCMSketch.h:284-301 | `get_value` throws `overflow_error` after reading the top layer, even when `carry` stored the value there without overflow | 4-bit counters, two layers, two words, hash 0: `update(key, 16)` succeeds and `query` throws | return the value read through the top layer | not executed | PCMFindings.TopLayerReadFails | PCM.CarryExact |
| src/sketch/CHHashPipe.h:258-261, 285-288 | claiming an "empty" CH slot does `updateCnt(c_val)`, adding to whatever the counter holds, although the empty key may have merged there | one CH stage of one slot: the all-zero key arrives with 5, then key `y` with 1; `query(y)` is 6 against a total of 1 | set the slot to `c_val`, as the entry stages and the swap branch do | not executed | CHHashPipe.ClaimAsWrittenOverestimates | CHHashPipe.QueryNeverOverestimates |
| src/sketch/CHSketchLearn2Tuple.h:752-757 | the release build's `Sketch_Learning` does `V[k][i][j] += chGetCnt(k, i, j)`, so every re-learning adds the counters again | one update of key `x` by 1, learned twice (a second query with no large flow re-learns): the fallback answer goes from 1 to 2 | assign, as the `MY_DEBUG` build does | not executed | SketchLearn.LearnAsWrittenDoubles | SketchLearn.LearnTwice |
