# A verified model of the ad-estimation service

The repository answers questions such as "how many views would an ad with this targeting and this bid
get" from a bitmap index, behind an embedded HTTP server.  This project models the parts of it that are
hard to get right and proves what they promise.

- **Queries** (`Bits`, `Grids`, `Popping`, `Bitmap`, `BidBitmap`, `Query`, `Scan`): a bitmap has a row for
  each target and a column for each sample; a query is an AND of ORs, worked out in place on shared scratch
  memory and counted by popping bits.  It answers what looking at the samples one by one answers.
- **Reach of several slots** (`UvMerge`, `MergeRate`) and **estimates** (`Estimates`): union sizes, merge
  rate, views and weighted means stay in their ranges, and a higher bid never lowers the answer.
- **Index file** (`Files`, `Records`, `RecordLayout`, `RecordFiles`, `IndexFile`) and its **builder** (`Builder`): a binary
  file whose records are written first and whose directories are filled in afterwards.  Loading a dumped
  index restores it, in whatever order the hash maps are walked.
- **Concurrency** (`SocketQueue`, `SharedMemory`, `SharedPtr`): three protocols as step relations over runs
  of any length; the methods of the ring and of the reload are proved to take the steps of these relations.
- **Algorithms of the HTTP server** (`Glob`, `Framing`, `BodyRead`, `UrlCodec`, `BlockHash`, `Words`,
  `Md5`, `Md5Block`, `Sha1Schedule`, `Sha1Block`, `Sha1`) and **variable-length integers** (`Varint`, `Varint16`).

A method is proved against a specification function or predicate, and what the program is for is proved
about that function, or over whole runs.  Classes stand for the objects whose fields the program updates;
arrays for the memory it writes in place.  Machine integers are numbers below a power of two with the
wrap-around written out.  `Bytes` has what the components share.

Some choices a reader should know:

- The And and Or overloads are one loop with the operator as a parameter, and the two loops of `Dump` and of
  `Load` over page views and unique views are one method for both kinds of record.
- The 80 lines of `SHA1Transform` are sixteen rounds of five calls.  The schedule and the change of roles are
  proved over any words and operations, then used with 32-bit words.  The contexts of `Md5` and `Sha1` work
  for every compression function; `Md5.Md5OfParts` and `Sha1.HashKey` use those of `Md5Block` and `Sha1Block`.
- The 64 lines of `MD5Transform` stand one by one in eight methods; that the table holds sines is checked by
  their sum formula (`Md5Block.Sines1To8` and the seven lemmas behind it).
- A host is little-endian, as the program's casts of byte buffers to words assume.
- A walk over a hash map picks any remaining key in every step, so what is proved holds for every order.
- `Estimates` works over the reals.
- Numbers in preconditions such as "the offset map fits 64 KiB", "width times height is below 2^32" or "no
  more than 2^32 bytes in one call" are where the program's own arithmetic stops being meaningful.

Where the code falls short of what it seems meant to do, the model keeps the code and the proofs say exactly
when it does work:

- Without a targeting, the mask has bits in the padding unless the number of samples is a multiple of 64
  (`Scan.WhenMaskIsClean`); they would be used as indices into the bids.
- A bitmap without bytes is dumped but not loaded (`IndexFile.LoadRestores`).
- Unique views without a delta function are added to the page views (`Estimates.Handler.AccumulateUv`).
- Runs of a slot that do not stand together lose all but the first good one (`Builder.KeptIsFirst`);
  `Builder.KeptWholeIffTogether` has the condition for each slot.
- An offset map of more than 64 KiB reaches into what is written behind it (`IndexFile.DirectoriesSurvive` has
  the condition, `IndexFile.DirectorySize` the sum to check before, `IndexFile.LongNameIsLost` an index that is
  damaged).
- The sleep before clearing the old index is no guarantee (`SharedMemory.UntornIffGraceRespected` has the
  condition, `SharedMemory.SlowRequestIsTorn` a run that breaks it).
- The length of the buffered body is kept in an `int`: `BodyRead.StoredDifferenceIsSafe` and
  `BodyRead.CopyStaysInside` have the condition, `BodyRead.LongBodyReadsOutside` the first body that breaks it.
- `SHA1Update` adds the buffered bytes to the length in 32 bits: `Sha1.BranchIsRight` has the condition,
  `Sha1.LongestUpdateOverruns` a length that breaks it.
- The test `size < 0` on an unsigned variable in `Index::Dump` never holds; the records of an index always
  have their 24 hours, so no dump of a record fails.

## Model

| member | source | states |
|---|---|---|
| Bits.WordsAreBytes | common/bitmap.hpp:118-176 | combining two numbers read little-endian from memory with `&` or `\|` is combining their bytes one by one, for runs of any length |
| Bits.WordOp | common/bitmap.hpp:124-126 | a 64-bit word that is loaded, combined and stored puts the combined bytes in place |
| Bits.BitOfAnd | common/bitmap.hpp:138-146 | bit j of `x & y` is set exactly if it is set in both, for numbers of any size |
| Bits.BitOfOr | common/bitmap.hpp:148-156 | bit j of `x \| y` is set exactly if it is set in one of them |
| Bits.ShiftBit | common/bitmap.hpp:223-225 | the shift and mask of GetBit give bit j of the byte |
| Bits.IsolatesLowBit | common/bitmap.hpp:207-212 | `x & (x ^ (x - 1))` is the lowest set bit of any nonzero x |
| Bits.TakesLowBit | common/bitmap.hpp:207-212 | subtracting that bit clears it and no other one, its number is the count of trailing zeros, and no bit below it is set |
| Grids.Width | common/bitmap.hpp:78 | a row is a whole number of 64-bit words, holds the columns, and is less than a word longer than they need |
| Grids.ColumnIs | common/bitmap.hpp:223-230 | column c is the bit with the number 7 - c % 8 of byte c / 8 of the row |
| Grids.SamePlace | common/bitmap.hpp:223-230 | two cells share a byte of the data only in the same row and at the same byte of it |
| Grids.CellOfSet | common/bitmap.hpp:228-230 | setting a bit sets that cell and changes no other cell of the bitmap |
| Grids.ColumnOfZip | common/bitmap.hpp:158-176 | And and Or on packed rows are and / or of every column |
| Grids.Combine | common/bitmap.hpp:118-176 | the word loop leaves the two operands, as they were on entry, combined in the result, also when an operand is where the result goes; nothing else changes |
| Bitmap.Bitmap.GetBit | common/bitmap.hpp:223-225 | returns 1 for a set cell and 0 for another |
| Bitmap.Bitmap.SetBit | common/bitmap.hpp:228-230 | the new contents are the old ones with that cell set |
| Bitmap.Bitmap.SetColumn | common/bitmap.hpp:84-90 | the inner loop of Generate adds exactly the listed rows to column i, and fails exactly if one of them does not exist |
| Bitmap.Bitmap.Generate | common/bitmap.hpp:75-92 | succeeds exactly if every identifier has a row; then a cell is set exactly if the sample lists the target, and the padding is empty |
| Bitmap.Bitmap.CombineRows | common/bitmap.hpp:117-136 | And and Or of two rows into a buffer |
| Bitmap.Bitmap.CombineRow | common/bitmap.hpp:138-156 | And and Or of a row and a buffer, which may be the result |
| Bitmap.Bitmap.CombineBuffers | common/bitmap.hpp:158-176 | And and Or of two buffers, one of which may be the result |
| Popping.Pop | common/bitmap.hpp:207-212 | takes the lowest set bit off a byte and returns its number, or -1 for zero |
| Popping.TakeBit | include/bid_bitmap.hpp:86-101 | the bit popped next is the next column from the right that is set, whatever is summed over the columns |
| Popping.EndByte | include/bid_bitmap.hpp:86-101 | when nothing is left to pop, all columns of the byte have been summed |
| Bitmap.Bitmap.CountColumns | common/bitmap.hpp:179-203 | the pop loop counts the set columns of a row |
| Bitmap.Bitmap.CountMask | common/bitmap.hpp:179-189 | Count of a mask: the number of set columns in the width of the bitmap |
| Bitmap.Bitmap.CountRow | common/bitmap.hpp:191-203 | Count of a row, 0 for a row that does not exist |
| BidBitmap.BidBitmap.Generate | include/bid_bitmap.hpp:39-49 | succeeds exactly if every identifier has a row and every sample a bid |
| BidBitmap.BidBitmap.CountByte | include/bid_bitmap.hpp:87-101 | one byte of the mask adds its samples to the five sums |
| BidBitmap.BidBitmap.Count | include/bid_bitmap.hpp:79-108 | the five sums over the marked samples; a set padding bit, which would index past the bids, is excluded |
| Query.Evaluator.OrGroup | src/request_handler.cc:71-80 | the scratch buffer holds the OR of the rows of a group, the rest of the memory is unchanged |
| Query.Evaluator.AndGroup | src/request_handler.cc:83-94 | the first buffer goes from the AND of some groups to the AND with one more, whichever branch is taken |
| Query.Evaluator.GetTarget | src/request_handler.cc:60-96 | a bit of the mask, padding included, is set exactly if its column has a target of every group |
| Scan.WhenMaskIsClean | src/request_handler.cc:62-67 | the padding of the mask is empty if and only if there is a group or the number of samples is a multiple of 64 |
| Scan.SumsAreScanned | include/bid_bitmap.hpp:79-108 | the sums over the mask are the sums found by looking at the samples one by one |
| Scan.Ask | src/request_handler.cc:273-276 | GetTarget followed by Count answers what the one-by-one scan of the samples answers |
| Scan.ScanCountsSamples | include/bid_bitmap.hpp:9-16 | the four counts are the sizes of the sets of samples the result is documented to stand for |
| Scan.BidSumIsLost | include/bid_bitmap.hpp:91-98 | the sum of the bids is the number of samples lost at a price, taken together over all prices below the highest 16-bit bid |
| Scan.CountsAreSane | include/bid_bitmap.hpp:85-107 | for every mask: samples without and with a bid add up to the targets, `zero <= win <= target`, and a higher price changes only the wins, never downwards |
| Scan.EncodeTargeting | src/request_handler.cc:44-58 | the row lists of the groups, without unknown targets and without groups that are then empty |
| Scan.EncodedMeans | src/request_handler.cc:44-58 | a sample satisfies the encoded targeting exactly if it has a target of every group in which some target is known; no encoded group is empty |
| UvMerge.NumbersSize | src/uv_merge_bitmap.cc:16-23 | the dictionary is a bijection onto 0 .. size - 1: it has as many entries as there are numbers |
| UvMerge.UvMergeBitmap.Number | src/uv_merge_bitmap.cc:16-23 | a slot keeps its number or gets the next one, and no other number changes |
| UvMerge.UvMergeBitmap.TranslateAll | src/uv_merge_bitmap.cc:9-27 | after all samples exactly the slots that occur are numbered, and every sample is translated by the final dictionary |
| UvMerge.UvMergeBitmap.Generate | src/uv_merge_bitmap.cc:7-34 | never fails; the row of a slot has exactly the samples in which the slot occurs, and the stored count is their number |
| UvMerge.SeenMeansOccurs | src/uv_merge_bitmap.cc:9-27 | the slots that get a number are exactly those that occur in a sample |
| UvMerge.UvMergeBitmap.GetRowId | include/uv_merge_bitmap.h:49-55 | a slot has a row exactly if it occurs in some sample; then the row marks exactly the samples it occurs in, else the result is -1 |
| UvMerge.UvMergeBitmap.GetRowUv | include/uv_merge_bitmap.h:56-60 | the number of samples in which the slot of the row occurs, -1 for a row that does not exist |
| UvMerge.UvMergeBitmap.Union | include/uv_merge_bitmap.h:34-47 | the buffer marks exactly the samples of the listed rows, for 0, 1, 2 and more rows |
| UvMerge.UnionAtMostSum | include/uv_merge_bitmap.h:33-47 | slots together reach at most the sum of what each reaches |
| UvMerge.UnionAtLeastEach | include/uv_merge_bitmap.h:33-47 | slots together reach at least what one of them reaches |
| MergeRate.Rate | src/request_handler.cc:121 | with at most the sum reached together the rate is in (0, 1], and 1 exactly if no sample is shared |
| MergeRate.Merger.Collect | src/request_handler.cc:99-119 | the rows collected mark the samples of the requested slots, and the sum is that of their counts |
| MergeRate.Merger.GetUvMergeRate | src/request_handler.cc:98-125 | the rate times the sum of the sizes of the slots is the size of their union, but for a billionth, for any request, repeated and unknown slots included |
| Estimates.WinRateIsFraction | src/request_handler.cc:165-171 | for sane counts and a delta in [0, 1] the unsigned subtractions do not wrap and the win rate is in [0, 1) |
| Estimates.WinRateGrows | src/request_handler.cc:165-171 | more wins among the same samples never lower the win rate |
| Estimates.WinRateIs | src/request_handler.cc:163-171 | without a delta function the win rate is that among all samples; a delta of 1 gives the same, one of 0 the rate among the samples with a bid, and in between it is mixed in proportion |
| Estimates.AverageBidIs | src/request_handler.cc:151-154 | the average bid is that of the samples with a bid, or the least bid if that is more |
| Estimates.WonWholeSum | src/request_handler.cc:132-139 | slots all of whose samples are won add all the times they were shown, or with a delta function all their requests times its value |
| Estimates.ViewsInProportion | src/request_handler.cc:132-139 | the views of a slot are in proportion to its wins |
| Estimates.ViewSumDependsOn | src/request_handler.cc:132-139 | without a delta function the page views do not depend on the requests, with one not on the times shown |
| Estimates.WeightsAre | src/request_handler.cc:141-195 | the weights of each measure add up to the requests or the times shown, as its own option says |
| Estimates.MeanOfEqual | src/request_handler.cc:220-224 | slots with one value between them have that value as their mean, but for what is added to the weights |
| Estimates.WeightedBetween | src/request_handler.cc:140-195 | for every list of terms the weighted sum lies between the bounds of the values times the sum of the weights |
| Estimates.MeanIsBetween | src/request_handler.cc:220-224 | for every list of slots the weighted means of click rate and win rate are in [0, 1), and that of the bids is below the highest bid there is |
| Estimates.MeanNotBelow | src/request_handler.cc:151-163 | and, but for the constant added to the weights, no mean bid is below the least bid of the configuration |
| Estimates.HourlyClickRate | src/pv_bid_bitmap.cc:118-128 | the mean click rate of the hours that exist; it is in [0, 1) if the views fit the 32-bit sum |
| Estimates.HoursAre | src/pv_bid_bitmap.cc:121-126 | exactly the 24 hours there are count, each with its own rate and views |
| Estimates.MeanOfMoreWins | src/request_handler.cc:140-195 | the same slots asked about at a price that wins no less have no smaller mean of anything |
| Estimates.ViewSumGrows | src/request_handler.cc:132-139 | and no fewer views |
| Estimates.CountsAccumulate | src/request_handler.cc:273-287 | the counts of every mask over 16-bit bids can be accumulated, and a higher price wins no less |
| Estimates.Handler.Merge | src/request_handler.cc:98-125 | the merge rate of the request is that of the samples its slots reach together, and in (0, 1] |
| Estimates.Handler.AccumulatePv | src/request_handler.cc:127-197 | the seven sums grow by the slot: they stay the sums over the list of slots so far |
| Estimates.Handler.AccumulateUv | src/request_handler.cc:199-210 | with the delta option the unique views grow by the slot; without it the page views do, as the code has it |
| Estimates.CappedIsFraction | src/request_handler.cc:226-233 | the mean win rate with the price correction, cut at the configured maximum, stays in [0, 1) and below the maximum |
| Estimates.ClampedIsBetween | src/request_handler.cc:217-218 | the unique views are unchanged between the two bounds and else become the nearer one, rounded up |
| Estimates.Handler.Calculate | src/request_handler.cc:212-235 | the five results are the answer for the list of slots accumulated, the merge rate applied to their unique views |
| Estimates.AnswerIsInRange | src/request_handler.cc:212-235 | for every list of slots, merge rate and correction: all five results are in their ranges |
| Estimates.PerDayIs | src/request_handler.cc:213-215 | a day is the least whole number that is not less than a seventh |
| Estimates.AnswerIs | src/request_handler.cc:212-224 | the page views are a day of the sum, and the means are given exactly if there is a page view a day |
| Estimates.UniqueViewsAre | src/request_handler.cc:215 | the unique views are a day of their sum times the merge rate, in the range that the page views allow |
| Estimates.MergedDayIs | src/request_handler.cc:215 | that day is the least whole number that is not less than a seventh of the sum times the merge rate |
| Estimates.RangeIs | src/request_handler.cc:217-218 | the range leaves them as they are between the two ratios times the page views, and else makes them the nearer bound, rounded up |
| Estimates.AllowedIs | src/request_handler.cc:217-218 | the range of the answer in terms of the page views and the two ratios |
| Estimates.CappedIs | src/request_handler.cc:226-233 | the win rate is the mean, times the price correction only if that is below 1 and there is no delta function, and at most the maximum |
| Estimates.PriceLowersNothing | src/request_handler.cc:127-235 | a price that wins no less lowers none of the five results, although unique views are clamped between bounds that move |
| Bytes.FromLittleInverts | common/bitmap.hpp:98 | a number that fits k bytes is what its k bytes read as |
| Bytes.FromLittleIs | common/bitmap.hpp:98 | the byte in front counts once, the next 256 times, and so on |
| Bytes.ToInt32Wraps | src/mongoose.cc:1574-1576 | what an int keeps of an integer differs from it by a multiple of 2^32 |
| Bytes.LittlePair | src/mongoose.cc:2251-2252 | two 32-bit words next to each other are one 64-bit word, low word first |
| Bytes.BigPair | src/mongoose.cc:3990-3993 | the same with the high word and the high byte first |
| Files.OverwrittenElsewhere | src/index.cc:242-253 | writing in one place of a file leaves what stands in another |
| Files.GetNumbersInverts | include/bid_bitmap.hpp:57-62 | numbers that were written one behind the other are read back, and exactly their bytes are consumed |
| Files.GetNameInverts | src/pv_bid_bitmap.cc:83-93 | a name that was written with its length is read back, and exactly its bytes are consumed |
| Files.ByteFile.Write | common/bitmap.hpp:110 | the bytes go over what is at the cursor and past the end of the file |
| Files.ByteFile.ReadNumbers | include/bid_bitmap.hpp:57-62 | the reading loop gives the numbers, or an error exactly if the file ends before them |
| Files.ByteFile.ReadName | src/index.cc:148-159 | the reading loop gives the name, or an error exactly if the file ends before it |
| Records.GetGridInverts | common/bitmap.hpp:94-115 | a bitmap is read back as it was dumped, unless it has no bytes: then Load fails |
| Records.GetBidsInverts | include/bid_bitmap.hpp:52-77 | the same for a bitmap with bids |
| Records.GetPvInverts | src/pv_bid_bitmap.cc:48-116 | the same for the page views of a slot with their three arrays of 24 hours |
| Records.GetUvInverts | src/uv_bid_bitmap.cc:28-71 | the same for the unique views of a slot |
| Records.GetEntriesInverts | src/uv_merge_bitmap.cc:86-97 | entries of a hash map written in any order are read back as the map of their keys |
| Records.GetMergeInverts | src/uv_merge_bitmap.cc:50-100 | the same for the merge bitmap with its counts and its dictionary |
| RecordLayout.GridLayout | common/bitmap.hpp:106-115 | width, columns and rows stand at bytes 0, 4 and 8, the data from byte 12 on |
| RecordLayout.PvLayout | src/pv_bid_bitmap.cc:48-74 | where each field of the page-view record of a slot stands, in bytes from its beginning |
| RecordLayout.UvLayout | src/uv_bid_bitmap.cc:28-44 | the same for the unique views of a slot |
| RecordLayout.MergeLayout | src/uv_merge_bitmap.cc:50-66 | the same for the merge record: a count of 4 bytes for each row behind the bitmap, then the dictionary |
| RecordLayout.EntriesLayout | src/uv_merge_bitmap.cc:58-63 | an entry of a dictionary or offset map is the length of the name, the name and the number, one entry behind the other |
| RecordFiles.DumpGrid | common/bitmap.hpp:106-115 | the file gets the bytes of the bitmap at the cursor, and the size returned is their number |
| RecordFiles.LoadGrid | common/bitmap.hpp:94-104 | reads what the bytes at the cursor say, or returns the error code |
| RecordFiles.DumpBids | include/bid_bitmap.hpp:67-77 | the bitmap and its bids, and their size |
| RecordFiles.LoadBids | include/bid_bitmap.hpp:52-64 | reads what the bytes at the cursor say, or returns the error code |
| RecordFiles.DumpPv | src/pv_bid_bitmap.cc:48-74 | the record of a slot and its size; -1 if an hourly array has not 24 entries |
| RecordFiles.LoadPv | src/pv_bid_bitmap.cc:76-116 | reads what the bytes at the cursor say, or returns the error code |
| RecordFiles.DumpUv | src/uv_bid_bitmap.cc:28-44 | the record of a slot and its size |
| RecordFiles.LoadUv | src/uv_bid_bitmap.cc:46-71 | reads what the bytes at the cursor say, or returns the error code |
| RecordFiles.WriteEntries | src/uv_merge_bitmap.cc:58-63 | every entry of the map is written once, in whatever order the map has |
| RecordFiles.ReadEntries | src/uv_merge_bitmap.cc:86-97 | the map that the entries make, the first of two with the same key counting |
| RecordFiles.DumpMerge | src/uv_merge_bitmap.cc:50-66 | the merge bitmap, its counts and its dictionary in some order, and their size |
| RecordFiles.LoadMerge | src/uv_merge_bitmap.cc:68-100 | reads what the bytes at the cursor say, or returns the error code |
| IndexFile.DumpDirectory | src/index.cc:107-127 | the offset map is written with its size in front, and the size returned is the number of bytes |
| IndexFile.LoadDirectory | src/index.cc:129-169 | reads the offset map, or fails exactly if the file ends before it |
| IndexFile.GetDirectoryInverts | src/index.cc:107-169 | an offset map written in any order is loaded as it was |
| IndexFile.DumpRecords | src/index.cc:203-235 | in any order of the map, exactly the slots with a record get an offset, and their record stands there |
| IndexFile.FrontPieces | src/index.cc:242-253 | the two offset maps, each in its 64 KiB, and the offset of the merge record do not overlap |
| IndexFile.RecordedKept | src/index.cc:242-253 | going back to fill in the front of the file leaves every record |
| IndexFile.Index.Dump | src/index.cc:171-257 | for every index the file is the records with the front written over it; it has the documented layout and the result is its length, if the offset maps fit; without a merge record it is -3 and nothing is written |
| IndexFile.DirectorySize | src/index.cc:107-127 | one sum over the names tells how long an offset map is, in whatever order the hash map is walked, and whether it fits |
| IndexFile.OrderExists | src/index.cc:107-127 | every set of slots can be walked, and takes that sum |
| IndexFile.LongDirectoryIsCut | src/index.cc:242-253 | an offset map of page views that does not fit is cut where that of the unique views begins |
| IndexFile.DirectoriesSurvive | src/index.cc:242-253 | an offset map is still there when the front is filled in if and only if what is written over it, if anything, is what it had; nothing is written over one that fits |
| IndexFile.LongNameIsLost | src/index.cc:242-253 | an index whose only slot has a name of 64 KiB loses the slot when it is dumped and loaded |
| IndexFile.LoadRecords | src/index.cc:294-332 | in any order, exactly the records that can be read at their offsets are loaded |
| IndexFile.Index.Load | src/index.cc:264-350 | return code and contents for every file, well formed or not |
| IndexFile.LoadRestores | src/index.cc:171-350 | loading a dumped index gives back every record that has a bitmap and nothing else, for every index and every order of the hash maps; an error is returned exactly if the merge record has none |
| IndexFile.DumpedIndexLoads | src/index.cc:171-350 | for every index whose offset maps take at most 65536 bytes each by the sum of their names: what Dump leaves is loaded as it was; the numbers of entries stand at bytes 0 and 65536, the offset of the merge record at byte 131072 and every record from byte 131080 on |
| IndexFile.LoadLooksAt | src/index.cc:264-350 | in any file Load looks for the offset maps at bytes 0 and 65536 and for the offset of the merge record at byte 131072 |
| IndexFile.Index.AddPv | src/index.cc:18-44 | 1 if the slot has a record, 0 and the record of the data if they fit together, -2 and an empty entry if not; the index stays one that can be dumped |
| IndexFile.Index.AddUv | src/index.cc:46-69 | the same for unique views |
| IndexFile.Index.AddMerge | src/index.cc:71-89 | 1 if there is a merge record, 0 and the record of the samples if not |
| IndexFile.Index.Clear | src/index.cc:91-105 | no record is left |
| Builder.ProcessPv | src/builder.cc:160-198 | for every input and every index: the records it had stay, and exactly those of the runs that are kept are added |
| Builder.Flush | src/builder.cc:170-180 | a finished run adds its record if its slot has info, has no record yet and the data fit together |
| Builder.NothingIsLost | src/builder.cc:166-187 | the runs one behind the other are the samples: none is lost, moved or put under another slot |
| Builder.KeptIsFirst | src/index.cc:27-30 | of the runs of a slot that make a record the first is kept, and no later one; none if the slot had a record |
| Builder.RunsDivide | src/builder.cc:166-187 | the runs of a slot make up all its samples, and it has one run at most if and only if its samples stand together |
| Builder.KeptWholeIffTogether | src/builder.cc:160-198 | for every list of samples: a slot gets a record of all its samples in their order if and only if it has samples, they stand together and make a record, and the index had none for it |
| Builder.GroupedKeepsAll | src/builder.cc:160-198 | a slot whose samples stand together loses none of them: what is kept for it, if anything, is all of it, the last slot included |
| SocketQueue.SocketRing.Put | src/mongoose.cc:5224-5227 | the code that queues a socket refines enqueueing; a full ring is left alone |
| SocketQueue.SocketRing.Take | src/mongoose.cc:5133-5143 | the code that takes a socket, rebasing both counters, refines dequeueing |
| SocketQueue.PutIsEnqueue | src/mongoose.cc:5224-5227 | storing at head modulo 20 appends to the queued sockets |
| SocketQueue.TakeIsDequeue | src/mongoose.cc:5133-5143 | reading at tail modulo 20 and rebasing removes the oldest socket and leaves the others in order |
| SocketQueue.RunKeepsInv | src/mongoose.cc:5123-5232 | the invariant of mutex, wakeups and ring holds in every state of every run |
| SocketQueue.SocketsAreFifo | src/mongoose.cc:505-509 | in every run each socket is handed out once and in order, and the counters stay within 20 of each other and of zero |
| SocketQueue.ConsumedOnlyGrows | src/mongoose.cc:5133-5135 | what was handed out is never taken back |
| SocketQueue.NoLostWakeup | src/mongoose.cc:5123-5150 | with the mutex free, a worker asleep means no more queued sockets than woken workers, and the producer asleep means a full queue |
| SocketQueue.NeverAllAsleepWithWork | src/mongoose.cc:5128-5130 | the threads are never all asleep with a socket queued |
| SocketQueue.NoDeadlock | src/mongoose.cc:5214-5232 | while a socket is queued or carried some thread can move without help from outside |
| SocketQueue.InternalStepsRunOut | src/mongoose.cc:5123-5232 | every step inside the protocol decreases a distance, so they cannot go on for ever |
| SocketQueue.RestMeansServed | src/mongoose.cc:5123-5232 | where they end, a queued socket means that every worker is busy with a connection |
| SharedPtr.RunKeepsInv | third-party/base/shared_ptr.h:127-139 | the relation of counts, handles and running destructors holds in every interleaving |
| SharedPtr.CountsAreExact | third-party/base/shared_ptr.h:132-134 | refcount is the number of strong handles; weak_count that of weak handles plus one while there are strong ones or a destroyer is between its decrements |
| SharedPtr.DeletedAtMostOnceAndNotTooSoon | third-party/base/shared_ptr.h:127-139 | object and control block are deleted at most once, the object after the last strong handle and the block after the last handle of all and after the object |
| SharedPtr.NothingLeaks | third-party/base/shared_ptr.h:242-255 | with no handle and no destructor left, both have been deleted |
| SharedPtr.NoUseAfterFree | third-party/base/shared_ptr.h:187-195 | no step touches a freed control block or deletes a deleted object |
| SharedPtr.AssignmentRebinds | third-party/base/shared_ptr.h:110-125 | assignment does nothing for handles to the same object; else it rebinds the target and no other handle, and the two counts move by one |
| SharedPtr.LastDropDeletes | third-party/base/shared_ptr.h:127-131 | dropping a handle starts the deletion exactly if it was the last one |
| SharedMemory.DoubleBuffer.Update | include/shared_memory.hpp:58-75 | its statements are the steps of the protocol, one by one; an old file changes nothing, a failed load neither the visible buffer nor the timestamp, and what was loaded is visible afterwards |
| SharedMemory.UntornIffGraceRespected | include/shared_memory.hpp:69-73 | in a run no request finds its buffer changed if and only if every clearing waits until nobody holds the old buffer |
| SharedMemory.RequestSeesOneCompleteVersion | include/shared_memory.hpp:44-49 | while that holds a request sees the version published when it started, complete |
| SharedMemory.RequestKeepsItsVersion | src/request_handler.cc:256-258 | and the same one for as long as it runs |
| SharedMemory.OnlyFlipChangesTheView | include/shared_memory.hpp:65-71 | only the flip changes what is visible, and to a version loaded in full |
| SharedMemory.TimestampsNeverDecrease | include/shared_memory.hpp:60-71 | the timestamp never goes back |
| SharedMemory.SlowRequestIsTorn | include/shared_memory.hpp:72-73 | a request that outlasts the sleep before clearing can hold a buffer that is being cleared |
| Glob.MatchPlain | src/mongoose.cc:902-928 | without `\|` a result n >= 0 is the length of a matching prefix, -1 means there is none, and 0 that only the empty prefix matches |
| Glob.MatchStarAt | src/mongoose.cc:911-926 | the same from a star on |
| Glob.MatchAfterStar | src/mongoose.cc:919-926 | trying ever shorter runs of a star misses no match |
| Glob.MatchPrefix | src/mongoose.cc:892-929 | terminates on every pattern; with `\|` the result is positive exactly if an alternative matches a nonempty prefix, and is the length of such a prefix |
| Glob.MatchInside | src/mongoose.cc:902-928 | no match is longer than the string |
| Glob.SuffixPattern | src/mongoose.cc:4516 | a pattern of two stars, a suffix and `$` matches exactly the paths that end in the suffix, in either case |
| Glob.SingleStarPattern | src/mongoose.cc:909-926 | a pattern of one star, a suffix and `$` matches exactly the strings that end in the suffix and have no slash in front of it |
| Glob.SameInEitherCase | src/mongoose.cc:690-692 | two characters are the same to the matcher exactly if they are equal or one letter in its two cases |
| Framing.GetRequestLen | src/mongoose.cc:1880-1899 | the scanning loop returns the first verdict in the buffer |
| Framing.PositiveMeansShortestRequest | src/mongoose.cc:1880-1899 | a positive result is exactly the length of the shortest prefix that ends with a blank line and has no malformed byte |
| Framing.NegativeMeansMalformedFirst | src/mongoose.cc:1880-1899 | a negative one means exactly that a malformed byte comes before the end of every request |
| Framing.HeadEndsWithCrLf | src/mongoose.cc:1880-1899 | for every head without an earlier end and the bytes 13, 10, 13, 10 behind it, the length is that of both, whatever follows |
| Framing.HeadEndsWithLf | src/mongoose.cc:1880-1899 | the same for a head and the bytes 10, 10 |
| Framing.ControlCharacterFails | src/mongoose.cc:1880-1899 | a byte 127, or one below 32 other than 10 and 13, before such an end gives -1 |
| Framing.LengthIsStable | src/mongoose.cc:3103-3106 | once the length is known, further bytes do not change it |
| Framing.ReadRequest | src/mongoose.cc:3093-3107 | the result is a function of the bytes alone, however they are split over reads, and the buffer holds them in order |
| BodyRead.Connection.PullAll | src/mongoose.cc:1536-1554 | reads what comes next on the socket until there is no room, no data, an error or a stop |
| BodyRead.Connection.CopyBuffered | src/mongoose.cc:1574-1584 | hands out the buffered bytes that come next, for every amount consumed for which the copy stays inside the buffer |
| BodyRead.Connection.Read | src/mongoose.cc:1556-1593 | delivers the body bytes that come next and counts them, up to the content length, for every size; a content length of 0 becomes the greatest there is with the first read, and the connection must then be closed |
| BodyRead.StoredDifferenceIsSafe | src/mongoose.cc:1574-1576 | the number of buffered bytes kept in an int is positive only if it should be, if and only if the amount consumed is in one of the ranges listed |
| BodyRead.CopyStaysInside | src/mongoose.cc:1574-1581 | a nonempty read copies from inside the buffered bytes exactly for those amounts; for any other it starts behind the whole buffer |
| BodyRead.LongBodyReadsOutside | src/mongoose.cc:1574-1581 | one byte more than 2^31 past the buffered ones is such an amount |
| BodyRead.ReadMore | src/mongoose.cc:1556-1593 | a read into any place of any buffer lengthens the prefix of the body delivered so far |
| BodyRead.ReadSequence | src/mongoose.cc:4322-4387 | reads of any sizes into one buffer that is used again and again deliver the body from its beginning, nothing lost or repeated, with no bound on the total, as long as they succeed and the amount consumed allows |
| BodyRead.ReceiveBody | src/mg_thread_handler.cc:73-84 | the loop of the request handler ends with the body up to the content length or a full buffer; without a content length it takes in all that comes |
| UrlCodec.UrlEncode | src/mongoose.cc:2621-2639 | the buffer holds the encoding if it fits, always ends with NUL and is never overrun |
| UrlCodec.UrlDecode | src/mongoose.cc:1698-1721 | the decoding of the source as it was, also when decoding into the source; -1 and a prefix if it does not fit |
| UrlCodec.EncodeLength | src/mongoose.cc:2621-2639 | an encoding takes at most three bytes for one |
| UrlCodec.EncodeIsSafe | src/mongoose.cc:2621-2639 | only kept characters and percent signs come out |
| UrlCodec.KeptAre | src/mongoose.cc:2621-2627 | letters, digits and the nine characters of the list are kept, and no others |
| UrlCodec.EscapedAre | src/mongoose.cc:2628-2632 | any other byte becomes a percent sign and two digits, the higher first and letters in lower case |
| UrlCodec.DigitsRead | src/mongoose.cc:1704-1710 | a percent sign and two digits in either case are read as the byte they stand for |
| UrlCodec.NoOtherDigit | src/mongoose.cc:1704-1706 | no other byte is a digit |
| UrlCodec.PlusIsSpace | src/mongoose.cc:1711-1715 | in a form a plus sign is read as a space; any other byte but a percent sign as itself |
| UrlCodec.DecodeInvertsEncode | src/mongoose.cc:1698-1721 | decoding undoes encoding for every byte string, in either form mode |
| UrlCodec.EncodeThenDecodeInPlace | src/mongoose.cc:4443-4444 | the round trip through one buffer of 3n + 1 bytes |
| Varint.LoopRoundTrip | third-party/base/varint.h:102-181 | the seven-bits-at-a-time encoding ends itself and stands for its number |
| Varint.LoopIs | third-party/base/varint.h:102-181 | the lowest seven bits come first, with 128 added to them if there are more |
| Varint.GetVarint64Length | third-party/base/varint.h:183-191 | the length is that of the seven-bits-at-a-time encoding, for every 64-bit number |
| Varint.GetVarint32Length | third-party/base/varint.h:44-52 | the same up to five bytes |
| Varint.FindSize | third-party/base/varint.h:110-165 | the search tree finds that length |
| Varint.WriteVarint64 | third-party/base/varint.h:102-181 | the search tree and the fall-through labels write the seven-bits-at-a-time encoding |
| Varint.ReadVarint64 | third-party/base/varint.h:211-236 | stops behind the first byte without the top bit, with the number of the bytes up to it; no pointer if ten bytes go on |
| Varint.WriteThenRead64 | third-party/base/varint.h:102-236 | reading what was written gives the number and stops where writing did, for every 64-bit number |
| Varint.WriteVarint32 | third-party/base/varint.h:15-42 | writes the same encoding as the 64-bit writer |
| Varint.ReadVarint32 | third-party/base/varint.h:54-81 | the low 32 bits of the number, and the end of it also beyond five bytes |
| Varint.LowBitsStep | third-party/base/varint.h:54-81 | the 32-bit lines accumulate the low 32 bits of the number |
| Varint.WriteThenRead32 | third-party/base/varint.h:15-81 | reading what was written gives every 32-bit number back |
| Varint.WriteVarint64Fast | third-party/base/varint.h:83-100 | one byte below 128, eight bytes from there on |
| Varint.FastByteIs | third-party/base/varint.h:83-100 | the eight bytes are those of the number, the most significant first and with its top bit set |
| Varint.ReadVarint64Fast | third-party/base/varint.h:193-209 | the number of one or of eight bytes |
| Varint.WriteThenReadFast | third-party/base/varint.h:83-209 | the fast pair gives back every number below 2^63 |
| Varint16.WriteVarint64In2Bytes | third-party/base/varint.h:342-385 | the pairs hold the groups of 15 bits, all but the last with the top bit set |
| Varint16.ReadVarint64In2Bytes | third-party/base/varint.h:388-410 | the sum of the groups up to the first pair without the top bit; no pointer if five pairs go on |
| Varint16.HoldsMeansSum | third-party/base/varint.h:342-410 | what was written ends where it should and sums up to the number |
| Varint16.WriteThenReadIn2Bytes | third-party/base/varint.h:342-410 | reading what was written gives every 64-bit number back and stops where writing did |
| BlockHash.AbsorbConcat | src/mongoose.cc:2193-2227 | absorbing a concatenation is absorbing its parts, what is left of the first in front of the second |
| BlockHash.CounterAdds | src/mongoose.cc:2196-2199 | the two counter words with their carry hold 8 times the length modulo 2^64 after every addition |
| BlockHash.CounterGivesRest | src/mongoose.cc:2201 | bits 3 to 8 of the low word are the number of buffered bytes |
| BlockHash.PadZeros | src/mongoose.cc:2240-2248 | the padding leaves exactly 8 bytes to the end of a block |
| BlockHash.SplitDoesNotMatter | src/mongoose.cc:2193-2227 | any two ways of splitting a message leave the same chaining value, counters and pending bytes |
| Md5.Context.Update | src/mongoose.cc:2193-2227 | a context that has taken in a message has then taken in the message followed by the data, however it is split |
| Md5.Context.Final | src/mongoose.cc:2229-2257 | the digest of everything taken in, padded as sections 3.1 and 3.2 of RFC 1321 require; the context is wiped |
| Md5.BinToString | src/mongoose.cc:2262-2270 | two lower-case hexadecimal digits for every byte |
| Md5.HexDigits | src/mongoose.cc:2262-2270 | byte i gives the digits at 2i and 2i + 1, the higher first |
| Md5.InitBytes | src/mongoose.cc:2101-2109 | the digest begins with the bytes 01 23 45 67 89 ab cd ef fe dc ba 98 76 54 32 10 |
| Md5.OutputNumbers | src/mongoose.cc:2254-2256 | the four words are put out in order, the least significant byte first |
| Md5.Md5OfParts | src/mongoose.cc:2273-2290 | the MD5 digest of the strings one behind the other, in hexadecimal |
| Md5Block.MacrosAgree | src/mongoose.cc:2090-2094 | the macros F1 to F4 are F, G, H and I of RFC 1321 |
| Md5Block.WordIsRead | src/mongoose.cc:2211-2226 | a word of the block is what a little-endian host reads from its four bytes |
| Md5Block.Sines1To8 | src/mongoose.cc:2119-2126 | the constants of the first lines are sines of arguments one apart; seven more lemmas say the same of the others |
| Md5Block.SumAgrees | src/mongoose.cc:2096-2097 | the order in which the macro adds does not matter |
| Md5Block.Step | src/mongoose.cc:2096-2097 | a line of the program, with its registers in their roles, is an operation of the definition |
| Md5Block.Transform | src/mongoose.cc:2111-2191 | the 64 lines with their words, constants and shifts compute the 64 operations of section 3.4 of RFC 1321, whose words follow the formulas i, 5i + 1, 3i + 5 and 7i modulo 16 |
| Sha1.Context.Update | src/mongoose.cc:3964-3983 | a context that has taken in a message has then taken in the message followed by the data |
| Sha1.BranchIsRight | src/mongoose.cc:3973-3982 | the test for a complete block is right, and the other branch stays inside the buffer, if and only if buffered bytes and length add up to less than 2^32 |
| Sha1.LongestUpdateOverruns | src/mongoose.cc:3973-3982 | with one byte buffered and the greatest length the copy goes past the buffer |
| Sha1.PadsUntil56 | src/mongoose.cc:3995-3998 | zero bytes are appended exactly until the length ends a block |
| Sha1.InitBytes | src/mongoose.cc:3955-3962 | the five words the hash begins with, byte by byte |
| Sha1.OutputBytes | src/mongoose.cc:4000-4003 | the five words are put out in order, the most significant byte first |
| Sha1.Context.Final | src/mongoose.cc:3985-4006 | the digest of everything taken in, padded as section 4 of RFC 3174 requires; the context is wiped |
| Sha1.HashKey | src/mongoose.cc:4039-4043 | init, update and final give the digest of the key |
| Sha1Schedule.ScheduleIsSchedule | src/mongoose.cc:3900-3901 | the schedule is the 80 words of step b in section 6.1 of RFC 3174 |
| Sha1Schedule.NextWordIsWord | src/mongoose.cc:3891-3901 | the word made in the circle of 16 is the word of the 80-word schedule, in every round |
| Sha1Schedule.TempAgrees | src/mongoose.cc:3902-3906 | the sum of the macros is the sum of the definition, for any commutative and associative addition |
| Sha1Schedule.Line | src/mongoose.cc:3902-3906 | a macro line is a round of the definition, with the registers in other roles |
| Sha1Schedule.FiveLines | src/mongoose.cc:3926-3945 | after five lines the roles are where they were |
| Sha1Schedule.AllLines | src/mongoose.cc:3926-3945 | the eighty lines compute the eighty rounds of section 6.1, for every block and state |
| Sha1Block.FunctionsAgree | src/mongoose.cc:3902-3906 | the logical functions of the macros are those of section 5 of RFC 3174 |
| Words.BitOfRol | src/mongoose.cc:3891 | a rotation by s moves bit j to place j + s, counted round the word |
| Sha1Block.MixBit | src/mongoose.cc:3900-3901 | bit j of four words of the schedule goes, by exclusive or, into bit j + 1 of the next, counted round the word |
| Sha1Block.RotationBit | src/mongoose.cc:3902-3906 | the two rotations of a round are by 5 and by 30 places |
| Sha1Block.ConstantsAreRoots | src/mongoose.cc:3902-3906 | the constants are 2^30 times the roots of 2, 3, 5 and 10, rounded down |
| Sha1Block.WordsAgree | src/mongoose.cc:3891-3898 | swapping the words of a little-endian host gives the big-endian words of the block |
| Sha1Block.Transform | src/mongoose.cc:3916-3953 | a block turns the hash into the hash that section 6.1 of RFC 3174 defines |

## Left out

- `Sha1.Context.Update`: needs `buffered + len < 2^32`, the exact condition of `Sha1.BranchIsRight`; what the overrun overwrites is not modelled.
- `IndexFile.Index.Dump`: an index whose offset maps do not fit gets the file that `IndexFile.Written` describes; what becomes of records that an offset map of more than 128 KiB reaches is not worked out.
- `IndexFile.Index.Load`: bytes of a bitmap that a truncated file does not supply are unspecified in the program and zero in the model.
- `IndexFile.Index.AddPv`: running out of memory (return code -1) is not modelled.
- `Builder.ProcessPv`: ProcessUvMap has the same loop; reading and splitting the lines of a file is a parameter.
- `Estimates.Handler.Calculate`: floating-point rounding is not modelled, and the price correction, a power, is any number from 0 on.
- `SocketQueue.RunKeepsInv`: states after the stop flag is set are not modelled; the broadcast that ends the workers is not under the mutex.
- `BodyRead.Connection.CopyBuffered`: needs the exact condition of `BodyRead.CopyStaysInside`; what is read from behind the buffer is not modelled.
- `BodyRead.Connection.Read`: needs the same condition, and on a socket error nothing is said about bytes that were taken and not delivered.
- `Glob.MatchPrefix`: strings are sequences without NUL; the byte behind the pattern, which the code reads after a final star, must not be a star.
- `Query.Evaluator.GetTarget`: that the target dictionary gives only identifiers below the height of the bitmap, and that the width fits the scratch buffer, are preconditions; the program checks neither.
- Records and the maps of `IndexFile.Index` are values, not objects behind pointers: who frees a record is not modelled.
- OpenMP scheduling: the iterations of the word loops touch disjoint words, so they are modelled in order.
- Sockets, SSL, CGI, SSI, directory listings, WebDAV, passwords and logging of the HTTP server, and its date parser.
- JSON, HTTP responses, flags, timers, string trimming, step functions, the target dictionary and the ToString members.
- The Rice coding of the variable-length integers, which its own comment calls unfinished, and assignment, swap and reset of weak_ptr.
