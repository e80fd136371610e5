# A verified model of the content-addressed file store

The store keeps files and directories as *opaque streams*. A coder cuts a stream with record marks
into content-defined chunks, encrypts each chunk with the hash of its own content, files it under
the hash of the result, and builds a tree of keys over the chunks until what is left fits a
metadata limit. A reader walks the tree back while chunks arrive in any order. Chunks live in an
append-only archive or in files known to an index, and are fetched from peers by a small sharing
protocol. This project models that logic in Dafny and proves what it is for.

## How it is arranged

| files | what they model |
|---|---|
| `Bytes`, `Xdr`, `Listing` | machine words; XDR integers and opaque data (sections 4.1, 4.5, 4.9, 4.10 of RFC 4506); walks through unordered containers in any order |
| `Adler32`, `Checksums`, `FailingRuns`, `RollingChecksum`, `Selection` | the two fast checksums, when the sums composed from them are right, runs on which they are not, and the choice of a lowest value |
| `OpaqueMeta`, `Layouts` | keys and metadata; every external format byte by byte, and what is refused |
| `KeyTree`, `Levels`, `Build` | what a key stands for, the lists of unmerged keys |
| `Chunker`, `ChunkerRuns`, `Alignment`, `Records`, `CutRuns` | where a stream is cut, byte by byte; runs; how chunks lie relative to records; where they end, said of the bytes and the records alone |
| `OpaqueCoder`, `Coded`, `KeyRules`, `HandedOut` | the coder with its buffer, marks and key lists updated in place; what a whole run returns and hands out; when keys are merged and streams inlined; what is filed where |
| `Reading`, `ReaderTable`, `OpaqueReader`, `Conservation` | which chunks a read needs, the table of pending regions, the reader's methods, conservation over runs |
| `RoundTrip`, `RecordReads`, `ReadEnds`, `WholeRun` | coding and reading back, whole, by bytes and by record numbers, as theorems and as a program; when a read ends |
| `FileMeta`, `DirReader`, `Directory` | file records and rebuilding a directory |
| `ChunkShare`, `ShareSafety`, `ShareScheduling`, `ShareEnds`, `ShareEffects`, `ShareChanges`, `ShareService` | the sharing protocol as a transition system, its invariants, its scheduler, how requests end, what every event changes, and the records and handlers that implement it |
| `ArchiveLog`, `Archive`, `IndexLog`, `IndexStore`, `Replays` | the two logs and their indexes in memory; what every record does to a replay |

Code that updates objects in place is a class whose methods are tied to functions on values
(`Feed`, `Emit`, `Mark`, `AddTree`, `AfterData`, `Handle`, `IndexOf`, `ApplyAll`); the theorems are
about those functions, for all inputs, all runs and all orders of events.

## The main results

- Whatever is written, in whatever portions and with whatever valid marks: coding it, keeping the
  chunks, decoding the metadata and reading everything back in any order gives the same bytes, and
  the metadata is within the limit (`WholeRun.CodeAndRead`, `RoundTrip.FullReadRebuilds`).
- Chunks depend on the bytes and the marks alone (`ChunkerRuns.SameTokensSameChunks`), and every
  chunk is whole records or a part of one record of at least the maximum chunk size
  (`RecordRuns.FlushFinishes`). Over every run each chunk ends at the one place that its beginning,
  the record boundaries and the bytes demand (`CutRuns.RunWellCut`, `CutRuns.OneWayToCut`).
- Every chunk of a run is filed under the hash of its ciphertext, encrypted with the hash of its
  cleartext, and holds the bytes or the keys it says (`HandedOut.RunHandsOut`).
- The unmerged keys stand for all data so far, in order (`Build.GrowOrder`), and merging them ends
  although merging a level can make new levels (`Levels.MergeUp`).
- At every moment of a read, whatever was answered in whatever order, delivered, pending and
  missing data chunks are exactly those asked for (`Conservation.RunConserves`,
  `RoundTrip.FullReadPartitions`).
- Whatever the answers, nothing is pending in a read if and only if its end has been announced
  (`ReadEnds.EndsIffDone`); a finished read of bytes has delivered all of them and no chunk without
  one of them (`ReadEnds.ByteReadDelivers`).
- A read of any records has delivered all their bytes if and only if no chunk begins inside the
  last of them (`RecordReads.RecordReadIff`).
- A directory is rebuilt whatever the order of its chunks, unchanged if and only if every entry is
  within the attribute limits (`Directory.DirectoryRebuilds`).
- Over every run of the sharing protocol downloads are exclusive, every reader is answered exactly
  once or still waiting, data has the requested hash, and `no_data` is sent only when no question
  is open (`ShareSafety.RunInv`); a request ends as soon as the last question about it does
  (`ShareEnds.RequestsEnd`, `ShareEnds.RequestEndsIff`); for every event it is settled exactly which
  requests, questions, readers and wishes there are after it (`ShareChanges`); the records and handlers of the service go through the same runs
  (`ShareService.Serve`); the scheduler leaves no useful download unstarted
  (`ShareScheduling.CheckPeersConservesWork`).
- After any list of writes the archive holds every chunk once and gives every one back, in spite of
  colliding 64-bit checks (`Archives.WriteAndReadBack`); the index file can be replayed if and only
  if no refused record was written, and restores the file infos if and only if all are within the
  limits (`IndexStore.Index.ReplayRestores`); an index opened again goes on as it was
  (`IndexStore.Reopen`).

## Where the code and its documentation differ

The model follows the code. For each difference the condition under which the documented claim
holds is proved, and a counterexample where there is one.

- `adler32cat` subtracts in 32 bits, so it wraps at 2^32 instead of 65521. It is exact if and only
  if neither subtraction goes below zero (`Adler32.CatIsExact`, counterexample
  `Adler32.CatCanWrap`). So the coder's assertion that its two running checksums agree holds after
  every chunk if and only if no composition wraps (`Checksums.AgreeIffNoneWraps`, a run that fails:
  `FailingRuns.ComparisonCanFail`), and the sums in the tree of keys are those of the content, at
  every node and for the first keys of a node as for all, if and only if no composition in the tree
  wraps (`KeyTree.KeySum`, a run that fails: `FailingRuns.KeySumCanFail`). For the result of
  `finish` see `Checksums.FinishSum` and `Checksums.FinishSumFlat`; its assertion can fail although
  the one after every chunk has held throughout (`FailingRuns.FinishSumCanFail`).
- `records()` is said to be the number of marks made; it is one more, because the first record is
  marked by the constructor (`Coder.OpaqueCoder.RecordCountIsStarts`).
- A record read asks for the chunks in which wanted records start and for those that continue them,
  except for the chunks that continue the last one. So a read is complete if and only if no chunk
  begins inside the last record: always if that is shorter than the maximum chunk size, never if it
  is longer (`RecordReads.RecordReadIff`, a run that misses: `RecordReads.RecordReadCanMiss`).
- The header file says that only records of more than the maximum chunk size are cut. A record of
  just that size can be cut as well, depending on its bytes (`RecordReads.MaximumCanBeCut`,
  `RecordReads.MaximumCanBeWhole`); shorter ones never are (`RecordRuns.FlushFinishes`).
- The comment on `potentials` counts in a peer that has positively reported a chunk. The code does
  not: an online report leaves the set as it was (`ShareScheduling.OnlineReportCounts`), and a
  reader can be told `no_data` while a peer is sending the chunk, when that peer was asked twice and
  changed its answer (`ShareScheduling.NoDataWhileDownloading`).
- A chunk that arrives when nobody wants it any more does not free the peer that sent it. Its slot
  is freed by a new connection or by a reply with a chunk that is still wanted, and by nothing else
  (`ShareScheduling.SlotFreedIff`); until then the chunk counts as being downloaded and is not
  fetched (`ShareScheduling.NeverFetched`).
- `Archive::readStore` reads with the default size of -1, which the header file says means any size
  and the code compares with the real one: it never finds anything (`Archives.Archive.ReadStore`).
- `addFileInfo` leaves out a record that compares equal to the known one. The comparison is
  equality for a known record if and only if it has no empty attribute
  (`IndexLog.SameInfoIsEqualityIff`, counterexample `IndexLog.SameInfoCanLie`).
- `addFileInfo` writes records of any size, and the replay drops attributes beyond the limits on
  number and size. A replay restores the last file infos if and only if all of them are within the
  limits (`IndexLog.RestoredIff`, counterexample `IndexLog.InfoCanBeLost`). Nothing keeps a caller
  from adding a record the replay refuses; the log can be replayed if and only if none was added
  (`IndexLog.ReplayIff`).
- A corrupt index is replaced by a new one, but the file infos read before the corruption is found
  are not cleared: the new index is in step with its file if and only if there were none
  (`IndexStore.Index.Open`, counterexample `IndexStore.StaleInfos`).
- An index file with one to three stray bytes behind its records is accepted with all its tables
  and keeps the bytes (`IndexLog.ReplayIff`); the first record appended makes it corrupt, whatever
  the bytes and the record (`IndexLog.AppendBehindJunk`).
- `gotData` removes everything that waits for the chunk after it has added the regions the chunk
  lists. Nothing is dropped if and only if none of those waits for the same chunk
  (`ReaderTable.ServedIff`), as over every run answered from a store without a fixed point of the
  hash function (`WholeRun.StoreDropsNone`).

## What is assumed

- The hash functions are arbitrary functions of the bytes, and of the cipher only that applying it
  twice with one key gives the data back. Theorems about reading assume a store that returns, for
  the hash of every chunk handed out, that chunk. `WholeRun.CodeAndRead` builds such a store and
  needs for it that the hash function does not collide on the chunks of this one stream, and that
  no chunk lists its own outer hash.
- Streams are not empty and shorter than 2^63 bytes; no record is empty; the metadata limit admits
  at least one key (136 bytes). These are the assertions of the source.

## Model

| member | source | states |
|---|---|---|
| Adler32.Compute | ui/lib/adler32.cc:9-26 | For every length and every start value the loop with the delayed modulo returns the byte-by-byte checksum of section 8.2 of RFC 1950; the 32-bit accumulators never overflow. |
| Adler32.BlockFits | ui/lib/adler32.cc:16-21 | From any two 16-bit halves a block of up to 5550 bytes stays at or below 4291811160, which is below 2^32. |
| Adler32.CatIsExact | ui/lib/adler32.cc:32-44 | Composing two checksums gives the checksum of the concatenation if and only if neither 32-bit subtraction goes below zero; in particular whenever the low half of the first is not zero. |
| Adler32.CatCanWrap | ui/lib/adler32.cc:40-41 | A concrete block whose checksum composed with itself is wrong. |
| Adler32.SumContinues | ui/lib/opaque.cc:495-497 | Continuing the checksum of a prefix over the rest gives the checksum of the whole. |
| Checksums.AgreeIffNoneWraps | ui/lib/opaque.cc:492-498 | The checksum composed chunk by chunk equals the continued one after every chunk if and only if no composition wraps. |
| FailingRuns.ComparisonCanFail | ui/lib/opaque.cc:498 | A run of two writes and a mark whose comparison fails at the second chunk. |
| KeyTree.KeySum | ui/lib/opaque.cc:684-695 | The sum a key chunk's key carries, and every sum on the way to it at every level, is the Adler-32 of what it covers if and only if no composition wraps. |
| FailingRuns.KeySumCanFail | ui/lib/opaque.cc:684-695 | That run ends, with a limit that admits one key only, in a key whose sum is not the Adler-32 of what was written. |
| Checksums.FinishSum | ui/lib/opaque.cc:605 | The internal sum of the result is the Adler-32 of the stream if no composition in the tree wraps, which is so if and only if all sums composed in it are exact; it is the sum the coder has composed if none of its compositions wraps either. |
| Checksums.FinishSumFlat | ui/lib/opaque.cc:605 | When the top keys are those of data chunks the two sums agree always, even where both are wrong. |
| FailingRuns.FinishSumCanFail | ui/lib/opaque.cc:605 | A run of ten records, for any hash function and any limit of two keys or more, whose internal sum is not the one composed although the comparison has held after each of the ten chunks. |
| Rolling.RollingChecksum.constructor | ui/lib/rcsum.cc:8-20 | The sums of the first slab, modulo 2^32. |
| Rolling.RollingChecksum.Advance | ui/lib/rcsum.h:43-47 | After rolling by one byte the sums equal those computed from scratch on the new slab, modulo 2^32. |
| Rolling.RollingChecksum.AdvanceEnd | ui/lib/rcsum.h:52-53 | The slab ends at the given place, keeps its size, and its sums are still exact. |
| Rolling.RollingChecksum.Sum | ui/lib/rcsum.h:56 | The value is that of the slab computed from scratch. |
| Rolling.SlabIsSums | ui/lib/rcsum.h:56 | That value is the low 16 bits of the weighted sum of the bytes, followed by those of the plain sum. |
| Rolling.ScanChunk | ui/lib/rcsum.cc:22-53 | The loop returns the selected size: see the next row for what that is. |
| Rolling.ScannedIsLargestLowest | ui/lib/rcsum.h:61-69 | The selected end has the lowest slab checksum of all ends between the minimum and the maximum size, and a strictly lower one than any later end. |
| Rolling.BestIsLastLowest | ui/lib/opaque.cc:461-475 | The same among any increasing list of ends: lowest checksum, the last of several. |
| OpaqueMeta.KeyRoundTrip | ui/lib/opaque.cc:55-86 | A key whose fields fit is read back as written if it passes the sanity checks, and is refused otherwise. |
| OpaqueMeta.InfoRoundTrip | ui/lib/opaque.cc:179-276 | Every non-empty inline or indirect metadata decodes to itself. |
| OpaqueMeta.InfoLength | ui/lib/opaque.cc:167-177 | The encoded length is exactly what the size formulas say. |
| Layouts.WordBytes | ui/lib/opaque.cc:72-86 | A word is stored with its most significant byte first. |
| Layouts.OpaqueLayout | ui/lib/opaque.cc:194-205 | Data of variable length: its length, the bytes, and zeros up to a multiple of four. |
| Layouts.KeyLayout | ui/lib/opaque.cc:74-86 | The order and the widths of the fields of a stored key. |
| Layouts.KeyAcceptedIff | ui/lib/opaque.cc:55-72 | A stored key is read back if and only if its level and record count are not negative, its sizes positive, and it has no more records than bytes. |
| Layouts.InfoLayout | ui/lib/opaque.cc:194-214 | The tag and the order of the fields of each kind of metadata. |
| Layouts.InfoSound | ui/lib/opaque.cc:216-275 | Metadata read from any bytes is null, or inline with one to as many records as bytes, or has a key and no bad one. |
| KeyTree.KeyFacts | ui/lib/opaque.cc:648-705 | Level, internal size, record count and outer size in a key are those of the data and the chunk it stands for, and the key passes the sanity checks. |
| KeyTree.PlainDecodes | ui/lib/opaque.cc:681-701 | A key chunk's cleartext decodes to exactly the keys of the subtrees and nothing is left over. |
| Levels.SplitPointIsLastLowest | ui/lib/opaque.cc:531-541 | A full level is split behind the key with the lowest 64-bit check among the 4th to the 8th, the last of several. |
| KeyRules.LevelHoldsEight | ui/lib/opaque.cc:517-528 | Up to eight keys stay on their level and nothing is handed out. |
| KeyRules.LevelSplits | ui/lib/opaque.cc:530-557 | The ninth key sends the first four to eight up as one key chunk: as many as end with the lowest check, the last of several; the others stay, and the chunk is handed out behind those it makes necessary above. |
| Levels.AddTree | ui/lib/opaque.cc:515-560 | Through all recursive splits every level keeps 1 to 8 keys, all of that level, and lower levels do not change. |
| Levels.AddTreeOrder | ui/lib/opaque.cc:515-560 | Adding a key appends its data behind all data at its level and above: the levels read highest to lowest stay in stream order. |
| Levels.AddTreeCount | ui/lib/opaque.cc:515-560 | Adding a key costs at most one key, and a new level is paid for by the keys that moved into it. |
| Levels.MergeLevelKeeps | ui/lib/opaque.cc:615-622 | Merging a level moves its content up unchanged and lowers the measure made of keys left to merge and levels left to visit. |
| Levels.MergeUp | ui/lib/opaque.cc:590-623 | Merging ends for every state and limit, with 1 to 8 keys of one level that fit the limit and stand for everything, in order. |
| KeyRules.MergeStops | ui/lib/opaque.cc:590-613 | On the last level the keys are the result if their encoding fits the limit; else one key chunk over them is handed out and its key is the result. |
| KeyRules.MergeGoesOn | ui/lib/opaque.cc:615-622 | Below the last level all keys become one key chunk one level up, even where they would fit. |
| KeyRules.MergeReaches | ui/lib/opaque.cc:599-601 | The keys returned lie on the highest level or above it, and above every level that does not fit. |
| Build.GrowOrder | ui/lib/opaque.cc:482-490 | After any number of data chunks the unmerged keys stand for all of them, in order. |
| Build.GrowHeight | ui/lib/opaque.cc:526-541 | A level exists only if there are at least as many chunks as four to its power. |
| Build.LevelsFit | ui/lib/opaque.cc:676 | Below 2^63 bytes no level number leaves its 32 bits. |
| Chunker.CutSplitsMarks | ui/lib/opaque.cc:406-478 | A cut takes at least one byte and exactly the marks before it, and falls on a mark or leaves none behind. |
| Chunker.CutPicksLowest | ui/lib/opaque.cc:443-476 | A full buffer with eligible marks is cut at the one whose preceding minimum-size slab has the lowest checksum, the last of several. |
| CutRuns.RunWellCut | ui/lib/opaque.cc:387-513 | Over every run each chunk ends where it should: one that continues a record at the next boundary if that is near; one of a full buffer with no boundary inside at the place from the minimum to the maximum size with the lowest slab value, the last of several; with boundaries only before the minimum size at the last of them; with later ones at the lowest of those, the last of several; the rest at the end of the stream. |
| CutRuns.WellCutUnique | ui/lib/opaque.cc:402-478 | There is only one such place. |
| CutRuns.OneWayToCut | ui/lib/opaque.h:210-227 | Two sequences of chunks of the same stream that obey this rule are the same, chunk by chunk. |
| ChunkerRuns.RunIsEat | ui/lib/opaque.cc:319-400 | Any sequence of writes and marks does what its bytes and marks do one at a time. |
| ChunkerRuns.SameTokensSameChunks | ui/lib/opaque.cc:319-400 | Two runs with the same bytes and marks end in the same state with the same chunks, however the writes were split. |
| ChunkerRuns.FeedConcat | ui/lib/opaque.cc:319-349 | One write of two parts equals two writes. |
| RecordRuns.RunStream | ui/lib/opaque.cc:319-400 | Chunks made plus bytes pending are everything written. |
| RecordRuns.RunStarts | ui/lib/opaque.cc:387-400 | The record starts are where the marks were made. |
| RecordRuns.RunInv | ui/lib/opaque.cc:387-513 | Over every run: the marks are the record starts in the pending bytes, strictly increasing from 0 or absent, one more than the records counted away; every chunk so far is aligned. |
| RecordRuns.FlushFinishes | ui/lib/opaque.h:210-227 | The finished chunks concatenate to the stream; each is whole records, or a part of one record of at least the maximum chunk size with one record start in its first part and none in the others. |
| Alignment.PieceHolds | ui/lib/opaque.h:213-217 | An aligned chunk holds bytes of a record if and only if the record starts in it, or it holds no start and the record is the last before it. |
| Coder.EncDataChunk | ui/lib/opaque.cc:648-668 | The key and the ciphertext of a data chunk. |
| Coder.EncKeyChunk | ui/lib/opaque.cc:670-705 | The loop over the keys gives the key and the ciphertext of the key chunk; what they are is said by `HandedOut.RunHandsOut`. |
| Coder.SelectEnd | ui/lib/opaque.cc:533-541 | The loop finds the split point. |
| Coder.BestMark | ui/lib/opaque.cc:443-476 | The two loops with the rolling checksum find the best eligible mark. |
| Coder.ChooseSplit | ui/lib/opaque.cc:406-476 | All four branches together choose the reference cut; where that is over a whole run is said by `CutRuns.RunWellCut`. |
| Coder.OpaqueCoder.constructor | ui/lib/opaque.cc:281-291 | An empty stream with the first record marked. |
| Coder.OpaqueCoder.AddKey | ui/lib/opaque.cc:515-560 | The key lists become those of the grown tree, and the key chunks come out in the order of the recursion. |
| Coder.OpaqueCoder.DoChunk | ui/lib/opaque.cc:402-513 | The buffer, shifted in place, its marks, the totals, the checksums, the keys and the output are those after one reference cut, as `CutRuns.RunWellCut` describes it. |
| Coder.OpaqueCoder.WriteData | ui/lib/opaque.cc:319-349 | The same state as taking in the bytes one at a time. |
| Coder.OpaqueCoder.ReadFrom | ui/lib/opaque.cc:351-385 | The same for bytes delivered by a device in portions of any size, up to a limit. |
| Coder.OpaqueCoder.MarkRecord | ui/lib/opaque.cc:387-400 | The tail of a long record is cut off first, then a record begins; the invariant is kept. |
| Coder.OpaqueCoder.RecordCountIsStarts | ui/lib/opaque.h:223-227 | What `records` returns is the number of record starts, one more than the marks made. |
| Coder.OpaqueCoder.Finish | ui/lib/opaque.cc:562-624 | The result is the inline stream or the merged top keys, and the output holds all chunks. |
| Coded.TopTreesSound | ui/lib/opaque.cc:586-623 | The top keys fit the limit, stand for the whole stream in order, and every chunk they lead to has been handed out. |
| Coded.FinishTotals | ui/lib/opaque.cc:603-604 | The result has the size of the stream and the number of its records. |
| Coded.FinishFitsLimit | ui/lib/opaque.cc:562-613 | The encoded result never exceeds the metadata limit and decodes to itself. |
| KeyRules.InlineIff | ui/lib/opaque.cc:567-579 | Over every run the stream is returned inline if and only if it is shorter than the maximum chunk size and its encoding with all its records fits the limit. |
| KeyRules.FewChunks | ui/lib/opaque.cc:590-613 | A stream of up to eight chunks that is not inlined is returned as the keys of its chunks if these fit the limit, else as the key of the one key chunk over them. |
| HandedOut.RunHandsOut | ui/lib/opaque.cc:634-705 | Every chunk handed out in a run is filed under the hash of its ciphertext and encrypted with the hash of its cleartext; a data chunk holds the bytes it says and its key has their size and checksum; a key chunk holds one to eight keys of one level and its key lies above them and sums them up; the data chunks are those of the stream, each once and in order; an inline result hands out nothing. |
| HandedOut.LogStep | ui/lib/opaque.cc:480-490 | Each data chunk is handed out behind the key chunks it makes necessary, and these are all that comes between two data chunks. |
| Reading.SelectAllIsExact | ui/lib/opaque.cc:756-800 | Through any number of key levels the descent reaches precisely the data chunks that overlap the wanted bytes or records. |
| RecordReads.WantedRecordsIff | ui/lib/opaque.cc:765-783 | The chunks a record read asks for hold all bytes of its records if and only if no chunk begins inside the last of them. |
| RecordReads.RecordReadIff | ui/lib/opaque.cc:721-783 | So a finished record read of a coded stream has delivered all those bytes if and only if no chunk begins inside its last record; it has if that record is below the maximum chunk size, and has not if it is above. |
| RecordReads.RecordReadCanMiss | ui/lib/opaque.cc:765-783 | A run whose only record is not read completely by its number. |
| RecordReads.MaximumCanBeCut | ui/lib/opaque.h:213-215 | A run whose only record has the maximum chunk size and is cut. |
| RecordReads.MaximumCanBeWhole | ui/lib/opaque.h:213-215 | Another one, whose record of that size is one chunk. |
| Reading.ExamineOwnChunk | ui/lib/opaque.cc:832-892 | The chunk the coder made for a key passes every check of the reader and gives back what went in. |
| Reading.ExamineIff | ui/lib/opaque.cc:827-892 | A chunk is taken for data if and only if its key is of level 0 and has its size and the checksum of its cleartext; for keys if and only if it has the size its key says, is nothing but one or more good keys, and their sizes add up to that of the key within 64 bits. |
| Reader.DecodeKeys | ui/lib/opaque.cc:859-890 | The loop accepts exactly the chunks whose keys are all good and whose sizes add up without overflow. |
| Reader.ExamineChunk | ui/lib/opaque.cc:827-892 | All checks made on an arrived chunk. |
| Reader.OpaqueReader.AddKeys | ui/lib/opaque.cc:756-806 | Regions are inserted for exactly the usable keys that reach into the extent, and their hashes requested afterwards. |
| ReaderTable.AddedInExtent | ui/lib/opaque.cc:769-797 | A region is added only for a key with sensible fields that lies in the wanted extent. |
| ReaderTable.HashesAre | ui/lib/opaque.cc:801-805 | One request is made for each region added, in the order of the keys. |
| Reader.OpaqueReader.ReadRegion | ui/lib/opaque.cc:709-754 | Inline data is delivered and its end announced at once; otherwise the top keys are added (`ReadEnds.EndsIffDone`). |
| Reader.OpaqueReader.GotData | ui/lib/opaque.cc:808-901 | For every chunk: the waiting regions are delivered, reported missing or replaced by smaller ones, what waits for the chunk then is removed, and the end is announced only if nothing is pending; all other regions stay unless a key chunk lists its own hash. |
| ReaderTable.ServedIff | ui/lib/opaque.cc:890-896 | No region is dropped by that removal if and only if none of those just added waits for the same chunk. |
| Reader.OpaqueReader.NoData | ui/lib/opaque.cc:903-915 | The waiting regions are reported missing and removed. |
| Conservation.DataStep | ui/lib/opaque.cc:808-901 | One arrival moves data chunks from needed to delivered or missing; none is dropped, none doubled. |
| Conservation.NoDataStep | ui/lib/opaque.cc:903-915 | One failure moves them to missing. |
| Conservation.RunConserves | ui/lib/opaque.cc:756-915 | Over every sequence of answers, in any order, repeated or unasked for, delivered, needed and missing add up to what was asked for; nothing is missing if every answer was data. |
| Conservation.ServedConserves | ui/lib/opaque.cc:808-915 | The same for the table exactly as the code leaves it, over every run in which no region just added waits for the chunk that listed it. |
| WholeRun.StoreDropsNone | ui/lib/opaque.cc:808-915 | Every run of answers from a store is such a run if no chunk lists its own outer hash. |
| Conservation.RunRequests | ui/lib/opaque.cc:801-805 | At any time every pending region's chunk has been requested. |
| Conservation.AnswerRequests | ui/lib/opaque.cc:896-900 | The end is announced by an answer if and only if nothing is pending after it. |
| Conservation.DataProgress | ui/lib/opaque.cc:892-896 | Every chunk some region waits for lowers the number of chunks left to fetch. |
| RoundTrip.RangeReadIsExact | ui/lib/opaque.cc:709-806 | A finished read of any range of bytes or records of a coded stream has delivered exactly the overlapping data chunks, each once, in spite of equal chunks under one hash. |
| ReadEnds.EndsIffDone | ui/lib/opaque.cc:733-915 | After a read of any extent of a coded stream has begun, and after any answers: nothing is pending if and only if the end has been announced. Inline data is announced at once. |
| ReadEnds.ByteReadDelivers | ui/lib/opaque.cc:709-783 | A finished read of bytes has delivered all of them, each piece at its place, and no piece without one of them. |
| ReadEnds.RecordReadDelivers | ui/lib/opaque.cc:721-783 | A finished read of records has delivered exactly the chunks that have bytes of them and do not begin inside the last one. |
| ReadEnds.AsksForStreamOnly | ui/lib/opaque.cc:756-806 | Whatever is found or not, a read asks for nothing but chunks handed out for the stream. |
| RoundTrip.FullReadPartitions | ui/lib/opaque.cc:756-915 | At every step of a read of all bytes, delivered, pending and missing chunks are together those of the stream, each once. |
| RoundTrip.FullReadRebuilds | ui/lib/opaque.cc:402-624 | A finished read of all bytes has delivered every byte exactly once, at its place. |
| WholeRun.Code | ui/lib/opaque.cc:319-400 | The coder run on any valid sequence of operations returns the specified metadata and chunks. |
| WholeRun.ReadAll | ui/lib/opaque.cc:733-901 | The reader, answered in any order, ends and has the whole stream. |
| WholeRun.CodeAndRead | ui/lib/opaque.cc:402-901 | Coding, storing, encoding and decoding the metadata, reading in any order and assembling give back the bytes written, within the metadata limit. |
| FileMeta.DecodeAttrs | ui/lib/file.cc:98-110 | The decoding loop, with the limits on number and size of attributes. |
| FileMeta.Decode | ui/lib/file.cc:86-113 | Decoding with its error cases. |
| FileMeta.FileInfoRoundTrip | ui/lib/file.cc:76-113 | Encoded in any order of attributes, a record is read back unchanged if and only if it is within the limits. |
| Layouts.AttrsRead | ui/lib/file.cc:98-110 | Of the attributes in a written record exactly those among the first 256 and of at most 65536 bytes are read. |
| Layouts.NegativeCount | ui/lib/file.cc:92-96 | A negative number of attributes is read as a record with neither type nor attributes. |
| DirReader.Reader.FindPos | ui/lib/file.cc:154-166 | The binary search finds the place behind all smaller and before all other record numbers. |
| DirReader.Reader.GotData2 | ui/lib/file.cc:168-203 | The decoded entries are inserted at that place, in order. |
| DirReader.ListAllPartial | ui/lib/file.cc:192-202 | After any blocks in any order the list is sorted and has exactly their entries. |
| DirReader.ListAllIsDirectory | ui/lib/file.cc:168-203 | When all blocks have arrived the list is the directory. |
| Directory.DirRuns | ui/lib/scan.cc:243-250 | Coding one record per entry breaks no rule about marks. |
| Directory.DirPiece | ui/lib/file.cc:147-151 | Entries smaller than a chunk are never cut: every chunk decodes to whole entries. |
| Directory.DirectoryRebuilds | ui/lib/scan.cc:243-256 | A directory coded entry by entry, read as records and inserted in the order of arrival comes out with all entries in order, as it was if and only if all are within the attribute limits. |
| ShareSafety.HandleInv | filesyncbox/lib/chunk_peer.cpp:28-279 | Every event keeps: exclusive downloads, each on its peer's wishlist; potential peers have status invalid or online and are those with an open question; answers are counted; answers are justified. |
| ShareSafety.RunInv | filesyncbox/lib/chunk_share.cpp:50-143 | So it holds over every run, in particular every registered wish is waiting or answered exactly once, data has the requested hash, and `no_data` is sent only when every peer asked has since answered negatively, failed or disconnected. |
| ShareEnds.RequestsEnd | filesyncbox/lib/chunk_share.cpp:69-92 | Over every run: if anybody has been asked for a chunk since readers were last told about it, some question about it is still open, and so is the request. |
| ShareEnds.RequestEndsIff | filesyncbox/lib/chunk_peer.cpp:28-279 | Over every event: a request somebody was asked for stays open if and only if some question about it is open afterwards; otherwise every reader that waited has been told once more. |
| ShareChanges.QuestionsAfter | filesyncbox/lib/chunk_peer.cpp:28-279 | After any event exactly these questions are open: the ones open before, less those answered, lost with a connection or made needless by the data, and those of a new request or connection. |
| ShareChanges.RequestsAfter | filesyncbox/lib/chunk_share.cpp:50-132 | After any event exactly these requests are open: the ones open before, less the one whose data has come and those with no other question left, and the new one. |
| ShareChanges.ReadersAfter | filesyncbox/lib/chunk_share.cpp:50-67 | The readers of an open request are those it had and the one that has just asked. |
| ShareChanges.GoodReplyDelivers | filesyncbox/lib/chunk_peer.cpp:263-271 | Data with the right hash goes to every reader that waits for it. |
| ShareChanges.WishesAfter | filesyncbox/lib/chunk_peer.cpp:204-245 | A peer wishes for a requested chunk after an event if and only if it did before or has just reported it, unless it has just replied with it. |
| ShareChanges.DownloadStarts | filesyncbox/lib/chunk_peer.cpp:62-110 | Over every event a download starts only after an online report or good data, at a connected peer that was idle or has just been freed, for a requested chunk it wishes for and nobody else sends. |
| ShareChanges.WorkAfter | filesyncbox/lib/chunk_peer.cpp:208-278 | After an online report or good data about a requested chunk no connected idle peer wishes for a requested chunk that nobody sends. |
| ShareEffects.ConnectAsksForAll | filesyncbox/lib/chunk_share.cpp:101-120 | A peer that connects is asked for every open request, keeps its wishes and sends nothing yet. |
| ShareEffects.RequestAsksAll | filesyncbox/lib/chunk_share.cpp:50-67 | For a request every known peer that can be reached is asked. |
| ShareEffects.DisconnectLeavesAll | filesyncbox/lib/chunk_share.cpp:122-132 | A peer that disconnects leaves no question open and no status behind. |
| ShareEffects.StatusReplyNoted | filesyncbox/lib/chunk_peer.cpp:190-220 | The status is remembered while the request is open; the chunk is on the sender's wishlist afterwards if and only if it was or is reported online. |
| ShareEffects.ChunkReplyNoted | filesyncbox/lib/chunk_peer.cpp:236-258 | The chunk leaves the sender's wishlist; if it is bad and the request goes on it is remembered as lost. |
| ShareScheduling.CheckPeersConservesWork | filesyncbox/lib/chunk_share.cpp:94-99 | After the walk no connected idle peer wishes for a requested chunk that nobody downloads. |
| ShareScheduling.CheckWorkStarts | filesyncbox/lib/chunk_peer.cpp:62-110 | Only a connected idle peer starts a download, of a chunk on its wishlist that is requested and not being downloaded; only wishes nobody requests are dropped. |
| ShareEffects.IdleWishesWanted | filesyncbox/lib/chunk_peer.cpp:73-83 | A connected peer that finds nothing to do wishes for requested chunks only. |
| ShareScheduling.OnlineReportCounts | filesyncbox/include/filesyncbox/chunk_protocol.h:49-52 | After an online report the sender is a potential peer if and only if its question was still open. |
| ShareScheduling.SlotFreedIff | filesyncbox/lib/chunk_peer.cpp:222-258 | Over every event a peer that is downloading keeps its chunk as the current one unless it connects again or replies with that chunk while it is requested. |
| ShareScheduling.NeverFetched | filesyncbox/lib/chunk_peer.cpp:232-236 | A run in which a chunk is wanted again, its connected peer has it, and no download starts because an ignored reply has left the peer busy. |
| ShareScheduling.NoDataWhileDownloading | filesyncbox/lib/chunk_share.cpp:69-92 | A run of answered questions and real connections in which a reader is told `no_data` while a peer is sending the chunk. |
| ShareService.Service.SendStatusRequest | filesyncbox/lib/chunk_peer.cpp:37-60 | A reachable peer is asked, becomes potential and its status invalid; an unreachable one is not. |
| ShareService.Service.GotRequest | filesyncbox/lib/chunk_share.cpp:50-67 | The reader is registered and every peer asked. |
| ShareService.Service.CheckRequest | filesyncbox/lib/chunk_share.cpp:69-92 | With no place left to look the request is removed and every reader told. |
| ShareService.Service.CheckWork | filesyncbox/lib/chunk_peer.cpp:62-110 | The search through the wishlist, and the download it starts. |
| ShareService.Service.CheckAllPeers | filesyncbox/lib/chunk_share.cpp:94-99 | The walk over all peers. |
| ShareService.Service.GotStatusReply | filesyncbox/lib/chunk_peer.cpp:190-220 | The effect of every status code, as `ShareChanges.QuestionsAfter`, `ShareChanges.RequestsAfter` and `ShareEnds.RequestEndsIff` describe it; after an online report no useful download is left unstarted. |
| ShareService.Service.GotChunkReply | filesyncbox/lib/chunk_peer.cpp:222-279 | The effect of good, bad, empty and unasked-for chunks; after a good one no useful download is left unstarted. |
| ShareService.Service.RemoveFromRequests | filesyncbox/lib/chunk_peer.cpp:28-35 | The peer leaves every request, and requests with no place left to look end. |
| ShareService.Service.GotOutStreamConnected | filesyncbox/lib/chunk_share.cpp:101-120 | The peer starts over and is asked for everything again. |
| ShareService.Service.GotOutStreamDisconnected | filesyncbox/lib/chunk_share.cpp:122-132 | The peer is removed from all requests. |
| ShareService.Service.GotInStreamConnected | filesyncbox/lib/chunk_share.cpp:134-143 | The peer is known from now on. |
| ShareService.Service.OnEvent | filesyncbox/lib/chunk_share.cpp:50-143 | Whatever the event, the records are then those of the transition system after it, and the invariant holds. |
| ShareService.Serve | filesyncbox/lib/chunk_share.cpp:50-143 | A service driven through any run of events that can happen, changes of the links among them, ends in the state the run leads to. |
| ArchiveLog.ChunkAt | ui/lib/arch.cc:147-151 | In the log every chunk's header is read back at its position and its data follows. |
| Layouts.ChunkLayout | ui/lib/arch.cc:147-151 | Signature, size, check and data, in this order. |
| Layouts.HeadIff | ui/lib/arch.cc:59-78 | A header is accepted if and only if it is complete, has the signature and a positive size. |
| ArchiveLog.ScanIsIndex | ui/lib/arch.cc:172-194 | A scan, fresh or resumed anywhere, gives the index of the whole log. |
| Archives.Archive.constructor | ui/lib/arch.cc:37-43 | A new archive holds the signature chunk. |
| Archives.Archive.Scan | ui/lib/arch.cc:172-194 | The index afterwards equals a fresh parse of the file, also when other processes have appended to it. |
| Archives.Archive.ReadIndexed | ui/lib/arch.cc:80-107 | The chunk of that number comes back whole if it has the expected check and size, or none is expected; else nothing. |
| Archives.Archive.ReadChunk | ui/lib/arch.cc:109-128 | A scanned chunk with the hash and the size is returned if and only if there is one, whatever other chunks share its 64-bit check; without collisions of the full hash it is that chunk. |
| Archives.Archive.ReadStore | ui/lib/arch.cc:130-133 | It finds nothing, because of the default size. |
| Archives.Archive.WriteChunk | ui/lib/arch.cc:135-170 | A chunk known already is not written; another is appended once, indexed, and found by the check afterwards; no chunk is ever stored twice. |
| ArchiveLog.WritesStoredOnce | ui/lib/arch.cc:142-145 | After any list of writes, repeated or not, every chunk written lies in the log exactly once. |
| Archives.WriteAndReadBack | ui/lib/arch.cc:109-170 | A client that writes any list of chunks gets every one of them back by hash and size, and the log has each once. |
| IndexLog.EntryRoundTrip | ui/lib/index.cc:181-218 | Every record of the three kinds is read back whatever follows it: as it was written, except that a file info has lost its attributes beyond the limits, which it has if and only if it was beyond them. |
| Layouts.EntryLayout | ui/lib/index.cc:229-393 | The tag and the order of the fields of each kind of record. |
| IndexLog.ReplayIff | ui/lib/index.cc:157-223 | A log replays if and only if every record passes the checks, and then gives the tables its records describe as they are read; up to three bytes behind the last record, too few for a tag, make no difference. The checks are those of `Replays.IndexReplaysIff`. |
| Replays.LocationReplays | ui/lib/index.cc:181-189 | A location appended to any log, with any offset, keeps it replayable if and only if it has a hash, a path and a positive length; it is then known in addition, and nothing else changes. |
| Replays.ChunkReplays | ui/lib/index.cc:191-206 | A metadata chunk does if and only if it has a hash, a name and a positive length; it is then known by that name if and only if there is a file of that name and length. |
| Replays.InfoReplays | ui/lib/index.cc:208-218 | A file info does if and only if it has a path and a type; it then replaces the one known, unchanged if and only if it has at most 256 attributes of at most 65536 bytes. |
| Replays.IndexReplaysIff | ui/lib/index.cc:157-223 | The file of an index replays, whatever chunk files are left, if and only if every record added has these fields. |
| Replays.HeaderIff | ui/lib/index.cc:131-155 | A file is taken for an index if and only if it begins with the signature and version 2. |
| Replays.ReachedAre | ui/lib/index.cc:162-223 | With unreadable bytes behind good records the replay fails, and has read these records, no more and no less. |
| IndexLog.AppendBehindJunk | ui/lib/index.cc:162-176 | With one to three such bytes the file is corrupt as soon as any record has been appended. |
| IndexLog.RestoredIff | ui/lib/index.cc:157-223 | Locations and metadata chunks are always restored; the file infos written last are if and only if all of them are within the limits. |
| IndexLog.InfoCanBeLost | ui/lib/index.cc:229-252 | A file info with an attribute one byte too long: the log replays and the attribute is gone. |
| IndexLog.SameInfoIsEqualityIff | ui/lib/file.cc:64-74 | For a known record the comparison is equality if and only if the record has no empty attribute. |
| IndexLog.SameInfoCanLie | ui/lib/file.cc:64-74 | Two different records with an empty attribute that compare equal. |
| IndexStore.Index.ReplayRestores | ui/lib/index.cc:157-223 | With any chunk files left the file replays if and only if no refused record was added; then it gives at least all chunk locations, every metadata chunk whose file has the recorded length, and exactly the file infos if and only if all are within the limits. |
| IndexStore.IntactReplays | ui/lib/index.cc:200-206 | As long as nobody damages the chunk files a replay finds every metadata chunk in memory. |
| IndexStore.Index.Open | ui/lib/index.cc:103-223 | A file that replays is kept as it is, stray bytes included; tables and file are then in step if and only if there are no such bytes, all file infos are within the limits and no older chunk file was taken for the last one. Any other file gives an empty file and directory and keeps the file infos read so far, so that they are in step if and only if there are none. |
| IndexStore.Reopen | ui/lib/index.cc:79-227 | An index that has lost no chunk file and holds nothing beyond the limits is opened again with the same file, file infos and metadata chunks, at least the same locations, and all its invariants. |
| IndexStore.StaleInfos | ui/lib/index.cc:108-113 | A file with an unknown tag behind a record, after which the index knows a file info that no file has. |
| IndexStore.Index.Load | ui/lib/index.cc:157-223 | The replay loop fills the tables up to the end of the file or to bytes too few for a tag, or stops at the first bad record with the tables as they are then (`Replays.LocationReplays`, `Replays.ReachedAre`). |
| IndexStore.Index.AddFileInfo | ui/lib/index.cc:229-252 | A changed record is appended and entered; one that compares equal is not. |
| IndexStore.Index.AddFileChunk | ui/lib/index.cc:262-290 | A new location is appended and entered; a known one is not. |
| IndexStore.Index.ReadFileChunk | ui/lib/index.cc:292-330 | A chunk is returned if and only if some known location still has it; it is what that location holds, encrypted with its own hash, and has the requested hash; and only locations that no longer have it are forgotten. |
| IndexStore.Index.ReadMetaChunk | ui/lib/index.cc:395-431 | The data comes back if and only if the chunk's file is there and has the hash; otherwise the chunk is forgotten and the file removed. |
| IndexStore.Index.AddMetaChunk | ui/lib/index.cc:332-393 | A chunk whose file holds it is left alone; otherwise the data is written to a new file and recorded; with the right hash it can then be read back, and an intact directory stays intact. |

## Left out

- Conservation.RunRequests: like the other theorems about runs it follows `AfterData`, in which a key chunk that lists its own outer hash keeps its regions; `Conservation.ServedRunIs` says when that is what the code does.
- Conservation.RunConserves: answers are events of their own; a store that answers inside `readChunk` and so re-enters the reader is not modelled, nor is announcing the end more than once because of it.
- Reader.ExamineChunk: the decrypted buffer kept between regions of one key is modelled as the remembered result; a malformed key chunk shared by several regions, where the source would go on with a half-filled list, is reported missing for each.
- ShareSafety.RunInv: readers are told as a log entry; a callback that asks for chunks is a later event, and a reader that has disappeared is not modelled. That a request without connected peers is ever answered is not claimed.
- Archives.Archive.WriteChunk: a chunk and its header stay below 2^31 bytes, the archive below 2^31 chunks and 2^63 bytes, as the widths of the source demand; failing writes and reopening an existing archive are left out.
- IndexStore.Index.AddMetaChunk: the name of the new file is any that no other chunk file has; write errors and a second thread that adds the same chunk meanwhile are left out.
- IndexStore.Index.Open: what the other methods keep is stated for an index that is in step with its file; adding to a file with stray bytes is covered by `IndexLog.AppendBehindJunk` alone.
- Coder.OpaqueCoder.WriteData: what is pending and one write together stay below 2^31 bytes, which the source counts in an `int`; consumers that refuse a chunk and reading errors are left out.
- The hash functions, the cipher and the 64-bit check are parameters; nothing is proved about them.
- `gotMetaData`, which only passes chunks on to subclasses, and the calls that answer a peer's own requests, which change no state.
- Sockets, timers, threads, file permissions, progress reports and everything graphical.
- `FileTreeStats`, `RollingChecksum::advanceStart`, the constructors from file system entries: easy members nothing here needs.
