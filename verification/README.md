# The backup storage engine, modelled and proved in Dafny

This project models the storage layer of a deduplicating backup server: the chunk store and its
garbage collector, content-defined chunking, the two index formats with their readers and writers, the
catalog file, chunk verification and snapshot retention. `dafny verify dfyconfig.toml` checks all of it.

| file | component |
|---|---|
| `GarbageCollection.dfy` | mark and sweep beside writers, snapshot removal and readers, as a step system |
| `ChunkSweep.dfy` | the chunk directory iterator, the unlink loop and its totals |
| `Chunking.dfy`, `ChunkStreams.dfy` | the rolling hash chunker and the streams built on chunk sizes |
| `IndexFile.dfy` | what both index kinds share: tiled ranges and the flat content behind them |
| `DynamicIndex.dfy`, `DynamicWriter.dfy` | binary search, LRU cache, buffered reader; index and chunk writers, write-then-read |
| `FixedIndex.dfy` | mask arithmetic, alignment check, out-of-order writer |
| `AsyncReader.dfy` | the NoData / WaitForData / HaveData reader |
| `Varint.dfy`, `Catalog.dfy`, `CatalogFile.dfy` | catalog integers, directory blocks, whole files |
| `CatalogSearch.dfy`, `CatalogWalk.dfy`, `CatalogExtract.dfy`, `CatalogPaths.dfy` | path lookup, pattern search, iterative extraction, and that their paths agree |
| `Verify.dfy` | the verification producer and its decoder pool, as a step system |
| `Prune.dfy`, `PruneSimulator.dfy` | retention on the server and in the documentation's simulator |

Main results, each for all inputs or all runs:

- In every interleaving no sweep removes a chunk that an index file refers to or an open writer inserted, if
  access times lag the clock by at most 300 seconds and one of two rules is followed: every published index
  lists chunks its writer inserted; or it may also copy digests from an index that is still there, and no
  index goes away while the collector walks and marks. For any larger lag, and for clones without the second
  half of their rule, a lemma gives a run that loses a live chunk.
- When a collection completes, every chunk is gone that was unreferenced and unread throughout and older than
  the cutoff given by the locks and the clock at its start. From every state the collector can complete.
- Any list of catalog calls that succeeds gives a file that reads back as the recorded tree, and reading
  fails if and only if some name has 4096 bytes or more. Path lookup, search and extraction over such a file
  do what the recorded tree says, and each fails exactly when such a name is in its own way. The paths that
  search and extraction put together lead lookup to the same entries.
- Cutting into chunks does not depend on input buffers: the stream, the chunk writer and a greedy reference
  produce the same list. Between the size bounds a chunk ends exactly where the hash of the last 64 bytes,
  modulo twice the average, is one of the three largest values.
- Data written through the chunk writer, an image added chunk by chunk in any order, or a clone of an older
  image with the changed chunks added, reads back identically through index and store; header checksums
  equal the reader's.
- The buffered and the asynchronous reader serve the flat content for every sequence of seeks and reads. The
  asynchronous one stays coherent after a seek if and only if no fetch was pending; otherwise every later read
  fails, panics or returns bytes of an old buffer, and a new reader gets there in three calls.
- Verification succeeds only if every digest is in the verified set. A finished run without abort and without
  chunks marked corrupt succeeds if and only if every chunk it loaded has the crypt mode of the index and, if
  unencrypted, the size and the digest of its entry. Every interleaving ends.
- Pruning a group never removes its newest snapshot nor its newest finished one. With some count it keeps at
  most their sum, plus the newest snapshot if that is unfinished. The simulator keeps exactly what a prune call
  keeps. It agrees with `compute_prune_info` alone if and only if some count is positive or the list is empty.

Conventions: a digest is a byte string and every hash is a function parameter, so nothing depends on
SHA-256; where digests must not collide, a `NoCollision` premise says so. A 32 bit word is the list of its
bits. The Buzhash table is a parameter. Clocks, access times, readiness of futures, fetch results and
patterns are parameters or steps. A written archive is shorter than 2^64 bytes and a digest has
32 bytes where the record format needs it.

The model follows the code where that differs from its documentation or from what a caller would expect:

- `catalog_decode_i64` is documented as compatible with the unsigned encoder up to 2^63 only. The code reads
  every unsigned value, up to reinterpretation of the sign bit (`Varint.I64Compatibility`).
- The catalog writer accepts names that the reader refuses (`CatalogFile.CatalogRoundTrip`).
- The extraction keeps a stack of `matches` flags but never changes the flag when it enters a directory, so
  patterns on a directory decide nothing about the entries below it (`CatalogExtract.WalkExtracts`).

## Model

| member | source | states |
|---|---|---|
| GarbageCollection.OldestSharedLock | src/tools/process_locker.rs:158-172 | none if and only if there is no lock, else the least time stamp |
| GarbageCollection.CutoffIsExact | src/backup/chunk_store.rs:287-293 | too old means: more than 300 s before the oldest writer and more than a day and 300 s before the collection |
| GarbageCollection.InvStep | src/backup/chunk_store.rs:277-416 | every step (writer, snapshot removal, reader, collector) keeps, under either rule: inserted chunks are not older than their lock minus the gap, every writer is known to the collector, every reference is young enough or still to be marked |
| GarbageCollection.ReferenceSafeStep | src/backup/datastore.rs:433-541 | walking, opening, touching, publishing and removing an index leave every reference either above the cutoff or pending, in its own index or, for clones, in one that lists the same chunk |
| GarbageCollection.CopySafeStep | src/backup/fixed_index.rs:453-463 | a digest copied from a base index stays safe while no index goes away during mark |
| GarbageCollection.SweepSparesLive | src/backup/chunk_store.rs:287-365 | while sweeping, a live chunk has an access time at or above the cutoff |
| GarbageCollection.InvAlways | src/backup/datastore.rs:551-576 | the invariant holds in every state of every run that follows a rule |
| GarbageCollection.LiveChunkSurvivesStep | src/backup.rs:58-67 | no step of a run other than quarantining removes a live chunk |
| GarbageCollection.LiveChunkSurvives | src/backup.rs:93-123 | a chunk that stays live between two states of a run is still there, over any number of collections |
| GarbageCollection.NoDanglingReference | src/backup.rs:125-139 | from a store without dangling references no run under either rule ever creates one, for indexes and for open writers |
| GarbageCollection.NewlyLive | src/backup/dynamic_index.rs:659-676 | only an insertion makes a chunk live that was not, and it leaves the chunk in the store |
| GarbageCollection.GarbageWaitsAlways | src/backup/datastore.rs:471-576 | while a collection runs garbage keeps its access time, is never marked, and stays in the listing until it is swept; the cutoff is at least the one of the start |
| GarbageCollection.GarbageIsCollected | src/backup/chunk_store.rs:277-370 | after every completed collection a chunk is gone that was unreferenced and unread throughout and older than the cutoff given by locks and clock at the start |
| GarbageCollection.CanComplete | src/backup/datastore.rs:551-576 | from every state with a running collection its own steps lead to its end, and they change no reference |
| GarbageCollection.WalkSoundAlways | src/backup/datastore.rs:380-430 | in every state of every run the walk only has to find index files that exist |
| GarbageCollection.OldGarbageGoes | src/backup.rs:44-57 | from every idle store a completed collection exists after which all garbage older than the cutoff is gone |
| GarbageCollection.SweepIsExact | src/backup/chunk_store.rs:329-351 | looking at a file removes it exactly if it is too old, in seconds before the oldest writer and the start |
| GarbageCollection.RecentChunkStays | src/backup/chunk_store.rs:287-351 | in every run, under no rule at all, nothing but quarantining removes a chunk used within the last day and 300 s before the collection |
| GarbageCollection.UntouchedCloneIsSwept | src/backup/fixed_index.rs:453-463 | a run in which a clone is published while its base is still there, the base is forgotten before mark opens it, and the sweep removes a chunk of the clone |
| GarbageCollection.LargerLagIsUnsafe | src/backup/chunk_store.rs:287-293 | for every lag above 300 s a run of writers that touch everything sweeps a chunk of an open writer |
| ChunkSweep.ChunkIterator.Next | src/backup/chunk_store.rs:211-270 | yields the remaining entries one by one, ends after the first error, and none only when nothing remains |
| ChunkSweep.VisitsChunkFiles | src/backup/chunk_store.rs:216-231 | without read errors exactly the listed hash-named entries are visited, with the right bad flag |
| ChunkSweep.FailureEnds | src/backup/chunk_store.rs:211-270 | an error is reported if and only if a directory cannot be read, and nothing comes after it |
| ChunkSweep.DigestFilesVisited | src/backup/chunk_store.rs:216-231 | the hex name of every 32 byte digest is visited as good, the same name followed by .0.bad as bad |
| ChunkSweep.SweepNext | src/backup/chunk_store.rs:329-366 | one more visited entry: its file is as it was, and goes exactly if it is older than the cutoff |
| ChunkSweep.ChunkStore.SweepUnusedChunks | src/backup/chunk_store.rs:277-370 | no file used since 300 s before the oldest writer or a day and 300 s before the start changes, in any case; on success every other visited regular file is gone, everything else is left, and the status is the tally; it fails exactly on a read error, an entry of unknown type or an old file that cannot be unlinked |
| ChunkSweep.TallyMeans | src/backup/chunk_store.rs:331-365 | each of the eight counters is the bytes or number of its class of files |
| ChunkSweep.TallyConserves | src/backup/chunk_store.rs:346-364 | over the visited entries removed, pending and disk bytes sum to all bytes, and the chunk counters to all files that are not bad |
| ChunkSweep.VisitsStore | src/backup/chunk_store.rs:187-271 | a faithful listing visits exactly the hash-named files of the store |
| ChunkSweep.SweepOfStore | src/backup/chunk_store.rs:277-370 | on a faithful listing the survivors are the files that are not hash-named or not too old, every counter is the bytes or number of its class of hash-named files of the store, and bytes removed plus bytes of the survivors are the bytes before |
| Chunking.ParamsForMean | src/backup/chunker.rs:75-106 | bounds are a quarter and four times the average, the mask is 2 avg - 1, the minimum 2 avg - 3; the limit exceeds the window exactly for averages of 32 or more |
| Chunking.RollWindow | src/backup/chunker.rs:141-148 | one rotation and two table lookups turn the hash of a full window into the hash of the next one |
| Chunking.BuzhashConcat | src/backup/chunker.rs:122-128 | the hash of a concatenation is the rotated hash of the front combined with the hash of the back |
| Chunking.RollStep | src/backup/chunker.rs:138-163 | slot chunk_size mod 64 of the circular window holds the byte that leaves |
| Chunking.CutAtPrefix | src/backup/chunker.rs:108-112 | a boundary depends on the bytes before it only |
| Chunking.FirstCutBounds | src/backup/chunker.rs:172-186 | every cut lies between max(65, min) and max(65, max); without a cut the data is shorter than that |
| Chunking.ContentCut | src/backup/chunker.rs:75-186 | with an average of 2^k, 5 <= k <= 31, and no boundary before n, a chunk within the size bounds ends after n bytes if and only if the hash of its last 64 bytes modulo twice the average is at least twice the average minus 3 |
| Chunking.MaskedHash | src/backup/chunker.rs:94-105 | the break test mask keeps the remainder of the hash by twice the average |
| Chunking.ChunksFlatten | src/backup/chunk_stream.rs:36-73 | the chunks concatenate to the data |
| Chunking.ChunkSizes | src/backup/chunk_stream.rs:36-73 | all but the last chunk are cuts within the bounds, the last one is a cut or short |
| Chunking.ConstantStreamCut | src/backup/chunker.rs:1-6 | a constant stream is cut at the size limit and nowhere before it, for every limit above the window size |
| Chunking.ConstantWindowHash | src/backup/chunker.rs:1-6 | a window of equal bytes hashes to 0 under every table |
| Chunking.Chunker.constructor | src/backup/chunker.rs:94-105 | a new chunker has scanned nothing |
| Chunking.Chunker.FillWindow | src/backup/chunker.rs:118-131 | filling the window hashes its bytes directly and finds no boundary |
| Chunking.Chunker.Roll | src/backup/chunker.rs:141-153 | after a roll the hash is the direct hash of the last 64 bytes and the window holds them |
| Chunking.Chunker.Scan | src/backup/chunker.rs:112-168 | returns the position of the first boundary of everything since the last one, or 0 and remembers the data |
| ChunkStreams.ChunkStream.ScanBuffer | src/backup/chunk_stream.rs:39-54 | a chunk taken from the buffer is the first reference chunk of all remaining data; the panic is unreachable |
| ChunkStreams.ChunkStream.PollNext | src/backup/chunk_stream.rs:36-73 | each item is the next reference chunk, pending and errors lose nothing, the end means nothing remains |
| ChunkStreams.Collect | src/backup/chunk_stream.rs:27-74 | for every way of cutting the input into buffers the chunk list is the reference list of the concatenation |
| ChunkStreams.FixedChunkStream.PollNext | src/backup/chunk_stream.rs:98-122 | the same for chunks of a fixed size |
| ChunkStreams.CollectFixed | src/backup/chunk_stream.rs:91-123 | all chunks but the last have the chunk size, and they concatenate to the input |
| IndexFile.Locate | src/backup/index.rs:20-31 | the only range that holds an offset, with the offset inside it; none exactly beyond the end |
| IndexFile.ContentOfChunk | src/backup/index.rs:4-16 | a chunk is the part of the flat content its range says |
| DynamicIndex.IncreasingTiles | src/backup/dynamic_index.rs:222-234 | increasing ends give ranges that tile the archive |
| DynamicIndex.BinarySearchFinds | src/backup/dynamic_index.rs:162-185 | finds a chunk holding the offset if and only if the offset is in the searched range |
| DynamicIndex.ChunkFromOffsetLocates | src/backup/dynamic_index.rs:236-252 | the binary search agrees with the reference search |
| DynamicIndex.CacheAccess | src/tools/lru_cache.rs:198-232 | a hit returns the cached value, a miss what fetch returned; the key moves to the front, the others keep their order, the last one goes when there is no room; a failed fetch changes nothing |
| DynamicIndex.MostRecentStay | src/tools/lru_cache.rs:198-232 | over every history of accesses the cache holds exactly the 32 keys used last |
| DynamicIndex.BufferedDynamicReader.BufferChunk | src/backup/dynamic_index.rs:321-340 | on success the buffer is the chunk; it fails only if the chunk cannot be fetched or has the wrong size |
| DynamicIndex.BufferedDynamicReader.EnsureBuffered | src/backup/dynamic_index.rs:349-374 | shortcut, buffered chunk and search all end with the chunk that holds the offset |
| DynamicIndex.BufferedDynamicReader.BufferedRead | src/backup/dynamic_index.rs:344-378 | serves the rest of the chunk that holds the offset, nothing at the end, an error beyond it or when that chunk is unreadable |
| DynamicIndex.BufferedDynamicReader.Read | src/backup/dynamic_index.rs:381-403 | returns the flat content at the offset, makes progress before the end, and an error leaves the offset alone |
| DynamicIndex.BufferedDynamicReader.Seek | src/backup/dynamic_index.rs:405-427 | moves to targets within the archive, refuses all others |
| DynamicIndex.ReadToEnd | src/backup/dynamic_index.rs:381-403 | repeated reads with any buffer size return the rest of the content |
| DynamicIndex.ReadLast | src/backup/dynamic_index.rs:405-427 | seeking to n bytes before the end and reading on returns the last n bytes |
| DynamicIndex.ReadFrom | src/backup/dynamic_index.rs:405-427 | seeking by n bytes either way and reading on returns the content from there |
| DynamicWriter.RecordsRoundTrip | src/backup/dynamic_index.rs:568-586 | appended records parse back to the entries, 40 bytes each |
| DynamicWriter.RecordLayout | src/backup/dynamic_index.rs:568-586 | a record is 40 bytes: the end offset, least significant byte first, and the digest |
| DynamicWriter.ComputeCsum | src/backup/dynamic_index.rs:209-220 | the checksum is the hash of the records, the size is index_bytes |
| DynamicWriter.DynamicIndexWriter.AddChunk | src/backup/dynamic_index.rs:568-586 | appends the record to file and checksum, refuses when closed |
| DynamicWriter.DynamicIndexWriter.Close | src/backup/dynamic_index.rs:539-565 | writes the hash of what was appended into the header, once |
| DynamicWriter.ChunkFiles.InsertChunk | src/backup/chunk_store.rs:372-416 | stores a new chunk, keeps an existing one, and changes nothing when the file system refuses |
| DynamicWriter.CutsAreChunks | src/backup/dynamic_index.rs:688-710 | buffers cut at their own first boundary are the reference chunk list |
| DynamicWriter.EntriesContent | src/backup/dynamic_index.rs:639-685 | entries are strictly increasing up to the total length, and their content is the concatenation of the cuts |
| DynamicWriter.GrownReads | src/backup/chunk_store.rs:382-391 | without collisions every digest of the index reads as the bytes that were cut, also in a store with older chunks |
| DynamicWriter.DynamicChunkWriter.constructor | src/backup/dynamic_index.rs:603-613 | a new writer has written nothing and remembers the store as it was |
| DynamicWriter.DynamicChunkWriter.WriteChunkBuffer | src/backup/dynamic_index.rs:639-685 | the buffer becomes one more stored and recorded chunk; the wrong-size error is unreachable; a failed insertion drops the buffer and leaves a hole in the offsets |
| DynamicWriter.DynamicChunkWriter.Write | src/backup/dynamic_index.rs:688-710 | accepts a non-empty first part of the data and keeps all invariants, or fails with the insertion and leaves a hole |
| DynamicWriter.DynamicChunkWriter.Close | src/backup/dynamic_index.rs:619-637 | the first call records the reference chunks of everything written and sets the header checksum, unless the last insertion fails; later calls change nothing |
| DynamicWriter.HoleShows | src/backup/dynamic_index.rs:321-340 | the record behind a hole claims more bytes than its chunk has, so no reader accepts it |
| DynamicWriter.StoredContent | src/backup/dynamic_index.rs:92-142 | the closed file parses to increasing entries whose content is the written data |
| DynamicWriter.WriteArchive | src/backup/dynamic_index.rs:602-710 | any pieces give the records of the reference chunks and a store that only grew |
| DynamicWriter.WriteThenRead | src/backup/dynamic_index.rs:302-427 | data written in any pieces reads back identically with any buffer size; size and checksum match |
| FixedIndex.MaskIsModuloIff | src/backup/fixed_index.rs:209-218 | masking with c - 1 is the remainder for every offset if and only if c is a power of two |
| FixedIndex.AcceptsExactlyRanges | src/backup/fixed_index.rs:367-395 | the alignment check accepts exactly the reader's ranges and returns their position |
| FixedIndex.RangesTile | src/backup/fixed_index.rs:177-194 | the ranges tile the image |
| FixedIndex.ChunkFromOffsetLocates | src/backup/fixed_index.rs:209-218 | division and mask agree with the reference search |
| FixedIndex.ContentIsImage | src/backup/fixed_index.rs:160-219 | an index whose digests stand for the slices of an image has that image as content |
| FixedIndex.ComputeCsum | src/backup/fixed_index.rs:196-207 | the hash of all digests in order, and the image size |
| FixedIndex.FixedIndexWriter.constructor | src/backup/fixed_index.rs:292-320 | a mapped index with one slot per chunk |
| FixedIndex.FixedIndexWriter.AddDigest | src/backup/fixed_index.rs:431-451 | sets one slot, or nothing when out of range or closed |
| FixedIndex.FixedIndexWriter.AddChunk | src/backup/fixed_index.rs:398-429 | refuses misaligned chunks, fails with the insertion, else stores the chunk and sets its slot |
| FixedIndex.FixedIndexWriter.CloneDataFrom | src/backup/fixed_index.rs:453-463 | copies all digests of an index of the same length, or fails and changes nothing |
| FixedIndex.FixedIndexWriter.Close | src/backup/fixed_index.rs:344-365 | the checksum over the slots, once |
| FixedIndex.WriteImage | src/backup/fixed_index.rs:397-429 | chunks added in any order, also repeatedly, reconstruct the image; the checksum is the reader's |
| FixedIndex.AddSlices | src/backup/fixed_index.rs:397-429 | slices added in any order fill their slots, grow the store, and leave all other slots alone |
| FixedIndex.CloneDescribes | src/backup/fixed_index.rs:453-463 | a clone of an index of the old image describes the new image once the changed positions were added |
| FixedIndex.WriteIncremental | src/api2/backup.rs:436-446 | a clone of the previous index plus the changed chunks in any order reconstructs the new image; the checksum is the reader's |
| AsyncReader.AsyncIndexReader.NextChunkLocates | src/backup/async_index_reader.rs:82-97 | the next-chunk shortcut never changes the result of the search |
| AsyncReader.AsyncIndexReader.Advance | src/backup/async_index_reader.rs:81-131 | which chunk becomes current, and whether the buffer is reused, a fetch starts, the store is missing or the search panics |
| AsyncReader.AsyncIndexReader.Serve | src/backup/async_index_reader.rs:144-164 | any reader serves bytes of its buffer or panics; a coherent one serves the flat content at its position and makes progress |
| AsyncReader.AsyncIndexReader.Await | src/backup/async_index_reader.rs:132-143 | waits, takes the chunk, or fails and leaves a completed fetch behind |
| AsyncReader.AsyncIndexReader.PollRead | src/backup/async_index_reader.rs:73-167 | a coherent reader serves the flat content at its position, waits exactly when the chunk it wants is not there yet, fails only with a fetch, and panics exactly on a dynamic index without entries; a reader without store serves its old buffer, fails or panics, and stays so |
| AsyncReader.AsyncIndexReader.PollComplete | src/backup/async_index_reader.rs:194-214 | the position is clamped to the end, negative targets change nothing; the store is lost if and only if it was lost or a fetch was pending |
| AsyncReader.AsyncIndexReader.Seek | src/backup/async_index_reader.rs:170-214 | both halves of a seek: refused exactly below 0, beyond the end it leads to the end, else to the offset from the start, the end or the position; it keeps a coherent reader coherent if and only if no fetch is pending |
| AsyncReader.ReadOn | src/backup/async_index_reader.rs:112-124 | after a seek during a fetch every later read, with any seeks between, fails, panics or returns bytes of the buffer from before the fetch |
| AsyncReader.SeekDuringFetch | src/backup/async_index_reader.rs:106-114 | a new reader on any index: a read that waits, a seek to 0, and the next read returns nothing at position 0 although the content is not empty |
| Varint.CatalogEncodeU64 | src/backup/catalog.rs:680-695 | the loop produces the 7 bit groups of the value |
| Varint.CatalogEncodeI64 | src/backup/catalog.rs:615-640 | the same with a zero terminator for negative values |
| Varint.CatalogDecodeU64 | src/backup/catalog.rs:701-721 | the loop accumulates at most 10 groups |
| Varint.CatalogDecodeI64 | src/backup/catalog.rs:648-675 | the loop accumulates at most 11 bytes |
| Varint.U64RoundTrip | src/backup/catalog.rs:677-721 | every u64 decodes from at most 10 bytes and leaves what follows |
| Varint.I64RoundTrip | src/backup/catalog.rs:610-675 | every i64, the smallest included, decodes from at most 11 bytes and leaves what follows |
| Varint.I64Compatibility | src/backup/catalog.rs:776-795 | the signed decoder inverts the unsigned encoder up to reinterpretation |
| Varint.U64Layout | src/backup/catalog.rs:680-695 | byte i holds bits 7 i to 7 i + 6, and the high bit is set on all bytes but the last |
| Varint.NegativeLayout | src/backup/catalog.rs:615-640 | the same groups of the magnitude, all with the high bit, then a zero byte |
| Varint.OverlongRefused | src/backup/catalog.rs:648-721 | ten bytes that announce more are refused as unsigned, eleven as signed |
| Catalog.ParseEntriesLoop | src/backup/catalog.rs:242-278 | the parse loop reads the announced entries up to the callback's stop, and insists on the end of the block |
| Catalog.ParseBlock | src/backup/catalog.rs:231-279 | the same for a whole block |
| Catalog.ParseAttrReads | src/backup/catalog.rs:255-268 | the attributes of every entry kind are read back |
| Catalog.ParseEntryReads | src/backup/catalog.rs:164-215 | an encoded entry parses back, or fails exactly if its name is too long |
| Catalog.ReadRawBlockReads | src/backup/catalog.rs:525-532 | the size field delimits the written table |
| Catalog.ReadDirReads | src/backup/catalog.rs:448-469 | a written directory reads back with absolute starts, and fails exactly if a name is too long |
| Catalog.EntryLetters | src/backup/catalog.rs:18-41 | the letter of each kind of entry |
| Catalog.TrailingBytesRefused | src/backup/catalog.rs:270-277 | a table with bytes behind its last entry is refused |
| CatalogFile.EncodeDirectory | src/backup/catalog.rs:217-229 | the loop encodes count and entries |
| CatalogFile.CatalogWriter.constructor | src/backup/catalog.rs:297-301 | a new file holds the magic and an open root |
| CatalogFile.CatalogWriter.Start | src/backup/catalog.rs:333-337 | opens a level |
| CatalogFile.CatalogWriter.Add | src/backup/catalog.rs:359-406 | adds an entry to the innermost level, fails without one |
| CatalogFile.CatalogWriter.End | src/backup/catalog.rs:339-357 | writes the block of the innermost level and refers to it from its parent; at the root it fails and the root is gone |
| CatalogFile.CatalogWriter.Finish | src/backup/catalog.rs:312-328 | succeeds with only the root open, appending its block and its start |
| CatalogFile.EndMatches | src/backup/catalog.rs:339-357 | closing a directory adds an entry that describes the completed subtree |
| CatalogFile.MatchesStep | src/backup/catalog.rs:331-407 | every successful call keeps the written blocks and the open directories in step with the recorded levels |
| CatalogFile.ReadsChildren | src/backup/catalog.rs:448-469 | recursive reading recovers a described directory or fails on a long name below it |
| CatalogFile.RootReads | src/backup/catalog.rs:434-445 | magic and trailer lead to the root block |
| CatalogFile.CatalogRoundTrip | src/backup/catalog.rs:282-469 | for every successful list of calls the finished file reads back as the recorded tree, and fails exactly if some name is too long |
| CatalogFile.SmallCatalog | src/backup/catalog.rs:164-357 | the bytes of a whole file with one directory and one file: magic, blocks with sizes, counts, letters, names, numbers and backward offsets, trailer |
| CatalogSearch.LookupSeesPart | src/backup/catalog.rs:448-523 | for all bytes: lookup returns the first match in front of the first damage, else nothing if there is no damage and an error if there is; read_dir succeeds only without damage |
| CatalogSearch.LookupIsFirstMatch | src/backup/catalog.rs:498-523 | wherever read_dir succeeds lookup is its first entry with that name |
| CatalogSearch.LookupReads | src/backup/catalog.rs:498-523 | in a written directory lookup is the first match, and fails exactly if a name that is too long stands at or before it |
| CatalogSearch.LookupPastReadDir | src/backup/catalog.rs:245-252 | a catalog with a 4096 byte name behind another entry: reading fails, looking up the entry succeeds |
| CatalogSearch.LookupRecursive | src/backup/catalog.rs:472-495 | for all files and paths the loop is descent by lookup over the components; the lone slash is the root |
| CatalogSearch.LookupPathDescends | src/backup/catalog.rs:472-495 | descent by lookup reaches whatever descent by listing directories reaches |
| CatalogSearch.PathLookupReads | src/backup/catalog.rs:472-523 | in the finished file of every successful list of calls a path leads to the entry of what it leads to in the recorded tree, and fails exactly if it leads nowhere or past a name that is too long |
| CatalogSearch.AbsolutePath | src/backup/catalog.rs:481-485 | the components of a slash-joined path are its names, with and without a leading slash |
| CatalogWalk.Find | src/backup/catalog.rs:579-607 | for all files the loop with its shared path buffer is the recursive search up to the first failure, and restores the path |
| CatalogWalk.FindEntry | src/backup/catalog.rs:588-602 | the same for one entry and what is below it |
| CatalogWalk.FindReads | src/backup/catalog.rs:579-607 | in a written directory the search calls back on exactly the included entries below no excluded directory, in preorder with full paths; it fails exactly if it has to list a directory with a name that is too long or a callback fails |
| CatalogWalk.FindInCatalog | src/backup/catalog.rs:579-607 | the same for the finished file of every successful list of calls and its recorded tree |
| CatalogWalk.NothingSelected | src/backup/catalog.rs:596 | nothing is selected below an excluded directory |
| CatalogWalk.ModeNumbers | src/backup/catalog.rs:122-136 | the file type bits handed to the patterns, kind by kind; no two kinds share them |
| CatalogExtract.ExtractorState.constructor | src/backup/catalog_shell.rs:1027-1056 | the remaining actions are the recursive walk of the root |
| CatalogExtract.ExtractorState.HandleEndOfDirectory | src/backup/catalog_shell.rs:1082-1106 | pops all stacks in step, or fails with leaving the directory; the internal iterator errors are unreachable |
| CatalogExtract.ExtractorState.HandleNewDirectory | src/backup/catalog_shell.rs:1108-1130 | the children and a leave action come before what remained; it fails exactly if the directory cannot be listed or entered |
| CatalogExtract.ExtractorState.NextEntry | src/backup/catalog_shell.rs:1068-1075 | sets the full path of the next entry |
| CatalogExtract.ExtractorState.HandleEntry | src/backup/catalog_shell.rs:1132-1166 | performs the first action of the entry or fails with it, and loses none of the rest |
| CatalogExtract.ExtractorState.Extract | src/backup/catalog_shell.rs:1058-1080 | terminates and performs exactly the remaining actions, in order, up to the first that fails |
| CatalogExtract.WalkVisitsAll | src/backup/catalog_shell.rs:1058-1080 | the walk visits every entry of the tree once, in preorder, under its full path |
| CatalogExtract.WalkExtracts | src/backup/catalog_shell.rs:1132-1166 | an entry is extracted if and only if it is in the tree, is no directory, and its own pattern verdict includes it, or there are no patterns and none decides |
| CatalogExtract.WalkEnters | src/backup/catalog_shell.rs:1108-1130 | a directory is entered under its path if and only if it is in the tree, and created exactly if there are no patterns and it is not excluded |
| CatalogExtract.WalkNests | src/backup/catalog_shell.rs:1058-1166 | every path set and every entry extracted lies in the directory that is open at that moment, and in the end only the root is open |
| CatalogExtract.ExtractAll | src/backup/catalog_shell.rs:1026-1080 | for all files the loop from the root is the recursive walk up to the first failure |
| CatalogExtract.WalkReads | src/backup/catalog_shell.rs:1108-1166 | on a written directory the walk over the file is the walk over the recorded trees up to the first directory that cannot be listed or action that fails |
| CatalogExtract.ExtractCatalog | src/backup/catalog_shell.rs:1026-1080 | extraction from the finished file of every successful list of calls performs the walk over the recorded tree, and stops early exactly if some name is too long or some action fails |
| CatalogPaths.ListedUnderNames | src/backup/catalog.rs:588-594 | an entry is listed under a path if and only if names lead to it and the path is the prefix followed by each name behind one slash |
| CatalogPaths.VisitedUnderNames | src/backup/catalog_shell.rs:1066-1075 | search and extraction visit exactly the entries that names lead to, under a slash and those names joined by slashes |
| CatalogPaths.NamesLookUp | src/backup/catalog.rs:472-495 | in a finished catalog names that lead to an entry, joined by slashes, are taken apart into those names again and lookup finds the entry |
| CatalogPaths.SearchedPathsLookUp | src/backup/catalog.rs:579-607 | every path the search calls back on leads lookup to the entry that the patterns included |
| CatalogPaths.ExtractedPathsLookUp | src/backup/catalog_shell.rs:1132-1166 | every extracted entry is the one that lookup finds under its path |
| Verify.InvStep | src/backup/verify.rs:126-195 | every step of producer, store or worker keeps all chunks before the position accounted for and all verified ones vouched for |
| Verify.StaysAccounted | src/backup/verify.rs:149-156 | no step loses track of a chunk |
| Verify.VerifiedStayVouched | src/backup/verify.rs:149-156 | what enters the verified set was loaded and is encrypted or hashes to its digest |
| Verify.InvAlways | src/backup/verify.rs:107-225 | the invariant holds in every state of every interleaving |
| Verify.OkMeansVerified | src/backup/verify.rs:197-225 | a run that succeeds has every digest of the index in the verified set |
| Verify.FitsExactly | src/backup/verify.rs:126-160 | a worker finds no fault exactly with a chunk of the crypt mode of the index that, if unencrypted, decodes to the size and digest of its entry |
| Verify.OkMeansFits | src/backup/verify.rs:126-224 | a successful run loaded every chunk it asked for and all of them fit, so a run that loads a blob of another crypt mode, size or content never succeeds |
| Verify.CorruptFails | src/backup/verify.rs:173-178 | an index with a chunk marked corrupt before and not verified is never verified |
| Verify.VerdictIsExact | src/backup/verify.rs:107-225 | a finished run without abort, on an index without chunks marked corrupt, succeeds if and only if every chunk it loaded fits |
| Verify.SoundRunSucceeds | src/backup/verify.rs:162-225 | with sound chunks, none marked corrupt and no abort, no interleaving counts an error |
| Verify.RunsEnd | src/tools/parallel_handler.rs:113-130 | every interleaving ends within 6 n + 4 steps and never gets stuck before |
| Prune.MarkSelections | src/backup/prune.rs:9-44 | both loops of a pass compute the declarative selection |
| Prune.SelectPeriods | src/backup/prune.rs:27-41 | stopping at the first period too many changes nothing |
| Prune.PassMeans | src/backup/prune.rs:9-44 | existing marks stay; the first snapshot of each of the first keep periods is kept, others met on the way are removed, the rest stays undecided |
| Prune.PassDecides | src/backup/prune.rs:9-44 | snapshot by snapshot: marked ones and periods with a kept snapshot are left alone; of the others the first of each of the first keep periods is kept, further ones of those periods are removed, the rest stays undecided |
| Prune.RemoveIncompleteSnapshots | src/backup/prune.rs:46-68 | computes the marks of unfinished snapshots |
| Prune.IncompleteMeans | src/backup/prune.rs:51-67 | an unfinished snapshot is kept exactly if it is the newest of all |
| Prune.SortList | src/backup/backup_info.rs:347-355 | newest first, and a permutation |
| Prune.ComputePruneInfo | src/backup/prune.rs:172-236 | sorts, runs the six passes in order and reports what survives |
| Prune.SixPasses | src/backup/prune.rs:183-221 | the six options by name, each with its own period and in order; a later one decides only what the earlier ones left undecided |
| Prune.SingleOption | src/backup/prune.rs:183-221 | with one option only, on finished snapshots, exactly the first snapshot of each of its first n periods is kept, for each of the six options |
| Prune.DistinctPeriods | src/backup/prune.rs:183-187 | with periods that tell all snapshots apart, as for keep-last, these are the n newest |
| Prune.PassesMean | src/backup/prune.rs:183-221 | passes never change a mark, add no partial one and keep at most their counts |
| Prune.KeepsAtMostTheCounts | src/backup/prune.rs:172-236 | at most the sum of the counts is kept, plus the newest snapshot if unfinished; all other unfinished ones go |
| Prune.NewestFinishedKept | src/backup/prune.rs:172-236 | the newest finished snapshot is kept as soon as any count is positive |
| Prune.PruneGroup | src/api2/admin/datastore.rs:823-880 | the verdicts oldest first: everything is kept without a count, else what the passes keep |
| Prune.NewestNeverPruned | src/api2/admin/datastore.rs:823-880 | for all options the newest snapshot and the newest finished one of a group are kept |
| Prune.SomeCount | src/backup/prune.rs:123-132 | the options keep something if and only if some pass has a positive count |
| PruneSimulator.PruneMark | docs/prune-simulator/prune-simulator.js:472-513 | a simulator pass marks the backups as a server pass does |
| PruneSimulator.SelectNew | docs/prune-simulator/prune-simulator.js:491-512 | skipping by flag selects what breaking out of the loop selects |
| PruneSimulator.RunPasses | docs/prune-simulator/prune-simulator.js:533-551 | the six passes end with the server's marks |
| PruneSimulator.PruneSelect | docs/prune-simulator/prune-simulator.js:516-556 | on finished backups it keeps exactly what a prune call keeps; with one parameter only the first backup of each of its first n periods; and what the passes alone keep if and only if some count is positive or there is no backup |

## Left out

- `find_most_used_chunks`: a statistic over an index, outside the storage invariants.
- Bodies of SHA-256, zstd, AES-GCM, CRC, key derivation and signatures: hashes are parameters, decoded chunk content is a parameter of a blob.
- The 256 Buzhash table constants: every result holds for any table.
- The floating point discriminator and all progress and speed figures: they do not influence any decision.
- Pause, logging, abort flags and shutdown checks, except the abort of a verification and the end of a collection at any moment.
- `.bad` files in the collector steps: a quarantined chunk simply leaves the store; the sweep model counts bad files.
- File system internals: a rename, an unlink, a touch and a directory entry are atomic.
- Seek: offsets of 2^63 and more, which the original turns into negative numbers.
- Writes to a `DynamicChunkWriter` after it was closed.
- InsertChunk: access times are part of the collector model only; a failing insertion leaves no half-written file.
- SweepUnusedChunks: files and access times do not change under the loop; the collector model covers other tasks between two files.
- 64 bit overflow in the catalog writer: a call that would pass 2^64 bytes fails and changes nothing, where the original panics.
- An eleventh non-zero byte of a signed varint: the decoder model fails, where the original's shift overflows.
- Errors from period functions, the keep name and number shown by the simulator, and option parsing.
- DynamicIndex.ChunkFromOffsetLocates: a dynamic index has at least one entry, because the original's index arithmetic underflows on an empty one.
- Find, ExtractAll: a directory whose block does not lie before its parent's counts as unreadable, where the original would not end.
- ExtractAll: what the archive accessor and the extractor do for an action is not modelled, only whether it fails.
- The network protocol, authentication, tape tools, command line programs, statistics and the web interface.
