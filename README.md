# External merge sort of binary records — Dafny model

The system sorts a file of binary records that may be larger than memory. Each
record has three parts: a 64-bit key, a 32-bit payload length `len`, and `len`
payload bytes. It is stored as the 8 key bytes, then the 4 length bytes, then the
payload, with no padding. Sorting happens in three phases:

1. **Spilling** (`createSortedChunks`). The input is read chunk by chunk
   (`readChunk`). A chunk stops taking records once their total size reaches or
   passes `CHUNK_SIZE` (2^30) bytes. The budget is checked only before a record
   starts, so the last record may overshoot it by up to 12 + 1024 − 1 bytes. Each
   chunk is sorted by key and written to `chunk_<n>.bin` (`sortAndWriteChunk`).
2. **Merging** (`mergeChunks`). All spills are opened. One record per spill sits in
   a min-priority queue ordered by key (`MergeRecord::operator>`). The smallest is
   written out repeatedly, and its spill is refilled. The spills are deleted at the
   end.
3. **Validation** (`validateOutput`). The output is walked header by header, skipping
   payloads with `seekg`. A file that cannot be opened is rejected. Otherwise the
   output is accepted unless a key is smaller than the key before it.

The model is split into one module per concern:

- `Bytes`: bytes, `u32`/`u64`, little-endian decoding and encoding.
- `Records`: `Record`, its constants and its key-only `<` and `>`.
- `Streams`: `Cursor` as the value of an `ifstream`'s position and state; the classes
  `InputStream`, `InputStreams` (the merge's `vector<ifstream>`) and `FileSystem`.
- `Codec`: the on-disk format, and the two record decoders. The checking one belongs
  to `readChunk`; the unchecked one to the merge's reads.
- `ChunkReader`: `readChunk`.
- `Spill`: `sortAndWriteChunk` and `createSortedChunks`.
- `Merge`: `MergeRecord` and `mergeChunks`.
- `Validate`: `validateOutput`.
- `Pipeline`: how the three phases compose.

Methods change state the way the program does. Each is proved against a
specification function, and the properties are proved about those functions:

- `ChunkRecords`/`ChunkEnd` specify `readChunk`.
- `Chunks` and `Written` specify `createSortedChunks`.
- `Pending`/`Frontier`/`Ordered` are the merge's loop invariants.
- `ScanKeys` specifies `validateOutput`.

Behaviour modelled as the code has it:

- **Invalid length in `readChunk`.** A length field outside [8, `PAYLOAD_MAX`] ends
  the chunk after the 12 header bytes were consumed, and the stream stays good. So
  `createSortedChunks` goes on with the next chunk from inside the rejected record.
  Its payload bytes are then read as headers (`Spill.BadLengthResumesMidRecord`).
  The same length at the very start of a chunk ends all spilling
  (`Spill.BadLengthAtChunkStartEndsAll`).
- **Truncated record in `readChunk`.** A short read leaves the stream not good and
  drops the partial record.
- **Reads in `mergeChunks`.** The merge's reads do not check the length field.
- **`seekg` in `validateOutput`.** On a good stream, `seekg` past the end of the file
  succeeds and only the next read fails. The position is clamped to the end, so the
  model's file stays finite. As a result `validateOutput` checks the key of a
  truncated last record (`Validate.TruncatedRecordScanned`), while a reader of
  records never sees that record (`Validate.TruncatedRecordUnread`).

## Model

| member | source | states |
|---|---|---|
| Records.MakeRecord | src/sequential/record.hpp:15 | The constructor keeps key and length and copies exactly the first `len` payload bytes; every `Record` satisfies `|payload| == len` |
| Records.Less | src/sequential/record.hpp:16 | Definition of `operator<`: the key of the left record is smaller; length and payload play no part (properties in `Records.LessIsKeyOrder`) |
| Records.Greater | src/sequential/record.hpp:17 | Definition of `operator>`: the key of the left record is larger (properties in `Records.GreaterIsConverse`) |
| Records.LessIsKeyOrder | src/sequential/record.hpp:16 | `operator<` holds exactly when the key is smaller, whatever the lengths and payloads |
| Records.GreaterIsConverse | src/sequential/record.hpp:17 | `operator>` is `operator<` with the operands swapped |
| Records.LessIsStrictWeakOrder | src/sequential/record.hpp:16 | `<` is irreflexive and transitive, and its incomparability is key equality and transitive, as `std::sort` needs |
| Codec.EncodeRecord | src/openmp/record.cpp:55-58 | A record is written as key, length, payload; its size is `12 + len` |
| Codec.EncodeAll | src/openmp/record.cpp:55-59 | Records written one after another; the length is the sum of their sizes |
| Codec.EncodeAllAppend | src/openmp/record.cpp:55-59 | Writing two runs of records one after the other writes the concatenation |
| Codec.FetchChecked | src/openmp/record.cpp:35-45 | One pass of `readChunk`'s loop body leaves the cursor within the file |
| Codec.FetchCheckedFetched | src/openmp/record.cpp:35-45 | When a record is read, its 12-byte header and payload were present and its length is in [8, 1024]; the cursor moves by exactly its size |
| Codec.FetchCheckedStopped | src/openmp/record.cpp:36-44 | A pass stops on a short header, an invalid length (the stream stays good, 12 bytes consumed) or a short payload (the stream fails) |
| Codec.FetchUnchecked | src/openmp/record.cpp:107-111 | The merge's read of one record leaves the cursor within the file |
| Codec.FetchUncheckedFetched | src/openmp/record.cpp:124-128 | A record the merge reads was fully present and the cursor moves by its size |
| Codec.FetchUncheckedStopped | src/openmp/record.cpp:124-127 | A failed merge read leaves the stream not good |
| Codec.FetchCheckedRefinesUnchecked | src/openmp/record.cpp:39-42 | The two readers agree except on a length outside [8, 1024], which only `readChunk` rejects |
| Codec.FetchedBytes | src/openmp/record.cpp:124-128 | The bytes the merge moves past for one record are exactly that record's encoding, and where `readChunk`'s reader yields a record the merge's reader yields the same one |
| Codec.ReadAll | src/openmp/record.cpp:115-131 | Definition of the records the merge takes from one spill: one unchecked read after another until the first failed read (properties in `Codec.ReadAllEncoded`, `Codec.ReadAllPrefix`, `Codec.ReadAllOfEncoding`) |
| Codec.RecordAtEncodes | src/openmp/record.cpp:43-45 | The record built from a header and payload re-encodes to the very bytes it was read from |
| Codec.ReadAllEncoded | src/openmp/record.cpp:124-130 | Reading records until a read fails, on bytes that are the encoding of `rs`, yields exactly `rs` |
| Codec.ReadAllPrefix | src/openmp/record.cpp:124-130 | Reading through an encoded prefix yields its records followed by what the rest yields |
| Codec.ReadAllOfEncoding | src/openmp/record.cpp:55-59 | Round trip: reading back what `sortAndWriteChunk` writes gives the same records |
| Streams.Advance | src/openmp/record.cpp:36 | An `ifstream::read` of `n` bytes succeeds exactly when `n` bytes remain; then it moves by `n`, and otherwise the stream fails |
| Streams.AdvanceTwice | src/openmp/record.cpp:36-38 | Two reads in a row behave as one read of the combined size |
| Streams.Seek | src/openmp/record.cpp:153 | `seekg` keeps the stream's state and moves forward, at most to the end |
| Streams.InputStream.Read | src/openmp/record.cpp:36 | The stream's read returns the next `n` bytes when they exist, and updates the stream as `Advance` says |
| Streams.InputStream.Skip | src/openmp/record.cpp:153 | Skipping moves the stream as `Seek` says |
| Streams.InputStreams.Read | src/openmp/record.cpp:124-127 | A read on the `i`-th spill stream advances that stream only |
| Streams.FileSystem.Create | src/openmp/record.cpp:54 | Opening an `ofstream` truncates the file to empty |
| Streams.FileSystem.Append | src/openmp/record.cpp:56-58 | A write appends its bytes to the file and changes no other file |
| Streams.FileSystem.Remove | src/openmp/record.cpp:135 | Removing a file deletes it and nothing else |
| ChunkReader.ReadRecordChecked | src/openmp/record.cpp:35-45 | One loop pass on the real stream reads what `FetchChecked` says and leaves the stream where it says |
| ChunkReader.CheckedRecords | src/openmp/record.cpp:34-44 | Definition: the records the loop body yields pass after pass from a cursor, until the first pass that stops (properties in `ChunkReader.CheckedPrefixOfReadAll`, `ChunkReader.CheckedOfEncoding`) |
| ChunkReader.CheckedStop | src/openmp/record.cpp:34-44 | Where the stream is left by the first pass that stops; it stays within the file |
| ChunkReader.ChunkRecords | src/openmp/record.cpp:34-47 | Definition of what `readChunk` returns: the checked records, taken while the bytes counted before each one stay below `max_bytes` (properties in the `ChunkReader.ReadChunk*` lemmas) |
| ChunkReader.ChunkEnd | src/openmp/record.cpp:34-47 | Definition of where `readChunk` leaves the stream: just past the last record taken when the budget was reached, otherwise where the first stopping pass left it (properties in `ChunkReader.ReadChunkAdvances`, `ChunkReader.BadLengthEndsChunk`, `ChunkReader.TruncatedRecordIsDropped`) |
| ChunkReader.ReadChunk | src/openmp/record.cpp:31-49 | `readChunk` returns the records `ChunkRecords` specifies, leaves the stream at `ChunkEnd`, and returns their total size; prior contents of the vector play no part |
| ChunkReader.CheckedPrefixOfReadAll | src/openmp/record.cpp:34-47 | The records the checking reader yields are a prefix of what the unchecked reader yields |
| ChunkReader.CheckedOfEncoding | src/openmp/record.cpp:34-47 | On an encoding of valid records the checking reader yields them all and stops at the end of the file, not good |
| ChunkReader.ReadChunkZeroBudget | src/openmp/record.cpp:34 | With `max_bytes == 0` no record is read and the stream does not move |
| ChunkReader.ReadChunkValid | src/openmp/record.cpp:39-42 | Every record returned has a length in [8, 1024] |
| ChunkReader.ReadChunkBound | src/openmp/record.cpp:34-46 | A chunk is below `max_bytes + 12 + PAYLOAD_MAX` bytes, since the budget is only checked before each record |
| ChunkReader.ReadChunkAdvances | src/openmp/record.cpp:34-47 | The stream moves past at least the returned records and stays within the file |
| ChunkReader.ReadChunkPrefix | src/openmp/record.cpp:34-47 | The chunk is a prefix of the records the file holds from the start position |
| ChunkReader.ReadChunkRoundTrip | src/openmp/record.cpp:31-49 | Reading an encoding of valid records that fits the budget returns exactly those records |
| ChunkReader.BadLengthEndsChunk | src/openmp/record.cpp:39-42 | An invalid length at the cursor yields an empty chunk; the stream stays good, 12 bytes further on |
| ChunkReader.TruncatedRecordIsDropped | src/openmp/record.cpp:36-44 | A short header or payload yields no record and leaves the stream at the end, not good |
| Spill.SortByKey | src/openmp/record.cpp:53 | The in-place sort leaves the array in key order and a permutation of what it held |
| Spill.SortedCopy | src/openmp/record.cpp:52-53 | The sorted copy is in key order and holds the same records |
| Spill.WriteRecord | src/openmp/record.cpp:56-58 | Writing one record appends its encoding to the spill |
| Spill.WriteRecords | src/openmp/record.cpp:55-59 | The write loop appends the encoding of all records, in order |
| Spill.SortAndWriteChunk | src/openmp/record.cpp:51-60 | The spill file becomes exactly the encoding of a key-sorted permutation of the chunk |
| Spill.PermutationValid | src/openmp/record.cpp:52-53 | Sorting a copy keeps every record valid: a permutation of records with lengths in [8, 1024] has only such records |
| Spill.PermutationSize | src/openmp/record.cpp:52-53 | Sorting a copy keeps the total size of the records |
| Spill.SpillReadsBack | src/openmp/record.cpp:31-60 | Round trip: for a chunk of valid records within the budget, the spill `sortAndWriteChunk` writes is read back as the sorted copy by `readChunk`, and by the merge's reads |
| Spill.ChunkName | src/openmp/record.cpp:76 | Definition of the spill path `dir + "/chunk_" + to_string(n) + ".bin"` (properties in `Spill.ChunkNameInjective`) |
| Spill.Chunks | src/openmp/record.cpp:73-75 | Definition of the chunks `createSortedChunks` spills: while the stream is good read a chunk, and stop at the first empty one (properties in `Spill.ChunksWellFormed`, `Spill.ChunksOfEncoding`, `Spill.BadLengthResumesMidRecord`) |
| Spill.NatToString | src/openmp/record.cpp:76 | `std::to_string` of a count is a non-empty string of decimal digits without a leading zero |
| Spill.DecimalRoundTrip | src/openmp/record.cpp:76 | The decimal digits of `n` denote `n` |
| Spill.ChunkNameInjective | src/openmp/record.cpp:76 | Two spills get the same path exactly when they have the same number |
| Spill.ChunksWellFormed | src/openmp/record.cpp:73-79 | Every chunk spilled is non-empty, holds valid records and is under the budget plus one record |
| Spill.ChunksOfEncoding | src/openmp/record.cpp:73-79 | On an encoding of valid records the chunks partition the records in order, and every chunk but the last reached the budget |
| Spill.BadLengthResumesMidRecord | src/openmp/record.cpp:39-42 | After valid records, an invalid length ends that chunk, and the next chunk starts 12 bytes past the rejected header, inside its payload |
| Spill.BadLengthAtChunkStartEndsAll | src/openmp/record.cpp:75 | An invalid length at the start of a chunk yields an empty chunk, which ends spilling |
| Spill.WrittenSpill | src/openmp/record.cpp:76-78 | After spilling, each spill's path holds the encoding of its sorted chunk |
| Spill.WrittenOthers | src/openmp/record.cpp:73-79 | Spilling changes no file other than the spill paths |
| Spill.CreateSortedChunks | src/openmp/record.cpp:62-81 | A missing input changes nothing and returns no names; otherwise the `n`-th name is `dir/chunk_n.bin`, its file holds the `n`-th chunk sorted by key and permuted, and nothing else changed |
| Merge.MergeGreaterIsKeyOrder | src/openmp/record.cpp:83-87 | The heap order compares keys only; the spill index plays no part |
| Merge.MergeGreater | src/openmp/record.cpp:86 | Definition of `MergeRecord::operator>`: `operator>` on the records, ignoring the spill index (properties in `Merge.MergeGreaterIsKeyOrder`) |
| Merge.LeastFrom | src/openmp/record.cpp:103 | Finds an entry with the least key among spills `i..n-1`, or none exactly when they have no entry |
| Merge.Top | src/openmp/record.cpp:116 | `heap.top()` returns an entry no other entry is smaller than by `operator>` |
| Merge.ReadRecordUnchecked | src/openmp/record.cpp:124-128 | The merge's read of one record from spill `idx` reads what `FetchUnchecked` says and moves only that stream |
| Merge.OpenInputs | src/openmp/record.cpp:90-97 | Opening succeeds exactly when every spill exists; the streams then hold the spills' contents, at their start |
| Merge.PrimeHeap | src/openmp/record.cpp:104-114 | After priming, the heap holds the first record of every spill that has one, and the streams are past it |
| Merge.PopStep | src/openmp/record.cpp:116-117 | The popped entry is the first record its spill still has to contribute |
| Merge.RefillStep | src/openmp/record.cpp:121-130 | Refilling from the popped spill restores the one-entry-per-non-exhausted-spill invariant |
| Merge.PendingFrontier | src/openmp/record.cpp:115-131 | Between steps the heap holds exactly the first pending record of every spill with records left |
| Merge.TopIsLeast | src/openmp/record.cpp:116 | When the spills are sorted, the top entry is no larger than any record still to be merged |
| Merge.OrderedStep | src/openmp/record.cpp:116-120 | Writing the top entry keeps the output sorted and no larger than anything still pending |
| Merge.ConserveStep | src/openmp/record.cpp:116-120 | Writing the top entry moves one record from pending to output, so no record is lost or duplicated |
| Merge.Emit | src/openmp/record.cpp:118-120 | Writing a record appends its encoding to the output |
| Merge.PopKeeps | src/openmp/record.cpp:116-120 | One pop keeps the invariants, conserves the records and shrinks what is pending |
| Merge.PopAndEmit | src/openmp/record.cpp:116-120 | Pops the top entry and writes it, keeping record conservation and order |
| Merge.Refill | src/openmp/record.cpp:121-130 | Reads the next record of the popped spill, if any, into the heap; files are unchanged |
| Merge.MergeStep | src/openmp/record.cpp:116-130 | One loop pass keeps the output the encoding of the records merged so far, conserves the records and keeps the order |
| Merge.MergeHeap | src/openmp/record.cpp:115-131 | The loop appends the merged records to the output; they are a permutation of all the spills' records, sorted if the spills are |
| Merge.RemoveSpills | src/openmp/record.cpp:134-136 | Every spill file is deleted and nothing else |
| Merge.MergeOpened | src/openmp/record.cpp:98-136 | The output becomes the encoding of the merged records and the spills are gone |
| Merge.MergeChunks | src/openmp/record.cpp:89-137 | A missing spill changes nothing. Otherwise the output holds a permutation of all the spills' records, sorted when every spill is, and the spills are deleted |
| Merge.NoPending | src/openmp/record.cpp:115 | An empty heap means no record is left to merge |
| Merge.SumMsFlatten | src/openmp/record.cpp:115-131 | The records of all spills together are those of their concatenation |
| Validate.ScanKeys | src/openmp/record.cpp:148-162 | The keys `validateOutput` compares: empty exactly when no 12-byte header can be read |
| Validate.ReadHeader | src/openmp/record.cpp:151-152 | The two header reads succeed exactly when 12 bytes remain and return the key and length there |
| Validate.ValidateOutput | src/openmp/record.cpp:139-165 | A missing file is rejected; otherwise the file is accepted exactly when no scanned key is below its predecessor, and then the count is the number of keys scanned |
| Validate.KeysAt | src/openmp/record.cpp:155 | The `i`-th key listed is the key of the `i`-th record |
| Validate.ScanStep | src/openmp/record.cpp:153-161 | One pass appends the key it read, and a descent means the file is not in order |
| Validate.NoDescentOrdered | src/openmp/record.cpp:155-159 | Checking adjacent keys only is enough: no descent makes the whole key sequence sorted |
| Validate.NoDescentIsSorted | src/openmp/record.cpp:155-159 | Adjacent keys never descend exactly when the records are sorted by key |
| Validate.ScanEncoded | src/openmp/record.cpp:148-162 | Over an encoded prefix, the scan lists those records' keys, then what follows |
| Validate.ValidateEncoding | src/openmp/record.cpp:139-165 | On an encoding of records, the scan lists exactly their keys, and validation accepts exactly when they are sorted by key |
| Validate.TruncatedRecordScanned | src/openmp/record.cpp:153-154 | A last record cut short inside its payload still has its key checked, because `seekg` past the end succeeds |
| Validate.TruncatedRecordUnread | src/openmp/record.cpp:124-130 | A reader of records never returns that truncated last record |
| Pipeline.SpillsFeedMerge | src/openmp/record.cpp:62-97 | The spills are all present when merging starts, each reads back sorted, and together they hold the chunks' records |
| Pipeline.SortedEndToEnd | src/openmp/record.cpp:62-165 | On an input of valid records, what the merge writes is a permutation of the input in key order, and validation accepts it |

## Left out

- `generateInputFile` (test-data generation with a random engine) is not part of this model.
- The FastFlow and OpenMP variants of the pipeline, and the command-line programs, are
  not modelled. Neither are timing and logging to `std::cerr`/`std::cout`.
- The spill directory comes from the `HOME` environment variable in the source. The
  model takes it as the parameter `tempDir`.
- Merge.MergeChunks: an output file that cannot be opened (lines 98-102) is not
  modelled. `FileSystem.Create` always succeeds, and a spill path that cannot be
  written is likewise not modelled.
- Spill.SortByKey: `std::sort` is modelled by an insertion sort with the same
  contract (sorted and a permutation). The relative order of equal keys, which
  `std::sort` leaves unspecified, is left unspecified.
- Merge.Top: among heap entries with equal keys, the entry `std::priority_queue`
  returns is not specified. The model picks the lowest spill index. Only the key
  order and the permutation of records are proved.
- The heap is a map from spill index to its pending record, not a binary heap. The
  program never holds more than one entry per spill.
- Streams take a snapshot of a file's contents when they open it. Writes by other
  processes while reading are not modelled.
- Closing streams (lines 132-133) has no effect in the model.
- The source writes keys and lengths in host byte order. The model fixes
  little-endian as a modelling choice, and other host orders are not modelled.
- Validate.ValidateOutput: the text it prints is left out. The record count it
  prints is returned instead.
- `size_t` counters (`total_bytes`, `chunk_num`, `record_count`) are unbounded
  integers. Their overflow is not modelled.
- Merge.MergeChunks: the merged sequence is returned as a ghost value that describes
  the output. The program returns nothing.
