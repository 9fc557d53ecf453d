# hyperlink graph converters, modelled in Dafny

hyperlink is a set of command-line tools that turn large edge lists into
graph files for partitioners. This project models their core:

- **ParHiP format** (`parhip.h`). A binary format made of:
  - a version word with six bit-packed flags;
  - the header words `n` and `m`;
  - `n + 1` offset words;
  - the adjacency array.

  The model covers the version packer and unpacker, the id and weight width
  and shift accessors, and the random-access reader. The reader reads the
  header, reads and normalises the offset array, and fetches the adjacency
  bytes of a range of vertices.
- **`edges2parhip64`** (`edges2parhip64.cc`). It merges any number of binary
  edge files, each sorted by source. The merge runs through a tournament
  tree over buffered streams, with the sentinel `(max, max)` marking an
  exhausted stream. Two passes over the merge then write a ParHiP file with
  64-bit ids. The first pass counts degrees, takes the exclusive prefix sum
  and adds the byte offsets. The second pass writes the targets in batches.
- **`edges2parhip`** (`edges2parhip.cc`). The same two passes over a two-way
  merge of a forward and a reverse edge file of 32-bit ids. This merge
  compares whole `(u, v)` pairs, and it checks the inputs before it writes.
- **METIS writer** (`metis.h`). It writes the header line and one line per
  vertex, with 1-based neighbours and optional vertex and edge weights.
- **Tokenizer** (`toker.h`). A cursor over a mapped text file that skips
  whitespace, lines and unsigned decimal numbers. The numbers are
  accumulated in a 64-bit word that wraps around.
- **`countstxt`** (`countstxt.cc`). It checks that a text edge list is sorted
  lexicographically and counts its edges, multi-edges, forward edges,
  self-loops and backward edges.
- **`txt2sbin`** (`txt2sbin.cc`). It reads a text edge list. It truncates
  ids to 32 bits, orients every edge from the smaller id to the larger one,
  drops self-loops, sorts, removes duplicates and writes 32-bit id pairs.

## How the model is organised

Files are byte sequences. Every integer word is encoded and decoded
explicitly, little-endian, at its width (module `Bytes`). Other shared
modules:

- `Edges` holds pairs and their lexicographic order.
- `SortedStreams` holds the buffered input streams both mergers share.
- `Csr` holds the degree count, the prefix sum, the offset bias and the
  batched adjacency writer that both converters' `main` share.
- `Readback` ties a written file to what the ParHiP reader gets back from it.

Each merger is a method over a `StreamBank` class. The bank holds the file
sizes, the byte cursors and one `array` buffer per stream, refilled window
by window as in the source. Each merger is proved against a reference merge
order:

- `KMerge` for the tournament tree;
- `TwoMerge` for the two-way merge.

Two lemmas then show what a reader of the output sees:

- the merged list is a sorted permutation of the inputs;
- for every vertex `u`, a reader of the written file fetches exactly the
  targets of the input edges whose source is `u`.

The offset normalisation (`NormalizeXadj`), the exclusive scan, the offset
bias and `std::unique` work in place on arrays. The tokenizer is a class
whose cursor the methods advance. The METIS writer appends tokens to a
`TextOutput` object.

`EncodeVersion` writes the two weight-width flags to bits 3 and 4
(parhip.h:51-54). `DecodeVersion` reads them from bits 4 and 5
(parhip.h:66-67). So unpacking does not invert packing when either flag is
set. The model follows the code, and the discrepancy is recorded under
Findings.

The text tools read two numbers per round for as long as the cursor is
inside the file. A character that is neither a digit nor whitespace stops
both scans, so from there on every round reads `(0, 0)` without moving
(`Toker.PairsEnd`, `Toker.Stuck`). `countstxt` then still stops when that
`(0, 0)` lies below the previous edge; the model includes this case.

## Model

| member | source | states |
|---|---|---|
| Bytes.DecodeEncode | edges2parhip64.cc:188-190 | A word written at width w reads back as the same value whenever it fits in w bytes |
| Bytes.DecodeAllEncodeAll | edges2parhip64.cc:191-192 | An array written word by word reads back as the same array when every entry fits the width |
| Bytes.EncodeAllAppend | edges2parhip64.cc:203-213 | Writing two arrays one after the other writes the encoding of their concatenation, which is why batched writes add up |
| Bytes.EncodeAllSlice | parhip.h:187-194 | Words i..j of an encoded array are exactly bytes i*w..j*w, which is where the reader seeks |
| Edges.LexSortedIsSourceSorted | edges2parhip.cc:66 | A list sorted by the whole pair is also sorted by source |
| Parhip.EncodeVersion | parhip.h:30-59 | The word fits in bits 0-4. Bits 0 and 1 are set exactly when there are no edge weights and no vertex weights. Bit 2 is the 32-bit edge-id flag, bit 3 is set when vertex ids or vertex weights are 32-bit, and bit 4 is the 32-bit edge-weight flag |
| Parhip.DecodeVersion | parhip.h:61-70 | Every word below 16 is the encoding of the flags it decodes to |
| Parhip.DecodeEncodeVersion | parhip.h:30-70 | Lists which flags survive packing and unpacking. The round trip is the identity if and only if both weight-width flags are false |
| Parhip.EncodeDecodeVersionAbove15 | parhip.h:30-70 | No word from 16 to 63 survives unpacking and repacking |
| Parhip.VersionCollision | parhip.h:49-54 | Two different versions, one with 32-bit vertex ids and one with 32-bit vertex weights, pack to the same word 8 |
| Parhip.EncodeVersionIntended | parhip.h:61-70 | Packing with the bit positions the unpacker reads: unpacking gives back every version |
| Parhip.IntendedEncoding | parhip.h:30-70 | Every word below 64 is the intended packing of its unpacked flags. The intended packer agrees with the written one whenever both weight-width flags are false, as in every file the converters write |
| Parhip.VertexIDShift | parhip.h:90-92 | The vertex-id shift is 2 or 3 |
| Parhip.VertexIDWidth | parhip.h:86-88 | Vertex ids are 2^shift bytes wide, and the width is 4 exactly when the 32-bit vertex-id flag is set |
| Parhip.EdgeIDShift | parhip.h:98-100 | The edge-id shift is 2 or 3 |
| Parhip.EdgeIDWidth | parhip.h:94-96 | Edge ids are 2^shift bytes wide, and the width is 4 exactly when the 32-bit edge-id flag is set |
| Parhip.VertexWeightShift | parhip.h:106-108 | The vertex-weight shift is 2 or 3 |
| Parhip.VertexWeightWidth | parhip.h:102-104 | Vertex weights are 2^shift bytes wide, and the width is 4 exactly when the 32-bit vertex-weight flag is set |
| Parhip.EdgeWeightShift | parhip.h:114-116 | The edge-weight shift is 2 or 3 |
| Parhip.EdgeWeightWidth | parhip.h:110-112 | Edge weights are 2^shift bytes wide, and the width is 4 exactly when the 32-bit edge-weight flag is set |
| Parhip.ReadHeader | parhip.h:72-84 | The header's n and m are 64-bit words |
| Parhip.ReadHeaderOfWritten | parhip.h:72-84 | A file that starts with the encoded version, n and m reads back as the unpacked version with that n and m |
| Parhip.RawXadj | parhip.h:145-153 | The reader gets n+1 offset words, each of which fits the edge-id width |
| Parhip.RawXadjOfWritten | parhip.h:145-153 | Offset words written at 8 bytes are read back unchanged |
| Parhip.Rebase | parhip.h:160 | Each normalised entry fits the edge-id width. An entry less than 2^(8·width) above the first loses the first without wrapping around, and the first entry becomes 0 |
| Parhip.Normalized | parhip.h:155-162 | Normalisation keeps the length of the offset array |
| Parhip.NormalizeXadj | parhip.h:156-162 | The in-place loop leaves the array equal to `Normalized` of its old contents |
| Parhip.ReadXadj | parhip.h:145-171 | Returns a fresh array holding the normalised raw offset words |
| Parhip.NormalizedStartsAtZero | parhip.h:157-160 | The first normalised offset is 0 |
| Parhip.NormalizedMonotone | parhip.h:156-162 | Non-decreasing offset words that fit the width stay non-decreasing after normalisation |
| Parhip.NormalizedUndoesBias | parhip.h:156-162 | Offsets of the form `bias + k[i] * 2^shift` with `k[0] = 0` normalise to exactly `k` |
| Parhip.ReadAdjncy | parhip.h:173-202 | Returns `min(end, n) - begin` vertices, and the `(xadj[min(end,n)] - xadj[begin])` ids found at the offset past the header, past the offset array and past `xadj[begin]` ids |
| Parhip.AdjncyOffset | parhip.h:187-189 | The seek lies past the header and the `n + 1` offset words, and the distance beyond them is exactly `xadj[begin]` whole vertex ids |
| Parhip.ReadAdjncyRange | parhip.h:173-202 | The chunk for `[begin, end)` is the file bytes from vertex `begin`'s first id up to vertex `min(end, n)`'s first id |
| Readback.EdgeStarts | edges2parhip64.cc:169-173 | Entry i of the prefix sum is the number of edges whose source is below i |
| Readback.FormatWidths | parhip.h:86-100 | The converters' version words announce 8-byte edge ids and the vertex-id width that the converter writes |
| Readback.LayoutHeader | edges2parhip64.cc:186-190 | A written file starts with the version, n and m as 8-byte words |
| Readback.LayoutSections | edges2parhip64.cc:186-215 | After the header come the n+1 offset words at 8 bytes, then all targets at the id width and nothing else |
| Readback.HeaderReadsBack | parhip.h:72-84 | The header of a written file reads back as the unpacked version, the vertex count and the edge count |
| Readback.XadjReadsBack | parhip.h:145-171 | Offset words that a converter wrote normalise to the prefix sums of the degrees |
| Readback.WrittenXadjReadsBack | parhip.h:145-171 | Reading a written file with its own header gives offsets equal to the prefix sums of the degrees |
| Readback.AdjncyBytes | parhip.h:187-194 | Edges lo..hi occupy exactly bytes lo*w..hi*w of the adjacency section |
| Readback.AdjncyReadsBack | parhip.h:173-202 | With the normalised offsets, fetching `[begin, end)` gives the targets of edges `Below(begin)..Below(min(end, n))`, in order |
| Readback.WrittenAdjncyReadsBack | parhip.h:173-202 | The same for a file a converter wrote, read with its own header |
| Readback.VertexNeighbours | parhip.h:173-202 | On a source-sorted list, the chunk fetched for a single vertex u holds the targets of exactly the edges whose source is u, in order |
| Readback.WrittenNeighbours | parhip.h:173-202 | The same for a file a converter wrote from a source-sorted list |
| Csr.NumVertices | edges2parhip64.cc:154-169 | n is one more than the largest source and 0 exactly when there are no edges. Targets play no part |
| Csr.Degrees | edges2parhip64.cc:154-164 | The degree vector has n entries, and entry u counts the edges with source u |
| Csr.SumDegrees | edges2parhip64.cc:170-172 | The prefix sums of the degrees count the edges below each vertex |
| Csr.DegreesSumToEdgeCount | edges2parhip64.cc:169-173 | The last prefix sum, m, is the number of edges |
| Csr.BelowSplits | edges2parhip64.cc:200-210 | On a source-sorted list, the first `Below(k)` edges are exactly those with source below k |
| Csr.VertexRange | edges2parhip64.cc:200-210 | On a source-sorted list, the edges of vertices `[b, e)` are the contiguous run between their prefix sums, and no edge outside that run has its source in the range |
| Csr.CountDegrees | edges2parhip64.cc:151-165 | The pass-one loop leaves the degree vector of the merged edges |
| Csr.GrowTo | edges2parhip64.cc:156-162 | Growing the vector with zeros to cover u keeps every entry equal to the degree counted so far |
| Csr.CountStep | edges2parhip64.cc:155-163 | Counting one more edge grows n when needed and adds one to the degree of its source only |
| Csr.ExclusiveScan | edges2parhip64.cc:170-172 | Afterwards entry i is the sum of the entries before it |
| Csr.Offset | edges2parhip64.cc:180-181 | The byte offset lies past the header and the `n + 1` offset words, and dividing the distance beyond them by the id width gives back the prefix sum |
| Csr.AddOffsets | edges2parhip64.cc:179-182 | Every entry becomes the byte offset `24 + (n+1)*8 + x*sizeof(NodeID)` |
| Csr.XadjWords | edges2parhip64.cc:169-182 | Entry i is the byte offset at which vertex i's adjacency starts |
| Csr.BuildXadj | edges2parhip64.cc:151-182 | Pass one returns n, m equal to the edge count, and the offset words |
| Csr.Layout | edges2parhip64.cc:186-215 | The length of the written file is the offset one past the last vertex |
| Csr.PushTarget | edges2parhip64.cc:203-209 | Appending one target keeps `flushed ++ pending` equal to every target so far, the bytes written equal to the flushed batches, and each flushed batch full |
| Csr.WriteAdjncy | edges2parhip64.cc:194-215 | Pass two writes exactly the targets of all edges in order. All batches are non-empty and all but the last are full |
| SortedStreams.WindowStep | edges2parhip64.cc:105 | Within a buffer window, the next record is in the same buffer |
| SortedStreams.WindowEnd | edges2parhip64.cc:108-112 | Leaving a full window, the file has been read exactly up to the cursor |
| SortedStreams.StreamBank.constructor | edges2parhip64.cc:48-56 | Each stream starts at record 0 with its first window loaded |
| SortedStreams.StreamBank.Refill | edges2parhip64.cc:88-97 | Reads `min(buffer, remaining)` records from where the last read stopped. Returns false exactly at the end of the file, and leaves the other streams' windows intact |
| SortedStreams.StreamBank.Get | edges2parhip64.cc:99-106 | Returns the record at the cursor, or `(max, max)` once the stream is exhausted |
| SortedStreams.StreamBank.TryGet | edges2parhip.cc:88-95 | Returns false once the stream is exhausted, leaving the edge as it was. Otherwise returns true and the record at the cursor |
| SortedStreams.StreamBank.Advance | edges2parhip64.cc:108-113 | Moves one stream's cursor by one record and keeps the buffer invariant, refilling at window boundaries |
| KWayMerge.MinEntry | edges2parhip64.cc:71 | `std::min` returns one of its arguments, and the result is at most both |
| KWayMerge.Winner | edges2parhip64.cc:66-72 | The winner is the least `(head source, stream)` over all streams |
| KWayMerge.KMerge | edges2parhip64.cc:74-84 | The merge emits at most the records not yet consumed, each tagged with a stream that exists |
| KWayMerge.KMergeAbove | edges2parhip64.cc:74-84 | Every record the merge emits has a key at least the first winner |
| KWayMerge.WinnerStep | edges2parhip64.cc:74-84 | Advancing the winning stream of source-sorted inputs never lowers the winner |
| KWayMerge.KMergeSorted | edges2parhip64.cc:74-84 | With source-sorted inputs, the output is sorted by source, with equal sources in stream order |
| KWayMerge.KMergeEmitsRemaining | edges2parhip64.cc:74-84 | With every source below the sentinel, the merge emits each unconsumed record exactly once |
| KWayMerge.KMergePermutation | edges2parhip64.cc:58-85 | From the start, the output is a permutation of all the input files together |
| KWayMerge.SentinelCollision | edges2parhip64.cc:99-103 | For all inputs and cursors, no emitted record has the maximum id as its source: such a record looks like the sentinel of an exhausted stream |
| KWayMerge.SentinelExample | edges2parhip64.cc:99-103 | A single stream holding only `(max, 7)` merges to nothing |
| KWayMerge.TargetsNotCompared | edges2parhip64.cc:66-71 | Targets play no part in the order: `[(0,5)]` and `[(0,1)]` merge as `(0,5), (0,1)` |
| KWayMerge.RootIsWinner | edges2parhip64.cc:66-83 | The root of a consistent tree is the reference winner |
| KWayMerge.BuildTree | edges2parhip64.cc:66-72 | Builds a tree whose leaves hold the stream heads and whose inner nodes hold the smaller child |
| KWayMerge.BuildInner | edges2parhip64.cc:70-72 | The bottom-up loop makes every inner node the minimum of its children |
| KWayMerge.Consume | edges2parhip64.cc:77-80 | Emits the head of stream b, advances that stream and fetches its new head |
| KWayMerge.UpdatePath | edges2parhip64.cc:81-83 | Recomputing the path from the changed leaf to the root restores the tree and leaves the leaves untouched |
| KWayMerge.Replay | edges2parhip64.cc:80-83 | Storing the new key in the leaf and replaying the path gives a tree consistent with the new heads |
| KWayMerge.Pop | edges2parhip64.cc:75-83 | One iteration emits the first record of the reference merge, and what remains is the reference merge of the advanced cursors |
| KWayMerge.ForEachEdge | edges2parhip64.cc:58-85 | The callback sees exactly the reference merge of all streams. Every stream's head key ends at the sentinel, and with every source below the sentinel every stream ends exhausted |
| KWayMerge.ExhaustedAtSentinel | edges2parhip64.cc:99-103 | With every source below the sentinel, a stream whose head key is the sentinel has been read to its end |
| TwoWayMerge.TwoMerge | edges2parhip.cc:65-73 | The merge emits as many records as both inputs hold, each taken from one of them |
| TwoWayMerge.TwoMergePermutation | edges2parhip.cc:60-74 | Every record of both inputs is emitted exactly once |
| TwoWayMerge.TwoMergeSorted | edges2parhip.cc:60-74 | Two lexicographically sorted inputs merge into a lexicographically sorted output |
| TwoWayMerge.TiesGoToSecond | edges2parhip.cc:66-71 | On equal heads, the second stream's copy is emitted first |
| TwoWayMerge.TargetsCompared | edges2parhip.cc:66 | The whole pair decides: `[(0,5)]` and `[(0,1)]` merge as `(0,1), (0,5)` |
| TwoWayMerge.Step | edges2parhip.cc:66-72 | One iteration emits the next record of the reference merge and advances exactly one stream |
| TwoWayMerge.ForEachEdge | edges2parhip.cc:60-74 | The callback sees exactly the reference merge of the two streams, and both streams end exhausted |
| Edges2Parhip64.BuildVersion | edges2parhip64.cc:14-36 | The converter's packer sets the same bits as `EncodeVersion`: bits 0-1 for no weights, 2 for 32-bit edge ids, 3 for 32-bit vertex ids or vertex weights, and 4 for 32-bit edge weights |
| Edges2Parhip64.VersionWord | edges2parhip64.cc:186-187 | The word written is 3, which announces no weights and 8-byte vertex and edge ids |
| Edges2Parhip64.FirstUnreadable | edges2parhip64.cc:131-138 | The first input that cannot be opened: every input before it opened |
| Edges2Parhip64.Run | edges2parhip64.cc:123-218 | Reports a usage error without inputs. Otherwise reports the first unreadable input, then an unwritable output. Otherwise writes the layout of the merged edges with version 3 and 8-byte ids |
| Edges2Parhip64.MergedIsSortedPermutation | edges2parhip64.cc:58-85 | The edges written are every record of every input exactly once, sorted by source |
| Edges2Parhip64.OutputNeighbours | edges2parhip64.cc:186-215 | A reader of the output finds, for every vertex, exactly the targets of the input edges with that source |
| Edges2Parhip.VersionWord | edges2parhip.cc:183-184 | The word written is 11, which announces no weights, 4-byte vertex ids and 8-byte edge ids |
| Edges2Parhip.Run | edges2parhip.cc:110-212 | Checks in order: usage, an existing output, the first input, the second input, different sizes. Otherwise writes the layout of the two-way merge with version 11 and 4-byte ids |
| Edges2Parhip.MergedIsSortedPermutation | edges2parhip.cc:60-74 | The edges written are every record of both inputs exactly once, in lexicographic order |
| Edges2Parhip.OutputNeighbours | edges2parhip.cc:183-212 | A reader of the output finds, for every vertex, exactly the targets of the input edges with that source, in ascending order |
| Toker.SpacesEnd | toker.h:38-42 | The position after a run of whitespace: everything skipped is whitespace, and what follows is not |
| Toker.DigitsEnd | toker.h:53-60 | The position after a run of digits: everything skipped is a digit, and what follows is not |
| Toker.LineEnd | toker.h:44-51 | The position just past the next line feed, or the end of the text when there is none. No line feed is skipped before it |
| Toker.ScanValue | toker.h:53-63 | The scanned value fits 64 bits |
| Toker.ScanEnd | toker.h:53-63 | After a scan the cursor is past the digits and on a non-space |
| Toker.ScanStuck | toker.h:53-63 | On a character that is neither digit nor space, a scan returns 0 and does not move |
| Toker.AccumulateStep | toker.h:57-59 | `number * 10 + digit` in 64-bit arithmetic keeps the value of the digits read so far, modulo 2^64 |
| Toker.MappedFileToker.constructor | toker.h:17-31 | The cursor starts at the first byte of the mapped contents |
| Toker.MappedFileToker.ValidPosition | toker.h:72-74 | Inside the file, a line skip moves the cursor. At the end of the file, skipping spaces, skipping a line and scanning do not move it, and a scan reads 0 |
| Toker.MappedFileToker.Current | toker.h:76 | The character under the cursor is whitespace exactly when a space skip moves, a digit exactly when a scan reads a digit, and a line feed ends the line skip one step later |
| Toker.MappedFileToker.Advance | toker.h:78 | Moves the cursor by one, unchecked |
| Toker.MappedFileToker.SkipSpaces | toker.h:38-42 | Moves the cursor to `SpacesEnd` |
| Toker.MappedFileToker.SkipLine | toker.h:44-51 | Moves the cursor to `LineEnd` |
| Toker.MappedFileToker.ScanUInt | toker.h:53-63 | Returns the digits' value modulo 2^64 and moves the cursor past them and the following whitespace |
| Toker.MappedFileToker.SkipUInt | toker.h:65-70 | Moves exactly as `ScanUInt` does |
| Toker.PairsEnd | countstxt.cc:38-40 | Reading stops advancing at the end of the text or at a non-space position from which two scans in a row do not move |
| Toker.PairsStep | countstxt.cc:38-40 | Two scans from a non-space position, values modulo 2^64, regardless of line breaks: either the cursor moves on and reads the first remaining pair, or neither scan moves, both read 0 and reading stops there. A missing second number reads as 0 |
| Toker.StuckEnd | countstxt.cc:38-40 | Where reading stops before the end, a scan reads 0 and does not move, and no further pair is read |
| Toker.WellFormedReadsToEnd | countstxt.cc:38-40 | On text made only of digits and whitespace every round advances, so reading reaches the end |
| Toker.ReadLine | countstxt.cc:39-40 | Reads the k-th pair of the text and moves on, or, once every pair is read, reads `(0, 0)` and stays put; where reading stops never changes |
| CountsTxt.Tally | countstxt.cc:42-46 | After n edges, the edge counter is n |
| CountsTxt.TallyPartition | countstxt.cc:43-46 | Forward edges, self-loops and backward edges add up to the edge count, and multi-edges are fewer than the edges |
| CountsTxt.MultiEdgesAreDuplicates | countstxt.cc:42 | The multi-edge count plus the length after `std::unique` is the edge count |
| CountsTxt.FirstDescent | countstxt.cc:48-53 | The first edge below the edge it is compared with; nothing before it descends |
| CountsTxt.FirstEdgeAccepted | countstxt.cc:29-30 | The first edge is never rejected, since nothing lies below `(0, 0)` |
| CountsTxt.NoDescentIffSorted | countstxt.cc:48-53 | The check passes if and only if the list is lexicographically sorted |
| CountsTxt.Verdict | countstxt.cc:38-64 | The counters are reported exactly when the list is sorted. Otherwise the verdict names the first line whose edge lies below its predecessor, and the lines before it are sorted |
| CountsTxt.FirstDescentSnoc | countstxt.cc:48-53 | One more edge leaves an earlier descent in place, and otherwise is a descent exactly when it lies below the last edge |
| CountsTxt.StuckVerdict | countstxt.cc:38-57 | On text where reading stops early, a descent among the pairs read is reported as usual. Otherwise the stuck `(0, 0)` is rejected as line `pairs + 1` when the last pair is not `(0, 0)`, and when it is, `main` never finishes |
| CountsTxt.WellFormedHalts | countstxt.cc:38-57 | Text made only of digits and whitespace is read to the end, and the edges compared are exactly its pairs |
| CountsTxt.StrayCharacterRejected | countstxt.cc:48-52 | On `5 5 x` the tool rejects line 2, previous edge `(5, 5)`, current edge `(0, 0)` |
| CountsTxt.EmptyInputReported | countstxt.cc:38-64 | An empty input finishes with all five counters zero |
| CountsTxt.Rejected | countstxt.cc:48-53 | The first descent ends the run with its 1-based line, the previous edge and the current edge |
| CountsTxt.Accepted | countstxt.cc:59-64 | Without a descent the tool reports the counters of the whole list |
| CountsTxt.Run | countstxt.cc:12-65 | Reports a usage error with no arguments and an open error for an unreadable input. Otherwise gives the verdict on the edges compared: the pairs of the text, then `(0, 0)` if reading stops early |
| CountsTxt.Scan | countstxt.cc:25-64 | The reading loop returns the verdict on the edges compared, including a rejection of the stuck `(0, 0)` round |
| CountsTxt.ReadAndCount | countstxt.cc:39-53 | One round is read and counted. A descending edge is the verdict; any other moves the cursor and extends the accepted prefix |
| CountsTxt.Count | countstxt.cc:42-46 | The counter updates for one edge give the tally of one more edge |
| Txt2Sbin.Oriented | txt2sbin.cc:57-63 | A line adds nothing exactly when its ids agree after truncation to 32 bits; otherwise it adds one edge made of the two truncated ids, smaller first |
| Txt2Sbin.StuckRoundIsSelfLoop | txt2sbin.cc:53-63 | Once reading stops early, every round reads the self-loop `(0, 0)`, adds no edge and does not move, so the loop never ends |
| Txt2Sbin.CanonicalCount | txt2sbin.cc:57-63 | Every line is either kept as an edge or counted as a self-loop |
| Txt2Sbin.CanonicalMembers | txt2sbin.cc:57-63 | The edge list holds exactly the oriented non-loop lines |
| Txt2Sbin.CanonicalShape | txt2sbin.cc:54-63 | Every edge has its smaller id first, and both ids fit 32 bits |
| Txt2Sbin.SortEdges | txt2sbin.cc:76 | Sorting keeps the length |
| Txt2Sbin.SortEdgesCorrect | txt2sbin.cc:76 | The sort returns a sorted permutation of its input |
| Txt2Sbin.SortedPermutationUnique | txt2sbin.cc:76 | Any two sorted permutations of a list are equal, so any correct sort gives the same result |
| Txt2Sbin.Dedup | txt2sbin.cc:80 | `std::unique` never lengthens the list and keeps the last value |
| Txt2Sbin.DedupMembers | txt2sbin.cc:80 | Removing neighbouring duplicates keeps exactly the values there were |
| Txt2Sbin.DedupStrict | txt2sbin.cc:80 | On a sorted list the result is strictly increasing |
| Txt2Sbin.Unique | txt2sbin.cc:80 | The in-place loop leaves `Dedup` of the old contents in the array's prefix and returns its length |
| Txt2Sbin.EdgeWords | txt2sbin.cc:91-93 | Two words per edge |
| Txt2Sbin.OutputReadsBack | txt2sbin.cc:91-93 | A reader of the output gets back the ids of every edge, two 32-bit words each |
| Txt2Sbin.KeptIsEdgeSet | txt2sbin.cc:76-101 | The output is strictly increasing, smaller id first, 32-bit, and holds exactly the oriented non-loop lines. Kept edges, duplicates and self-loops add up to the lines read |
| Txt2Sbin.KeptMember | txt2sbin.cc:76-83 | An edge is kept exactly when some line orients to it |
| Txt2Sbin.MaxEdges | txt2sbin.cc:25-26 | The capacity requested is below 2^64, and equals the bound times 10^9 whenever that product fits 64 bits |
| Txt2Sbin.MaxEdgesWraps | txt2sbin.cc:25-26 | A bound of 18446744074 billion wraps around to a capacity of 290448384 |
| Txt2Sbin.Run | txt2sbin.cc:16-102 | Reports usage, then a bound `std::stoull` rejects, then an unreadable input, then an unwritable output, then a capacity `reserve` refuses. Otherwise converts the pairs of the text |
| Txt2Sbin.AddLine | txt2sbin.cc:54-63 | One line extends the edge list and the self-loop count as the reference definitions do |
| Txt2Sbin.Parse | txt2sbin.cc:51-73 | The parsing loop yields the reference edge list and the self-loop count of the text's pairs |
| Txt2Sbin.Convert | txt2sbin.cc:51-101 | Parsing, sorting, deduplication and writing produce the reference output and report |
| Metis.TextOutput.constructor | metis.h:15 | A new output holds nothing |
| Metis.TextOutput.WriteInt | metis.h:18 | Appends one integer |
| Metis.TextOutput.WriteChar | metis.h:18 | Appends one character |
| Metis.WriteHeader | metis.h:15-29 | With an even edge count, appends the header line |
| Metis.HeaderReadsBack | metis.h:15-29 | Reading the header line back gives n, m and both weight flags |
| Metis.WriteXadjAdjncy | metis.h:31-55 | Appends the lines of vertices 0..n-1, in order |
| Metis.WriteLine | metis.h:40-54 | Appends line u: its weight, its edges and a line feed |
| Metis.WriteEdges | metis.h:45-51 | Appends the edges of vertex u in order |
| Metis.WriteEdge | metis.h:46-50 | Appends one edge: its 1-based target, then its weight if any |
| Metis.MonotoneIndicesOk | metis.h:38-48 | With non-decreasing offsets, every index the writer uses lies inside arrays of `xadj[n] - xadj[0]` entries, so a chunk can be written on its own |
| Metis.LinesCount | metis.h:40-54 | The writer emits exactly n line feeds, one per vertex |
| Metis.VertexLineNewlines | metis.h:40-54 | Every vertex line holds exactly one line feed, at its end |
| Metis.EdgesReadBack | metis.h:45-51 | Without edge weights, the numbers on a line are the targets plus one, in order |
| Metis.WeightedEdgesReadBack | metis.h:45-51 | With edge weights, the numbers alternate target plus one and weight, in order |
| Metis.VertexLineInts | metis.h:41-51 | A line's numbers are its vertex weight, if any, followed by its edges' numbers |

## Left out

- I/O. Files are byte sequences or text given as parameters. `argv` is reduced to the argument count. Whether a file opens, exists or can be created is a boolean or an `Option` parameter. Seeks and reads are slices of the file.
- Callbacks. Both `for_each_edge` methods take a callback. The model returns the sequence of edges the callback would see in order, and each pass then consumes that sequence.
- Progress output. Progress lines, timing messages and the final `Done.` are not modelled. Error messages are modelled by an error value.
- `DecodeXadj`, `DecodeAdjncy` and `DecodeXadjAdjncy` (parhip.h:118-143). They only choose a pointer type for a lambda. The model decodes words at the width the header gives.
- Stream-state assertions in `ReadXadj` and `ReadAdjncy`. They are `requires` clauses: the data must lie inside the file.
- Trailing partial records. Input sizes are whole numbers of records. A file whose size is not a multiple of the record size is not modelled.
- Edges2Parhip.Run: the output file is opened without a check (edges2parhip.cc:143). The model treats it as writable.
- Edges2Parhip64.Run: both passes reopen the same streams. The model assumes that `file_size` seeks back to the start, as it does, and that reading to the end leaves the streams usable.
- Csr.BuildXadj: does not model 64-bit wrap-around of the degree counters, the prefix sums and the offsets, which are unbounded. Only writing a word keeps its low-order bytes. `Readback.Fits` names the bound under which every written word fits, and the read-back lemmas assume it.
- Txt2Sbin.Run: models `std::stoull` and `reserve` (txt2sbin.cc:26, 39) only by their outcome, given as parameters: whether the third argument parses, and whether the capacity `MaxEdges` can be reserved. Either failure is an exception nothing catches, so the run ends abnormally; the model reports it as `BadBound` or `CannotReserve`. How `std::stoull` parses a string, and the allocator's limits, are not modelled.
- Toker.MappedFileToker.constructor: the `assert`s after `open`, `fstat` and `mmap` (toker.h:19, 23, 30) are not modelled; the text is a parameter. `mmap` of an empty file fails, so a build with assertions enabled aborts `countstxt` and `txt2sbin` on an empty input. The model behaves as a build without them, where the cursor starts at the end: `countstxt` reports zero counters (`CountsTxt.EmptyInputReported`) and `txt2sbin` writes an empty file.
- Txt2Sbin.SortEdges: is an insertion sort standing in for `ips4o::parallel::sort`. `SortedPermutationUnique` shows that any correct sort gives the same list.
- txt2sbin.cc calls the tokenizer as `skip_spaces`, `scan_uint`, `valid_position`, `position` and `length`. toker.h spells these in CamelCase. The model uses toker.h's methods.
- `Position` and `Length` (toker.h:80-82). They only feed progress output.
- CountsTxt.Run: requires `Halts` of runs that reach the reading loop. It excludes only text on which reading stops early with no descent and last pair `(0, 0)`, or with nothing read at all. There every round reads `(0, 0)` without moving, and the source's loop never ends (`CountsTxt.StuckVerdict`).
- Txt2Sbin.Run: requires that reading never stops early (`!Toker.Stuck`), but only of runs that pass every earlier check and reach the parsing loop (txt2sbin.cc:53). On a stuck text such a run reads the self-loop `(0, 0)` in every round without moving, and the source's loop never ends (`Txt2Sbin.StuckRoundIsSelfLoop`). A run that fails earlier is modelled on any text.
- CountsTxt.Scan: keeps the five counters in one `Counts` record. It does not model their 64-bit wrap-around.
- Metis.WriteHeader: the source's `assert` on an even edge count is a `requires`.
- Metis.WriteEdge: does not model wrap-around of `adjncy[e - offset] + 1` at the width of `VertexID`.
- Metis: the buffered writer is modelled by the tokens it is asked to write. `Flush` changes nothing the file shows and is left out. Decimal formatting is not modelled.
- parhip2metis.cc, revsbin.cc and sbin64.cc are not part of this model.
- KWayMerge: a record whose source is the largest 64-bit id looks like the sentinel and ends its stream early (`SentinelCollision`). The permutation lemmas require every source to lie below it (`BelowSentinel`).

## Findings

| source | as written | input that shows it | evidently intended | confidence | as-written member | corrected member |
|---|---|---|---|---|---|---|
| parhip.h:51-54 | The 32-bit vertex-weight flag is shifted by 3, onto the vertex-id bit. The 32-bit edge-weight flag is shifted by 4. `DecodeVersion` reads these flags from bits 4 and 5 (16 and 32). The same code is in edges2parhip64.cc:28-31 and edges2parhip.cc:29-32. | `Version(true, true, false, false, true, false)` packs to 8, the word for 32-bit vertex ids, and unpacks with `has32BitVertexIds` set and `has32BitVertexWeights` clear | Shifts of 4 and 5, so that unpacking inverts packing | not executed | Parhip.VersionCollision | Parhip.EncodeVersionIntended |
