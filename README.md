# 1brc-rust scan-and-aggregate core, in Dafny

This project models the core of a "one billion row challenge" solution
written in Rust. The program reads lines of the form `key;reading` from one
byte buffer and reports, for each key in ascending byte order, the minimum,
the maximum and the mean of its readings. It works in four stages:

1. **Chunking.** `get_chunks` cuts the buffer into at most `num_threads - 1`
   ranges. Each range runs from its start past an approximate size to the
   next `'\n'`.
2. **Scanning.** One worker per range walks the `'\n'` offsets of its chunk.
   It hands every terminated line to `process_line`.
3. **Accumulating.** `process_line` splits a line at its first `;` and
   parses the reading. It then inserts the key into the worker's hash map
   with a fresh `Measurement { min, max, sum, count }`, or folds the reading
   into the key's existing measurement with `update_measurement`.
4. **Merging.** `main` merges the workers' maps into a `BTreeMap` with
   `entry().and_modify().or_insert()`. `print_results` then walks the merged
   map in key order.

The model follows the code as written, not the intent that every line be
counted exactly once. In the code:

- each range ends *before* the newline that cuts it;
- a worker never processes the unterminated segment after the last newline
  of its chunk, so the last line of every cut range is lost;
- the bytes after the last cut get a range only when no newline follows the
  approximate boundary;
- with one thread no range is produced, so nothing is read and the report
  is empty.

These behaviours are proved as properties. `Pipeline.CutRangeLosesItsLastLine`,
`Pipeline.LongLinesOverrunTheBuffer` and `Pipeline.SingleThreadReportsNothing`
show them on concrete inputs.

Modelling choices:

- Readings are whole numbers (`int`, for instance tenths of a degree), not
  `f32`.
- The number parser `fast_float::parse` is a parameter `parse: seq<Byte> ->
  Option<int>`.
- Each panic of the program is an `Err` of `Errors.Error`:
  - `SliceOutOfBounds` is `&data[end..]` in `get_chunks`;
  - `MalformedRecord` is a line without `;`;
  - `InvalidNumber` is the parser's failure;
  - `CountOverflow` is the `u32` addition to `count` overflowing, as it does
    when overflow checks are on.
- Worker hash maps are Dafny `map`s. The ordered map is a class holding its
  entries in strictly ascending key order.

Modules, each in its own file:

| file | module |
|---|---|
| `wrappers.dfy` | `Wrappers` |
| `errors.dfy` | `Errors` |
| `bytes.dfy` | `Bytes` (the `memchr` search) |
| `keyorder.dfy` | `KeyOrder` (byte order on keys) |
| `measurements.dfy` | `Measurements` |
| `chunker.dfy` | `Chunker` |
| `lines.dfy` | `LineSplitter` |
| `records.dfy` | `Records` (`process_line` and the worker) |
| `merging.dfy` | `Merging` (the merge as values) |
| `ordered.dfy` | `Ordered` (the `BTreeMap`) |
| `pipeline.dfy` | `Pipeline` (`main`) |

## Model

| member | source | states |
|---|---|---|
| Bytes.FindFrom | src/main.rs:65 | a found index lies at or after the search start and holds the searched byte |
| Bytes.FindFromIsFirst | src/main.rs:65 | the found index is the first occurrence; `None` exactly when the byte is absent from the start on |
| KeyOrder.BelowIrreflexive | src/main.rs:113 | `Below`, the byte-wise order (a proper prefix first) that `BTreeMap<&str, _>` keeps its keys in: no key sorts before itself |
| KeyOrder.BelowTransitive | src/main.rs:113 | the byte order on keys is transitive |
| KeyOrder.BelowTotal | src/main.rs:113 | any two distinct keys are ordered one way or the other |
| KeyOrder.BelowAsymmetric | src/main.rs:113 | two keys are never ordered both ways |
| Measurements.Single | src/main.rs:90-98 | the measurement inserted for a key's first reading has count 1, min = max = sum = the reading, and is valid |
| Measurements.UpdateMeasurement | src/main.rs:103-108 | count goes up by exactly one and stays within `u32`; sum goes up by the reading; min and max become the smaller and larger of the old value and the reading; afterwards min <= reading <= max; validity is kept; and it equals combining with the reading's single measurement |
| Measurements.Combine | src/main.rs:45-50 | the merged min is at most both mins and is one of them; likewise for max; two valid measurements combine into a valid one |
| Measurements.CombineCommutes | src/main.rs:45-50 | the combine rule does not depend on which side is the accumulator |
| Measurements.CombineAssociates | src/main.rs:45-50 | the combine rule does not depend on grouping |
| Chunker.GetChunks | src/main.rs:59-77 | the loop returns exactly the ranges (or the panic) of `Chunks`, which defines `get_chunks` through `ChunksFrom`, one recursive call per loop turn (lines 63-76) |
| Chunker.ChunksAreContiguous | src/main.rs:59-76 | exactly `num_threads - 1` ranges, or fewer only when the last one runs to the end of the buffer (the `None` break of lines 70-73); with more than one thread the first starts at 0; every range lies in the buffer; each next range starts one past the previous end |
| Chunker.ChunksCutAtNewlines | src/main.rs:64-73 | a range ends at the first newline at or after its approximate boundary and excludes it; only when no newline follows does it run to the end of the buffer, and then it is the last range |
| Chunker.SingleThreadHasNoChunks | src/main.rs:63 | one thread gives no range |
| Chunker.ChunksFromFailsOutOfBounds | src/main.rs:64-65 | the only failure of `get_chunks` is the out-of-range slice at an approximate boundary |
| LineSplitter.LinesFromJoin | src/main.rs:29-33 | `LinesFrom` (the lines the loop hands on from a scan position) and `TailFrom` (what it leaves behind) split the chunk: from any scan position, the rest of the chunk is the handed-on lines, each followed by its newline, then the unprocessed tail |
| LineSplitter.LinesFromNoNewline | src/main.rs:30-31 | no handed-on line contains a newline |
| LineSplitter.TailFromNoNewline | src/main.rs:30-33 | the unprocessed tail contains no newline |
| LineSplitter.LinesSplitChunk | src/main.rs:29-33 | a chunk is exactly its handed-on lines with their newlines, in order, followed by the unprocessed tail |
| LineSplitter.TailEmptyIffTerminated | src/main.rs:30-33 | nothing is left unprocessed exactly when the chunk is empty or ends in a newline |
| LineSplitter.JoinedEndsInNewline | src/main.rs:30-33 | a non-empty run of handed-on lines ends in a newline |
| Records.ParseLineSplits | src/main.rs:80-83 | `ParseLine`, the split and parse of `process_line`: a line without `;` is malformed; otherwise the key is the bytes before the first `;`, and the reading is what the parser makes of the bytes after it |
| Records.ParseFormattedLine | src/main.rs:80-83 | a line written as `key;text` with no `;` in the key parses back to that key, and to the parser's reading of `text` or its failure |
| Records.Observe | src/main.rs:85-100 | fails exactly when the key is present with count `u32::MAX`; otherwise counts stay within `u32` and validity is kept |
| Records.ObserveIsMerge | src/main.rs:85-100 | a successful step is merging the record's one-entry map: the key set grows by that key only, other keys are unchanged, and the key's count goes up by one |
| Records.ApplyLine | src/main.rs:79-101 | a successful line keeps counts within `u32` and keeps validity |
| Records.ApplyLinesIsMerge | src/main.rs:30-33 | `ApplyLines`, the worker's left fold of `process_line` over its lines: when accumulating lines succeeds, every line parses and the result is the starting map with the singletons of all their records merged in |
| Records.ApplyLinesSucceedsIff | src/main.rs:30-33 | when every line parses, accumulating fails exactly when the merged counts pass `u32::MAX`, and then with the count overflow |
| Records.ApplyLinesKeepsInvariants | src/main.rs:30-33 | accumulation keeps every measurement valid and every count within `u32` |
| Records.ParseLinesAppend | src/main.rs:30-33 | two runs of lines parse exactly when both do, and their records are the concatenation |
| Records.SingletonTotals | src/main.rs:90-98 | over singletons, a key's total count is the number of its records and its total sum the sum of their readings |
| Records.KeyPresence | src/main.rs:85-100 | a key is in the fold of the records exactly when some record carries it |
| Records.KeyExtremes | src/main.rs:103-105 | a key's min and max bound all its readings and are each one of them |
| Records.KeyStatistics | src/main.rs:85-108 | per key: present iff some record carries it; count = number of its records; sum = their total; min and max the least and greatest reading |
| Records.CountsFitIff | src/main.rs:107 | the fold of the records stays within `u32` exactly when no key has more than `u32::MAX` records |
| Records.ChunkAccumulator.constructor | src/main.rs:28 | a worker starts with an empty, valid map |
| Records.ChunkAccumulator.ProcessLine | src/main.rs:79-101 | the in-place update leaves the map `ApplyLine` computes, or fails with its error; validity and `u32` counts are kept |
| Records.ApplyLinesStep | src/main.rs:30-32 | one turn of the worker loop: the line up to the next newline, then the lines after it |
| Records.ScanChunk | src/main.rs:28-34 | the worker loop returns exactly what accumulating the chunk's terminated lines from an empty map gives |
| Merging.MergeMaps | src/main.rs:42-52 | the merged keys are the union of both key sets; validity is kept |
| Merging.MergeOne | src/main.rs:43-51 | merging one entry combines it with a present key's measurement, or inserts it |
| Merging.MergeMapsKeepsOverflow | src/main.rs:49 | merging never brings a count back within `u32` |
| Merging.MergeMapsCommutes | src/main.rs:42-52 | the merge of two maps does not depend on their order |
| Merging.MergeMapsAssociates | src/main.rs:40-53 | the merge of three maps does not depend on grouping |
| Merging.MergeMapsEmpty | src/main.rs:39 | the empty map is neutral for the merge |
| Merging.MergedFromIsMerge | src/main.rs:40-53 | folding maps into an accumulator is merging it with the fold of the maps |
| Merging.MergedFromKeepsOverflow | src/main.rs:40-53 | once a count has passed `u32::MAX`, further merges keep it past |
| Merging.MergedCons | src/main.rs:40-53 | folding a map followed by more maps merges it with the fold of the rest |
| Merging.MergedAppend | src/main.rs:40-53 | the fold of two runs of maps is the merge of their folds |
| Merging.MergedPermutation | src/main.rs:40-53 | any rearrangement of the chunk maps gives the same merged result |
| Merging.MergedKeys | src/main.rs:42-51 | a key is merged exactly when some chunk map holds it |
| Merging.MergedTotals | src/main.rs:48-49 | per key, the merged count and sum are the totals over all chunk maps |
| Merging.ZeroTotalsWhenAbsent | src/main.rs:48-49 | a key in no chunk map has zero totals |
| Merging.MergedMinMax | src/main.rs:46-47 | per key, the merged min is at most every chunk's min and equals one of them; likewise for max |
| Merging.MergedValid | src/main.rs:40-53 | folding valid chunk maps gives valid measurements |
| Ordered.ListsTail | src/main.rs:113 | without its first entry, a listing lists the map without its least key, which sorts below every other key |
| Ordered.ListingUnique | src/main.rs:113 | a map has exactly one ascending listing, so the printed order depends on the merged contents alone |
| Ordered.ListingLength | src/main.rs:113 | a listing holds each key exactly once |
| Ordered.SearchStop | src/main.rs:43-44 | where the search for a key stops, every earlier key sorts below it and every later key above it |
| Ordered.InsertAscending | src/main.rs:51 | inserting at that position keeps the keys strictly ascending |
| Ordered.InsertKeySet | src/main.rs:51 | inserting adds exactly the new key |
| Ordered.InsertKeepsListing | src/main.rs:51 | inserting at that position a key not yet present keeps the listing of the updated map |
| Ordered.ReplaceKeepsListing | src/main.rs:45-50 | updating the measurement of a listed key keeps the listing |
| Ordered.OrderedAccumulator.constructor | src/main.rs:39 | the ordered map starts empty |
| Ordered.OrderedAccumulator.Upsert | src/main.rs:43-51 | fails exactly when the key is present and the combined count passes `u32::MAX`, leaving the map as it was; otherwise the map becomes the merge of the old map with the one entry, still listed in ascending order |
| Pipeline.MergeOneMore | src/main.rs:42-52 | merging one more entry of the chunk map is merging a larger part of it |
| Pipeline.OverflowAt | src/main.rs:49 | an overflow on a pending key means the whole merge overflows |
| Pipeline.FitsAfterOne | src/main.rs:49 | an entry merged without overflow keeps every count within `u32` |
| Pipeline.MergeChunk | src/main.rs:42-52 | merging one chunk map, entry by entry in any order, fails exactly when the merged counts pass `u32::MAX`; otherwise the ordered map becomes the merge of the old contents with the chunk map |
| Pipeline.Aggregate | src/main.rs:21-55 | the whole run fails exactly when `Aggregated` fails, and with the same error; otherwise it returns the ascending listing of `Aggregated`'s map |
| Pipeline.SplitFirstRange | src/main.rs:25-33 | the records of the processed lines split into those of the first range and those of the rest |
| Pipeline.RunFromIsMerge | src/main.rs:25-53 | `RunFrom`, the workers and merges taken range by range in join order: when the run succeeds, every processed line parses and the result is the accumulator merged with the fold of their records |
| Pipeline.FirstRangeStep | src/main.rs:40-53 | one turn of the run: the worker fails exactly when its fold overflows; otherwise the merge checks the combined counts |
| Pipeline.RunFromSucceedsIff | src/main.rs:25-53 | when every processed line parses, the run fails exactly when the merged counts pass `u32::MAX`, whether inside a worker or in the merge |
| Pipeline.AggregatedIsMerge | src/main.rs:21-53 | `Aggregated`, what `main` computes (the ranges of `get_chunks`, then `RunFrom` from an empty map): a successful run yields the fold of the records of all processed lines |
| Pipeline.AggregatedSucceedsIff | src/main.rs:21-53 | when the ranges are produced and every processed line parses, the run succeeds exactly when no key occurs in more than `u32::MAX` of those lines |
| Pipeline.AggregatedStatistics | src/main.rs:21-53 | per key of a successful run: reported iff some processed line carries it; count = number of such lines; sum = their total; min and max the least and greatest reading |
| Pipeline.AggregatedValid | src/main.rs:39-53 | every measurement of a successful report has at least one reading, `min <= max`, the mean between them (without division), and a count that fits a `u32` |
| Pipeline.SingleThreadReportsNothing | src/main.rs:63 | with one thread the report is empty whatever the buffer holds |
| Pipeline.CutRangeLosesItsLastLine | src/main.rs:67 | for `a;1\nb;2\n` and two threads, the only range ends before the last newline and only `a;1` is processed |
| Pipeline.LongLinesOverrunTheBuffer | src/main.rs:64-65 | for the well-formed `a;10\nbb;2\n` and four threads, `get_chunks` panics on an out-of-range slice |

## Left out

- Opening and memory-mapping the input file: the buffer is a parameter.
- `available_parallelism`: the thread count is a parameter of at least 1.
- Threads (`thread::scope`, `spawn`, `join`): workers run one after the other, in range order.
- `fast_float::parse::<f32>`: the parser is a parameter.
- `f32` arithmetic: readings and sums are unbounded integers, and `f32::min`/`f32::max` on NaN are not modelled.
- The `sum / count` average and the `{:.1}` rounding: not modelled.
- `from_utf8_unchecked`: keys stay byte sequences, ordered byte by byte as `str` keys are.
- Locking `stdout` and `writeln!`: `print_results` is modelled only by the order its loop walks the map.
- `FxHashMap` hashing and the internals of `memchr`: a Dafny `map` and a first-index search stand for them.
- The B-tree search: the position of a key is found by a linear scan over the ascending entries.
- Release builds: `count` wraps around instead of panicking; only the checked `u32` overflow is modelled.
- `update_measurement` writes through `&mut Measurement`: the model stores the updated measurement back into the map.
- Pipeline.Aggregate: with real threads, which worker's panic surfaces first is not fixed; the model reports the first failure in range order.
- Ordered.OrderedAccumulator.Upsert: the `BTreeMap` entry keeps the fields already written when `e.count += measurement.count` panics; the model leaves the map unchanged on that failure, and the run aborts either way.
