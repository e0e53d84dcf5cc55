/**
 * `main`: cut the buffer into ranges, scan each range into a chunk map,
 * and fold the chunk maps, in the order of their ranges, into the ordered
 * accumulator whose iteration order is the order of the printed report.
 */
module Pipeline {
  import opened Wrappers
  import opened Errors
  import opened Bytes
  import opened KeyOrder
  import opened Measurements
  import opened Merging
  import opened Chunker
  import opened LineSplitter
  import opened Records
  import opened Ordered

  /** `m` without the keys `pending`: the part of a chunk map already merged. */
  function Without(m: Stats, pending: set<Key>): (r: Stats)
    ensures r.Keys == m.Keys - pending
  {
    map k | k in m && k !in pending :: m[k]
  }

  /** Before the loop nothing of the chunk map is merged; after it, all of it. */
  lemma WithoutBounds(acc: Stats, m: Stats)
    ensures MergeMaps(acc, Without(m, m.Keys)) == acc
    ensures Without(m, {}) == m
  {
    assert Without(m, m.Keys) == map[];
    MergeMapsEmpty(acc);
  }

  /** Merging one more key of the chunk map is merging the larger part of it. */
  lemma MergeOneMore(acc: Stats, chunkMap: Stats, pending: set<Key>, key: Key)
    requires key in chunkMap && key in pending
    ensures MergeMaps(MergeMaps(acc, Without(chunkMap, pending)), map[key := chunkMap[key]])
         == MergeMaps(acc, Without(chunkMap, pending - {key}))
  {
    var part := Without(chunkMap, pending);
    assert MergeMaps(part, map[key := chunkMap[key]]) == Without(chunkMap, pending - {key});
    MergeMapsAssociates(acc, part, map[key := chunkMap[key]]);
  }

  /** A key whose combined count overflows makes the whole merge overflow. */
  lemma OverflowAt(acc: Stats, chunkMap: Stats, pending: set<Key>, key: Key)
    requires key in chunkMap && key in pending
    requires var current := MergeMaps(acc, Without(chunkMap, pending));
      key in current && current[key].count + chunkMap[key].count > U32_MAX
    ensures !CountsFit(MergeMaps(acc, chunkMap))
  {
    assert MergeMaps(acc, chunkMap)[key].count > U32_MAX;
  }

  /** Merging in one entry whose combined count does not overflow keeps every count within `u32`. */
  lemma FitsAfterOne(acc: Stats, key: Key, m: Measurement)
    requires CountsFit(acc) && m.count <= U32_MAX
    requires key in acc ==> acc[key].count + m.count <= U32_MAX
    ensures CountsFit(MergeMaps(acc, map[key := m]))
  {
    MergeOne(acc, key, m);
  }

  /**
   * The inner loop of the merge: every entry of one chunk map goes into the
   * ordered accumulator, in whatever order the hash map yields them. The
   * run fails exactly when some key's combined count passes `u32::MAX`.
   */
  method MergeChunk(ordered: OrderedAccumulator, chunkMap: Stats) returns (outcome: Outcome<Error>)
    requires ordered.Valid() && CountsFit(ordered.Contents) && CountsFit(chunkMap)
    modifies ordered
    ensures ordered.Valid()
    ensures outcome.Pass? <==> CountsFit(MergeMaps(old(ordered.Contents), chunkMap))
    ensures outcome.Fail? ==> outcome.error == CountOverflow
    ensures outcome.Pass? ==> ordered.Contents == MergeMaps(old(ordered.Contents), chunkMap)
  {
    ghost var start := ordered.Contents;
    var pending := chunkMap.Keys;
    WithoutBounds(start, chunkMap);
    while pending != {}
      invariant ordered.Valid() && CountsFit(ordered.Contents)
      invariant pending <= chunkMap.Keys
      invariant ordered.Contents == MergeMaps(start, Without(chunkMap, pending))
      decreases |pending|
    {
      var key :| key in pending;
      ghost var before := ordered.Contents;
      var step := ordered.Upsert(key, chunkMap[key]);
      if step.Fail? {
        OverflowAt(start, chunkMap, pending, key);
        return step;
      }
      FitsAfterOne(before, key, chunkMap[key]);
      MergeOneMore(start, chunkMap, pending, key);
      pending := pending - {key};
    }
    return Pass;
  }

  /** The chunk map of one range: the range's lines accumulated from empty. */
  function ScanRange(data: seq<Byte>, r: Range, parse: Parser): Result<Stats, Error> {
    if r.start <= r.end <= |data| then ApplyLines(map[], Lines(data[r.start..r.end]), parse)
    else Err(SliceOutOfBounds)
  }

  /** Merge a chunk map into the accumulator, failing when a count passes `u32::MAX`. */
  function MergeChecked(acc: Stats, chunkMap: Stats): Result<Stats, Error> {
    if CountsFit(MergeMaps(acc, chunkMap)) then Ok(MergeMaps(acc, chunkMap)) else Err(CountOverflow)
  }

  /** Scan and merge the ranges `rs` in order into `acc`; the first failure ends the run. */
  function RunFrom(data: seq<Byte>, rs: seq<Range>, parse: Parser, acc: Stats): Result<Stats, Error>
    decreases |rs|
  {
    if rs == [] then Ok(acc)
    else match ScanRange(data, rs[0], parse)
      case Err(e) => Err(e)
      case Ok(chunkMap) =>
        match MergeChecked(acc, chunkMap)
        case Err(e) => Err(e)
        case Ok(acc') => RunFrom(data, rs[1..], parse, acc')
  }

  /** What the program computes from the buffer: the merged map, or the failure that aborts it. */
  function Aggregated(data: seq<Byte>, numThreads: nat, parse: Parser): Result<Stats, Error>
    requires numThreads >= 1
  {
    match Chunks(data, numThreads)
    case Err(e) => Err(e)
    case Ok(rs) => RunFrom(data, rs, parse, map[])
  }

  /**
   * The whole run: get the ranges, scan each one, merge its chunk map into
   * the ordered accumulator, and hand the entries over in the order
   * `print_results` walks them.
   */
  method Aggregate(data: seq<Byte>, numThreads: nat, parse: Parser) returns (r: Result<seq<Entry>, Error>)
    requires numThreads >= 1
    ensures r.Ok? <==> Aggregated(data, numThreads, parse).Ok?
    ensures r.Err? ==> r.error == Aggregated(data, numThreads, parse).error
    ensures r.Ok? ==> Lists(r.value, Aggregated(data, numThreads, parse).value)
  {
    var chunks := GetChunks(data, numThreads);
    if chunks.Err? {
      return Err(chunks.error);
    }
    var ranges := chunks.value;
    var ordered := new OrderedAccumulator();
    var i := 0;
    while i < |ranges|
      invariant i <= |ranges|
      invariant ordered.Valid() && CountsFit(ordered.Contents)
      invariant Aggregated(data, numThreads, parse) == RunFrom(data, ranges[i..], parse, ordered.Contents)
      decreases |ranges| - i
    {
      var range := ranges[i];
      assert ranges[i..][0] == range && ranges[i..][1..] == ranges[i + 1..];
      if !(range.start <= range.end <= |data|) {
        return Err(SliceOutOfBounds);
      }
      var chunkMap := ScanChunk(data[range.start..range.end], parse);
      if chunkMap.Err? {
        return Err(chunkMap.error);
      }
      ApplyLinesKeepsInvariants(map[], Lines(data[range.start..range.end]), parse);
      var outcome := MergeChunk(ordered, chunkMap.value);
      if outcome.Fail? {
        return Err(outcome.error);
      }
      i := i + 1;
    }
    return Ok(ordered.entries);
  }

  /** The lines a worker hands to `process_line` for one range; a range outside the buffer has none. */
  function RangeLines(data: seq<Byte>, r: Range): seq<seq<Byte>> {
    if r.start <= r.end <= |data| then Lines(data[r.start..r.end]) else []
  }

  /** The lines handed to `process_line`, range after range. */
  function ProcessedLines(data: seq<Byte>, rs: seq<Range>): seq<seq<Byte>>
    decreases |rs|
  {
    if rs == [] then [] else RangeLines(data, rs[0]) + ProcessedLines(data, rs[1..])
  }

  /** Every range lies inside the buffer. */
  predicate InBounds(data: seq<Byte>, rs: seq<Range>) {
    forall i :: 0 <= i < |rs| ==> rs[i].start <= rs[i].end <= |data|
  }

  /** Splitting the records of the processed lines into those of the first range and the rest. */
  lemma SplitFirstRange(data: seq<Byte>, rs: seq<Range>, parse: Parser)
    requires rs != [] && ParseLines(ProcessedLines(data, rs), parse).Ok?
    ensures ParseLines(RangeLines(data, rs[0]), parse).Ok?
    ensures ParseLines(ProcessedLines(data, rs[1..]), parse).Ok?
    ensures var first := ParseLines(RangeLines(data, rs[0]), parse).value;
      var rest := ParseLines(ProcessedLines(data, rs[1..]), parse).value;
      Merged(Singletons(ParseLines(ProcessedLines(data, rs), parse).value))
        == MergeMaps(Merged(Singletons(first)), Merged(Singletons(rest)))
  {
    var a, b := RangeLines(data, rs[0]), ProcessedLines(data, rs[1..]);
    ParseLinesAppend(a, b, parse);
    var first, rest := ParseLines(a, parse).value, ParseLines(b, parse).value;
    SingletonsAppend(first, rest);
    MergedAppend(Singletons(first), Singletons(rest));
  }

  /**
   * Scanning and merging the ranges is merging, into the accumulator, the
   * one-reading measurement of every processed line: when the run succeeds,
   * every processed line parses and the result is the fold of their records.
   */
  lemma {:induction false} RunFromIsMerge(data: seq<Byte>, rs: seq<Range>, parse: Parser, acc: Stats)
    requires InBounds(data, rs)
    requires RunFrom(data, rs, parse, acc).Ok?
    ensures ParseLines(ProcessedLines(data, rs), parse).Ok?
    ensures RunFrom(data, rs, parse, acc).value
         == MergeMaps(acc, Merged(Singletons(ParseLines(ProcessedLines(data, rs), parse).value)))
    decreases |rs|
  {
    if rs == [] {
      MergeMapsEmpty(acc);
    } else {
      var lines := RangeLines(data, rs[0]);
      var chunkMap := ScanRange(data, rs[0], parse).value;
      ApplyLinesIsMerge(map[], lines, parse);
      var acc' := MergeMaps(acc, chunkMap);
      assert InBounds(data, rs[1..]) by {
        forall i | 0 <= i < |rs| - 1
          ensures rs[1..][i].start <= rs[1..][i].end <= |data|
        {
          assert rs[1..][i] == rs[i + 1];
        }
      }
      RunFromIsMerge(data, rs[1..], parse, acc');
      ParseLinesAppend(lines, ProcessedLines(data, rs[1..]), parse);
      SplitFirstRange(data, rs, parse);
      var first := ParseLines(lines, parse).value;
      var rest := ParseLines(ProcessedLines(data, rs[1..]), parse).value;
      MergeMapsAssociates(acc, Merged(Singletons(first)), Merged(Singletons(rest)));
    }
  }

  /**
   * When every processed line parses, the run fails exactly when some key
   * of the merged result would be counted past `u32::MAX`, whether the
   * overflow strikes inside one worker or in the merge.
   */
  lemma {:induction false} RunFromSucceedsIff(data: seq<Byte>, rs: seq<Range>, parse: Parser, acc: Stats)
    requires InBounds(data, rs) && CountsFit(acc)
    requires ParseLines(ProcessedLines(data, rs), parse).Ok?
    ensures RunFrom(data, rs, parse, acc).Ok?
      <==> CountsFit(MergeMaps(acc, Merged(Singletons(ParseLines(ProcessedLines(data, rs), parse).value))))
    decreases |rs|
  {
    if rs == [] {
      MergeMapsEmpty(acc);
    } else {
      SplitFirstRange(data, rs, parse);
      var first := ParseLines(RangeLines(data, rs[0]), parse).value;
      var rest := ParseLines(ProcessedLines(data, rs[1..]), parse).value;
      MergeMapsAssociates(acc, Merged(Singletons(first)), Merged(Singletons(rest)));
      assert InBounds(data, rs[1..]) by {
        forall i | 0 <= i < |rs| - 1
          ensures rs[1..][i].start <= rs[1..][i].end <= |data|
        {
          assert rs[1..][i] == rs[i + 1];
        }
      }
      FirstRangeStep(data, rs, parse, acc);
      var chunkMap := Merged(Singletons(first));
      if CountsFit(chunkMap) && CountsFit(MergeMaps(acc, chunkMap)) {
        RunFromSucceedsIff(data, rs[1..], parse, MergeMaps(acc, chunkMap));
      } else {
        if !CountsFit(chunkMap) {
          MergeMapsKeepsOverflow(acc, chunkMap);
        }
        MergeMapsKeepsOverflow(MergeMaps(acc, chunkMap), Merged(Singletons(rest)));
      }
    }
  }

  /**
   * One turn of the run when the lines of the first range parse: its
   * worker fails exactly when their fold overflows, and otherwise yields
   * that fold, which the merge then checks.
   */
  lemma FirstRangeStep(data: seq<Byte>, rs: seq<Range>, parse: Parser, acc: Stats)
    requires rs != [] && InBounds(data, rs)
    requires ParseLines(RangeLines(data, rs[0]), parse).Ok?
    ensures var chunkMap := Merged(Singletons(ParseLines(RangeLines(data, rs[0]), parse).value));
      RunFrom(data, rs, parse, acc)
        == if !CountsFit(chunkMap) then Err(CountOverflow)
           else if !CountsFit(MergeMaps(acc, chunkMap)) then Err(CountOverflow)
           else RunFrom(data, rs[1..], parse, MergeMaps(acc, chunkMap))
  {
    var lines := RangeLines(data, rs[0]);
    ApplyLinesSucceedsIff(map[], lines, parse);
    if ApplyLines(map[], lines, parse).Ok? {
      ApplyLinesIsMerge(map[], lines, parse);
    }
  }

  /**
   * When the run succeeds, the result is the fold of the records of all
   * processed lines: the lines of each range up to its last newline.
   */
  lemma AggregatedIsMerge(data: seq<Byte>, numThreads: nat, parse: Parser)
    requires numThreads >= 1 && Aggregated(data, numThreads, parse).Ok?
    ensures Chunks(data, numThreads).Ok?
    ensures var lines := ProcessedLines(data, Chunks(data, numThreads).value);
      && ParseLines(lines, parse).Ok?
      && Aggregated(data, numThreads, parse).value == Merged(Singletons(ParseLines(lines, parse).value))
  {
    ChunksAreContiguous(data, numThreads);
    var rs := Chunks(data, numThreads).value;
    RunFromIsMerge(data, rs, parse, map[]);
    MergeMapsEmpty(Merged(Singletons(ParseLines(ProcessedLines(data, rs), parse).value)));
  }

  /**
   * When the ranges are produced and every processed line parses, the run
   * succeeds exactly when no key occurs in more than `u32::MAX` of those lines.
   */
  lemma AggregatedSucceedsIff(data: seq<Byte>, numThreads: nat, parse: Parser)
    requires numThreads >= 1 && Chunks(data, numThreads).Ok?
    requires ParseLines(ProcessedLines(data, Chunks(data, numThreads).value), parse).Ok?
    ensures var recs := ParseLines(ProcessedLines(data, Chunks(data, numThreads).value), parse).value;
      Aggregated(data, numThreads, parse).Ok? <==>
        forall i :: 0 <= i < |recs| ==> CountKey(recs, recs[i].key) <= U32_MAX
  {
    ChunksAreContiguous(data, numThreads);
    var rs := Chunks(data, numThreads).value;
    var recs := ParseLines(ProcessedLines(data, rs), parse).value;
    RunFromSucceedsIff(data, rs, parse, map[]);
    MergeMapsEmpty(Merged(Singletons(recs)));
    CountsFitIff(recs);
  }

  /**
   * What the report says about one key: it is listed exactly when some
   * processed line carries it, with the number of such lines as its count,
   * the total of their readings as its sum, and the least and greatest of
   * those readings as its min and max.
   */
  lemma AggregatedStatistics(data: seq<Byte>, numThreads: nat, parse: Parser, k: Key)
    requires numThreads >= 1 && Aggregated(data, numThreads, parse).Ok?
    ensures Chunks(data, numThreads).Ok?
    ensures ParseLines(ProcessedLines(data, Chunks(data, numThreads).value), parse).Ok?
    ensures var recs := ParseLines(ProcessedLines(data, Chunks(data, numThreads).value), parse).value;
      var m := Aggregated(data, numThreads, parse).value;
      && (k in m <==> exists i :: 0 <= i < |recs| && recs[i].key == k)
      && (k in m ==>
            && m[k].count == CountKey(recs, k)
            && m[k].sum == SumKey(recs, k)
            && (forall i :: 0 <= i < |recs| && recs[i].key == k ==> m[k].min <= recs[i].value <= m[k].max)
            && (exists i :: 0 <= i < |recs| && recs[i].key == k && m[k].min == recs[i].value)
            && (exists i :: 0 <= i < |recs| && recs[i].key == k && m[k].max == recs[i].value))
  {
    AggregatedIsMerge(data, numThreads, parse);
    KeyStatistics(ParseLines(ProcessedLines(data, Chunks(data, numThreads).value), parse).value, k);
  }

  /**
   * Every measurement in a successful report is well formed: at least one
   * reading, `min <= max`, the mean between them (stated without division),
   * and a count that fits a `u32`.
   */
  lemma AggregatedValid(data: seq<Byte>, numThreads: nat, parse: Parser)
    requires numThreads >= 1 && Aggregated(data, numThreads, parse).Ok?
    ensures AllValid(Aggregated(data, numThreads, parse).value)
    ensures CountsFit(Aggregated(data, numThreads, parse).value)
  {
    AggregatedIsMerge(data, numThreads, parse);
    ChunksAreContiguous(data, numThreads);
    var rs := Chunks(data, numThreads).value;
    var recs := ParseLines(ProcessedLines(data, rs), parse).value;
    var ms := Singletons(recs);
    forall i | 0 <= i < |ms|
      ensures AllValid(ms[i])
    {
      assert ms[i] == Singleton(recs[i]);
    }
    MergedValid(ms);
    RunFromSucceedsIff(data, rs, parse, map[]);
    MergeMapsEmpty(Merged(ms));
  }

  /** With one thread no range is produced, so nothing is read and the report is empty. */
  lemma SingleThreadReportsNothing(data: seq<Byte>, parse: Parser)
    ensures Aggregated(data, 1, parse) == Ok(map[])
  {
    SingleThreadHasNoChunks(data);
  }

  /**
   * The file `a;1\nb;2\n` cut for two threads gives one range, which ends
   * before the second newline: the line `b;2` is that range's unterminated
   * tail and is never handed to `process_line`.
   */
  lemma CutRangeLosesItsLastLine()
    ensures var data: seq<Byte> := [97, 59, 49, 10, 98, 59, 50, 10];
      && Chunks(data, 2) == Ok([Range(0, 7)])
      && ProcessedLines(data, [Range(0, 7)]) == [[97, 59, 49]]
  {
    var data: seq<Byte> := [97, 59, 49, 10, 98, 59, 50, 10];
    assert FindFrom(NEWLINE, data, 6) == Some(7);
    assert FindFrom(NEWLINE, data, 4) == Some(7);
    assert ChunksFrom(data, 4, 8, 0) == Ok([]);
    var chunk := data[0..7];
    assert chunk == [97, 59, 49, 10, 98, 59, 50];
    assert FindFrom(NEWLINE, chunk, 2) == Some(3);
    assert FindFrom(NEWLINE, chunk, 0) == Some(3);
    assert FindFrom(NEWLINE, chunk, 6) == None;
    assert FindFrom(NEWLINE, chunk, 4) == None;
    assert Lines(chunk) == [chunk[0..3]] + LinesFrom(chunk, 4);
    assert [Range(0, 7)][1..] == [];
    var none: seq<Range> := [];
    assert [Range(0, 7)] + none == [Range(0, 7)];
    assert ProcessedLines(data, [Range(0, 7)]) == RangeLines(data, Range(0, 7));
    assert RangeLines(data, Range(0, 7)) == Lines(chunk);
    assert chunk[0..3] == [97, 59, 49];
  }

  /**
   * The well-formed file `a;10\nbb;2\n` cut for four threads: each range
   * runs past its approximate size to the next newline, so the third
   * boundary lies beyond the end of the buffer and `&data[end..]` panics.
   */
  lemma LongLinesOverrunTheBuffer()
    ensures Chunks([97, 59, 49, 48, 10, 98, 98, 59, 50, 10], 4) == Err(SliceOutOfBounds)
  {
    var data: seq<Byte> := [97, 59, 49, 48, 10, 98, 98, 59, 50, 10];
    assert FindFrom(NEWLINE, data, 2) == Some(4);
    assert FindFrom(NEWLINE, data, 7) == Some(9);
  }
}
