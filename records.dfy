/**
 * `process_line` and the worker that feeds it: split a line at its first
 * `;` into key and reading, then insert the key with a fresh measurement or
 * fold the reading into the one it has.
 */
module Records {
  import opened Wrappers
  import opened Errors
  import opened Bytes
  import opened KeyOrder
  import opened Measurements
  import opened Merging
  import opened LineSplitter

  /** A parsed line: the key and the reading. */
  datatype Record = Record(key: Key, value: int)

  /** The number parser for the value bytes (`fast_float::parse`), given as a parameter. */
  type Parser = seq<Byte> -> Option<int>

  /** `s` holds no `;`. */
  predicate NoSemicolon(s: seq<Byte>) {
    AbsentIn(SEMICOLON, s, 0, |s|)
  }

  /** The parse step of `process_line`: key before the first `;`, reading after it. */
  function ParseLine(line: seq<Byte>, parse: Parser): Result<Record, Error> {
    match FindFrom(SEMICOLON, line, 0)
    case None => Err(MalformedRecord)
    case Some(index) =>
      match parse(line[index + 1..])
      case None => Err(InvalidNumber)
      case Some(v) => Ok(Record(line[..index], v))
  }

  /**
   * A line without `;` is malformed; otherwise the key is everything before
   * the first `;` and the reading is parsed from everything after it.
   */
  lemma ParseLineSplits(line: seq<Byte>, parse: Parser)
    ensures ParseLine(line, parse) == Err(MalformedRecord) <==> NoSemicolon(line)
    ensures ParseLine(line, parse).Ok? ==>
      var key := ParseLine(line, parse).value.key;
      && |key| < |line| && line[..|key|] == key && line[|key|] == SEMICOLON
      && NoSemicolon(key)
      && parse(line[|key| + 1..]) == Some(ParseLine(line, parse).value.value)
  {
    FindFromIsFirst(SEMICOLON, line, 0);
    if FindFrom(SEMICOLON, line, 0).Some? {
      var index := FindFrom(SEMICOLON, line, 0).value;
      assert forall j :: 0 <= j < index ==> line[..index][j] == line[j];
    }
  }

  /**
   * The round trip: a line written as `key;text`, with no `;` in the key,
   * parses back to that key and to whatever the number parser makes of `text`.
   */
  lemma ParseFormattedLine(key: Key, text: seq<Byte>, parse: Parser)
    requires NoSemicolon(key)
    ensures ParseLine(key + [SEMICOLON] + text, parse)
      == (match parse(text) case Some(v) => Ok(Record(key, v)) case None => Err(InvalidNumber))
  {
    var line := key + [SEMICOLON] + text;
    FindFromIsFirst(SEMICOLON, line, 0);
    assert line[|key|] == SEMICOLON;
    assert AbsentIn(SEMICOLON, line, 0, |key|) by {
      forall j | 0 <= j < |key|
        ensures line[j] != SEMICOLON
      {
        assert line[j] == key[j];
      }
    }
    assert FindFrom(SEMICOLON, line, 0) == Some(|key|);
    assert line[|key| + 1..] == text;
    assert line[..|key|] == key;
  }

  /** The one-entry map of a record: its key with the measurement of its single reading. */
  function Singleton(rec: Record): Stats {
    map[rec.key := Single(rec.value)]
  }

  /**
   * The map step of `process_line`: an absent key is inserted with the
   * measurement of this one reading; a present key gets the reading folded
   * in by `update_measurement`, whose `u32` increment overflows at `u32::MAX`.
   */
  function Observe(m: Stats, rec: Record): (r: Result<Stats, Error>)
    requires CountsFit(m)
    ensures r.Err? <==> rec.key in m && m[rec.key].count == U32_MAX
    ensures r.Err? ==> r.error == CountOverflow
    ensures r.Ok? ==> CountsFit(r.value) && (AllValid(m) ==> AllValid(r.value))
  {
    if rec.key in m then
      if m[rec.key].count == U32_MAX then Err(CountOverflow)
      else Ok(m[rec.key := UpdateMeasurement(m[rec.key], rec.value)])
    else Ok(m[rec.key := Single(rec.value)])
  }

  /**
   * Observing a record is merging its one-entry map into the accumulator:
   * only the record's key is touched, and its count goes up by one.
   */
  lemma ObserveIsMerge(m: Stats, rec: Record)
    requires CountsFit(m)
    requires Observe(m, rec).Ok?
    ensures Observe(m, rec).value == MergeMaps(m, Singleton(rec))
    ensures var r := Observe(m, rec).value;
      && r.Keys == m.Keys + {rec.key}
      && (forall k :: k in m && k != rec.key ==> r[k] == m[k])
      && r[rec.key].count == (if rec.key in m then m[rec.key].count else 0) + 1
  {
  }

  /** `process_line` on an accumulator `m`, as a value. */
  function ApplyLine(m: Stats, line: seq<Byte>, parse: Parser): (r: Result<Stats, Error>)
    requires CountsFit(m)
    ensures r.Ok? ==> CountsFit(r.value) && (AllValid(m) ==> AllValid(r.value))
  {
    match ParseLine(line, parse)
    case Err(e) => Err(e)
    case Ok(rec) => Observe(m, rec)
  }

  /** `process_line` on each line in turn; the first failure ends the run. */
  function ApplyLines(m: Stats, lines: seq<seq<Byte>>, parse: Parser): Result<Stats, Error>
    requires CountsFit(m)
    decreases |lines|
  {
    if lines == [] then Ok(m)
    else match ApplyLine(m, lines[0], parse)
      case Err(e) => Err(e)
      case Ok(m') => ApplyLines(m', lines[1..], parse)
  }

  /** The records of the lines, or the failure of the first line that does not parse. */
  function ParseLines(lines: seq<seq<Byte>>, parse: Parser): Result<seq<Record>, Error>
    decreases |lines|
  {
    if lines == [] then Ok([])
    else match ParseLine(lines[0], parse)
      case Err(e) => Err(e)
      case Ok(rec) =>
        match ParseLines(lines[1..], parse)
        case Err(e) => Err(e)
        case Ok(recs) => Ok([rec] + recs)
  }

  /** The one-entry map of each record. */
  function Singletons(recs: seq<Record>): (r: seq<Stats>)
    ensures |r| == |recs| && forall i :: 0 <= i < |recs| ==> r[i] == Singleton(recs[i])
  {
    seq(|recs|, i requires 0 <= i < |recs| => Singleton(recs[i]))
  }

  /**
   * Accumulating lines one by one is merging the one-reading measurement of
   * each line into the starting map: when no line fails, every line parses
   * and the result is the fold of their singletons.
   */
  lemma {:induction false} ApplyLinesIsMerge(m: Stats, lines: seq<seq<Byte>>, parse: Parser)
    requires CountsFit(m)
    requires ApplyLines(m, lines, parse).Ok?
    ensures ParseLines(lines, parse).Ok?
    ensures ApplyLines(m, lines, parse).value == MergedFrom(m, Singletons(ParseLines(lines, parse).value))
    decreases |lines|
  {
    if lines != [] {
      var rec := ParseLine(lines[0], parse).value;
      var m' := Observe(m, rec).value;
      ObserveIsMerge(m, rec);
      ApplyLinesIsMerge(m', lines[1..], parse);
      var recs := ParseLines(lines[1..], parse).value;
      SingletonsCons(rec, recs);
    }
  }

  lemma SingletonsCons(rec: Record, recs: seq<Record>)
    ensures Singletons([rec] + recs)[0] == Singleton(rec)
    ensures Singletons([rec] + recs)[1..] == Singletons(recs)
  {
  }

  /**
   * When every line parses, accumulation fails exactly when some key would
   * be counted past `u32::MAX`.
   */
  lemma {:induction false} ApplyLinesSucceedsIff(m: Stats, lines: seq<seq<Byte>>, parse: Parser)
    requires CountsFit(m)
    requires ParseLines(lines, parse).Ok?
    ensures ApplyLines(m, lines, parse).Ok?
      <==> CountsFit(MergedFrom(m, Singletons(ParseLines(lines, parse).value)))
    ensures ApplyLines(m, lines, parse).Err? ==> ApplyLines(m, lines, parse).error == CountOverflow
    decreases |lines|
  {
    if lines != [] {
      var rec := ParseLine(lines[0], parse).value;
      var recs := ParseLines(lines[1..], parse).value;
      SingletonsCons(rec, recs);
      var next := MergeMaps(m, Singleton(rec));
      assert MergedFrom(m, Singletons([rec] + recs)) == MergedFrom(next, Singletons(recs));
      match Observe(m, rec)
      case Err(_) =>
        assert next[rec.key].count == U32_MAX + 1;
        MergedFromKeepsOverflow(next, Singletons(recs));
      case Ok(m') =>
        ObserveIsMerge(m, rec);
        ApplyLinesSucceedsIff(m', lines[1..], parse);
    }
  }

  /** Parsing two runs of lines one after the other. */
  lemma {:induction false} ParseLinesAppend(a: seq<seq<Byte>>, b: seq<seq<Byte>>, parse: Parser)
    ensures ParseLines(a + b, parse).Ok? <==> ParseLines(a, parse).Ok? && ParseLines(b, parse).Ok?
    ensures ParseLines(a + b, parse).Ok? ==>
      ParseLines(a + b, parse).value == ParseLines(a, parse).value + ParseLines(b, parse).value
    decreases |a|
  {
    if a == [] {
      assert a + b == b;
    } else {
      assert (a + b)[0] == a[0];
      assert (a + b)[1..] == a[1..] + b;
      ParseLinesAppend(a[1..], b, parse);
    }
  }

  /** The one-entry maps of two runs of records. */
  lemma SingletonsAppend(a: seq<Record>, b: seq<Record>)
    ensures Singletons(a + b) == Singletons(a) + Singletons(b)
  {
  }

  /** The fold of the records' singletons fits `u32` exactly when no key has more than `u32::MAX` records. */
  lemma CountsFitIff(recs: seq<Record>)
    ensures CountsFit(Merged(Singletons(recs)))
      <==> forall i :: 0 <= i < |recs| ==> CountKey(recs, recs[i].key) <= U32_MAX
  {
    var m := Merged(Singletons(recs));
    if CountsFit(m) {
      forall i | 0 <= i < |recs|
        ensures CountKey(recs, recs[i].key) <= U32_MAX
      {
        KeyStatistics(recs, recs[i].key);
      }
    } else {
      var k :| k in m && m[k].count > U32_MAX;
      KeyStatistics(recs, k);
    }
  }

  /** Accumulation keeps every measurement valid and every count within `u32`. */
  lemma {:induction false} ApplyLinesKeepsInvariants(m: Stats, lines: seq<seq<Byte>>, parse: Parser)
    requires AllValid(m) && CountsFit(m)
    requires ApplyLines(m, lines, parse).Ok?
    ensures AllValid(ApplyLines(m, lines, parse).value)
    ensures CountsFit(ApplyLines(m, lines, parse).value)
    decreases |lines|
  {
    if lines != [] {
      var m' := ApplyLine(m, lines[0], parse).value;
      ApplyLinesKeepsInvariants(m', lines[1..], parse);
    }
  }

  /** The number of records with key `k`. */
  function CountKey(recs: seq<Record>, k: Key): nat
    decreases |recs|
  {
    if recs == [] then 0 else (if recs[0].key == k then 1 else 0) + CountKey(recs[1..], k)
  }

  /** The sum of the readings of the records with key `k`. */
  function SumKey(recs: seq<Record>, k: Key): int
    decreases |recs|
  {
    if recs == [] then 0 else (if recs[0].key == k then recs[0].value else 0) + SumKey(recs[1..], k)
  }

  /** Over singletons, the total count of a key counts its records and the total sum adds their readings. */
  lemma {:induction false} SingletonTotals(recs: seq<Record>, k: Key)
    ensures TotalCount(Singletons(recs), k) == CountKey(recs, k)
    ensures TotalSum(Singletons(recs), k) == SumKey(recs, k)
    decreases |recs|
  {
    if recs != [] {
      SingletonTotals(recs[1..], k);
      assert Singletons(recs)[1..] == Singletons(recs[1..]);
    }
  }

  /**
   * What one key's measurement is after the records `recs` are folded in
   * from empty: present exactly when some record has the key; its count is
   * the number of such records, its sum their total, and its min and max the
   * least and greatest of their readings.
   */
  lemma KeyStatistics(recs: seq<Record>, k: Key)
    ensures var m := Merged(Singletons(recs));
      && (k in m <==> exists i :: 0 <= i < |recs| && recs[i].key == k)
      && (k in m ==>
            && m[k].count == CountKey(recs, k)
            && m[k].sum == SumKey(recs, k)
            && (forall i :: 0 <= i < |recs| && recs[i].key == k ==> m[k].min <= recs[i].value <= m[k].max)
            && (exists i :: 0 <= i < |recs| && recs[i].key == k && m[k].min == recs[i].value)
            && (exists i :: 0 <= i < |recs| && recs[i].key == k && m[k].max == recs[i].value))
  {
    KeyPresence(recs, k);
    if k in Merged(Singletons(recs)) {
      MergedTotals(Singletons(recs), k);
      SingletonTotals(recs, k);
      KeyExtremes(recs, k);
    }
  }

  lemma KeyPresence(recs: seq<Record>, k: Key)
    ensures k in Merged(Singletons(recs)) <==> exists i :: 0 <= i < |recs| && recs[i].key == k
  {
    var ms := Singletons(recs);
    MergedKeys(ms, k);
    if exists i :: 0 <= i < |recs| && recs[i].key == k {
      var i :| 0 <= i < |recs| && recs[i].key == k;
      assert k in ms[i];
    }
  }

  lemma KeyExtremes(recs: seq<Record>, k: Key)
    requires k in Merged(Singletons(recs))
    ensures var m := Merged(Singletons(recs))[k];
      && (forall i :: 0 <= i < |recs| && recs[i].key == k ==> m.min <= recs[i].value <= m.max)
      && (exists i :: 0 <= i < |recs| && recs[i].key == k && m.min == recs[i].value)
      && (exists i :: 0 <= i < |recs| && recs[i].key == k && m.max == recs[i].value)
  {
    var ms := Singletons(recs);
    MergedMinMax(ms, k);
    var m := Merged(ms)[k];
    forall i | 0 <= i < |recs| && recs[i].key == k
      ensures m.min <= recs[i].value <= m.max
    {
      assert k in ms[i];
    }
    var i :| 0 <= i < |ms| && k in ms[i] && m.min == ms[i][k].min;
    var j :| 0 <= j < |ms| && k in ms[j] && m.max == ms[j][k].max;
    assert recs[i].key == k && recs[j].key == k;
  }

  /** The hash map a worker fills, updated in place by `process_line`. */
  class ChunkAccumulator {
    var entries: Stats

    /** Every measurement is well formed and every count fits its `u32`. */
    predicate Valid()
      reads this
    {
      AllValid(entries) && CountsFit(entries)
    }

    constructor ()
      ensures Valid() && entries == map[]
    {
      entries := map[];
    }

    /** `process_line(line, &mut accumulator)`; on failure the run aborts. */
    method ProcessLine(line: seq<Byte>, parse: Parser) returns (outcome: Outcome<Error>)
      requires Valid()
      modifies this
      ensures Valid()
      ensures ApplyLine(old(entries), line, parse)
           == if outcome.Pass? then Ok(entries) else Err(outcome.error)
    {
      var index := FindFrom(SEMICOLON, line, 0);
      if index.None? {
        return Fail(MalformedRecord);
      }
      var key := line[..index.value];
      var temperature := parse(line[index.value + 1..]);
      if temperature.None? {
        return Fail(InvalidNumber);
      }
      var v := temperature.value;
      if key in entries {
        var measurement := entries[key];
        if measurement.count == U32_MAX {
          return Fail(CountOverflow);
        }
        entries := entries[key := UpdateMeasurement(measurement, v)];
      } else {
        entries := entries[key := Measurement(v, v, v, 1)];
      }
      return Pass;
    }
  }

  /** One turn of the worker loop: the line up to the next newline, then the lines after it. */
  lemma ApplyLinesStep(m: Stats, chunk: seq<Byte>, start: nat, index: nat, parse: Parser)
    requires CountsFit(m)
    requires FindFrom(NEWLINE, chunk, start) == Some(index)
    ensures ApplyLine(m, chunk[start..index], parse).Err? ==>
      ApplyLines(m, LinesFrom(chunk, start), parse) == Err(ApplyLine(m, chunk[start..index], parse).error)
    ensures ApplyLine(m, chunk[start..index], parse).Ok? ==>
      ApplyLines(m, LinesFrom(chunk, start), parse)
        == ApplyLines(ApplyLine(m, chunk[start..index], parse).value, LinesFrom(chunk, index + 1), parse)
  {
    var lines := LinesFrom(chunk, start);
    assert lines == [chunk[start..index]] + LinesFrom(chunk, index + 1);
    assert lines[1..] == LinesFrom(chunk, index + 1);
  }

  /**
   * The body of one worker thread: walk the newline offsets of the chunk and
   * hand each line to `process_line`, then give back the accumulator.
   */
  method ScanChunk(chunk: seq<Byte>, parse: Parser) returns (r: Result<Stats, Error>)
    ensures r == ApplyLines(map[], Lines(chunk), parse)
  {
    var accumulator := new ChunkAccumulator();
    ghost var goal := ApplyLines(map[], Lines(chunk), parse);
    var start := 0;
    var next := FindFrom(NEWLINE, chunk, start);
    while next.Some?
      invariant start <= |chunk| && next == FindFrom(NEWLINE, chunk, start)
      invariant accumulator.Valid()
      invariant goal == ApplyLines(accumulator.entries, LinesFrom(chunk, start), parse)
      decreases |chunk| - start
    {
      var index := next.value;
      ghost var before := accumulator.entries;
      ApplyLinesStep(before, chunk, start, index, parse);
      var outcome := accumulator.ProcessLine(chunk[start..index], parse);
      if outcome.Fail? {
        return Err(outcome.error);
      }
      start := index + 1;
      next := FindFrom(NEWLINE, chunk, start);
    }
    assert LinesFrom(chunk, start) == [];
    return Ok(accumulator.entries);
  }
}
