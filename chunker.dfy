/**
 * `get_chunks`: cut the input buffer into line-aligned `(start, end)` ranges,
 * one per worker but the last. Each cut starts at `start + len / n` and moves
 * forward to the first newline, which the range then excludes.
 */
module Chunker {
  import opened Wrappers
  import opened Errors
  import opened Bytes

  /** A half-open byte range `[start, end)` of the buffer. */
  datatype Range = Range(start: nat, end: nat)

  /** The prefix `p` in front of the ranges of `r`, when `r` succeeded. */
  function Prepend(p: seq<Range>, r: Result<seq<Range>, Error>): Result<seq<Range>, Error> {
    match r
    case Ok(rs) => Ok(p + rs)
    case Err(e) => Err(e)
  }

  lemma PrependNothing(r: Result<seq<Range>, Error>)
    ensures Prepend([], r) == r
  {
    if r.Ok? {
      assert [] + r.value == r.value;
    }
  }

  lemma PrependTwice(p: seq<Range>, q: seq<Range>, r: Result<seq<Range>, Error>)
    ensures Prepend(p + q, r) == Prepend(p, Prepend(q, r))
  {
    if r.Ok? {
      assert (p + q) + r.value == p + (q + r.value);
    }
  }

  /**
   * The ranges that `remaining` more turns of the loop push, from the
   * current `start` on, with the fixed approximate size `chunkSize`.
   */
  function ChunksFrom(data: seq<Byte>, chunkSize: nat, start: nat, remaining: nat): Result<seq<Range>, Error>
    decreases remaining
  {
    if remaining == 0 then Ok([])
    else
      var end := start + chunkSize;
      if end > |data| then Err(SliceOutOfBounds)
      else match FindFrom(NEWLINE, data, end)
        case Some(cut) =>
          Prepend([Range(start, cut)], ChunksFrom(data, chunkSize, cut + 1, remaining - 1))
        case None => Ok([Range(start, |data|)])
  }

  /** What `get_chunks(data, numThreads)` returns, or the panic it raises. */
  function Chunks(data: seq<Byte>, numThreads: nat): Result<seq<Range>, Error>
    requires numThreads >= 1
  {
    ChunksFrom(data, |data| / numThreads, 0, numThreads - 1)
  }

  /** One turn of the loop of `get_chunks` when `memchr` finds a newline. */
  lemma CutStep(data: seq<Byte>, chunkSize: nat, start: nat, remaining: nat, cut: nat, chunks: seq<Range>)
    requires remaining > 0 && start + chunkSize <= |data|
    requires FindFrom(NEWLINE, data, start + chunkSize) == Some(cut)
    ensures Prepend(chunks, ChunksFrom(data, chunkSize, start, remaining))
         == Prepend(chunks + [Range(start, cut)], ChunksFrom(data, chunkSize, cut + 1, remaining - 1))
  {
    PrependTwice(chunks, [Range(start, cut)], ChunksFrom(data, chunkSize, cut + 1, remaining - 1));
  }

  /** `get_chunks`, step by step as the Rust loop does it. */
  method GetChunks(data: seq<Byte>, numThreads: nat) returns (r: Result<seq<Range>, Error>)
    requires numThreads >= 1
    ensures r == Chunks(data, numThreads)
  {
    var chunkSize := |data| / numThreads;
    var chunks: seq<Range> := [];
    var start := 0;
    ghost var all := ChunksFrom(data, chunkSize, 0, numThreads - 1);
    PrependNothing(all);
    for i := 0 to numThreads - 1
      invariant all == Prepend(chunks, ChunksFrom(data, chunkSize, start, numThreads - 1 - i))
    {
      var end := start + chunkSize;
      if end > |data| {
        // `&data[end..]` panics
        return Err(SliceOutOfBounds);
      }
      match FindFrom(NEWLINE, data, end)
      case Some(cut) =>
        CutStep(data, chunkSize, start, numThreads - 1 - i, cut, chunks);
        chunks := chunks + [Range(start, cut)];
        start := cut + 1;
      case None =>
        chunks := chunks + [Range(start, |data|)];
        // `break`: the chunks so far are the result
        return Ok(chunks);
    }
    assert chunks + [] == chunks;
    return Ok(chunks);
  }

  /** A newline lies at `p` or later. */
  predicate NewlineFrom(data: seq<Byte>, p: nat) {
    !AbsentIn(NEWLINE, data, p, |data|)
  }

  /**
   * The cut of the `Some` branch: the range ends at the first newline at or
   * after the approximate boundary `start + chunkSize`, and excludes it.
   */
  predicate CutAtNewline(data: seq<Byte>, chunkSize: nat, r: Range) {
    && r.start + chunkSize <= r.end < |data|
    && data[r.end] == NEWLINE
    && AbsentIn(NEWLINE, data, r.start + chunkSize, r.end)
  }

  /**
   * Range `i` of `rs` is cut at a newline when one follows its approximate
   * boundary; otherwise it runs to the end of the buffer and is the last.
   */
  predicate CutOrLast(data: seq<Byte>, chunkSize: nat, rs: seq<Range>, i: nat)
    requires i < |rs|
  {
    if rs[i].start + chunkSize <= |data| && NewlineFrom(data, rs[i].start + chunkSize)
    then CutAtNewline(data, chunkSize, rs[i])
    else rs[i].end == |data| && i == |rs| - 1
  }

  /** The ranges lie inside the buffer, in order, each next one starting just past the previous end. */
  predicate Contiguous(data: seq<Byte>, rs: seq<Range>) {
    && (forall i :: 0 <= i < |rs| ==> rs[i].start <= rs[i].end <= |data|)
    && (forall i, j :: 0 <= i < |rs| && 0 <= j < |rs| && j == i + 1 ==> rs[j].start == rs[i].end + 1)
  }

  lemma {:induction false} ChunksFromCount(data: seq<Byte>, chunkSize: nat, start: nat, remaining: nat)
    requires ChunksFrom(data, chunkSize, start, remaining).Ok?
    ensures var rs := ChunksFrom(data, chunkSize, start, remaining).value;
      && |rs| <= remaining
      && (remaining > 0 ==> |rs| > 0 && rs[0].start == start)
      && (|rs| == remaining || (|rs| > 0 && rs[|rs| - 1].end == |data|))
    decreases remaining
  {
    if remaining > 0 {
      var cut := FindFrom(NEWLINE, data, start + chunkSize);
      if cut.Some? {
        ChunksFromCount(data, chunkSize, cut.value + 1, remaining - 1);
        var tail := ChunksFrom(data, chunkSize, cut.value + 1, remaining - 1).value;
        var rs := ChunksFrom(data, chunkSize, start, remaining).value;
        assert rs == [Range(start, cut.value)] + tail;
        if |tail| > 0 {
          assert rs[|rs| - 1] == tail[|tail| - 1];
        }
      }
    }
  }

  lemma {:induction false} ChunksFromContiguous(data: seq<Byte>, chunkSize: nat, start: nat, remaining: nat)
    requires start <= |data|
    requires ChunksFrom(data, chunkSize, start, remaining).Ok?
    ensures Contiguous(data, ChunksFrom(data, chunkSize, start, remaining).value)
    decreases remaining
  {
    if remaining > 0 {
      var rs := ChunksFrom(data, chunkSize, start, remaining).value;
      match FindFrom(NEWLINE, data, start + chunkSize)
      case Some(cut) =>
        ChunksFromContiguous(data, chunkSize, cut + 1, remaining - 1);
        ChunksFromCount(data, chunkSize, cut + 1, remaining - 1);
        var tail := ChunksFrom(data, chunkSize, cut + 1, remaining - 1).value;
        assert rs == [Range(start, cut)] + tail;
        forall i | 0 <= i < |rs|
          ensures rs[i].start <= rs[i].end <= |data|
        {
          if i > 0 {
            assert rs[i] == tail[i - 1];
          }
        }
        forall i, j | 0 <= i < |rs| && 0 <= j < |rs| && j == i + 1
          ensures rs[j].start == rs[i].end + 1
        {
          if i > 0 {
            assert rs[j] == tail[j - 1] && rs[i] == tail[i - 1];
          }
        }
      case None =>
    }
  }

  lemma CutOrLastShift(data: seq<Byte>, chunkSize: nat, head: Range, tail: seq<Range>, i: nat)
    requires 0 < i <= |tail|
    ensures CutOrLast(data, chunkSize, [head] + tail, i) == CutOrLast(data, chunkSize, tail, i - 1)
  {
    assert ([head] + tail)[i] == tail[i - 1];
  }

  lemma {:induction false} ChunksFromCuts(data: seq<Byte>, chunkSize: nat, start: nat, remaining: nat)
    requires start <= |data|
    requires ChunksFrom(data, chunkSize, start, remaining).Ok?
    ensures var rs := ChunksFrom(data, chunkSize, start, remaining).value;
      forall i :: 0 <= i < |rs| ==> CutOrLast(data, chunkSize, rs, i)
    decreases remaining
  {
    if remaining > 0 {
      var end := start + chunkSize;
      var rs := ChunksFrom(data, chunkSize, start, remaining).value;
      FindFromIsFirst(NEWLINE, data, end);
      match FindFrom(NEWLINE, data, end)
      case Some(cut) =>
        ChunksFromCuts(data, chunkSize, cut + 1, remaining - 1);
        var tail := ChunksFrom(data, chunkSize, cut + 1, remaining - 1).value;
        assert rs == [Range(start, cut)] + tail;
        forall i | 0 <= i < |rs|
          ensures CutOrLast(data, chunkSize, rs, i)
        {
          if i > 0 {
            CutOrLastShift(data, chunkSize, Range(start, cut), tail, i);
          }
        }
      case None =>
        assert rs == [Range(start, |data|)];
    }
  }

  /**
   * `get_chunks` yields contiguous ranges, the first at offset 0: exactly
   * `numThreads - 1` of them, or fewer only when the last one was taken to
   * the end of the buffer because no newline followed its boundary.
   */
  lemma ChunksAreContiguous(data: seq<Byte>, numThreads: nat)
    requires numThreads >= 1 && Chunks(data, numThreads).Ok?
    ensures var rs := Chunks(data, numThreads).value;
      && |rs| <= numThreads - 1
      && (|rs| == numThreads - 1 || (|rs| > 0 && rs[|rs| - 1].end == |data|))
      && (numThreads > 1 ==> |rs| > 0 && rs[0].start == 0)
      && Contiguous(data, rs)
  {
    ChunksFromCount(data, |data| / numThreads, 0, numThreads - 1);
    ChunksFromContiguous(data, |data| / numThreads, 0, numThreads - 1);
  }

  /**
   * Every range is cut at the first newline at or after its approximate
   * boundary and excludes it; only when no newline follows that boundary is
   * the range taken to the end of the buffer, and then it is the last one.
   */
  lemma ChunksCutAtNewlines(data: seq<Byte>, numThreads: nat)
    requires numThreads >= 1 && Chunks(data, numThreads).Ok?
    ensures var rs := Chunks(data, numThreads).value;
      forall i :: 0 <= i < |rs| ==> CutOrLast(data, |data| / numThreads, rs, i)
  {
    ChunksFromCuts(data, |data| / numThreads, 0, numThreads - 1);
  }

  /** With a single thread the loop runs zero times: no range at all. */
  lemma SingleThreadHasNoChunks(data: seq<Byte>)
    ensures Chunks(data, 1) == Ok([])
  {
  }

  /**
   * The only way `get_chunks` fails is the out-of-bounds slice `&data[end..]`,
   * when an approximate boundary lies past the end of the buffer.
   */
  lemma {:induction false} ChunksFromFailsOutOfBounds(data: seq<Byte>, chunkSize: nat, start: nat, remaining: nat)
    requires ChunksFrom(data, chunkSize, start, remaining).Err?
    ensures ChunksFrom(data, chunkSize, start, remaining).error == SliceOutOfBounds
    decreases remaining
  {
    var end := start + chunkSize;
    if end <= |data| {
      var cut := FindFrom(NEWLINE, data, end).value;
      ChunksFromFailsOutOfBounds(data, chunkSize, cut + 1, remaining - 1);
    }
  }
}
