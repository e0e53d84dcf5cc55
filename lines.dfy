/**
 * The worker's line loop: `memchr_iter(b'\n', chunk)` yields the newline
 * offsets in increasing order, and each line is `chunk[start..index]` with
 * `start` one past the previous newline (0 for the first line). What follows
 * the last newline is never handed on.
 */
module LineSplitter {
  import opened Wrappers
  import opened Bytes

  /** `s` holds no newline byte. */
  predicate NoNewline(s: seq<Byte>) {
    AbsentIn(NEWLINE, s, 0, |s|)
  }

  /** The lines handed to `process_line` once the scan stands at `start`. */
  function LinesFrom(chunk: seq<Byte>, start: nat): seq<seq<Byte>>
    requires start <= |chunk|
    decreases |chunk| - start
  {
    match FindFrom(NEWLINE, chunk, start)
    case None => []
    case Some(index) => [chunk[start..index]] + LinesFrom(chunk, index + 1)
  }

  /** The bytes after the last newline, which the loop never hands on. */
  function TailFrom(chunk: seq<Byte>, start: nat): seq<Byte>
    requires start <= |chunk|
    decreases |chunk| - start
  {
    match FindFrom(NEWLINE, chunk, start)
    case None => chunk[start..]
    case Some(index) => TailFrom(chunk, index + 1)
  }

  function Lines(chunk: seq<Byte>): seq<seq<Byte>> { LinesFrom(chunk, 0) }

  function Tail(chunk: seq<Byte>): seq<Byte> { TailFrom(chunk, 0) }

  /** Each line followed by its newline, one after the other. */
  function Joined(lines: seq<seq<Byte>>): seq<Byte> {
    if lines == [] then [] else lines[0] + ([NEWLINE] + Joined(lines[1..]))
  }

  lemma SplitAt(s: seq<Byte>, lo: nat, k: nat)
    requires lo <= k < |s|
    ensures s[lo..] == s[lo..k] + ([s[k]] + s[k + 1..])
  {
  }

  lemma {:induction false} LinesFromJoin(chunk: seq<Byte>, start: nat)
    requires start <= |chunk|
    ensures chunk[start..] == Joined(LinesFrom(chunk, start)) + TailFrom(chunk, start)
    decreases |chunk| - start
  {
    match FindFrom(NEWLINE, chunk, start)
    case None =>
      assert LinesFrom(chunk, start) == [];
    case Some(index) =>
      LinesFromJoin(chunk, index + 1);
      var line := chunk[start..index];
      var rest := LinesFrom(chunk, index + 1);
      assert LinesFrom(chunk, start) == [line] + rest;
      var tail := TailFrom(chunk, index + 1);
      assert ([line] + rest)[1..] == rest;
      SplitAt(chunk, start, index);
      calc {
        Joined(LinesFrom(chunk, start)) + TailFrom(chunk, start);
        Joined([line] + rest) + tail;
        (line + ([NEWLINE] + Joined(rest))) + tail;
        { assert (line + ([NEWLINE] + Joined(rest))) + tail == line + (([NEWLINE] + Joined(rest)) + tail); }
        line + (([NEWLINE] + Joined(rest)) + tail);
        { assert ([NEWLINE] + Joined(rest)) + tail == [NEWLINE] + (Joined(rest) + tail); }
        line + ([NEWLINE] + (Joined(rest) + tail));
        line + ([NEWLINE] + chunk[index + 1..]);
        chunk[start..];
      }
  }

  lemma {:induction false} LinesFromNoNewline(chunk: seq<Byte>, start: nat)
    requires start <= |chunk|
    ensures forall i :: 0 <= i < |LinesFrom(chunk, start)| ==> NoNewline(LinesFrom(chunk, start)[i])
    decreases |chunk| - start
  {
    FindFromIsFirst(NEWLINE, chunk, start);
    match FindFrom(NEWLINE, chunk, start)
    case None =>
    case Some(index) =>
      LinesFromNoNewline(chunk, index + 1);
      var rest := LinesFrom(chunk, index + 1);
      assert LinesFrom(chunk, start) == [chunk[start..index]] + rest;
      forall i | 0 <= i < |LinesFrom(chunk, start)|
        ensures NoNewline(LinesFrom(chunk, start)[i])
      {
        if i > 0 {
          assert LinesFrom(chunk, start)[i] == rest[i - 1];
        }
      }
  }

  lemma {:induction false} TailFromNoNewline(chunk: seq<Byte>, start: nat)
    requires start <= |chunk|
    ensures NoNewline(TailFrom(chunk, start))
    decreases |chunk| - start
  {
    FindFromIsFirst(NEWLINE, chunk, start);
    match FindFrom(NEWLINE, chunk, start)
    case None =>
    case Some(index) =>
      TailFromNoNewline(chunk, index + 1);
  }

  /**
   * The lines are exactly the newline-free segments between successive
   * newlines, in order: the chunk is the lines, each followed by a newline,
   * and then a newline-free tail that is not processed.
   */
  lemma LinesSplitChunk(chunk: seq<Byte>)
    ensures chunk == Joined(Lines(chunk)) + Tail(chunk)
    ensures forall i :: 0 <= i < |Lines(chunk)| ==> NoNewline(Lines(chunk)[i])
    ensures NoNewline(Tail(chunk))
  {
    LinesFromJoin(chunk, 0);
    LinesFromNoNewline(chunk, 0);
    TailFromNoNewline(chunk, 0);
  }

  /** Nothing is left unprocessed exactly when the chunk is empty or ends in a newline. */
  lemma {:induction false} TailEmptyIffTerminated(chunk: seq<Byte>)
    ensures Tail(chunk) == [] <==> (chunk == [] || chunk[|chunk| - 1] == NEWLINE)
  {
    LinesSplitChunk(chunk);
    var lines := Lines(chunk);
    if lines != [] {
      JoinedEndsInNewline(lines);
    }
    if Tail(chunk) != [] {
      assert chunk[|chunk| - 1] == Tail(chunk)[|Tail(chunk)| - 1];
    }
  }

  lemma {:induction false} JoinedEndsInNewline(lines: seq<seq<Byte>>)
    requires lines != []
    ensures |Joined(lines)| > 0 && Joined(lines)[|Joined(lines)| - 1] == NEWLINE
  {
    if lines[1..] != [] {
      JoinedEndsInNewline(lines[1..]);
    }
  }
}
