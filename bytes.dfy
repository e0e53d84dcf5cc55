/** Bytes of the input buffer and the `memchr` search over them. */
module Bytes {
  import opened Wrappers

  type Byte = bv8

  const NEWLINE: Byte := 10
  const SEMICOLON: Byte := 59

  /** `b` occurs nowhere in `s[lo..hi]`. */
  predicate AbsentIn(b: Byte, s: seq<Byte>, lo: int, hi: int) {
    forall j :: lo <= j < hi && 0 <= j < |s| ==> s[j] != b
  }

  /**
   * `memchr(b, &s[from..])`, counted from the start of `s`: the index of an
   * occurrence of `b` at or after `from`, or `None`; FindFromIsFirst shows it
   * is the first such occurrence. Successive calls, each from one past the
   * previous hit, are what `memchr_iter` yields.
   */
  function FindFrom(b: Byte, s: seq<Byte>, from: nat): (r: Option<nat>)
    ensures r.Some? ==> from <= r.value < |s| && s[r.value] == b
    decreases |s| - from
  {
    if from >= |s| then None
    else if s[from] == b then Some(from)
    else FindFrom(b, s, from + 1)
  }

  /** `memchr` finds the first occurrence, and finds none exactly when there is none. */
  lemma {:induction false} FindFromIsFirst(b: Byte, s: seq<Byte>, from: nat)
    ensures FindFrom(b, s, from).Some? ==> AbsentIn(b, s, from, FindFrom(b, s, from).value)
    ensures FindFrom(b, s, from).None? <==> AbsentIn(b, s, from, |s|)
    decreases |s| - from
  {
    if from < |s| && s[from] != b {
      FindFromIsFirst(b, s, from + 1);
    }
  }
}
