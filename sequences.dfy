/** Joining a list of pieces with a separator, as `Vec::join` does (used by
    the formatter for its `",\n"` separators and by the reference token
    serialization of the parser for its commas). */
module Sequences {

  /** The pieces in order, with `sep` between each two neighbours. */
  function Join<T>(parts: seq<seq<T>>, sep: seq<T>): seq<T>
  {
    if |parts| == 0 then []
    else if |parts| == 1 then parts[0]
    else parts[0] + sep + Join(parts[1..], sep)
  }

  /** Joining a suffix of the pieces, one piece at a time. */
  lemma JoinFrom<T>(parts: seq<seq<T>>, sep: seq<T>, j: nat)
    requires j + 1 < |parts|
    ensures Join(parts[j..], sep) == parts[j] + sep + Join(parts[j + 1..], sep)
  {
    assert parts[j..][1..] == parts[j + 1..];
  }

  /** The last piece joined on its own. */
  lemma JoinLast<T>(parts: seq<seq<T>>, sep: seq<T>)
    requires |parts| > 0
    ensures Join(parts[|parts| - 1..], sep) == parts[|parts| - 1]
  {
    assert parts[|parts| - 1..] == [parts[|parts| - 1]];
  }

  /** Concatenation regroups. */
  lemma AppendAssoc<T>(a: seq<T>, b: seq<T>, c: seq<T>)
    ensures a + b + c == a + (b + c)
  {
  }

  /** `n` copies of `s` (Rust's `str::repeat`). */
  function Repeat<T>(s: seq<T>, n: nat): (r: seq<T>)
    ensures |r| == n * |s|
    ensures forall i :: 0 <= i < |r| ==> r[i] in s
  {
    if n == 0 then [] else s + Repeat(s, n - 1)
  }
}
