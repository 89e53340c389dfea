/** Relations between sequences used to state what a filter keeps. */
module Sequences {

  /** Order-preserving sub-sequence: `r` is `s` with some elements left out. */
  ghost predicate IsSubsequence<T>(r: seq<T>, s: seq<T>)
    decreases |s|
  {
    || r == []
    || (&& s != []
        && ((r[|r| - 1] == s[|s| - 1] && IsSubsequence(r[..|r| - 1], s[..|s| - 1]))
            || IsSubsequence(r, s[..|s| - 1])))
  }
}
