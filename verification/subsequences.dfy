/** Ordered selection from a fixed list: the shape of an error list that a
    validator accumulates by running its checks one after another. */
module Subsequences {

  /** `a` is `s` with some elements left out, the rest in their order. */
  predicate IsSubsequence<T(==)>(a: seq<T>, s: seq<T>)
    decreases |s|
  {
    if |a| == 0 then true
    else if |s| == 0 then false
    else if a[0] == s[0] then IsSubsequence(a[1..], s[1..])
    else IsSubsequence(a, s[1..])
  }
}
