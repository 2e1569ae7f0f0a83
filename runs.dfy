/** Maximal runs of elements that satisfy a predicate, at either end of a sequence. */
module Runs {

  /** Length of the longest prefix of `s` whose every element satisfies `p`. */
  function PrefixRun<T>(s: seq<T>, p: T -> bool): (n: nat)
    ensures n <= |s|
    ensures forall i :: 0 <= i < n ==> p(s[i])
    ensures n < |s| ==> !p(s[n])
  {
    if s != [] && p(s[0]) then 1 + PrefixRun(s[1..], p) else 0
  }

  /** Start index of the longest suffix of `s` whose every element satisfies `p`. */
  function SuffixStart<T>(s: seq<T>, p: T -> bool): (n: nat)
    ensures n <= |s|
    ensures forall i :: n <= i < |s| ==> p(s[i])
    ensures 0 < n ==> !p(s[n - 1])
  {
    if s != [] && p(s[|s| - 1]) then SuffixStart(s[..|s| - 1], p) else |s|
  }

  /** A prefix length with the two defining properties is the maximal run. */
  lemma PrefixRunUnique<T>(s: seq<T>, p: T -> bool, n: nat)
    requires n <= |s|
    requires forall i :: 0 <= i < n ==> p(s[i])
    requires n < |s| ==> !p(s[n])
    ensures PrefixRun(s, p) == n
  {
  }

  /** A suffix start with the two defining properties is the maximal suffix's start. */
  lemma SuffixStartUnique<T>(s: seq<T>, p: T -> bool, n: nat)
    requires n <= |s|
    requires forall i :: n <= i < |s| ==> p(s[i])
    requires 0 < n ==> !p(s[n - 1])
    ensures SuffixStart(s, p) == n
  {
  }
}
