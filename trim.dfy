/**
 * The "Trim" rule as a function on strings: drop leading and trailing
 * control characters and spaces, then drop every stray TAB, CR and LF.
 */
module TrimSpec {
  import opened Runs

  /** A control character or space: code point at most 0x20. */
  predicate IsBlank(c: char)
  {
    c <= ' '
  }

  /** The three characters removed from inside the string. */
  predicate IsStray(c: char)
  {
    c == '\n' || c == '\r' || c == '\t'
  }

  /** `s` with every stray character left out and the others kept in order. */
  function RemoveStray(s: seq<char>): (r: seq<char>)
    ensures |r| <= |s|
    ensures forall i :: 0 <= i < |r| ==> !IsStray(r[i])
  {
    if s == [] then []
    else RemoveStray(s[..|s| - 1]) + (if IsStray(s[|s| - 1]) then [] else [s[|s| - 1]])
  }

  /** The trimmed string: the slice between the blank prefix and the blank suffix, stray characters removed. */
  function Trim(s: seq<char>): (r: seq<char>)
    ensures |r| <= |s|
    ensures forall i :: 0 <= i < |r| ==> !IsStray(r[i])
  {
    var st := PrefixRun(s, IsBlank);
    if st == |s| then []
    else
      var len := SuffixStart(s, IsBlank);
      assert !IsBlank(s[st]);
      RemoveStray(s[st..len])
  }

  /** A string `Trim` leaves as it is: no blank at either end and no stray character anywhere. */
  predicate IsClean(s: seq<char>)
  {
    && (s == [] || (!IsBlank(s[0]) && !IsBlank(s[|s| - 1])))
    && forall i :: 0 <= i < |s| ==> !IsStray(s[i])
  }

  /** Removing stray characters distributes over concatenation: the survivors keep their order. */
  lemma {:induction false} RemoveStrayAppend(a: seq<char>, b: seq<char>)
    ensures RemoveStray(a + b) == RemoveStray(a) + RemoveStray(b)
  {
    if b == [] {
      assert a + b == a;
    } else {
      var b' := b[..|b| - 1];
      RemoveStrayAppend(a, b');
      assert (a + b)[..|a + b| - 1] == a + b';
    }
  }

  /** Removing stray characters changes nothing exactly when there are none. */
  lemma {:induction false} RemoveStrayIdentity(s: seq<char>)
    ensures RemoveStray(s) == s <==> forall i :: 0 <= i < |s| ==> !IsStray(s[i])
  {
    if s != [] && forall i :: 0 <= i < |s| ==> !IsStray(s[i]) {
      var s' := s[..|s| - 1];
      RemoveStrayIdentity(s');
      assert s' + [s[|s| - 1]] == s;
    }
  }

  /** Removal that keeps every character removed nothing. */
  lemma {:induction false} RemoveStrayLength(s: seq<char>)
    ensures |RemoveStray(s)| == |s| ==> RemoveStray(s) == s
  {
    if s != [] {
      var s' := s[..|s| - 1];
      RemoveStrayLength(s');
      assert s' + [s[|s| - 1]] == s;
    }
  }

  /** [st, len) skips exactly the blank prefix and the blank suffix of `s`. */
  predicate TrimBounds(s: seq<char>, st: nat, len: nat)
  {
    && st <= len <= |s|
    && (forall i :: 0 <= i < st ==> IsBlank(s[i]))
    && (forall i :: len <= i < |s| ==> IsBlank(s[i]))
    && (st < len ==> !IsBlank(s[st]) && !IsBlank(s[len - 1]))
  }

  /** `Trim` is the filtered slice [st, len) for any boundaries that skip exactly the blanks at both ends. */
  lemma TrimIsFilteredSlice(s: seq<char>, st: nat, len: nat)
    requires TrimBounds(s, st, len)
    ensures Trim(s) == RemoveStray(s[st..len])
  {
    if st == len {
      PrefixRunUnique(s, IsBlank, |s|);
    } else {
      PrefixRunUnique(s, IsBlank, st);
      SuffixStartUnique(s, IsBlank, len);
    }
  }

  /** The result is empty, or its first and last characters are both above 0x20. */
  lemma TrimBoundaries(s: seq<char>)
    ensures var r := Trim(s); r == [] || (!IsBlank(r[0]) && !IsBlank(r[|r| - 1]))
  {
    var st := PrefixRun(s, IsBlank);
    if st < |s| {
      var t := s[st..SuffixStart(s, IsBlank)];
      assert !IsBlank(t[0]) && !IsBlank(t[|t| - 1]);
      assert [t[0]] + t[1..] == t;
      RemoveStrayAppend([t[0]], t[1..]);
      assert RemoveStray([t[0]]) == [t[0]];
    }
  }

  /** `Trim` returns its input exactly when the input is already clean. */
  lemma TrimIdentity(s: seq<char>)
    ensures Trim(s) == s <==> IsClean(s)
  {
    TrimBoundaries(s);
    if IsClean(s) {
      if s == [] {
        TrimIsFilteredSlice(s, 0, 0);
      } else {
        TrimIsFilteredSlice(s, 0, |s|);
        assert s[0..|s|] == s;
        RemoveStrayIdentity(s);
      }
    }
  }

  /** Trimming twice gives the same result as trimming once. */
  lemma TrimIdempotent(s: seq<char>)
    ensures Trim(Trim(s)) == Trim(s)
  {
    TrimBoundaries(s);
    assert IsClean(Trim(s));
    TrimIdentity(Trim(s));
  }
}
