/** The static `ALPHA` table: membership of the 52 ASCII letters. */
module Alpha {

  /** What `ALPHA.get(c)` answers: `c` is one of `a`-`z` or `A`-`Z`. */
  predicate IsAsciiLetter(c: char)
  {
    'a' <= c <= 'z' || 'A' <= c <= 'Z'
  }

  /** Lookup in a bit table; like a bit set, indices past the table's end read as unset. */
  function TableGet(table: seq<bool>, c: char): bool
  {
    c as int < |table| && table[c as int]
  }

  /**
   * The static initializer: a 256-entry table, initially clear, with the
   * lower-case range and then the upper-case range set.
   */
  method BuildAlphaTable() returns (alpha: array<bool>)
    ensures fresh(alpha) && alpha.Length == 256
    ensures forall i :: 0 <= i < 256 ==> alpha[i] == IsAsciiLetter(i as char)
  {
    alpha := new bool[256](_ => false);
    for i := 'a' as int to 'z' as int + 1
      invariant forall j :: 0 <= j < 256 ==> alpha[j] == ('a' as int <= j < i)
    {
      alpha[i] := true;
    }
    for i := 'A' as int to 'Z' as int + 1
      invariant forall j :: 0 <= j < 256 ==>
        alpha[j] == (('a' as int <= j <= 'z' as int) || ('A' as int <= j < i))
    {
      alpha[i] := true;
    }
  }

  /** Looking a character up in the built table is exactly the letter predicate, for every character. */
  lemma TableGetIsAsciiLetter(table: seq<bool>, c: char)
    requires |table| == 256
    requires forall i :: 0 <= i < 256 ==> table[i] == IsAsciiLetter(i as char)
    ensures TableGet(table, c) == IsAsciiLetter(c)
  {
    if c as int < 256 {
      assert table[c as int] == IsAsciiLetter((c as int) as char);
    }
  }
}
