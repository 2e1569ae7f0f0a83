/**
 * The authority-start rule and the drive-letter probe as functions on a
 * cursor snapshot, with the properties each branch guarantees.
 */
module AuthoritySpec {
  import opened Alpha
  import opened Runs
  import opened Parser

  predicate IsSlash(c: char)
  {
    c == '/' || c == '\\'
  }

  /** Number of `/` or `\` characters in a row from the cursor's position. */
  function LeadingSlashCount(c: Cursor): (n: nat)
    requires c.Valid()
    ensures n <= c.Remaining()
    ensures forall i :: c.position <= i < c.position + n ==> IsSlash(c.buf[i])
    ensures n < c.Remaining() ==> !IsSlash(c.buf[c.position + n])
  {
    var rest := c.buf[c.position..];
    var n := PrefixRun(rest, IsSlash);
    assert forall i :: c.position <= i < |c.buf| ==> c.buf[i] == rest[i - c.position];
    n
  }

  /** A run length with the two defining properties is the leading slash count. */
  lemma LeadingSlashCountUnique(c: Cursor, n: nat)
    requires c.Valid() && n <= c.Remaining()
    requires forall i :: c.position <= i < c.position + n ==> IsSlash(c.buf[i])
    requires n < c.Remaining() ==> !IsSlash(c.buf[c.position + n])
    ensures LeadingSlashCount(c) == n
  {
    var rest := c.buf[c.position..];
    assert forall i :: 0 <= i < n ==> rest[i] == c.buf[c.position + i];
    PrefixRunUnique(rest, IsSlash, n);
  }

  /** An ASCII letter followed by `:` or `|` at `offset` from the cursor's position. */
  predicate IsDriveLetterAt(c: Cursor, offset: nat)
    requires c.Valid()
  {
    && offset + 1 < c.Remaining()
    && IsAsciiLetter(c.buf[c.position + offset])
    && (c.buf[c.position + offset + 1] == ':' || c.buf[c.position + offset + 1] == '|')
  }

  datatype Probe = Probe(found: bool, buf: seq<char>)

  /** The drive-letter probe: whether one was found, and the buffer after a `|` separator became `:`. */
  function DriveProbe(c: Cursor, offset: nat): (p: Probe)
    requires c.Valid()
    ensures p.found <==> IsDriveLetterAt(c, offset)
    ensures |p.buf| == |c.buf|
    ensures forall i :: 0 <= i < |c.buf| && i != c.position + offset + 1 ==> p.buf[i] == c.buf[i]
    ensures p.found ==> p.buf[c.position + offset + 1] == ':'
    ensures !p.found || c.buf[c.position + offset + 1] == ':' ==> p.buf == c.buf
  {
    var at := c.position + offset;
    if offset + 1 < c.Remaining() && IsAsciiLetter(c.buf[at]) then
      if c.buf[at + 1] == ':' then Probe(true, c.buf)
      else if c.buf[at + 1] == '|' then Probe(true, c.buf[at + 1 := ':'])
      else Probe(false, c.buf)
    else Probe(false, c.buf)
  }

  /** The cursor with its buffer replaced by the probe's; the probe's answer is dropped. */
  function WithProbe(c: Cursor, offset: nat): Cursor
    requires c.Valid()
  {
    c.(buf := DriveProbe(c, offset).buf)
  }

  /** The state after the authority-start rule ran on `c` under `scheme`. */
  function AuthorityStep(c: Cursor, scheme: Option<SchemeType>): (r: Cursor)
    requires c.Valid()
    ensures r.Valid() && |r.buf| == |c.buf|
    ensures c.position <= r.position
    ensures c.hasAuthority || c.Remaining() == 0 ==> r == c
  {
    if c.hasAuthority || c.Remaining() < 1 then c
    else
      var n := LeadingSlashCount(c);
      if scheme == Some(File) then
        if n < 2 then WithProbe(c.(hasAuthority := false), 0)
        else if n == 2 then WithProbe(c.(hasAuthority := true, position := c.position + 2), 0)
        else WithProbe(c.(hasAuthority := true, position := c.position + n - 1), 1)
      else if scheme == None && DriveProbe(c, n).found then
        c.(buf := DriveProbe(c, n).buf,
           position := c.position + (if n > 0 then n - 1 else 0),
           hasAuthority := n >= 2)
      else if n >= 2 then c.(hasAuthority := true, position := c.position + 2)
      else c
  }

  /** The probe rewrites no character other than a `|` into `:`. */
  lemma DriveProbeRewritesOnlySeparator(c: Cursor, offset: nat)
    requires c.Valid()
    ensures var p := DriveProbe(c, offset);
      forall i :: 0 <= i < |c.buf| && p.buf[i] != c.buf[i] ==> c.buf[i] == '|' && p.buf[i] == ':'
  {
  }

  /** The rule rewrites no character other than a `|` into `:`. */
  lemma AuthorityStepRewritesOnlySeparators(c: Cursor, scheme: Option<SchemeType>)
    requires c.Valid()
    ensures var r := AuthorityStep(c, scheme);
      forall i :: 0 <= i < |c.buf| && r.buf[i] != c.buf[i] ==> c.buf[i] == '|' && r.buf[i] == ':'
  {
    var r := AuthorityStep(c, scheme);
    if !c.hasAuthority && c.Remaining() > 0 {
      var n := LeadingSlashCount(c);
      var d := if scheme != Some(File) then c
        else if n < 2 then c.(hasAuthority := false)
        else if n == 2 then c.(hasAuthority := true, position := c.position + 2)
        else c.(hasAuthority := true, position := c.position + n - 1);
      var offset := if scheme != Some(File) then n else if n > 2 then 1 else 0;
      assert r.buf == c.buf || r.buf == DriveProbe(d, offset).buf;
      DriveProbeRewritesOnlySeparator(d, offset);
    }
  }

  /** Under `file`: fewer than two slashes means no authority and no advance; two are consumed; of more, all but one. */
  lemma FileSchemeBranches(c: Cursor)
    requires c.Valid() && !c.hasAuthority && c.Remaining() > 0
    ensures var n := LeadingSlashCount(c); var r := AuthorityStep(c, Some(File));
      && (n < 2 ==> !r.hasAuthority && r.position == c.position
                    && r.buf == DriveProbe(c, 0).buf)
      && (n == 2 ==> r.hasAuthority && r.position == c.position + 2
                     && r.buf == DriveProbe(c.(position := c.position + 2), 0).buf)
      && (n > 2 ==> r.hasAuthority && r.position == c.position + n - 1
                    && r.buf == DriveProbe(c.(position := c.position + n - 1), 1).buf)
  {
  }

  /** Under `file` the rule is the drive-letter probe run on the cursor the slash count selects. */
  lemma FileStepIsProbe(c: Cursor, d: Cursor, offset: nat)
    requires c.Valid() && !c.hasAuthority && c.Remaining() > 0
    requires var n := LeadingSlashCount(c);
      && d.buf == c.buf
      && (n < 2 ==> !d.hasAuthority && d.position == c.position && offset == 0)
      && (n == 2 ==> d.hasAuthority && d.position == c.position + 2 && offset == 0)
      && (n > 2 ==> d.hasAuthority && d.position == c.position + n - 1 && offset == 1)
    ensures d.Valid() && AuthorityStep(c, Some(File)) == WithProbe(d, offset)
  {
  }

  /** Under `file` with more than two slashes, exactly one slash is left in front of the new position's next character. */
  lemma FileSchemeLeavesOneSlash(c: Cursor)
    requires c.Valid() && !c.hasAuthority && c.Remaining() > 0
    requires LeadingSlashCount(c) > 2
    ensures var r := AuthorityStep(c, Some(File));
      && IsSlash(r.buf[r.position])
      && (r.position + 1 == |r.buf| || !IsSlash(r.buf[r.position + 1]))
  {
    var n := LeadingSlashCount(c);
    var d := c.(hasAuthority := true, position := c.position + n - 1);
    var r := AuthorityStep(c, Some(File));
    assert r == WithProbe(d, 1);
    assert r.buf[r.position] == c.buf[c.position + n - 1];
    if r.position + 1 < |r.buf| {
      assert r.buf[r.position + 1] == c.buf[c.position + n];
    }
  }

  /** With no scheme yet and a drive letter after the slashes: advance by max(n - 1, 0); authority iff n >= 2. */
  lemma UnknownSchemeDriveLetter(c: Cursor)
    requires c.Valid() && !c.hasAuthority && c.Remaining() > 0
    requires IsDriveLetterAt(c, LeadingSlashCount(c))
    ensures var n := LeadingSlashCount(c); var r := AuthorityStep(c, None);
      && r.position == c.position + (if n >= 1 then n - 1 else 0)
      && r.hasAuthority == (n >= 2)
      && r.buf == DriveProbe(c, n).buf
  {
  }

  /**
   * Without the `file` scheme and without a drive-letter match on an
   * unknown scheme, two or more slashes consume exactly two; fewer change nothing.
   */
  lemma NoDriveLetterBranch(c: Cursor, scheme: Option<SchemeType>)
    requires c.Valid() && !c.hasAuthority && c.Remaining() > 0
    requires scheme != Some(File)
    requires scheme == None ==> !IsDriveLetterAt(c, LeadingSlashCount(c))
    ensures var n := LeadingSlashCount(c); var r := AuthorityStep(c, scheme);
      && (n >= 2 ==> r == c.(hasAuthority := true, position := c.position + 2))
      && (n < 2 ==> r == c)
  {
  }

  /** A known scheme other than `file` never has its buffer touched, drive letter or not. */
  lemma OtherSchemeLeavesBuffer(c: Cursor)
    requires c.Valid()
    ensures AuthorityStep(c, Some(Other)).buf == c.buf
  {
  }

  /** `L:` and `L|` are both drive letters, and probing `L|T` leaves the buffer reading `L:T`. */
  lemma DriveLetterSymmetry(pre: seq<char>, letter: char, tail: seq<char>, position: nat)
    requires IsAsciiLetter(letter) && position <= |pre|
    ensures var colon := Cursor(pre + [letter, ':'] + tail, position, false);
      var bar := Cursor(pre + [letter, '|'] + tail, position, false);
      && DriveProbe(colon, |pre| - position) == Probe(true, colon.buf)
      && DriveProbe(bar, |pre| - position) == Probe(true, colon.buf)
  {
    var bar := pre + [letter, '|'] + tail;
    assert bar[|pre| + 1 := ':'] == pre + [letter, ':'] + tail;
  }

  /** Probing again after a probe finds the same answer and changes nothing more. */
  lemma DriveProbeIdempotent(c: Cursor, offset: nat)
    requires c.Valid()
    ensures var p := DriveProbe(c, offset);
      DriveProbe(c.(buf := p.buf), offset) == Probe(p.found, p.buf)
  {
  }

  /** Under `file` a drive letter behind a single slash is not probed: `/C|path` keeps its `|`. */
  lemma FileSingleSlashDriveNotRepaired()
    ensures var c := Cursor("/C|path", 0, false);
      AuthorityStep(c, Some(File)) == c
  {
    var c := Cursor("/C|path", 0, false);
    LeadingSlashCountUnique(c, 1);
  }

  /** `file:///C|p` after its scheme: the authority starts empty, one slash stays and `|` becomes `:`. */
  lemma FileTripleSlashDriveExample()
    ensures var c := Cursor("///C|p", 0, false);
      AuthorityStep(c, Some(File)) == Cursor("///C:p", 2, true)
  {
    var c := Cursor("///C|p", 0, false);
    LeadingSlashCountUnique(c, 3);
    assert IsDriveLetterAt(c.(position := 2), 1) && c.buf[4] == '|';
    assert c.buf[4 := ':'] == "///C:p";
  }

  /** `http:\\example.com/`: two backslashes count as the two slashes before an authority. */
  lemma BackslashAuthorityExample()
    ensures var c := Cursor("http:\\\\example.com/", 5, false);
      AuthorityStep(c, Some(Other)) == c.(hasAuthority := true, position := 7)
  {
    var c := Cursor("http:\\\\example.com/", 5, false);
    LeadingSlashCountUnique(c, 2);
  }
}
