/**
 * The browser-mimicking normalizer: the trim rule run on a char array,
 * the authority-start rule and the drive-letter probe run against the
 * parser's state, and the `localhost` rule for `file` hosts.
 */
module MimicBrowserNormalizer {
  import opened Alpha
  import opened TrimSpec
  import opened Parser
  import opened AuthoritySpec

  /**
   * Trim: skip the blank prefix, cut the blank suffix, then compact the
   * rest of the array over every TAB, CR and LF. The input itself comes
   * back when nothing was removed.
   */
  method Normalize(uriString: string) returns (r: string)
    ensures r == Trim(uriString)
  {
    var val := new char[|uriString|](i requires 0 <= i < |uriString| => uriString[i]);
    assert val[..] == uriString;
    var st, len := BlankBounds(val);
    var removed := CompactStray(val, st, len);
    TrimmedSlice(uriString, st, len, removed, val[st..len - removed]);
    len := len - removed;
    r := if st > 0 || len < val.Length then val[st..len] else uriString;
  }

  /** The two scans: the blank prefix ends at `st`, the blank suffix starts at `len`. */
  method BlankBounds(val: array<char>) returns (st: nat, len: nat)
    ensures TrimBounds(val[..], st, len)
  {
    len := val.Length;
    st := 0;

    // Leading controls and space.
    while st < len && val[st] <= ' '
      invariant st <= len == val.Length
      invariant forall i :: 0 <= i < st ==> IsBlank(val[i])
    {
      st := st + 1;
    }

    // Trailing controls and space.
    while st < len && val[len - 1] <= ' '
      invariant st <= len <= val.Length
      invariant forall i :: len <= i < val.Length ==> IsBlank(val[i])
    {
      len := len - 1;
    }
  }

  /**
   * What the two scans and the compaction leave behind is the trimmed
   * string, and it is the input itself when nothing was cut or removed.
   */
  lemma TrimmedSlice(s: seq<char>, st: nat, len: nat, removed: nat, out: seq<char>)
    requires TrimBounds(s, st, len) && removed <= len - st
    requires |out| == len - removed - st && out == RemoveStray(s[st..len])
    ensures out == Trim(s)
    ensures st == 0 && len - removed == |s| ==> s == Trim(s)
  {
    TrimIsFilteredSlice(s, st, len);
    if st == 0 && len - removed == |s| {
      assert s[st..len] == s;
      RemoveStrayLength(s);
    }
  }

  /**
   * Shift the survivors of val[st..len] left over every TAB, CR and LF;
   * returns how many were removed.
   */
  method CompactStray(val: array<char>, st: nat, len: nat) returns (removed: nat)
    requires st <= len <= val.Length
    modifies val
    ensures removed <= len - st
    ensures val[st..len - removed] == RemoveStray(old(val[st..len]))
    ensures val[..st] == old(val[..st]) && val[len..] == old(val[len..])
  {
    ghost var s := val[..];
    removed := 0;
    for i := st to len
      invariant removed <= i - st
      invariant val[st..i - removed] == RemoveStray(s[st..i])
      invariant val[i..] == s[i..]
      invariant val[..st] == s[..st]
    {
      ghost var before := val[..];
      if removed > 0 {
        val[i - removed] := val[i];
      }
      CompactStep(before, val[..], s, st, i, removed);
      if val[i] == '\n' || val[i] == '\r' || val[i] == '\t' {
        removed := removed + 1;
      }
    }
    assert s[st..len] == old(val[st..len]);
  }

  /** One step of the compaction: the survivor prefix grows by `v[i]` unless it is stray. */
  lemma CompactStep(v: seq<char>, w: seq<char>, s: seq<char>, st: nat, i: nat, removed: nat)
    requires st <= i < |v| == |s| && removed <= i - st
    requires v[st..i - removed] == RemoveStray(s[st..i]) && v[i..] == s[i..]
    requires w == if removed > 0 then v[i - removed := v[i]] else v
    ensures var removed' := if IsStray(s[i]) then removed + 1 else removed;
      && w[i] == s[i]
      && w[st..i + 1 - removed'] == RemoveStray(s[st..i + 1])
      && w[i + 1..] == s[i + 1..]
  {
    assert v[i] == s[i] by { assert v[i..][0] == s[i..][0]; }
    assert w[i + 1..] == s[i + 1..] by {
      assert w[i + 1..] == v[i + 1..];
      assert v[i + 1..] == v[i..][1..];
      assert s[i + 1..] == s[i..][1..];
    }
    assert w[st..i - removed] == v[st..i - removed];
    RemoveStraySnoc(s, st, i);
    if !IsStray(s[i]) {
      assert w[st..i + 1 - removed] == w[st..i - removed] + [s[i]];
    }
  }

  /** Extending the scanned slice by one character extends the survivors by it unless it is stray. */
  lemma RemoveStraySnoc(s: seq<char>, st: nat, i: nat)
    requires st <= i < |s|
    ensures RemoveStray(s[st..i + 1]) == RemoveStray(s[st..i]) + (if IsStray(s[i]) then [] else [s[i]])
  {
    assert s[st..i + 1][..i - st] == s[st..i];
  }

  /** The run of `/` and `\` at the parser's position, counted the way the rule counts it. */
  method CountLeadingSlashes(ps: ParserState) returns (n: nat)
    requires ps.Valid()
    ensures n == LeadingSlashCount(ps.Snapshot())
  {
    n := 0;
    while ps.HasAtLeastMoreCharacters(1 + n) && (ps.CharAt(n) == '/' || ps.CharAt(n) == '\\')
      invariant n <= ps.Remaining()
      invariant forall i :: ps.position <= i < ps.position + n ==> IsSlash(ps.buf[i])
      decreases ps.Remaining() - n
    {
      n := n + 1;
    }
    Runs.PrefixRunUnique(ps.buf[ps.position..], IsSlash, n);
  }

  /**
   * Whether the two characters at `offset` from the position are an ASCII
   * letter and `:` or `|`; a `|` is rewritten to `:` in the buffer.
   */
  method IsWindowsDriveLetter(ps: ParserState, offset: nat) returns (found: bool)
    requires ps.Valid()
    modifies ps.buf
    ensures ps.Valid()
    ensures found == IsDriveLetterAt(old(ps.Snapshot()), offset)
    ensures ps.Snapshot() == WithProbe(old(ps.Snapshot()), offset)
  {
    if ps.Remaining() > offset + 1 && IsAsciiLetter(ps.CharAt(offset)) {
      if ps.CharAt(offset + 1) == ':' {
        return true;
      }
      if ps.CharAt(offset + 1) == '|' {
        ps.Put(ps.position + offset + 1, ':');
        return true;
      }
    }
    return false;
  }

  /**
   * Skip or normalize erroneous slashes at the start of the authority and
   * handle a Windows drive letter at the start of the path.
   */
  method PreParseAuthority(ps: ParserState)
    requires ps.Valid()
    modifies ps`hasAuthority, ps`position, ps.buf
    ensures ps.Valid()
    ensures ps.Snapshot() == AuthorityStep(old(ps.Snapshot()), ps.scheme)
  {
    ghost var c := ps.Snapshot();
    if !ps.hasAuthority && ps.HasAtLeastMoreCharacters(1) {
      var leadingSlashCount := CountLeadingSlashes(ps);
      if ps.scheme == Some(File) {
        if leadingSlashCount < 2 {
          ps.SetHasAuthority(false);
          ghost var d := ps.Snapshot();
          var _ := IsWindowsDriveLetter(ps, 0);
          FileStepIsProbe(c, d, 0);
          assert ps.Snapshot() == AuthorityStep(c, ps.scheme);
        } else if leadingSlashCount == 2 {
          ps.SetHasAuthority(true);
          ps.IncrementOffset(2);
          ghost var d := ps.Snapshot();
          var _ := IsWindowsDriveLetter(ps, 0);
          FileStepIsProbe(c, d, 0);
          assert ps.Snapshot() == AuthorityStep(c, ps.scheme);
        } else {
          ps.SetHasAuthority(true);
          ps.IncrementOffset(leadingSlashCount - 1);
          ghost var d := ps.Snapshot();
          var _ := IsWindowsDriveLetter(ps, 1);
          FileStepIsProbe(c, d, 1);
          assert ps.Snapshot() == AuthorityStep(c, ps.scheme);
        }
      } else {
        var isDrive := false;
        if ps.scheme == None {
          isDrive := IsWindowsDriveLetter(ps, leadingSlashCount);
        }
        if isDrive {
          ps.IncrementOffset(if leadingSlashCount > 0 then leadingSlashCount - 1 else 0);
          ps.SetHasAuthority(leadingSlashCount >= 2);
          assert ps.Snapshot() == AuthorityStep(c, ps.scheme);
        } else if leadingSlashCount >= 2 {
          ps.SetHasAuthority(true);
          ps.IncrementOffset(2);
          assert ps.Snapshot() == AuthorityStep(c, ps.scheme);
        } else {
          assert ps.Snapshot() == c == AuthorityStep(c, ps.scheme);
        }
      }
    }
  }

  /** Under the `file` scheme the host `localhost` becomes the empty host; any other host is kept. */
  function PreParseHost(ps: ParserState, host: string): (r: string)
    reads ps
    ensures r == host || (r == "" && host == "localhost" && ps.scheme == Some(File))
    ensures ps.scheme == Some(File) && host == "localhost" ==> r == ""
  {
    if ps.scheme == Some(File) && host == "localhost" then "" else host
  }

  /** Applying the host rule to its own result changes nothing more. */
  lemma PreParseHostIdempotent(ps: ParserState, host: string)
    ensures PreParseHost(ps, PreParseHost(ps, host)) == PreParseHost(ps, host)
  {
  }
}
