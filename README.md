# Browser-mimicking URI normalizer, modelled in Dafny

This project models `MimicBrowserNormalizer` from webarchive-commons-uri. The
normalizer makes a URI parser tolerant of the input browsers accept. It
contributes five pieces:

- **Trim** (`normalize`). Leading and trailing control characters and spaces
  are dropped, and every TAB, CR and LF inside the string is removed. When
  nothing was removed the input string itself is returned.
- **Start of authority** (`preParseAuthority`). Before the parser scans an
  authority, the rule counts the `/` and `\` characters at the parser's
  position. Depending on that count and on the scheme, it:
  - decides whether an authority follows;
  - moves the position over the slashes it consumes;
  - asks the drive-letter probe whether a Windows drive letter sits at a
    given offset.
- **Drive-letter probe** (`isWindowsDriveLetter`). It answers whether an ASCII
  letter followed by `:` or `|` sits at an offset from the position. It
  rewrites a `|` separator to `:` in the parser's buffer.
- **`localhost` under `file`** (`preParseHost`). With the `file` scheme, the
  host `localhost` becomes the empty host. Every other host is kept.
- **ASCII letter table** (`ALPHA`). The static 256-entry bit table the probe
  consults.

## Layout

- `runs.dfy` (module `Runs`): the longest run of elements satisfying a
  predicate at the front or at the back of a sequence, and the facts that
  make such a run unique.
- `alpha.dfy` (module `Alpha`): the letter predicate, and the static
  initializer as a method that fills a 256-entry `array<bool>`.
- `trim.dfy` (module `TrimSpec`): Trim as a function on strings. Lemmas cover
  the identity on clean input, idempotence and the order of the survivors.
- `parser.dfy` (module `Parser`): the part of the parser's state the
  normalizer touches. This is a class with the character buffer, the
  position, the "has authority" flag and the scheme. `Cursor` is a value
  snapshot of the changeable part.
- `authority.dfy` (module `AuthoritySpec`): the slash count, the drive-letter
  probe and the start-of-authority rule as functions on a `Cursor`. There is
  one lemma per branch of the rule, plus worked examples.
- `normalizer.dfy` (module `MimicBrowserNormalizer`): the operations as
  imperative code over arrays and the parser-state object. Each is proved
  against the functions above.

## Modelling decisions

**The parser's state.** The parser class is not part of this model; only
its `CharBuffer` view (line 146) is visible here.
- Modelling assumption: `incrementOffset` moves the view's position. Only
  with that reading does the probe at offset 0 after `incrementOffset(2)`
  (lines 105-106) look past the consumed slashes. The view is modelled as an
  array plus a `position`.
- Relative reads (`charAt(i)`) read `buf[position + i]`.
- Writes (`put(index, c)`) use absolute indices.
- The view's limit is the end of the array.

**The scheme.** The two scheme queries become one field of type
`Option<SchemeType>`:
- `None` is "no scheme yet".
- `Some(File)` is the `file` scheme.
- `Some(Other)` is any other scheme.

**Letter tests.** The drive-letter probe tests letters with `IsAsciiLetter`.
`Alpha.BuildAlphaTable` and `Alpha.TableGetIsAsciiLetter` show that a lookup
in the table the static initializer builds gives the same answer for every
character, including characters past the table's end, which read as unset.

**Ignored results.** In the `file` branches the probe's boolean result is
ignored, as it is in the code. Only its buffer rewrite matters there.

**A drive letter behind a single slash under `file`.** Such a drive letter
is not repaired. With one slash the probe looks at offset 0 (lines 100-102),
and offset 0 is the slash itself. So `file:/C|path` keeps its `|`.
`AuthoritySpec.FileSingleSlashDriveNotRepaired` states this case.

## Model

| member | source | states |
|---|---|---|
| Alpha.BuildAlphaTable | webarchive-commons-uri/src/main/java/org/netpreserve/commons/uri/normalization/MimicBrowserNormalizer.java:35-45 | The 256-entry table has entry `i` set exactly when `i` is the code of an ASCII letter `a`-`z` or `A`-`Z`. |
| Alpha.TableGetIsAsciiLetter | webarchive-commons-uri/src/main/java/org/netpreserve/commons/uri/normalization/MimicBrowserNormalizer.java:148 | Looking up any character, inside or past the built table, answers exactly whether it is an ASCII letter. |
| TrimSpec.RemoveStray | webarchive-commons-uri/src/main/java/org/netpreserve/commons/uri/normalization/MimicBrowserNormalizer.java:66-76 | The stray-character filter never lengthens its input and leaves no TAB, CR or LF. |
| TrimSpec.Trim | webarchive-commons-uri/src/main/java/org/netpreserve/commons/uri/normalization/MimicBrowserNormalizer.java:51-79 | The trimmed string is never longer than the input and holds no TAB, CR or LF. |
| TrimSpec.RemoveStrayAppend | webarchive-commons-uri/src/main/java/org/netpreserve/commons/uri/normalization/MimicBrowserNormalizer.java:68-76 | Filtering distributes over concatenation, so the survivors keep their original order. |
| TrimSpec.RemoveStrayIdentity | webarchive-commons-uri/src/main/java/org/netpreserve/commons/uri/normalization/MimicBrowserNormalizer.java:73-75 | Filtering returns its input exactly when the input holds no TAB, CR or LF, in both directions. |
| TrimSpec.RemoveStrayLength | webarchive-commons-uri/src/main/java/org/netpreserve/commons/uri/normalization/MimicBrowserNormalizer.java:78-79 | A filter that removed nothing (same length) returned its input unchanged. |
| TrimSpec.TrimIsFilteredSlice | webarchive-commons-uri/src/main/java/org/netpreserve/commons/uri/normalization/MimicBrowserNormalizer.java:56-64 | Any bounds that skip exactly the blank prefix and the blank suffix give Trim as the filtered slice between them. |
| TrimSpec.TrimBoundaries | webarchive-commons-uri/src/main/java/org/netpreserve/commons/uri/normalization/MimicBrowserNormalizer.java:56-64 | The result is empty, or its first and last characters are both above U+0020. |
| TrimSpec.TrimIdentity | webarchive-commons-uri/src/main/java/org/netpreserve/commons/uri/normalization/MimicBrowserNormalizer.java:79 | Trim returns its input exactly when the input has no blank at either end and no TAB, CR or LF, in both directions. |
| TrimSpec.TrimIdempotent | webarchive-commons-uri/src/main/java/org/netpreserve/commons/uri/normalization/MimicBrowserNormalizer.java:51-79 | Trimming a trimmed string changes nothing. |
| MimicBrowserNormalizer.Normalize | webarchive-commons-uri/src/main/java/org/netpreserve/commons/uri/normalization/MimicBrowserNormalizer.java:51-79 | The array-based scan-and-compact returns exactly Trim of its input. |
| MimicBrowserNormalizer.BlankBounds | webarchive-commons-uri/src/main/java/org/netpreserve/commons/uri/normalization/MimicBrowserNormalizer.java:56-64 | The two scans stop exactly at the end of the blank prefix and the start of the blank suffix, with non-blank characters at both bounds. |
| MimicBrowserNormalizer.CompactStray | webarchive-commons-uri/src/main/java/org/netpreserve/commons/uri/normalization/MimicBrowserNormalizer.java:66-78 | After the in-place shift, `val[st..len - removed]` holds exactly the slice's characters other than TAB, CR and LF, in order, and the array outside `[st, len)` is unchanged. |
| MimicBrowserNormalizer.CompactStep | webarchive-commons-uri/src/main/java/org/netpreserve/commons/uri/normalization/MimicBrowserNormalizer.java:69-75 | One iteration extends the compacted prefix by the current character unless it is stray, and leaves the unread part untouched. |
| MimicBrowserNormalizer.RemoveStraySnoc | webarchive-commons-uri/src/main/java/org/netpreserve/commons/uri/normalization/MimicBrowserNormalizer.java:73-75 | Reading one more character extends the survivors by it exactly when it is not TAB, CR or LF. |
| MimicBrowserNormalizer.TrimmedSlice | webarchive-commons-uri/src/main/java/org/netpreserve/commons/uri/normalization/MimicBrowserNormalizer.java:78-79 | What the scans and the compaction leave is Trim of the input. When nothing was cut or removed, the input itself equals Trim of it. |
| Parser.ParserState.HasAtLeastMoreCharacters | webarchive-commons-uri/src/main/java/org/netpreserve/commons/uri/normalization/MimicBrowserNormalizer.java:92-94 | The view has at least `n` characters left exactly when `n` is at most the number of characters after the position. |
| Parser.ParserState.CharAt | webarchive-commons-uri/src/main/java/org/netpreserve/commons/uri/normalization/MimicBrowserNormalizer.java:95-96 | A relative read at `i` returns the buffer character `i` places after the current position. |
| Parser.ParserState.SetHasAuthority | webarchive-commons-uri/src/main/java/org/netpreserve/commons/uri/normalization/MimicBrowserNormalizer.java:101 | Setting the flag changes the flag and nothing else of the state. |
| Parser.ParserState.IncrementOffset | webarchive-commons-uri/src/main/java/org/netpreserve/commons/uri/normalization/MimicBrowserNormalizer.java:105 | Advancing moves the position by `n`, within the buffer, and changes nothing else. |
| Parser.ParserState.Put | webarchive-commons-uri/src/main/java/org/netpreserve/commons/uri/normalization/MimicBrowserNormalizer.java:153 | The absolute write replaces one buffer character and leaves the rest of the state as it was. |
| AuthoritySpec.LeadingSlashCount | webarchive-commons-uri/src/main/java/org/netpreserve/commons/uri/normalization/MimicBrowserNormalizer.java:93-98 | The count fits in the remaining characters, every counted character is `/` or `\`, and the next one, if any, is neither. |
| AuthoritySpec.LeadingSlashCountUnique | webarchive-commons-uri/src/main/java/org/netpreserve/commons/uri/normalization/MimicBrowserNormalizer.java:94-98 | Any run length with those properties is the slash count. |
| MimicBrowserNormalizer.CountLeadingSlashes | webarchive-commons-uri/src/main/java/org/netpreserve/commons/uri/normalization/MimicBrowserNormalizer.java:93-98 | The counting loop returns exactly the leading slash count at the parser's position. |
| AuthoritySpec.DriveProbe | webarchive-commons-uri/src/main/java/org/netpreserve/commons/uri/normalization/MimicBrowserNormalizer.java:145-158 | A match is found exactly when a letter followed by a colon or a bar sits at the offset. The buffer keeps its length, and only the separator slot can change. A found separator reads as a colon. With no match, or with a colon already there, the buffer is unchanged. |
| AuthoritySpec.DriveProbeRewritesOnlySeparator | webarchive-commons-uri/src/main/java/org/netpreserve/commons/uri/normalization/MimicBrowserNormalizer.java:152-155 | The only character the probe ever changes is a bar, which becomes a colon. |
| AuthoritySpec.DriveLetterSymmetry | webarchive-commons-uri/src/main/java/org/netpreserve/commons/uri/normalization/MimicBrowserNormalizer.java:148-155 | A letter followed by a colon and the same letter followed by a bar are both found as drive letters, and after the probe the bar form reads exactly like the colon form. |
| AuthoritySpec.DriveProbeIdempotent | webarchive-commons-uri/src/main/java/org/netpreserve/commons/uri/normalization/MimicBrowserNormalizer.java:145-158 | Probing the probed buffer again gives the same answer and changes nothing more. |
| MimicBrowserNormalizer.IsWindowsDriveLetter | webarchive-commons-uri/src/main/java/org/netpreserve/commons/uri/normalization/MimicBrowserNormalizer.java:145-158 | The method answers the drive-letter predicate on the state it started from and leaves the state the probe function describes. |
| AuthoritySpec.AuthorityStep | webarchive-commons-uri/src/main/java/org/netpreserve/commons/uri/normalization/MimicBrowserNormalizer.java:90-121 | The rule keeps the buffer length and the position within the buffer, never moves the position back, and is a no-op when an authority is already known or no input is left. |
| MimicBrowserNormalizer.PreParseAuthority | webarchive-commons-uri/src/main/java/org/netpreserve/commons/uri/normalization/MimicBrowserNormalizer.java:90-121 | The method leaves the parser state exactly as the rule function computes it from the state it started in. |
| AuthoritySpec.AuthorityStepRewritesOnlySeparators | webarchive-commons-uri/src/main/java/org/netpreserve/commons/uri/normalization/MimicBrowserNormalizer.java:99-119 | Whatever the scheme and count, the rule changes no buffer character except a bar that becomes a colon. |
| AuthoritySpec.FileSchemeBranches | webarchive-commons-uri/src/main/java/org/netpreserve/commons/uri/normalization/MimicBrowserNormalizer.java:99-111 | Under `file`, the count decides the outcome. Fewer than two slashes: no authority, no advance, probe at 0. Exactly two: authority, advance 2, probe at 0. More: authority, advance all but one, probe at 1. |
| AuthoritySpec.FileStepIsProbe | webarchive-commons-uri/src/main/java/org/netpreserve/commons/uri/normalization/MimicBrowserNormalizer.java:99-111 | Under `file` the rule's result is the probe applied to the cursor the count selects. |
| AuthoritySpec.FileSchemeLeavesOneSlash | webarchive-commons-uri/src/main/java/org/netpreserve/commons/uri/normalization/MimicBrowserNormalizer.java:107-110 | Under `file` with more than two slashes, the new position is on a slash and the character after it is not one, so exactly one slash remains for the path. |
| AuthoritySpec.UnknownSchemeDriveLetter | webarchive-commons-uri/src/main/java/org/netpreserve/commons/uri/normalization/MimicBrowserNormalizer.java:112-115 | With no scheme yet and a drive letter after the slashes, the position advances by max(n - 1, 0), an authority is present exactly when n >= 2, and the separator is repaired. |
| AuthoritySpec.NoDriveLetterBranch | webarchive-commons-uri/src/main/java/org/netpreserve/commons/uri/normalization/MimicBrowserNormalizer.java:112-119 | Outside `file` and without a drive-letter match, two or more slashes mean an authority after exactly two consumed slashes, and fewer leave the state unchanged. |
| AuthoritySpec.OtherSchemeLeavesBuffer | webarchive-commons-uri/src/main/java/org/netpreserve/commons/uri/normalization/MimicBrowserNormalizer.java:112-113 | A known scheme other than `file` never has a drive letter probed or its buffer rewritten. |
| AuthoritySpec.FileSingleSlashDriveNotRepaired | webarchive-commons-uri/src/main/java/org/netpreserve/commons/uri/normalization/MimicBrowserNormalizer.java:100-102 | Under `file`, a single slash before `C`, a bar and `path` is left entirely unchanged, because the probe at offset 0 sees the slash. |
| AuthoritySpec.FileTripleSlashDriveExample | webarchive-commons-uri/src/main/java/org/netpreserve/commons/uri/normalization/MimicBrowserNormalizer.java:107-110 | Under `file`, three slashes before `C`, a bar and `p` become the same text with a colon for the bar, with the position on the third slash and an authority present. |
| AuthoritySpec.BackslashAuthorityExample | webarchive-commons-uri/src/main/java/org/netpreserve/commons/uri/normalization/MimicBrowserNormalizer.java:116-118 | For `http:\\example.com/`, the two backslashes after the scheme are consumed as the authority's slashes. |
| MimicBrowserNormalizer.PreParseHost | webarchive-commons-uri/src/main/java/org/netpreserve/commons/uri/normalization/MimicBrowserNormalizer.java:128-133 | The host comes back unchanged except that `localhost` under `file` becomes empty, in both directions. |
| MimicBrowserNormalizer.PreParseHostIdempotent | webarchive-commons-uri/src/main/java/org/netpreserve/commons/uri/normalization/MimicBrowserNormalizer.java:128-133 | Applying the host rule twice gives the same host as applying it once. |

## Left out

- The `@Description` and `@Example` annotations are left out. They are documentation metadata for people and do not affect behaviour.
- `PreParseNormalizer` and `InParseNormalizer` are left out. These are the interfaces through which the parser invokes the hooks, and they are not part of this model.
- The parser itself is left out: `Parser.ParserState`, its builder, and the `CharBuffer` view. Only the state the normalizer reads and changes is modelled.
- A `CharBuffer` limit short of the array's end is not modelled. The view's limit is taken to be the array's length.
- Reference identity of strings is modelled as value equality. The code returns the very input object when nothing was removed. Here `MimicBrowserNormalizer.TrimmedSlice` proves that this returned input equals Trim of itself.
- Concurrency is not modelled: publication of the static table to other threads, and calls racing on one parser state.
- MimicBrowserNormalizer.IsWindowsDriveLetter: tests letters with `IsAsciiLetter` rather than reading the `ALPHA` table. Equivalence with the built table is proved separately by `Alpha.TableGetIsAsciiLetter`.
- Characters and nulls are represented differently from the Java program. Characters are Dafny `char`s (Unicode scalar values), not UTF-16 code units, so a lone surrogate cannot be represented and a supplementary character takes one position instead of two. A `null` URI string or host is not representable. No rule's outcome depends on either, because every character the rules test is ASCII.
