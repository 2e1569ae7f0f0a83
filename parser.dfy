/**
 * The part of the URI parser's state that the browser-mimicking normalizer
 * reads and changes: the character buffer seen through a moving position,
 * the "has authority" flag and the scheme classification.
 */
module Parser {

  datatype Option<T> = None | Some(value: T)

  /** Scheme classification once a scheme is known; `None` stands for "no scheme yet". */
  datatype SchemeType = File | Other

  /** A value snapshot of the state the normalizer can change. */
  datatype Cursor = Cursor(buf: seq<char>, position: nat, hasAuthority: bool)
  {
    predicate Valid()
    {
      position <= |buf|
    }

    /** Characters left from the current position. */
    function Remaining(): nat
      requires Valid()
    {
      |buf| - position
    }
  }

  class ParserState {
    /** The buffer behind the parser's character view; its limit is its length. */
    const buf: array<char>
    /** The view's current position: relative index 0 reads `buf[position]`. */
    var position: nat
    var hasAuthority: bool
    var scheme: Option<SchemeType>

    ghost predicate Valid()
      reads this
    {
      position <= buf.Length
    }

    constructor (uri: seq<char>, scheme: Option<SchemeType>)
      ensures Valid() && fresh(buf)
      ensures buf[..] == uri && position == 0 && !hasAuthority && this.scheme == scheme
    {
      buf := new char[|uri|](i requires 0 <= i < |uri| => uri[i]);
      position := 0;
      hasAuthority := false;
      this.scheme := scheme;
    }

    function Snapshot(): (c: Cursor)
      reads this, buf
      requires Valid()
      ensures c.Valid()
    {
      Cursor(buf[..], position, hasAuthority)
    }

    function Remaining(): nat
      reads this
      requires Valid()
    {
      buf.Length - position
    }

    /** Whether at least `n` characters are left in the view. */
    function HasAtLeastMoreCharacters(n: int): (b: bool)
      reads this, buf
      requires Valid()
      ensures b <==> n <= Snapshot().Remaining()
    {
      Remaining() >= n
    }

    /** The character at index `i` relative to the current position. */
    function CharAt(i: nat): (c: char)
      reads this, buf
      requires Valid() && i < Remaining()
      ensures c == Snapshot().buf[Snapshot().position + i]
    {
      buf[position + i]
    }

    method SetHasAuthority(b: bool)
      requires Valid()
      modifies this`hasAuthority
      ensures Valid() && Snapshot() == old(Snapshot()).(hasAuthority := b)
    {
      hasAuthority := b;
    }

    /** Advance the scan position by `n` characters. */
    method IncrementOffset(n: nat)
      requires Valid() && n <= Remaining()
      modifies this`position
      ensures Valid() && Snapshot() == old(Snapshot()).(position := old(Snapshot()).position + n)
    {
      position := position + n;
    }

    /** Write `c` at absolute buffer index `index`. */
    method Put(index: nat, c: char)
      requires Valid() && index < buf.Length
      modifies buf
      ensures Valid() && Snapshot() == old(Snapshot()).(buf := old(buf[..])[index := c])
    {
      buf[index] := c;
    }
  }
}
