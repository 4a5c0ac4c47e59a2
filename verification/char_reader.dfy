/**
 * The character reader the lexer is built on. Its decoding of a buffered byte
 * stream is not part of this model: the reader is given the decoded characters
 * and whether the source reports a failure once they are exhausted.
 */
module CharReader {
  import opened Results

  /** A line/column pair as the reader reports it. */
  datatype Place = Place(line: nat, pos: nat)

  /** A decoded character together with the place it was read at. */
  datatype Located = Located(ch: char, line: nat, pos: nat)

  /** What the reader reports instead of a character. */
  datatype ReadError =
    | EndOfInput(line: nat, pos: nat)   // the source is exhausted (an expected condition)
    | SourceFailure                     // the source reported an I/O or decoding failure

  /**
   * The place of character k of s: columns count characters from 1, and the
   * character after a newline starts the next line at column 1.
   */
  function Where(s: string, k: nat): (p: Place)
    requires k < |s|
    ensures p.line >= 1 && p.pos >= 1
    decreases k
  {
    if k == 0 then Place(1, 1)
    else
      var q := Where(s, k - 1);
      if s[k - 1] == '\n' then Place(q.line + 1, 1) else Place(q.line, q.pos + 1)
  }

  /** The place reported at exhaustion: that of the last character, or line 1, column 0 when there is none. */
  function EndPlace(s: string): Place
  {
    if |s| == 0 then Place(1, 0) else Where(s, |s| - 1)
  }

  /** Along a stretch without newlines the column grows by one per character and the line stays. */
  lemma {:induction false} WhereAlongLine(s: string, k: nat, n: nat)
    requires k + n < |s|
    requires forall j :: k <= j < k + n ==> s[j] != '\n'
    ensures Where(s, k + n) == Place(Where(s, k).line, Where(s, k).pos + n)
    decreases n
  {
    if n > 0 {
      WhereAlongLine(s, k, n - 1);
    }
  }

  /**
   * A reader over `chars`: `front` characters have been consumed, and the
   * `peeked` characters after them have been looked at but not consumed.
   */
  class Reader {
    const chars: string
    const broken: bool   // the source fails, instead of ending, once `chars` are delivered
    var front: nat
    var peeked: nat

    ghost predicate Valid()
      reads this
    {
      front + peeked <= |chars|
    }

    /** Index of the character the next `Peek` returns. */
    function Ahead(): nat
      reads this
    {
      front + peeked
    }

    /** Character k with its place. */
    function At(k: nat): (c: Located)
      requires k < |chars|
      ensures c.ch == chars[k]
    {
      var p := Where(chars, k);
      Located(chars[k], p.line, p.pos)
    }

    /** What reading past the last character reports. */
    function Exhausted(): (e: ReadError)
      ensures e.EndOfInput? <==> !broken
    {
      if broken then SourceFailure else var p := EndPlace(chars); EndOfInput(p.line, p.pos)
    }

    constructor (input: string, failsAtEnd: bool)
      ensures Valid()
      ensures chars == input && broken == failsAtEnd && front == 0 && peeked == 0
    {
      chars := input;
      broken := failsAtEnd;
      front, peeked := 0, 0;
    }

    /** Consumes the front character; a character that was peeked stays peeked. */
    method Read() returns (r: Result<Located, ReadError>)
      requires Valid()
      modifies this
      ensures Valid()
      ensures old(front) < |chars| ==>
        r == Ok(At(old(front))) && front == old(front) + 1 &&
        peeked == if old(peeked) == 0 then 0 else old(peeked) - 1
      ensures old(front) == |chars| ==> r == Err(Exhausted()) && front == old(front) && peeked == old(peeked)
    {
      if front < |chars| {
        r := Ok(At(front));
        front := front + 1;
        if peeked > 0 {
          peeked := peeked - 1;
        }
      } else {
        r := Err(Exhausted());
      }
    }

    /** Returns the first character not yet peeked and advances the peek cursor past it. */
    method Peek() returns (r: Result<Located, ReadError>)
      requires Valid()
      modifies this
      ensures Valid() && front == old(front)
      ensures old(Ahead()) < |chars| ==> r == Ok(At(old(Ahead()))) && peeked == old(peeked) + 1
      ensures old(Ahead()) == |chars| ==> r == Err(Exhausted()) && peeked == old(peeked)
    {
      if front + peeked < |chars| {
        r := Ok(At(front + peeked));
        peeked := peeked + 1;
      } else {
        r := Err(Exhausted());
      }
    }

    /** Un-peeks the most recently peeked character. */
    method PeekBack()
      requires Valid() && peeked > 0
      modifies this
      ensures Valid() && front == old(front) && peeked == old(peeked) - 1
    {
      peeked := peeked - 1;
    }

    /** Consumes `n` characters that have already been peeked. */
    method Consume(n: nat)
      requires Valid() && n <= peeked
      modifies this
      ensures Valid() && front == old(front) + n && peeked == old(peeked) - n
    {
      front := front + n;
      peeked := peeked - n;
    }
  }
}
