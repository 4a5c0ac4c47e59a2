/**
 * The lexer: turns the reader's characters into positioned tokens, one token
 * per `Read`, with the end of input returned as an `EOF` token.
 *
 * `Scan` is the specification: a pure function of the characters alone that
 * says which token (or which failure) a read starting at index i produces and
 * where the following read starts. `TokenOf` attaches the reader's places to
 * that outcome. The `Lexer` class drives a `CharReader.Reader` step by step, as
 * the source does, and each of its methods is proved to produce `TokenOf` of
 * `Scan`.
 */
module JsonLexer {
  import opened Results
  import opened FloatLiteral
  import CharReader

  /** A position range `start..end`, both ends inclusive of the token's first and last character. */
  datatype Span = Span(start: nat, end: nat)

  /** Token kinds; a number keeps its text (the float value is not modelled). */
  datatype Data =
    | String(text: string)
    | Number(lexeme: string)
    | True
    | False
    | Null
    | Colon
    | Comma
    | LeftBracket
    | RightBracket
    | LeftBrace
    | RightBrace
    | EOF

  datatype Token = Token(line: Span, pos: Span, data: Data)

  /** Lexer failures (their message texts are not modelled). */
  datatype LexError =
    | EndOfInput(atLine: nat, atPos: nat)
    | UnclosedStringLiteral(line: Span, pos: Span)
    | ReaderError
    | InvalidToken(keyword: string, line: Span, pos: Span)
    | InvalidNumber(line: Span, pos: Span)

  /** The errors after which the lexer is back between tokens and can be read again. */
  predicate Recoverable(e: LexError) { e.UnclosedStringLiteral? || e.InvalidNumber? }

  // ---- character classes used by `Read` ----

  predicate StartsNumber(c: char) { c == '-' || IsDigit(c) }

  /** Characters a number lexeme is made of. */
  predicate IsNumberChar(c: char) { StartsNumber(c) || c == '.' || c == 'e' || c == 'E' }

  predicate StartsKeyword(c: char) { c == 't' || c == 'f' || c == 'n' }

  predicate IsDelimiter(c: char) { c == ':' || c == ',' || c == '{' || c == '}' || c == '[' || c == ']' }

  /** Characters that start no token and are skipped, whitespace among them. */
  predicate IsSkipped(c: char) { !(c == '"' || StartsNumber(c) || StartsKeyword(c) || IsDelimiter(c)) }

  predicate IsKeyword(d: Data) { d.True? || d.False? || d.Null? }

  predicate IsStructural(d: Data)
  {
    d.Colon? || d.Comma? || d.LeftBracket? || d.RightBracket? || d.LeftBrace? || d.RightBrace?
  }

  /** The character a structural token is written with. */
  function DelimiterChar(d: Data): char
    requires IsStructural(d)
  {
    match d
    case Colon => ':'
    case Comma => ','
    case LeftBrace => '{'
    case RightBrace => '}'
    case LeftBracket => '['
    case RightBracket => ']'
  }

  /** The token kind of a one-character delimiter; each delimiter has its own kind. */
  function DelimiterData(c: char): (d: Data)
    requires IsDelimiter(c)
    ensures IsStructural(d) && DelimiterChar(d) == c
  {
    match c
    case ':' => Colon
    case ',' => Comma
    case '{' => LeftBrace
    case '}' => RightBrace
    case '[' => LeftBracket
    case ']' => RightBracket
  }

  /** The letters of a keyword after its first one. */
  function KeywordRest(k: char): string
    requires StartsKeyword(k)
  {
    if k == 't' then "rue" else if k == 'f' then "alse" else "ull"
  }

  function KeywordData(k: char): Data
    requires StartsKeyword(k)
  {
    if k == 't' then True else if k == 'f' then False else Null
  }

  /** The keyword named in an `InvalidToken` error. */
  function KeywordName(k: char): string
    requires StartsKeyword(k)
  {
    if k == 't' then "true" else if k == 'f' then "false" else "null"
  }

  // ---- the specification ----

  /** What one read produces, in character indices. */
  datatype Outcome =
    | Tok(data: Data, first: nat, last: nat, next: nat)   // a token over s[first..last], the next read starts at next
    | End                                                // the input is exhausted: an EOF token
    | Unclosed(first: nat)                               // a string opened at first is never closed
    | Mismatch(keyword: string, first: nat, at: nat)     // a keyword begun at first breaks off at character at
    | BadNumber(first: nat, last: nat)                   // s[first..last] does not convert to a float
    | Failed                                             // the source failed

  /** The indices of o lie in s at or after i, and a token is never EOF. */
  predicate Placed(s: string, i: nat, o: Outcome)
  {
    match o
    case Tok(d, f, l, n) => i <= f <= l && n == l + 1 && n <= |s| && !d.EOF?
    case Unclosed(f) => i <= f < |s|
    case Mismatch(_, f, a) => i <= f < a < |s|
    case BadNumber(f, l) => i <= f <= l < |s|
    case _ => true
  }

  /** Where the next read starts after o, for the outcomes after which reading can go on. */
  predicate Resumable(o: Outcome) { o.Tok? || o.End? || o.Unclosed? || o.BadNumber? }

  function Resume(s: string, o: Outcome): nat
    requires Resumable(o)
  {
    match o
    case Tok(_, _, _, n) => n
    case BadNumber(_, l) => l + 1
    case _ => |s|
  }

  /** What reading past the last character gives: the end, or the source's failure. */
  function Exhaust(b: bool): Outcome { if b then Failed else End }

  /** A read starting at index i of s (b: the source fails at its end). */
  function Scan(s: string, b: bool, i: nat): (o: Outcome)
    requires i <= |s|
    ensures Placed(s, i, o)
    decreases |s| - i
  {
    if i == |s| then Exhaust(b)
    else
      var c := s[i];
      if c == '"' then ScanString(s, b, i, i + 1, "")
      else if StartsNumber(c) then ScanNumber(s, b, i, i + 1)
      else if StartsKeyword(c) then ScanKeyword(s, b, i, 0)
      else if IsDelimiter(c) then Tok(DelimiterData(c), i, i, i + 1)
      else Scan(s, b, i + 1)
  }

  /**
   * A string literal opened at `open`, read up to index j, with `acc` the text
   * so far: a backslash takes the next character literally.
   */
  function ScanString(s: string, b: bool, open: nat, j: nat, acc: string): (o: Outcome)
    requires open < j <= |s|
    ensures Placed(s, open, o) && !o.End? && (o.Tok? ==> j <= o.last)
    decreases |s| - j
  {
    if j == |s| then (if b then Failed else Unclosed(open))
    else if s[j] == '"' then Tok(String(acc), open, j, j + 1)
    else if s[j] == '\\' then
      if j + 1 == |s| then (if b then Failed else Unclosed(open))
      else ScanString(s, b, open, j + 2, acc + [s[j + 1]])
    else ScanString(s, b, open, j + 1, acc + [s[j]])
  }

  /** A number lexeme s[first..j] that stops there. */
  function NumberOf(s: string, first: nat, j: nat): (o: Outcome)
    requires first < j <= |s|
    ensures Placed(s, first, o) && Resumable(o) && Resume(s, o) == j
  {
    if IsFloatLiteral(s[first..j]) then Tok(Number(s[first..j]), first, j - 1, j) else BadNumber(first, j - 1)
  }

  /** A number begun at `first`, with s[first..j] taken so far. */
  function ScanNumber(s: string, b: bool, first: nat, j: nat): (o: Outcome)
    requires first < j <= |s|
    ensures Placed(s, first, o) && !o.End? && (o.Tok? ==> j <= o.next)
    decreases |s| - j
  {
    if j == |s| then (if b then Failed else NumberOf(s, first, j))
    else if IsNumberChar(s[j]) then ScanNumber(s, b, first, j + 1)
    else NumberOf(s, first, j)
  }

  /** Taking one more number character leaves the outcome of the read unchanged. */
  lemma NumberGoesOn(s: string, b: bool, first: nat, j: nat)
    requires first < j < |s| && IsNumberChar(s[j])
    ensures ScanNumber(s, b, first, j + 1) == ScanNumber(s, b, first, j)
    ensures s[first..j + 1] == s[first..j] + [s[j]]
  {
  }

  /** A keyword begun at `first` whose first k remaining letters have been checked. */
  function ScanKeyword(s: string, b: bool, first: nat, k: nat): (o: Outcome)
    requires first < |s| && StartsKeyword(s[first])
    requires k <= |KeywordRest(s[first])| && first + 1 + k <= |s|
    ensures Placed(s, first, o) && (o.Tok? ==> o.last == first + |KeywordRest(s[first])|)
    decreases |KeywordRest(s[first])| - k
  {
    var rest := KeywordRest(s[first]);
    if k == |rest| then Tok(KeywordData(s[first]), first, first + k, first + k + 1)
    else if first + 1 + k == |s| then Exhaust(b)
    else if s[first + 1 + k] != rest[k] then Mismatch(KeywordName(s[first]), first, first + 1 + k)
    else ScanKeyword(s, b, first, k + 1)
  }

  /**
   * The token or error a read returns for outcome o. A keyword spans
   * `initial..initial + length of the letters after its first one` on its first line.
   */
  function TokenOf(s: string, o: Outcome): (r: Result<Token, LexError>)
    requires Placed(s, 0, o)
    ensures r.Ok? <==> o.Tok? || o.End?
    ensures r.Ok? ==> (r.value.data.EOF? <==> o.End?)
    ensures r.Err? ==> !r.error.EndOfInput? && (Recoverable(r.error) <==> Resumable(o))
  {
    match o
    case Tok(d, f, l, _) =>
      var p, q := CharReader.Where(s, f), CharReader.Where(s, l);
      if IsKeyword(d) then Ok(Token(Span(p.line, p.line), Span(p.pos, p.pos + (l - f)), d))
      else Ok(Token(Span(p.line, q.line), Span(p.pos, q.pos), d))
    case End =>
      var e := CharReader.EndPlace(s);
      Ok(Token(Span(e.line, e.line), Span(e.pos, e.pos), EOF))
    case Unclosed(f) =>
      var p, e := CharReader.Where(s, f), CharReader.EndPlace(s);
      Err(UnclosedStringLiteral(Span(p.line, e.line), Span(p.pos, e.pos)))
    case Mismatch(kw, f, a) =>
      var p, q := CharReader.Where(s, f), CharReader.Where(s, a);
      Err(InvalidToken(kw, Span(p.line, q.line), Span(p.pos, q.pos)))
    case BadNumber(f, l) =>
      var p, q := CharReader.Where(s, f), CharReader.Where(s, l);
      Err(InvalidNumber(Span(p.line, q.line), Span(p.pos, q.pos)))
    case Failed => Err(ReaderError)
  }

  /** The lexer's view of a reader failure: exhaustion keeps its place, anything else is a reader error. */
  function Lift(e: CharReader.ReadError): LexError
  {
    match e
    case EndOfInput(line, pos) => EndOfInput(line, pos)
    case SourceFailure => ReaderError
  }

  /** An `EndOfInput` error read as the `EOF` token at the same place; `Read` does this to every result. */
  function EofAsToken(r: Result<Token, LexError>): Result<Token, LexError>
  {
    if r.Err? && r.error.EndOfInput? then
      Ok(Token(Span(r.error.atLine, r.error.atLine), Span(r.error.atPos, r.error.atPos), EOF))
    else r
  }

  class Lexer {
    const reader: CharReader.Reader

    ghost predicate Valid()
      reads this, reader
    {
      reader.Valid()
    }

    /**
     * Between tokens: nothing is peeked, or everything is (a keyword cut off
     * by the end of input leaves its letters peeked).
     */
    ghost predicate Settled()
      reads this, reader
    {
      reader.peeked == 0 || reader.Ahead() == |reader.chars|
    }

    constructor (input: string, failsAtEnd: bool)
      ensures Valid() && Settled() && fresh(reader)
      ensures reader.chars == input && reader.broken == failsAtEnd && reader.Ahead() == 0
    {
      reader := new CharReader.Reader(input, failsAtEnd);
    }

    method Next() returns (r: Result<CharReader.Located, LexError>)
      requires Valid()
      modifies reader
      ensures Valid()
      ensures old(reader.front) < |reader.chars| ==>
        r == Ok(reader.At(old(reader.front))) && reader.front == old(reader.front) + 1 &&
        reader.peeked == if old(reader.peeked) == 0 then 0 else old(reader.peeked) - 1
      ensures old(reader.front) == |reader.chars| ==> r == Err(Lift(reader.Exhausted())) && reader.front == old(reader.front) && reader.peeked == old(reader.peeked)
    {
      var c := reader.Read();
      match c
      case Ok(x) => r := Ok(x);
      case Err(e) => r := Err(Lift(e));
    }

    method Peek() returns (r: Result<CharReader.Located, LexError>)
      requires Valid()
      modifies reader
      ensures Valid() && reader.front == old(reader.front)
      ensures old(reader.Ahead()) < |reader.chars| ==>
        r == Ok(reader.At(old(reader.Ahead()))) && reader.peeked == old(reader.peeked) + 1
      ensures old(reader.Ahead()) == |reader.chars| ==> r == Err(Lift(reader.Exhausted())) && reader.front == old(reader.front) && reader.peeked == old(reader.peeked)
    {
      var c := reader.Peek();
      match c
      case Ok(x) => r := Ok(x);
      case Err(e) => r := Err(Lift(e));
    }

    /** Consumes the character that was just peeked. */
    method DiscardNext() returns (c: CharReader.Located)
      requires Valid() && reader.peeked > 0
      modifies reader
      ensures Valid()
      ensures c == reader.At(old(reader.front))
      ensures reader.front == old(reader.front) + 1 && reader.peeked == old(reader.peeked) - 1
    {
      var r := Next();
      c := r.value;
    }

    /** Reads one token: `TokenOf` the `Scan` at the reader's peek position. */
    method Read() returns (r: Result<Token, LexError>)
      requires Valid() && Settled()
      modifies reader
      ensures Valid()
      ensures var o := Scan(reader.chars, reader.broken, old(reader.Ahead()));
        r == TokenOf(reader.chars, o) &&
        (Resumable(o) ==> Settled() && reader.Ahead() == Resume(reader.chars, o))
      decreases |reader.chars| - reader.Ahead()
    {
      var p := Peek();
      if p.Err? {
        r := EofAsToken(Err(p.error));
        return;
      }
      var c := p.value.ch;
      if c == '"' {
        r := ParseString();
      } else if StartsNumber(c) {
        r := ParseNumber();
      } else if StartsKeyword(c) {
        r := ParseStatic(c);
      } else if IsDelimiter(c) {
        r := ParseDelimiter(c);
      } else {
        var _ := DiscardNext();
        r := Read();
      }
      r := EofAsToken(r);
    }

    method ParseString() returns (r: Result<Token, LexError>)
      requires Valid() && reader.peeked == 1 && reader.front < |reader.chars|
      requires reader.chars[reader.front] == '"'
      modifies reader
      ensures Valid()
      ensures var o := ScanString(reader.chars, reader.broken, old(reader.front), old(reader.front) + 1, "");
        r == TokenOf(reader.chars, o) &&
        (Resumable(o) ==> Settled() && reader.Ahead() == Resume(reader.chars, o))
    {
      ghost var s, b, open := reader.chars, reader.broken, reader.front;
      var initial := DiscardNext();
      var buf: string := "";
      while true
        invariant Valid() && reader.peeked == 0 && open < reader.front <= |s|
        invariant initial == reader.At(open)
        invariant ScanString(s, b, open, reader.front, buf) == ScanString(s, b, open, open + 1, "")
        decreases |s| - reader.front
      {
        var p := Peek();
        if p.Err? {
          if p.error.EndOfInput? {
            return Err(UnclosedStringLiteral(Span(initial.line, p.error.atLine), Span(initial.pos, p.error.atPos)));
          }
          return Err(p.error);
        }
        var c := p.value.ch;
        if c == '"' {
          var close := DiscardNext();
          return Ok(Token(Span(initial.line, close.line), Span(initial.pos, close.pos), String(buf)));
        } else if c == '\\' {
          var _ := DiscardNext();
          var escaped := Next();
          if escaped.Err? {
            if escaped.error.EndOfInput? {
              return Err(UnclosedStringLiteral(Span(initial.line, escaped.error.atLine), Span(initial.pos, escaped.error.atPos)));
            }
            return Err(escaped.error);
          }
          buf := buf + [escaped.value.ch];
        } else {
          var x := DiscardNext();
          buf := buf + [x.ch];
        }
      }
    }

    method ParseNumber() returns (r: Result<Token, LexError>)
      requires Valid() && reader.peeked == 1 && reader.front < |reader.chars|
      requires StartsNumber(reader.chars[reader.front])
      modifies reader
      ensures Valid()
      ensures var o := ScanNumber(reader.chars, reader.broken, old(reader.front), old(reader.front) + 1);
        r == TokenOf(reader.chars, o) &&
        (Resumable(o) ==> Settled() && reader.Ahead() == Resume(reader.chars, o))
    {
      ghost var first := reader.front;
      var initial := DiscardNext();
      var last, buf, failure := NumberRun(first, initial);
      if failure.Some? {
        return Err(failure.value);
      }
      r := NumberToken(initial, last, buf, first, reader.front);
    }

    /**
     * The loop of `ParseNumber`: consumes number characters after the first
     * one, and stops at end of input, at a failure, or at another character,
     * which it peeks back.
     */
    method NumberRun(ghost first: nat, initial: CharReader.Located)
      returns (last: CharReader.Located, buf: string, failure: Option<LexError>)
      requires Valid() && reader.peeked == 0 && reader.front == first + 1 <= |reader.chars|
      requires initial == reader.At(first)
      modifies reader
      ensures Valid() && reader.peeked == 0 && first < reader.front <= |reader.chars|
      ensures failure.None? ==>
        last == reader.At(reader.front - 1) && buf == reader.chars[first..reader.front] &&
        ScanNumber(reader.chars, reader.broken, first, first + 1) == NumberOf(reader.chars, first, reader.front)
      ensures failure.Some? ==>
        ScanNumber(reader.chars, reader.broken, first, first + 1) == Failed &&
        failure.value == ReaderError
    {
      ghost var s, b := reader.chars, reader.broken;
      last := initial;
      buf := [initial.ch];
      failure := None;
      while true
        invariant Valid() && reader.peeked == 0 && first < reader.front <= |s|
        invariant last == reader.At(reader.front - 1) && buf == s[first..reader.front]
        invariant ScanNumber(s, b, first, reader.front) == ScanNumber(s, b, first, first + 1)
        decreases |s| - reader.front
      {
        var p := Peek();
        if p.Err? {
          if !p.error.EndOfInput? {
            failure := Some(p.error);
          }
          return;
        }
        if IsNumberChar(p.value.ch) {
          NumberGoesOn(s, b, first, reader.front);
          last := DiscardNext();
          buf := buf + [last.ch];
        } else {
          reader.PeekBack();
          return;
        }
      }
    }

    /** The float conversion of a finished number lexeme chars[first..j], found at `initial` through `last`. */
    function NumberToken(initial: CharReader.Located, last: CharReader.Located, buf: string,
                         ghost first: nat, ghost j: nat): (r: Result<Token, LexError>)
      requires first < j <= |reader.chars| && buf == reader.chars[first..j]
      requires initial == reader.At(first) && last == reader.At(j - 1)
      ensures r == TokenOf(reader.chars, NumberOf(reader.chars, first, j))
    {
      if IsFloatLiteral(buf) then
        Ok(Token(Span(initial.line, last.line), Span(initial.pos, last.pos), Number(buf)))
      else
        Err(InvalidNumber(Span(initial.line, last.line), Span(initial.pos, last.pos)))
    }

    /**
     * Reads the keyword starting with k: its remaining letters are checked by
     * successive peeks and consumed together once all of them match.
     */
    method ParseStatic(k: char) returns (r: Result<Token, LexError>)
      requires Valid() && reader.peeked == 1 && reader.front < |reader.chars|
      requires StartsKeyword(k) && reader.chars[reader.front] == k
      modifies reader
      ensures Valid()
      ensures var o := ScanKeyword(reader.chars, reader.broken, old(reader.front), 0);
        EofAsToken(r) == TokenOf(reader.chars, o) &&
        (Resumable(o) ==> Settled() && reader.Ahead() == Resume(reader.chars, o))
      ensures r.Err? ==> reader.front == old(reader.front) + 1
    {
      ghost var s, b, first := reader.chars, reader.broken, reader.front;
      var initial := DiscardNext();
      var rest, data, name := KeywordRest(k), KeywordData(k), KeywordName(k);
      var i := 0;
      while i < |rest|
        invariant 0 <= i <= |rest|
        invariant Valid() && reader.front == first + 1 && reader.peeked == i
        invariant initial == reader.At(first)
        invariant ScanKeyword(s, b, first, i) == ScanKeyword(s, b, first, 0)
      {
        var p := Peek();
        if p.Err? {
          return Err(p.error);
        }
        if p.value.ch != rest[i] {
          return Err(InvalidToken(name, Span(initial.line, p.value.line), Span(initial.pos, p.value.pos)));
        }
        i := i + 1;
      }
      reader.Consume(|rest|);
      r := Ok(Token(Span(initial.line, initial.line), Span(initial.pos, initial.pos + |rest|), data));
    }

    method ParseDelimiter(c: char) returns (r: Result<Token, LexError>)
      requires Valid() && reader.peeked == 1 && reader.front < |reader.chars|
      requires IsDelimiter(c) && reader.chars[reader.front] == c
      modifies reader
      ensures Valid() && Settled()
      ensures r == TokenOf(reader.chars, Tok(DelimiterData(c), old(reader.front), old(reader.front), old(reader.front) + 1))
      ensures reader.Ahead() == old(reader.front) + 1
    {
      var data := DelimiterData(c);
      var x := DiscardNext();
      r := Ok(Token(Span(x.line, x.line), Span(x.pos, x.pos), data));
    }
  }
}
