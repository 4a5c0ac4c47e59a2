/**
 * The parser: builds one JSON value per `Parse` from the lexer's tokens, by
 * recursive descent, and returns `EOF` once the input holds no more tokens.
 *
 * `Value`, `Members` and `Elements` are the specification: pure functions of
 * the characters that say what a parse starting at lexer index i returns,
 * where the lexer is left and which token's place the parser remembers. The
 * `Parser` class reads tokens from a `JsonLexer.Lexer` as the source does and
 * each of its methods is proved to return what the specification says.
 */
module JsonParser {
  import opened Results
  import L = JsonLexer

  /** A JSON value; a number keeps its lexeme (the float value is not modelled). */
  datatype Node =
    | String(text: string)
    | Number(lexeme: string)
    | True
    | False
    | Null
    | Array(items: seq<Node>)
    | Object(members: map<string, Node>)
    | EOF

  /** What the parser expected where a syntax error was found (one per message of the source). */
  datatype Expectation =
    | AnyValue            // a value must start here
    | ObjectKey           // an object key must be a string
    | ObjectColon         // a key must be followed by `:`
    | ObjectValue         // an object member's value is missing
    | ObjectContinuation  // a member must be followed by `,` or `}`
    | ArrayElement        // an array element is missing
    | ArrayContinuation   // an element must be followed by `,` or `]`

  /** Parse failures; a lexer failure keeps its cause (its message text is not modelled). */
  datatype Error =
    | SyntaxError(line: L.Span, pos: L.Span, expected: Expectation)
    | LexerError(cause: L.LexError)

  /** A value with no `EOF` anywhere inside it. */
  predicate Complete(n: Node)
  {
    match n
    case EOF => false
    case Array(items) => forall k | 0 <= k < |items| :: Complete(items[k])
    case Object(members) => forall key | key in members :: Complete(members[key])
    case _ => true
  }

  predicate AllComplete(items: seq<Node>) { forall k | 0 <= k < |items| :: Complete(items[k]) }

  predicate AllValuesComplete(members: map<string, Node>) { forall key | key in members :: Complete(members[key]) }

  /**
   * After these results the lexer is back between tokens: success, a syntax
   * error (its last token was read whole), or a recoverable lexer error.
   */
  predicate Leaves(r: Result<Node, Error>)
  {
    r.Ok? || r.error.SyntaxError? || L.Recoverable(r.error.cause)
  }

  predicate TokenLeaves(r: Result<L.Token, Error>)
  {
    r.Ok? || r.error.SyntaxError? || L.Recoverable(r.error.cause)
  }

  // ---- the specification ----

  /**
   * One token read at lexer index i, with the places the parser remembers:
   * the token's own on success, the previous ones on failure. A returned
   * token's places are left empty, since the parser moves them out.
   */
  datatype Fetched = Fetched(token: Result<L.Token, Error>, next: nat, line: L.Span, pos: L.Span)

  function Fetch(s: string, b: bool, i: nat, line: L.Span, pos: L.Span): (f: Fetched)
    requires i <= |s|
    ensures i <= f.next <= |s|
    ensures f.token.Ok? && !f.token.value.data.EOF? ==> i < f.next
    ensures f.token.Ok? ==> (f.token.value.data.EOF? <==> L.Scan(s, b, i) == L.End)
    ensures f.token.Ok? ==> f.token.value.line == L.Span(0, 0) && f.token.value.pos == L.Span(0, 0)
    ensures f.token.Err? ==> f.token.error.LexerError? && f.line == line && f.pos == pos
  {
    var o := L.Scan(s, b, i);
    var t := L.TokenOf(s, o);
    var next := if L.Resumable(o) then L.Resume(s, o) else i;
    if t.Ok? then Fetched(Ok(L.Token(L.Span(0, 0), L.Span(0, 0), t.value.data)), next, t.value.line, t.value.pos)
    else Fetched(Err(LexerError(t.error)), next, line, pos)
  }

  /** The result of a parse, the lexer index after it and the places the parser remembers. */
  datatype Step = Step(result: Result<Node, Error>, next: nat, line: L.Span, pos: L.Span)

  /** A syntax error reported at the place of the last token read. */
  function Stuck(f: Fetched, expected: Expectation): Step
  {
    Step(Err(SyntaxError(f.line, f.pos, expected)), f.next, f.line, f.pos)
  }

  /** A lexer failure passed on as it is. */
  function Failing(f: Fetched): Step
    requires f.token.Err?
  {
    Step(Err(f.token.error), f.next, f.line, f.pos)
  }

  /** One value parsed from lexer index i, with `line`/`pos` the places remembered so far. */
  function Value(s: string, b: bool, i: nat, line: L.Span, pos: L.Span): (st: Step)
    requires i <= |s|
    ensures i <= st.next <= |s|
    ensures st.result.Ok? ==> st.result.value.EOF? || Complete(st.result.value)
    ensures st.result == Ok(EOF) <==> L.Scan(s, b, i) == L.End
    ensures st.result.Err? && st.result.error.SyntaxError? ==>
      st.result.error.line == st.line && st.result.error.pos == st.pos
    decreases |s| - i, 0
  {
    var f := Fetch(s, b, i, line, pos);
    if f.token.Err? then Failing(f)
    else
      match f.token.value.data
      case LeftBrace => Members(s, b, f.next, f.line, f.pos, map[])
      case LeftBracket => Elements(s, b, f.next, f.line, f.pos, [])
      case String(text) => Step(Ok(Node.String(text)), f.next, f.line, f.pos)
      case Number(lexeme) => Step(Ok(Node.Number(lexeme)), f.next, f.line, f.pos)
      case True => Step(Ok(Node.True), f.next, f.line, f.pos)
      case False => Step(Ok(Node.False), f.next, f.line, f.pos)
      case Null => Step(Ok(Node.Null), f.next, f.line, f.pos)
      case EOF => Step(Ok(Node.EOF), f.next, f.line, f.pos)
      case _ => Stuck(f, AnyValue)
  }

  /**
   * The members of an object from lexer index i on (just after `{` or a
   * comma), with `acc` the members read so far: a string key, then `:`, then a value.
   */
  function Members(s: string, b: bool, i: nat, line: L.Span, pos: L.Span, acc: map<string, Node>): (st: Step)
    requires i <= |s| && AllValuesComplete(acc)
    ensures i <= st.next <= |s|
    ensures st.result.Ok? ==> st.result.value.Object? && Complete(st.result.value)
    ensures st.result.Err? && st.result.error.SyntaxError? ==>
      st.result.error.line == st.line && st.result.error.pos == st.pos
    decreases |s| - i, 1
  {
    var k := Fetch(s, b, i, line, pos);
    if k.token.Err? then Failing(k)
    else if !k.token.value.data.String? then Stuck(k, ObjectKey)
    else
      var c := Fetch(s, b, k.next, k.line, k.pos);
      if c.token.Err? then Failing(c)
      else if !c.token.value.data.Colon? then Stuck(c, ObjectColon)
      else MemberValue(s, b, Value(s, b, c.next, c.line, c.pos), k.token.value.data.text, acc)
  }

  /**
   * The rest of an object once the value v of member `key` is parsed: a
   * repeated key keeps its last value, and `,` or `}` must follow.
   */
  function MemberValue(s: string, b: bool, v: Step, key: string, acc: map<string, Node>): (st: Step)
    requires v.next <= |s| && AllValuesComplete(acc)
    requires v.result.Ok? ==> v.result.value.EOF? || Complete(v.result.value)
    requires v.result.Err? && v.result.error.SyntaxError? ==> v.result.error.line == v.line && v.result.error.pos == v.pos
    ensures v.next <= st.next <= |s|
    ensures st.result.Ok? ==> st.result.value.Object? && Complete(st.result.value)
    ensures st.result.Err? && st.result.error.SyntaxError? ==>
      st.result.error.line == st.line && st.result.error.pos == st.pos
    ensures v.result.Err? ==> st == v
    ensures v.result == Ok(EOF) ==> st.result == Err(SyntaxError(v.line, v.pos, ObjectValue))
    decreases |s| - v.next, 0
  {
    if v.result.Err? then v
    else if v.result.value.EOF? then Step(Err(SyntaxError(v.line, v.pos, ObjectValue)), v.next, v.line, v.pos)
    else
      var members := acc[key := v.result.value];
      var d := Fetch(s, b, v.next, v.line, v.pos);
      if d.token.Err? then Failing(d)
      else if d.token.value.data.Comma? then Members(s, b, d.next, d.line, d.pos, members)
      else if d.token.value.data.RightBrace? then Step(Ok(Object(members)), d.next, d.line, d.pos)
      else Stuck(d, ObjectContinuation)
  }

  /** The elements of an array from lexer index i on (just after `[` or a comma), with `acc` those read so far. */
  function Elements(s: string, b: bool, i: nat, line: L.Span, pos: L.Span, acc: seq<Node>): (st: Step)
    requires i <= |s| && AllComplete(acc)
    ensures i <= st.next <= |s|
    ensures st.result.Ok? ==> st.result.value.Array? && Complete(st.result.value)
    ensures st.result.Err? && st.result.error.SyntaxError? ==>
      st.result.error.line == st.line && st.result.error.pos == st.pos
    decreases |s| - i, 1
  {
    ElementValue(s, b, Value(s, b, i, line, pos), acc)
  }

  /** The rest of an array once its next element v is parsed: `,` or `]` must follow. */
  function ElementValue(s: string, b: bool, v: Step, acc: seq<Node>): (st: Step)
    requires v.next <= |s| && AllComplete(acc)
    requires v.result.Ok? ==> v.result.value.EOF? || Complete(v.result.value)
    requires v.result.Err? && v.result.error.SyntaxError? ==> v.result.error.line == v.line && v.result.error.pos == v.pos
    ensures v.next <= st.next <= |s|
    ensures st.result.Ok? ==> st.result.value.Array? && Complete(st.result.value)
    ensures st.result.Err? && st.result.error.SyntaxError? ==>
      st.result.error.line == st.line && st.result.error.pos == st.pos
    ensures v.result.Err? ==> st == v
    ensures v.result == Ok(EOF) ==> st.result == Err(SyntaxError(v.line, v.pos, ArrayElement))
    decreases |s| - v.next, 0
  {
    if v.result.Err? then v
    else if v.result.value.EOF? then Step(Err(SyntaxError(v.line, v.pos, ArrayElement)), v.next, v.line, v.pos)
    else
      var items := acc + [v.result.value];
      var d := Fetch(s, b, v.next, v.line, v.pos);
      if d.token.Err? then Failing(d)
      else if d.token.value.data.Comma? then Elements(s, b, d.next, d.line, d.pos, items)
      else if d.token.value.data.RightBracket? then Step(Ok(Array(items)), d.next, d.line, d.pos)
      else Stuck(d, ArrayContinuation)
  }

  class Parser {
    const lexer: L.Lexer
    /** The places of the last token read, where a syntax error is reported. */
    var line: L.Span
    var pos: L.Span

    ghost predicate Valid()
      reads this, lexer, lexer.reader
    {
      lexer.Valid()
    }

    /** The lexer's read index. */
    ghost function Index(): nat
      reads this, lexer, lexer.reader
    {
      lexer.reader.Ahead()
    }

    ghost function Chars(): string
      reads this, lexer
    {
      lexer.reader.chars
    }

    constructor (input: string, failsAtEnd: bool)
      ensures Valid() && lexer.Settled() && fresh(lexer) && fresh(lexer.reader)
      ensures Chars() == input && lexer.reader.broken == failsAtEnd && Index() == 0
      ensures line == L.Span(1, 1) && pos == L.Span(1, 1)
    {
      lexer := new L.Lexer(input, failsAtEnd);
      line := L.Span(1, 1);
      pos := L.Span(1, 1);
    }

    /** The error for an unexpected token, at the place of the last token read. */
    function SyntaxErrorAt(expected: Expectation): Error
      reads this
    {
      SyntaxError(line, pos, expected)
    }

    /** Reads one token and remembers its places. */
    method ReadToken() returns (r: Result<L.Token, Error>)
      requires Valid() && lexer.Settled()
      modifies this, lexer.reader
      ensures Valid()
      ensures var f := Fetch(Chars(), lexer.reader.broken, old(Index()), old(line), old(pos));
        r == f.token && line == f.line && pos == f.pos &&
        (TokenLeaves(r) ==> lexer.Settled() && Index() == f.next)
    {
      var t := lexer.Read();
      if t.Err? {
        return Err(LexerError(t.error));
      }
      line, pos := t.value.line, t.value.pos;
      r := Ok(L.Token(L.Span(0, 0), L.Span(0, 0), t.value.data));
    }

    /** Parses one value: `EOF` once no token is left. */
    method Parse() returns (r: Result<Node, Error>)
      requires Valid() && lexer.Settled()
      modifies this, lexer.reader
      ensures Valid()
      ensures var st := Value(Chars(), lexer.reader.broken, old(Index()), old(line), old(pos));
        r == st.result && line == st.line && pos == st.pos &&
        (Leaves(r) ==> lexer.Settled() && Index() == st.next)
      decreases |Chars()| - Index(), 0
    {
      var t := ReadToken();
      if t.Err? {
        return Err(t.error);
      }
      match t.value.data
      case LeftBrace => r := ParseObject();
      case LeftBracket => r := ParseArray();
      case String(text) => r := Ok(Node.String(text));
      case Number(lexeme) => r := Ok(Node.Number(lexeme));
      case True => r := Ok(Node.True);
      case False => r := Ok(Node.False);
      case Null => r := Ok(Node.Null);
      case EOF => r := Ok(Node.EOF);
      case _ => r := Err(SyntaxErrorAt(AnyValue));
    }

    /** Parses the members of an object whose `{` has been read. */
    method ParseObject() returns (r: Result<Node, Error>)
      requires Valid() && lexer.Settled()
      modifies this, lexer.reader
      ensures Valid()
      ensures var st := Members(Chars(), lexer.reader.broken, old(Index()), old(line), old(pos), map[]);
        r == st.result && line == st.line && pos == st.pos &&
        (Leaves(r) ==> lexer.Settled() && Index() == st.next)
      decreases |Chars()| - Index(), 1
    {
      ghost var s, b, i0, line0, pos0 := Chars(), lexer.reader.broken, Index(), line, pos;
      var members: map<string, Node> := map[];
      while true
        invariant Valid() && lexer.Settled() && i0 <= Index() <= |s|
        invariant AllValuesComplete(members)
        invariant Members(s, b, Index(), line, pos, members) == Members(s, b, i0, line0, pos0, map[])
        decreases |s| - Index()
      {
        var keyToken := ReadToken();
        if keyToken.Err? {
          return Err(keyToken.error);
        }
        if !keyToken.value.data.String? {
          return Err(SyntaxErrorAt(ObjectKey));
        }
        var key := keyToken.value.data.text;
        var colonToken := ReadToken();
        if colonToken.Err? {
          return Err(colonToken.error);
        }
        if !colonToken.value.data.Colon? {
          return Err(SyntaxErrorAt(ObjectColon));
        }
        var value := Parse();
        if value.Err? {
          return value;
        }
        if value.value.EOF? {
          return Err(SyntaxErrorAt(ObjectValue));
        }
        members := members[key := value.value];
        var next := ReadToken();
        if next.Err? {
          return Err(next.error);
        }
        if next.value.data.Comma? {
          continue;
        } else if next.value.data.RightBrace? {
          return Ok(Object(members));
        } else {
          return Err(SyntaxErrorAt(ObjectContinuation));
        }
      }
    }

    /** Parses the elements of an array whose `[` has been read. */
    method ParseArray() returns (r: Result<Node, Error>)
      requires Valid() && lexer.Settled()
      modifies this, lexer.reader
      ensures Valid()
      ensures var st := Elements(Chars(), lexer.reader.broken, old(Index()), old(line), old(pos), []);
        r == st.result && line == st.line && pos == st.pos &&
        (Leaves(r) ==> lexer.Settled() && Index() == st.next)
      decreases |Chars()| - Index(), 1
    {
      ghost var s, b, i0, line0, pos0 := Chars(), lexer.reader.broken, Index(), line, pos;
      var items: seq<Node> := [];
      while true
        invariant Valid() && lexer.Settled() && i0 <= Index() <= |s|
        invariant AllComplete(items)
        invariant Elements(s, b, Index(), line, pos, items) == Elements(s, b, i0, line0, pos0, [])
        decreases |s| - Index()
      {
        var node := Parse();
        if node.Err? {
          return node;
        }
        if node.value.EOF? {
          return Err(SyntaxErrorAt(ArrayElement));
        }
        items := items + [node.value];
        var next := ReadToken();
        if next.Err? {
          return Err(next.error);
        }
        if next.value.data.Comma? {
          continue;
        } else if next.value.data.RightBracket? {
          return Ok(Array(items));
        } else {
          return Err(SyntaxErrorAt(ArrayContinuation));
        }
      }
    }
  }
}
