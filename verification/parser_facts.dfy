/**
 * What the parser makes of single tokens: the value a scalar token stands
 * for, which tokens are refused where, and at which token's place each
 * syntax error is reported. Every lemma is about the specification functions
 * of `JsonParser`, which the `Parser` methods are proved to follow.
 */
module ParserFacts {
  import opened Results
  import opened JsonLexer
  import opened JsonParser
  import CharReader

  /** The value a string, number or keyword token stands for. */
  function ScalarNode(d: Data): (n: Node)
    requires d.String? || d.Number? || IsKeyword(d)
    ensures Complete(n)
  {
    match d
    case String(text) => Node.String(text)
    case Number(lexeme) => Node.Number(lexeme)
    case True => Node.True
    case False => Node.False
    case Null => Node.Null
  }

  /**
   * A fetch is the lexer's read: it returns the token read with its data and
   * remembers that token's places, or passes the lexer's error on and keeps
   * the places it had; the lexer then stands where the read left it.
   */
  lemma FetchReads(s: string, b: bool, i: nat, line: Span, pos: Span)
    requires i <= |s|
    ensures var f := Fetch(s, b, i, line, pos);
      var o := Scan(s, b, i);
      var t := TokenOf(s, o);
      (f.token.Ok? <==> t.Ok?) &&
      (t.Ok? ==> f.token.value.data == t.value.data && f.line == t.value.line && f.pos == t.value.pos) &&
      (t.Err? ==> f.token == Err(LexerError(t.error)) && f.line == line && f.pos == pos) &&
      f.next == if Resumable(o) then Resume(s, o) else i
  {
  }

  /** A string, number or keyword token is a whole value, and the parser remembers that token's places. */
  lemma ScalarValue(s: string, b: bool, i: nat, line: Span, pos: Span)
    requires i <= |s|
    requires var o := Scan(s, b, i); o.Tok? && (o.data.String? || o.data.Number? || IsKeyword(o.data))
    ensures var o := Scan(s, b, i);
      var t := TokenOf(s, o).value;
      Value(s, b, i, line, pos) == Step(Ok(ScalarNode(o.data)), o.next, t.line, t.pos)
  {
  }

  /**
   * A token that cannot start a value (`:`, `,`, `]` or `}`) where a value
   * must start, at the top or as an array element, is a syntax error at that token.
   */
  lemma MisplacedValue(s: string, b: bool, i: nat, line: Span, pos: Span, acc: seq<Node>)
    requires i <= |s| && AllComplete(acc)
    requires var o := Scan(s, b, i); o.Tok? && (o.data.Colon? || o.data.Comma? || o.data.RightBracket? || o.data.RightBrace?)
    ensures var t := TokenOf(s, Scan(s, b, i)).value;
      Value(s, b, i, line, pos).result == Err(SyntaxError(t.line, t.pos, AnyValue)) &&
      Elements(s, b, i, line, pos, acc).result == Err(SyntaxError(t.line, t.pos, AnyValue))
  {
  }

  /** A read that fails fails the parse with the lexer's error, and the remembered places stay as they were. */
  lemma LexFailure(s: string, b: bool, i: nat, line: Span, pos: Span)
    requires i <= |s| && !Scan(s, b, i).Tok? && !Scan(s, b, i).End?
    ensures var st := Value(s, b, i, line, pos);
      st.result == Err(LexerError(TokenOf(s, Scan(s, b, i)).error)) && st.line == line && st.pos == pos &&
      Members(s, b, i, line, pos, map[]) == st && Elements(s, b, i, line, pos, []) == st
  {
  }

  /** A member must start with a string key: any other token, or the end of the input, is a syntax error there. */
  lemma KeyNotString(s: string, b: bool, i: nat, line: Span, pos: Span, acc: map<string, Node>)
    requires i <= |s| && AllValuesComplete(acc)
    requires var o := Scan(s, b, i); (o.Tok? && !o.data.String?) || o.End?
    ensures var t := TokenOf(s, Scan(s, b, i)).value;
      Members(s, b, i, line, pos, acc).result == Err(SyntaxError(t.line, t.pos, ObjectKey))
  {
  }

  /** A key must be followed by `:`: any other token, or the end of the input, is a syntax error there. */
  lemma ColonMissing(s: string, b: bool, i: nat, line: Span, pos: Span, acc: map<string, Node>)
    requires i <= |s| && AllValuesComplete(acc)
    requires var o := Scan(s, b, i);
      o.Tok? && o.data.String? && var c := Scan(s, b, o.next); (c.Tok? && !c.data.Colon?) || c.End?
    ensures var t := TokenOf(s, Scan(s, b, Scan(s, b, i).next)).value;
      Members(s, b, i, line, pos, acc).result == Err(SyntaxError(t.line, t.pos, ObjectColon))
  {
  }

  /** A member's value that fails to read fails the object with the lexer's error. */
  lemma MemberValueFails(s: string, b: bool, i: nat, line: Span, pos: Span, acc: map<string, Node>)
    requires i <= |s| && AllValuesComplete(acc)
    requires var o := Scan(s, b, i);
      o.Tok? && o.data.String? &&
      var c := Scan(s, b, o.next);
      c.Tok? && c.data.Colon? && !Scan(s, b, c.next).Tok? && !Scan(s, b, c.next).End?
    ensures var c := Scan(s, b, Scan(s, b, i).next);
      Members(s, b, i, line, pos, acc).result == Err(LexerError(TokenOf(s, Scan(s, b, c.next)).error))
  {
    var o := Scan(s, b, i);
    var c := Scan(s, b, o.next);
    var k := Fetch(s, b, i, line, pos);
    var f := Fetch(s, b, o.next, k.line, k.pos);
    LexFailure(s, b, c.next, f.line, f.pos);
  }

  /** Input that ends where an array element must come is a syntax error at the place of the end. */
  lemma ElementMissing(s: string, b: bool, i: nat, line: Span, pos: Span, acc: seq<Node>)
    requires i <= |s| && AllComplete(acc) && Scan(s, b, i) == End
    ensures var e := CharReader.EndPlace(s);
      Elements(s, b, i, line, pos, acc).result == Err(SyntaxError(Span(e.line, e.line), Span(e.pos, e.pos), ArrayElement))
  {
  }

  /** `[]` is refused: its `]` stands where the first element must start. */
  lemma EmptyArray(s: string, b: bool, i: nat, line: Span, pos: Span)
    requires i < |s| && s[i] == '[' && Scan(s, b, i + 1).Tok? && Scan(s, b, i + 1).data.RightBracket?
    ensures var t := TokenOf(s, Scan(s, b, i + 1)).value;
      Value(s, b, i, line, pos).result == Err(SyntaxError(t.line, t.pos, AnyValue))
  {
    MisplacedValue(s, b, i + 1, TokenOf(s, Scan(s, b, i)).value.line, TokenOf(s, Scan(s, b, i)).value.pos, []);
  }

  /** `{}` is refused: its `}` stands where the first key must start. */
  lemma EmptyObject(s: string, b: bool, i: nat, line: Span, pos: Span)
    requires i < |s| && s[i] == '{' && Scan(s, b, i + 1).Tok? && Scan(s, b, i + 1).data.RightBrace?
    ensures var t := TokenOf(s, Scan(s, b, i + 1)).value;
      Value(s, b, i, line, pos).result == Err(SyntaxError(t.line, t.pos, ObjectKey))
  {
  }

  /**
   * An element, whatever value it is, must be followed by `,` or `]`: any
   * other token, or the end, is a syntax error at that token.
   */
  lemma ElementThenStray(s: string, b: bool, v: Step, acc: seq<Node>)
    requires v.next <= |s| && AllComplete(acc) && v.result.Ok? && Complete(v.result.value)
    requires var d := Scan(s, b, v.next); (d.Tok? && !d.data.Comma? && !d.data.RightBracket?) || d.End?
    ensures var t := TokenOf(s, Scan(s, b, v.next)).value;
      ElementValue(s, b, v, acc).result == Err(SyntaxError(t.line, t.pos, ArrayContinuation))
  {
  }

  /** A scalar element must be followed by `,` or `]`: any other token, or the end, is a syntax error there. */
  lemma ElementUnfollowed(s: string, b: bool, i: nat, line: Span, pos: Span, acc: seq<Node>)
    requires i <= |s| && AllComplete(acc)
    requires var o := Scan(s, b, i);
      o.Tok? && (o.data.String? || o.data.Number? || IsKeyword(o.data)) &&
      var d := Scan(s, b, o.next); (d.Tok? && !d.data.Comma? && !d.data.RightBracket?) || d.End?
    ensures var t := TokenOf(s, Scan(s, b, Scan(s, b, i).next)).value;
      Elements(s, b, i, line, pos, acc).result == Err(SyntaxError(t.line, t.pos, ArrayContinuation))
  {
    ScalarValue(s, b, i, line, pos);
    ElementThenStray(s, b, Value(s, b, i, line, pos), acc);
  }

  /**
   * A member's value, whatever value it is, must be followed by `,` or `}`:
   * any other token, or the end, is a syntax error at that token.
   */
  lemma MemberThenStray(s: string, b: bool, v: Step, key: string, acc: map<string, Node>)
    requires v.next <= |s| && AllValuesComplete(acc) && v.result.Ok? && Complete(v.result.value)
    requires var d := Scan(s, b, v.next); (d.Tok? && !d.data.Comma? && !d.data.RightBrace?) || d.End?
    ensures var t := TokenOf(s, Scan(s, b, v.next)).value;
      MemberValue(s, b, v, key, acc).result == Err(SyntaxError(t.line, t.pos, ObjectContinuation))
  {
  }

  /** A scalar member's value must be followed by `,` or `}`: any other token, or the end, is a syntax error there. */
  lemma MemberUnfollowed(s: string, b: bool, i: nat, line: Span, pos: Span, acc: map<string, Node>)
    requires i <= |s| && AllValuesComplete(acc)
    requires var o := Scan(s, b, i);
      o.Tok? && o.data.String? &&
      var c := Scan(s, b, o.next);
      c.Tok? && c.data.Colon? &&
      var v := Scan(s, b, c.next);
      v.Tok? && (v.data.String? || v.data.Number? || IsKeyword(v.data)) &&
      var d := Scan(s, b, v.next);
      (d.Tok? && !d.data.Comma? && !d.data.RightBrace?) || d.End?
    ensures var v := Scan(s, b, Scan(s, b, Scan(s, b, i).next).next);
      var t := TokenOf(s, Scan(s, b, v.next)).value;
      Members(s, b, i, line, pos, acc).result == Err(SyntaxError(t.line, t.pos, ObjectContinuation))
  {
    var o := Scan(s, b, i);
    var k := Fetch(s, b, i, line, pos);
    var f := Fetch(s, b, o.next, k.line, k.pos);
    var w := Scan(s, b, o.next).next;
    ScalarValue(s, b, w, f.line, f.pos);
    MemberThenStray(s, b, Value(s, b, w, f.line, f.pos), o.data.text, acc);
  }

  /** Input that ends where a member's value must come (after `key:`) is a syntax error at the place of the end. */
  lemma MemberValueMissing(s: string, b: bool, i: nat, line: Span, pos: Span, acc: map<string, Node>)
    requires i <= |s| && AllValuesComplete(acc)
    requires var o := Scan(s, b, i);
      o.Tok? && o.data.String? &&
      var c := Scan(s, b, o.next);
      c.Tok? && c.data.Colon? && Scan(s, b, c.next) == End
    ensures var e := CharReader.EndPlace(s);
      Members(s, b, i, line, pos, acc).result == Err(SyntaxError(Span(e.line, e.line), Span(e.pos, e.pos), ObjectValue))
  {
  }

  /**
   * A member whose value is a scalar, followed by `,`: the member is entered
   * into the object (replacing an earlier one with the same key) and the next
   * member is read after the comma, the comma's places remembered.
   */
  lemma ScalarMemberThenComma(s: string, b: bool, i: nat, line: Span, pos: Span, acc: map<string, Node>)
    requires i <= |s| && AllValuesComplete(acc)
    requires var o := Scan(s, b, i);
      o.Tok? && o.data.String? &&
      var c := Scan(s, b, o.next);
      c.Tok? && c.data.Colon? &&
      var v := Scan(s, b, c.next);
      v.Tok? && (v.data.String? || v.data.Number? || IsKeyword(v.data)) &&
      var d := Scan(s, b, v.next);
      d.Tok? && d.data.Comma?
    ensures var o := Scan(s, b, i);
      var v := Scan(s, b, Scan(s, b, o.next).next);
      var d := Scan(s, b, v.next);
      var t := TokenOf(s, d).value;
      Members(s, b, i, line, pos, acc) == Members(s, b, d.next, t.line, t.pos, acc[o.data.text := ScalarNode(v.data)])
  {
    var o := Scan(s, b, i);
    var k := Fetch(s, b, i, line, pos);
    var f := Fetch(s, b, o.next, k.line, k.pos);
    ScalarValue(s, b, Scan(s, b, o.next).next, f.line, f.pos);
  }
}
