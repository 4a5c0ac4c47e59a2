/**
 * The inputs of the source's own tests, read through the specification.
 * Each case fixes its input s, a `...Layout` lemma turns the text into facts
 * about its characters, and the general lemmas about `Scan`, `Value` and
 * `Members` then give the token or the parse result the test expects.
 */
module LexerCases {
  import opened Results
  import opened FloatLiteral
  import opened JsonLexer
  import CharReader
  import LexerFacts

  /** What the first read of s returns, for a source that does not fail. */
  function Lexed(s: string): Result<Token, LexError>
  {
    TokenOf(s, Scan(s, false, 0))
  }

  /** The line-1 places of characters 0 and k of s, which has no newline. */
  lemma OneLine(s: string, k: nat)
    requires k < |s| && forall x | 0 <= x < |s| :: s[x] != '\n'
    ensures CharReader.Where(s, 0) == CharReader.Place(1, 1) && CharReader.Where(s, k) == CharReader.Place(1, k + 1)
  {
    CharReader.WhereAlongLine(s, 0, k);
  }

  // ---- strings ----

  lemma PlainString(s: string)
    requires s == "\"boon\""
    ensures Lexed(s) == Ok(Token(Span(1, 1), Span(1, 6), Data.String("boon")))
  {
    PlainStringLayout(s);
    LexerFacts.PlainStringAt(s, false, 0, 5);
    OneLine(s, 5);
  }

  lemma PlainStringLayout(s: string)
    requires s == "\"boon\""
    ensures |s| == 6 && s[0] == '"' && s[5] == '"' && s[1..5] == "boon"
    ensures forall x | 0 < x < 5 :: s[x] != '"' && s[x] != '\\'
    ensures forall x | 0 <= x < |s| :: s[x] != '\n'
  {
  }

  /** Backslash-escaped quotes inside a string are kept, without their backslashes. */
  lemma EscapedQuotes(s: string)
    requires s == "\"\\\"english\\\"\""
    ensures Lexed(s) == Ok(Token(Span(1, 1), Span(1, 13), Data.String("\"english\"")))
  {
    EscapedQuotesLayout(s);
    var t := ['"'] + s[3..10] + ['"'];
    assert t == "\"english\"";
    EscapedQuotesScan(s, t);
    OneLine(s, 12);
  }

  lemma EscapedQuotesLayout(s: string)
    requires s == "\"\\\"english\\\"\""
    ensures |s| == 13 && s[0] == '"' && s[1] == '\\' && s[2] == '"' && s[10] == '\\' && s[11] == '"' && s[12] == '"'
    ensures s[3..10] == "english" && forall x | 3 <= x < 10 :: s[x] != '"' && s[x] != '\\'
    ensures forall x | 0 <= x < |s| :: s[x] != '\n'
  {
  }

  lemma EscapedQuotesScan(s: string, t: string)
    requires |s| == 13 && s[0] == '"' && s[1] == '\\' && s[2] == '"' && s[10] == '\\' && s[11] == '"' && s[12] == '"'
    requires forall x | 3 <= x < 10 :: s[x] != '"' && s[x] != '\\'
    requires t == ['"'] + s[3..10] + ['"']
    ensures Scan(s, false, 0) == Tok(Data.String(t), 0, 12, 13)
  {
    var w := s[3..10];
    var e := ['\\', '"'] + w + ['\\', '"'];
    assert LexerFacts.Escape(t) == e by {
      LexerFacts.EscapePlain(w);
      LexerFacts.EscapeConcat(['"'] + w, ['"']);
      LexerFacts.EscapeConcat(['"'], w);
    }
    assert LexerFacts.Occurs(s, 0, LexerFacts.Quote(t)) by {
      var q := LexerFacts.Quote(t);
      assert q == ['"'] + e + ['"'];
      forall x | 0 <= x < |q| ensures s[x] == q[x] {
        if 3 <= x < 10 {
          assert q[x] == w[x - 3];
        }
      }
    }
    LexerFacts.StringToken(s, false, 0, t);
  }

  /** A string the input ends inside is unclosed from its quote to the last character. */
  lemma UnclosedString(s: string)
    requires s == "\"true"
    ensures Lexed(s) == Err(UnclosedStringLiteral(Span(1, 1), Span(1, 5)))
  {
    var body := s[1..];
    assert body == "true" && LexerFacts.Escape(body) == body by {
      LexerFacts.EscapePlain(body);
    }
    assert Scan(s, false, 0) == Unclosed(0) by {
      LexerFacts.StringUnclosed(s, false, 0, 1, "", body, false);
    }
    OneLine(s, 4);
  }

  // ---- numbers ----

  /**
   * Input made of one run of number characters is read whole: a `Number`
   * token if the run converts, an `InvalidNumber` error over it if not.
   */
  lemma NumberAlone(s: string)
    requires 0 < |s| && StartsNumber(s[0]) && forall k | 0 < k < |s| :: IsNumberChar(s[k])
    ensures Lexed(s) ==
      if IsFloatLiteral(s) then Ok(Token(Span(1, 1), Span(1, |s|), Data.Number(s)))
      else Err(InvalidNumber(Span(1, 1), Span(1, |s|)))
  {
    LexerFacts.NumberRun(s, false, 0, |s|);
    assert s[0..|s|] == s;
    OneLine(s, |s| - 1);
  }

  lemma Integer()
    ensures Lexed("123") == Ok(Token(Span(1, 1), Span(1, 3), Data.Number("123")))
  {
    var s := "123";
    assert IsFloatLiteral(s) by {
      assert Decimal(s[3..], Whole);
      assert Decimal(s[2..], Whole);
      assert Decimal(s[1..], Whole);
    }
    NumberAlone(s);
  }

  lemma NegativeInteger()
    ensures Lexed("-123") == Ok(Token(Span(1, 1), Span(1, 4), Data.Number("-123")))
  {
    var s := "-123";
    assert IsFloatLiteral(s) by {
      assert Decimal(s[4..], Whole);
      assert Decimal(s[3..], Whole);
      assert Decimal(s[2..], Whole);
      assert Decimal(s[1..], Start);
    }
    NumberAlone(s);
  }

  lemma Decimals()
    ensures Lexed("3.14") == Ok(Token(Span(1, 1), Span(1, 4), Data.Number("3.14")))
  {
    var s := "3.14";
    assert IsFloatLiteral(s) by {
      assert Decimal(s[4..], Fraction);
      assert Decimal(s[3..], Fraction);
      assert Decimal(s[2..], Fraction);
      assert Decimal(s[1..], Whole);
    }
    NumberAlone(s);
  }

  lemma PowerOfTen()
    ensures Lexed("1e6") == Ok(Token(Span(1, 1), Span(1, 3), Data.Number("1e6")))
  {
    var s := "1e6";
    assert IsFloatLiteral(s) by {
      assert Decimal(s[3..], Power);
      assert Decimal(s[2..], Mark);
      assert Decimal(s[1..], Whole);
    }
    NumberAlone(s);
  }

  lemma NegativeFraction()
    ensures Lexed("-0.01") == Ok(Token(Span(1, 1), Span(1, 5), Data.Number("-0.01")))
  {
    var s := "-0.01";
    assert IsFloatLiteral(s) by {
      assert Decimal(s[5..], Fraction);
      assert Decimal(s[4..], Fraction);
      assert Decimal(s[3..], Fraction);
      assert Decimal(s[2..], Whole);
      assert Decimal(s[1..], Start);
    }
    NumberAlone(s);
  }

  lemma Scientific()
    ensures Lexed("-2.5E-3") == Ok(Token(Span(1, 1), Span(1, 7), Data.Number("-2.5E-3")))
  {
    var s := "-2.5E-3";
    assert IsFloatLiteral(s) by {
      assert Decimal(s[7..], Power);
      assert Decimal(s[6..], MarkSign);
      assert Decimal(s[5..], Mark);
      assert Decimal(s[4..], Fraction);
      assert Decimal(s[3..], Fraction);
      assert Decimal(s[2..], Whole);
      assert Decimal(s[1..], Start);
    }
    NumberAlone(s);
  }

  /** A second decimal point: the whole run is one `InvalidNumber` error. */
  lemma TwoDots()
    ensures Lexed("3.14.14") == Err(InvalidNumber(Span(1, 1), Span(1, 7)))
  {
    var s := "3.14.14";
    assert !IsFloatLiteral(s) by {
      DeadRejects(s[5..]);
      assert !Decimal(s[4..], Fraction);
      assert !Decimal(s[3..], Fraction);
      assert !Decimal(s[2..], Fraction);
      assert !Decimal(s[1..], Whole);
    }
    NumberAlone(s);
  }

  /** A second exponent: one `InvalidNumber` error over the whole run. */
  lemma TwoExponents()
    ensures Lexed("-3E14E1") == Err(InvalidNumber(Span(1, 1), Span(1, 7)))
  {
    var s := "-3E14E1";
    assert !IsFloatLiteral(s) by {
      DeadRejects(s[6..]);
      assert !Decimal(s[5..], Power);
      assert !Decimal(s[4..], Power);
      assert !Decimal(s[3..], Mark);
      assert !Decimal(s[2..], Whole);
      assert !Decimal(s[1..], Start);
    }
    NumberAlone(s);
  }

  /** Two minus signs: one `InvalidNumber` error over the whole run. */
  lemma TwoSigns()
    ensures Lexed("--11223") == Err(InvalidNumber(Span(1, 1), Span(1, 7)))
  {
    var s := "--11223";
    assert !IsFloatLiteral(s) by {
      DeadRejects(s[2..]);
      assert !Decimal(s[1..], Start);
    }
    NumberAlone(s);
  }

  /**
   * `+` is not a number character, so an exponent written with it ends the
   * run before the sign and what is left does not convert.
   */
  lemma PlusExponent()
    ensures Lexed("1e+5") == Err(InvalidNumber(Span(1, 1), Span(1, 2)))
  {
    var s := "1e+5";
    LexerFacts.NumberRun(s, false, 0, 2);
    assert s[0..2] == "1e";
    assert !Decimal(s[2..2], Mark);
    assert !Decimal(s[1..2], Whole);
    assert s[0..2][1..] == s[1..2];
  }

  // ---- keywords ----

  lemma TrueToken(s: string)
    requires s == "true"
    ensures Lexed(s) == Ok(Token(Span(1, 1), Span(1, 4), Data.True))
  {
    KeywordAlone(s);
  }

  lemma FalseToken(s: string)
    requires s == "false"
    ensures Lexed(s) == Ok(Token(Span(1, 1), Span(1, 5), Data.False))
  {
    KeywordAlone(s);
  }

  lemma NullToken(s: string)
    requires s == "null"
    ensures Lexed(s) == Ok(Token(Span(1, 1), Span(1, 4), Data.Null))
  {
    KeywordAlone(s);
  }

  /** A keyword and nothing else is that keyword's token, over all its letters. */
  lemma KeywordAlone(s: string)
    requires s == "true" || s == "false" || s == "null"
    ensures StartsKeyword(s[0]) && Lexed(s) == Ok(Token(Span(1, 1), Span(1, |s|), KeywordData(s[0])))
  {
    var rest := KeywordRest(s[0]);
    assert |rest| == |s| - 1 && forall x | 0 <= x < |s| :: s[x] != '\n';
    assert LexerFacts.Spells(s, 0, 0, |rest|) by {
      forall x | 0 <= x < |rest| ensures s[1 + x] == rest[x] {
      }
    }
    LexerFacts.KeywordSpan(s, false, 0);
    OneLine(s, |s| - 1);
  }
}

/** The parser's test inputs: what the first parse of each returns. */
module ParserCases {
  import opened Results
  import opened JsonLexer
  import opened JsonParser
  import LexerFacts
  import LexerCases
  import JsonDocuments
  import ParserFacts

  /** The places of the first character. */
  const First := Span(1, 1)

  /** What the first parse of s returns, for a source that does not fail. */
  function Parsed(s: string): Result<Node, Error>
  {
    Value(s, false, 0, First, First).result
  }

  /** `{` alone: the end of the input stands where a key must come. */
  lemma LoneBrace()
    ensures Parsed("{") == Err(SyntaxError(Span(1, 1), Span(1, 1), ObjectKey))
  {
  }

  /** `[` alone: the end of the input stands where an element must come. */
  lemma LoneBracket()
    ensures Parsed("[") == Err(SyntaxError(Span(1, 1), Span(1, 1), ArrayElement))
  {
    JsonDocuments.ValueOpens("[", false, 0, First, First);
    ParserFacts.ElementMissing("[", false, 1, Fetch("[", false, 0, First, First).line, Fetch("[", false, 0, First, First).pos, []);
  }

  /** An unclosed string is the lexer's error, passed on. */
  lemma UnclosedString()
    ensures Parsed("\"hello") == Err(LexerError(UnclosedStringLiteral(Span(1, 1), Span(1, 6))))
  {
  }

  /** `;` is skipped, so the key is followed by the string "world" where `:` must come. */
  lemma SemicolonForColon(s: string)
    requires s == "{\"hello\"; \"world\"}"
    ensures Parsed(s) == Err(SyntaxError(Span(1, 1), Span(11, 17), ObjectColon))
  {
    SemicolonLayout(s);
    ObjectOpen(s);
    SemicolonMembers(s);
  }

  lemma SemicolonMembers(s: string)
    requires |s| == 18 && s[1] == '"' && s[7] == '"' && s[8] == ';' && s[9] == ' ' && s[10] == '"' && s[16] == '"'
    requires forall x | 1 < x < 7 || 10 < x < 16 :: s[x] != '"' && s[x] != '\\'
    requires forall x | 0 <= x < |s| :: s[x] != '\n'
    ensures Members(s, false, 1, First, First, map[]).result == Err(SyntaxError(Span(1, 1), Span(11, 17), ObjectColon))
  {
    KeyAt1(s);
    assert Scan(s, false, 8) == Tok(Data.String(s[11..16]), 10, 16, 17) by {
      LexerFacts.PlainStringAt(s, false, 10, 16);
      assert Scan(s, false, 8) == Scan(s, false, 9) == Scan(s, false, 10);
    }
    LexerCases.OneLine(s, 10);
    LexerCases.OneLine(s, 16);
    ParserFacts.ColonMissing(s, false, 1, First, First, map[]);
  }

  /** Input that opens with `{` parses as the members read from index 1, the brace's places remembered. */
  lemma ObjectOpen(s: string)
    requires |s| > 0 && s[0] == '{'
    ensures Parsed(s) == Members(s, false, 1, First, First, map[]).result
  {
    var o := Scan(s, false, 0);
    assert o == Tok(LeftBrace, 0, 0, 1);
    assert TokenOf(s, o) == Ok(Token(First, First, LeftBrace));
    JsonDocuments.ValueOpens(s, false, 0, First, First);
  }

  lemma SemicolonLayout(s: string)
    requires s == "{\"hello\"; \"world\"}"
    ensures |s| == 18 && s[0] == '{' && s[1] == '"' && s[7] == '"' && s[8] == ';' && s[9] == ' ' && s[10] == '"' && s[16] == '"'
    ensures forall x | 1 < x < 7 || 10 < x < 16 :: s[x] != '"' && s[x] != '\\'
    ensures forall x | 0 <= x < |s| :: s[x] != '\n'
  {
  }

  /** The quoted key at index 1 that every object case starts with. */
  lemma KeyAt1(s: string)
    requires 8 <= |s| && s[1] == '"' && s[7] == '"' && forall x | 1 < x < 7 :: s[x] != '"' && s[x] != '\\'
    ensures Scan(s, false, 1) == Tok(Data.String(s[2..7]), 1, 7, 8)
  {
    LexerFacts.PlainStringAt(s, false, 1, 7);
  }

  /** A comma where `:` must come. */
  lemma CommaForColon(s: string)
    requires s == "{\"hello\", \"world\"}"
    ensures Parsed(s) == Err(SyntaxError(Span(1, 1), Span(9, 9), ObjectColon))
  {
    CommaLayout(s);
    ObjectOpen(s);
    CommaMembers(s);
  }

  lemma CommaMembers(s: string)
    requires |s| == 18 && s[1] == '"' && s[7] == '"' && s[8] == ','
    requires forall x | 1 < x < 7 :: s[x] != '"' && s[x] != '\\'
    requires forall x | 0 <= x < |s| :: s[x] != '\n'
    ensures Members(s, false, 1, First, First, map[]).result == Err(SyntaxError(Span(1, 1), Span(9, 9), ObjectColon))
  {
    KeyAt1(s);
    assert Scan(s, false, 8) == Tok(Comma, 8, 8, 9);
    LexerCases.OneLine(s, 8);
    ParserFacts.ColonMissing(s, false, 1, First, First, map[]);
  }

  lemma CommaLayout(s: string)
    requires s == "{\"hello\", \"world\"}"
    ensures |s| == 18 && s[0] == '{' && s[1] == '"' && s[7] == '"' && s[8] == ','
    ensures forall x | 1 < x < 7 :: s[x] != '"' && s[x] != '\\'
    ensures forall x | 0 <= x < |s| :: s[x] != '\n'
  {
  }

  /** After the first member and its comma, a second comma stands where a key must come. */
  lemma RepeatedCommas(s: string)
    requires s == "{\"hello\": \"world\",,,,}"
    ensures Parsed(s) == Err(SyntaxError(Span(1, 1), Span(19, 19), ObjectKey))
  {
    RepeatedCommasLayout(s);
    ObjectOpen(s);
    FirstMemberThenComma(s, First, First);
  }

  /** `{"hello": "world",` read from index 1: the member is kept and the next key is read at 18, which holds `,`. */
  lemma FirstMemberThenComma(s: string, line: Span, pos: Span)
    requires |s| == 22 && s[1] == '"' && s[7] == '"' && s[8] == ':' && s[9] == ' '
    requires s[10] == '"' && s[16] == '"' && s[17] == ',' && s[18] == ','
    requires forall x | 1 < x < 7 || 10 < x < 16 :: s[x] != '"' && s[x] != '\\'
    requires forall x | 0 <= x < |s| :: s[x] != '\n'
    ensures Members(s, false, 1, line, pos, map[]).result == Err(SyntaxError(Span(1, 1), Span(19, 19), ObjectKey))
  {
    FirstMemberKept(s, line, pos);
    assert Scan(s, false, 18) == Tok(Comma, 18, 18, 19);
    LexerCases.OneLine(s, 18);
    ParserFacts.KeyNotString(s, false, 18, Span(1, 1), Span(18, 18), map[s[2..7] := Node.String(s[11..16])]);
  }

  /** The first member of `{"hello": "world",` is kept, and the next key is read after its comma. */
  lemma FirstMemberKept(s: string, line: Span, pos: Span)
    requires |s| == 22 && s[1] == '"' && s[7] == '"' && s[8] == ':' && s[9] == ' '
    requires s[10] == '"' && s[16] == '"' && s[17] == ','
    requires forall x | 1 < x < 7 || 10 < x < 16 :: s[x] != '"' && s[x] != '\\'
    requires forall x | 0 <= x < |s| :: s[x] != '\n'
    ensures Members(s, false, 1, line, pos, map[]) ==
      Members(s, false, 18, Span(1, 1), Span(18, 18), map[s[2..7] := Node.String(s[11..16])])
  {
    KeyAt1(s);
    assert Scan(s, false, 8) == Tok(Colon, 8, 8, 9);
    assert Scan(s, false, 9) == Tok(Data.String(s[11..16]), 10, 16, 17) by {
      LexerFacts.PlainStringAt(s, false, 10, 16);
      assert Scan(s, false, 9) == Scan(s, false, 10);
    }
    assert Scan(s, false, 17) == Tok(Comma, 17, 17, 18);
    ParserFacts.ScalarMemberThenComma(s, false, 1, line, pos, map[]);
    LexerCases.OneLine(s, 17);
  }

  lemma RepeatedCommasLayout(s: string)
    requires s == "{\"hello\": \"world\",,,,}"
    ensures |s| == 22 && s[0] == '{' && s[1] == '"' && s[7] == '"' && s[8] == ':' && s[9] == ' '
    ensures s[10] == '"' && s[16] == '"' && s[17] == ',' && s[18] == ','
    ensures forall x | 1 < x < 7 || 10 < x < 16 :: s[x] != '"' && s[x] != '\\'
    ensures forall x | 0 <= x < |s| :: s[x] != '\n'
  {
  }

  /** A key without quotes: its letters are skipped and the `:` stands where a key must come. */
  lemma UnquotedKey(s: string)
    requires s == "{hello: \"world\"}"
    ensures Parsed(s) == Err(SyntaxError(Span(1, 1), Span(7, 7), ObjectKey))
  {
    UnquotedKeyLayout(s);
    ObjectOpen(s);
    UnquotedMembers(s);
  }

  lemma UnquotedMembers(s: string)
    requires |s| == 16 && s[6] == ':' && LexerFacts.AllSkipped(s, 1, 6)
    requires forall x | 0 <= x < |s| :: s[x] != '\n'
    ensures Members(s, false, 1, First, First, map[]).result == Err(SyntaxError(Span(1, 1), Span(7, 7), ObjectKey))
  {
    assert Scan(s, false, 1) == Tok(Colon, 6, 6, 7) by {
      LexerFacts.SkippedStretch(s, false, 1, 6);
    }
    LexerCases.OneLine(s, 6);
    ParserFacts.KeyNotString(s, false, 1, First, First, map[]);
  }

  lemma UnquotedKeyLayout(s: string)
    requires s == "{hello: \"world\"}"
    ensures |s| == 16 && s[0] == '{' && s[6] == ':' && LexerFacts.AllSkipped(s, 1, 6)
    ensures forall x | 0 <= x < |s| :: s[x] != '\n'
  {
  }

  /** A misspelt keyword as a member's value: the lexer's `InvalidToken` error, at the first wrong letter. */
  lemma MisspeltKeyword(s: string)
    requires s == "{\"hello\": truthy}"
    ensures Parsed(s) == Err(LexerError(InvalidToken("true", Span(1, 1), Span(11, 14))))
  {
    MisspeltLayout(s);
    ObjectOpen(s);
    MisspeltMembers(s);
  }

  lemma MisspeltMembers(s: string)
    requires |s| == 17 && s[1] == '"' && s[7] == '"' && s[8] == ':' && s[9] == ' '
    requires s[10] == 't' && s[11] == 'r' && s[12] == 'u' && s[13] == 't'
    requires forall x | 1 < x < 7 :: s[x] != '"' && s[x] != '\\'
    requires forall x | 0 <= x < |s| :: s[x] != '\n'
    ensures Members(s, false, 1, First, First, map[]).result == Err(LexerError(InvalidToken("true", Span(1, 1), Span(11, 14))))
  {
    KeyAt1(s);
    assert Scan(s, false, 8) == Tok(Colon, 8, 8, 9);
    assert Scan(s, false, 9) == Mismatch("true", 10, 13) by {
      LexerFacts.KeywordBreaks(s, false, 10, 0, 2);
    }
    LexerCases.OneLine(s, 10);
    LexerCases.OneLine(s, 13);
    ParserFacts.MemberValueFails(s, false, 1, First, First, map[]);
  }

  lemma MisspeltLayout(s: string)
    requires s == "{\"hello\": truthy}"
    ensures |s| == 17 && s[0] == '{' && s[1] == '"' && s[7] == '"' && s[8] == ':' && s[9] == ' '
    ensures s[10] == 't' && s[11] == 'r' && s[12] == 'u' && s[13] == 't'
    ensures forall x | 1 < x < 7 :: s[x] != '"' && s[x] != '\\'
    ensures forall x | 0 <= x < |s| :: s[x] != '\n'
  {
  }

  /** A repeated key keeps the value written last. */
  lemma RepeatedKey(s: string)
    requires s == "{\"a\":1,\"a\":2}"
    ensures Parsed(s) == Ok(Object(map["a" := Node.Number("2")]))
  {
    var d := JsonDocuments.DObject([
      JsonDocuments.Member("a", JsonDocuments.DNumber(false, "1", "", "")),
      JsonDocuments.Member("a", JsonDocuments.DNumber(false, "2", "", ""))]);
    RepeatedKeyText(s, d);
    RepeatedKeyTree(d);
    JsonDocuments.DocumentThenEof(d, "", First, First);
    assert JsonDocuments.Render(d) + "" == s;
  }

  lemma RepeatedKeyText(s: string, d: JsonDocuments.Doc)
    requires s == "{\"a\":1,\"a\":2}"
    requires d == JsonDocuments.DObject([
      JsonDocuments.Member("a", JsonDocuments.DNumber(false, "1", "", "")),
      JsonDocuments.Member("a", JsonDocuments.DNumber(false, "2", "", ""))])
    ensures JsonDocuments.Render(d) == s && JsonDocuments.Writable(d)
  {
    var m := d.members;
    var key := LexerFacts.Quote("a");
    assert key == "\"a\"" by {
      assert LexerFacts.Escape("a") == "a";
    }
    assert JsonDocuments.Render(m[0].value) == "1" && JsonDocuments.Render(m[1].value) == "2";
    assert JsonDocuments.RenderMembers(m[1..]) == key + ":" + "2";
    assert JsonDocuments.RenderMembers(m) == key + ":" + "1" + "," + (key + ":" + "2");
  }

  lemma RepeatedKeyTree(d: JsonDocuments.Doc)
    requires d == JsonDocuments.DObject([
      JsonDocuments.Member("a", JsonDocuments.DNumber(false, "1", "", "")),
      JsonDocuments.Member("a", JsonDocuments.DNumber(false, "2", "", ""))])
    ensures JsonDocuments.ToNode(d) == Object(map["a" := Node.Number("2")])
  {
    var m := d.members;
    var one := Node.Number("1");
    var two := Node.Number("2");
    assert JsonDocuments.ToNode(m[0].value) == one;
    assert JsonDocuments.ToNode(m[1].value) == two;
    assert m[1..][1..] == [];
    calc {
      JsonDocuments.Gather(map[], m);
      JsonDocuments.Gather(map["a" := one], m[1..]);
      JsonDocuments.Gather(map["a" := one]["a" := two], m[1..][1..]);
      map["a" := two];
    }
  }
}
