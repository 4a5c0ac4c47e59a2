/**
 * What one read of the lexer does, stated against independent descriptions of
 * the input: skipped stretches, the exact inputs that end in `EOF`, the maximal
 * number run, the three ways a keyword can end, and how a string literal
 * reads back its text.
 */
module LexerFacts {
  import opened Results
  import opened FloatLiteral
  import opened JsonLexer
  import CharReader

  /** Every character of s[i..j] starts no token. */
  predicate AllSkipped(s: string, i: nat, j: nat)
    requires i <= j <= |s|
  {
    forall k | i <= k < j :: IsSkipped(s[k])
  }

  /** Characters that start no token are passed over: a read begins where the stretch ends. */
  lemma {:induction false} SkippedStretch(s: string, b: bool, i: nat, j: nat)
    requires i <= j <= |s| && AllSkipped(s, i, j)
    ensures Scan(s, b, i) == Scan(s, b, j)
    decreases j - i
  {
    if i < j {
      SkippedStretch(s, b, i + 1, j);
    }
  }

  // ---- keywords ----

  /** The letters of s after index `first` agree with the keyword's remaining letters k..m. */
  predicate Spells(s: string, first: nat, k: nat, m: nat)
    requires first < |s| && StartsKeyword(s[first])
    requires k <= m <= |KeywordRest(s[first])| && first + 1 + m <= |s|
  {
    forall x | k <= x < m :: s[first + 1 + x] == KeywordRest(s[first])[x]
  }

  /** s ends in the middle of the keyword starting at `first`: every letter that is there matches. */
  predicate CutKeyword(s: string, first: nat)
  {
    first < |s| && StartsKeyword(s[first]) && |s| - first - 1 < |KeywordRest(s[first])| &&
    Spells(s, first, 0, |s| - first - 1)
  }

  /** A fully spelled keyword is one token over its letters. */
  lemma {:induction false} KeywordMatches(s: string, b: bool, first: nat, k: nat)
    requires first < |s| && StartsKeyword(s[first])
    requires k <= |KeywordRest(s[first])| && first + 1 + |KeywordRest(s[first])| <= |s|
    requires Spells(s, first, k, |KeywordRest(s[first])|)
    ensures var n := |KeywordRest(s[first])|;
      ScanKeyword(s, b, first, k) == Tok(KeywordData(s[first]), first, first + n, first + n + 1)
    decreases |KeywordRest(s[first])| - k
  {
    if k < |KeywordRest(s[first])| {
      KeywordMatches(s, b, first, k + 1);
    }
  }

  /**
   * The range a matched keyword is given, counted from its first letter, is
   * exactly the range from its first to its last letter.
   */
  lemma KeywordSpan(s: string, b: bool, first: nat)
    requires first < |s| && StartsKeyword(s[first])
    requires first + 1 + |KeywordRest(s[first])| <= |s| && Spells(s, first, 0, |KeywordRest(s[first])|)
    ensures var p, q := CharReader.Where(s, first), CharReader.Where(s, first + |KeywordRest(s[first])|);
      TokenOf(s, Scan(s, b, first)) == Ok(Token(Span(p.line, q.line), Span(p.pos, q.pos), KeywordData(s[first])))
  {
    var n := |KeywordRest(s[first])|;
    KeywordMatches(s, b, first, 0);
    assert forall j | first <= j < first + n :: s[j] != '\n' by {
      forall j | first <= j < first + n ensures s[j] != '\n' {
        if j > first {
          assert s[first + 1 + (j - first - 1)] == KeywordRest(s[first])[j - first - 1];
        }
      }
    }
    CharReader.WhereAlongLine(s, first, n);
  }

  /** The first letter that differs from the keyword is where the `InvalidToken` error points. */
  lemma {:induction false} KeywordBreaks(s: string, b: bool, first: nat, k: nat, m: nat)
    requires first < |s| && StartsKeyword(s[first])
    requires k <= m < |KeywordRest(s[first])| && first + 1 + m < |s|
    requires Spells(s, first, k, m) && s[first + 1 + m] != KeywordRest(s[first])[m]
    ensures ScanKeyword(s, b, first, k) == Mismatch(KeywordName(s[first]), first, first + 1 + m)
    decreases m - k
  {
    if k < m {
      KeywordBreaks(s, b, first, k + 1, m);
    }
  }

  /**
   * A keyword cut off by the end of input reads as the end of input (an `EOF`
   * token), not as an `InvalidToken` error; and only then does a keyword read
   * end that way.
   */
  lemma {:induction false} KeywordCutOff(s: string, b: bool, first: nat, k: nat)
    requires first < |s| && StartsKeyword(s[first])
    requires k <= |KeywordRest(s[first])| && first + 1 + k <= |s|
    requires Spells(s, first, 0, k)
    ensures ScanKeyword(s, b, first, k) == End <==> !b && CutKeyword(s, first)
    ensures CutKeyword(s, first) ==> ScanKeyword(s, b, first, k) == Exhaust(b)
    decreases |KeywordRest(s[first])| - k
  {
    var rest := KeywordRest(s[first]);
    if k == |rest| {
    } else if first + 1 + k == |s| {
      assert CutKeyword(s, first);
    } else if s[first + 1 + k] != rest[k] {
      assert !CutKeyword(s, first);
    } else {
      KeywordCutOff(s, b, first, k + 1);
    }
  }

  // ---- the end of input ----

  /**
   * From i on, s holds only skipped characters, possibly followed by a keyword
   * the input cuts off.
   */
  predicate Quiet(s: string, i: nat)
    requires i <= |s|
    decreases |s| - i
  {
    i == |s| || CutKeyword(s, i) || (IsSkipped(s[i]) && Quiet(s, i + 1))
  }

  /**
   * A read yields `EOF` exactly when the source does not fail and the rest of
   * the input is quiet; a second read after it yields `EOF` again.
   */
  lemma {:induction false} EndExactly(s: string, b: bool, i: nat)
    requires i <= |s|
    ensures Scan(s, b, i) == End <==> !b && Quiet(s, i)
    ensures Scan(s, b, i) == End ==> Scan(s, b, Resume(s, End)) == End
    decreases |s| - i
  {
    if i < |s| {
      var c := s[i];
      if StartsKeyword(c) {
        KeywordCutOff(s, b, i, 0);
      } else if IsSkipped(c) {
        EndExactly(s, b, i + 1);
        assert !CutKeyword(s, i);
      } else {
        assert !CutKeyword(s, i);
      }
    }
  }

  /** The `EOF` token sits at the place of the last character, its ranges empty. */
  lemma EofToken(s: string, b: bool, i: nat)
    requires i <= |s| && !b && Quiet(s, i)
    ensures var e := CharReader.EndPlace(s);
      TokenOf(s, Scan(s, b, i)) == Ok(Token(Span(e.line, e.line), Span(e.pos, e.pos), EOF))
  {
    EndExactly(s, b, i);
  }

  // ---- numbers ----

  /**
   * A number takes the longest run of number characters from its first one:
   * `e` is the index after the run. The run is a `Number` token if it converts
   * and an `InvalidNumber` error over the same characters if not.
   */
  lemma NumberRun(s: string, b: bool, i: nat, e: nat)
    requires i < e <= |s| && StartsNumber(s[i])
    requires forall k | i < k < e :: IsNumberChar(s[k])
    requires e < |s| ==> !IsNumberChar(s[e])
    ensures e == |s| && b ==> Scan(s, b, i) == Failed
    ensures !(e == |s| && b) ==>
      Scan(s, b, i) == if IsFloatLiteral(s[i..e]) then Tok(Number(s[i..e]), i, e - 1, e) else BadNumber(i, e - 1)
  {
    NumberTail(s, b, i, i + 1, e);
  }

  lemma {:induction false} NumberTail(s: string, b: bool, first: nat, j: nat, e: nat)
    requires first < j <= e <= |s|
    requires forall k | j <= k < e :: IsNumberChar(s[k])
    requires e < |s| ==> !IsNumberChar(s[e])
    ensures ScanNumber(s, b, first, j) == if e == |s| && b then Failed else NumberOf(s, first, e)
    decreases e - j
  {
    if j < e {
      NumberTail(s, b, first, j + 1, e);
    }
  }

  /**
   * A number written as JSON writes it, followed by a character that ends the
   * run (or by the end of a source that does not fail), is one `Number` token.
   */
  lemma JsonNumberToken(s: string, b: bool, i: nat, negative: bool, whole: string, fraction: string, exponent: string)
    requires |whole| > 0 && AllDigits(whole) && AllDigits(fraction) && IsJsonExponent(exponent)
    requires exponent == "" || exponent[0] != '+'
    requires var t := JsonNumberText(negative, whole, fraction, exponent);
      i + |t| <= |s| && s[i..i + |t|] == t && (i + |t| == |s| ==> !b) && (i + |t| < |s| ==> !IsNumberChar(s[i + |t|]))
    ensures var t := JsonNumberText(negative, whole, fraction, exponent);
      Scan(s, b, i) == Tok(Number(t), i, i + |t| - 1, i + |t|)
  {
    var t := JsonNumberText(negative, whole, fraction, exponent);
    JsonNumberConverts(negative, whole, fraction, exponent);
    NumberCharsOf(negative, whole, fraction, exponent);
    assert s[i] == t[0];
    assert forall k | i < k < i + |t| :: IsNumberChar(s[k]) by {
      forall k | i < k < i + |t| ensures IsNumberChar(s[k]) {
        assert s[k] == t[k - i];
      }
    }
    NumberRun(s, b, i, i + |t|);
  }

  /** The characters of a JSON number written without `+` are all number characters, the first one a sign or digit. */
  lemma NumberCharsOf(negative: bool, whole: string, fraction: string, exponent: string)
    requires |whole| > 0 && AllDigits(whole) && AllDigits(fraction) && IsJsonExponent(exponent)
    requires exponent == "" || exponent[0] != '+'
    ensures var t := JsonNumberText(negative, whole, fraction, exponent);
      |t| > 0 && StartsNumber(t[0]) && (forall k | 0 <= k < |t| :: IsNumberChar(t[k]))
  {
    var t := JsonNumberText(negative, whole, fraction, exponent);
    var f, x := FractionText(fraction), ExponentText(exponent);
    var u := whole + (f + x);
    assert forall k | 0 <= k < |f| :: IsNumberChar(f[k]) by {
      forall k | 0 <= k < |f| ensures IsNumberChar(f[k]) {
        if k > 0 { assert f[k] == fraction[k - 1]; }
      }
    }
    assert forall k | 0 <= k < |x| :: IsNumberChar(x[k]) by {
      forall k | 0 <= k < |x| ensures IsNumberChar(x[k]) {
        if k > 0 {
          assert x[k] == exponent[k - 1];
          if k > 1 || !(exponent[0] == '+' || exponent[0] == '-') {
            assert x[k] == DropSign(exponent)[if exponent[0] == '+' || exponent[0] == '-' then k - 2 else k - 1];
          }
        }
      }
    }
    assert forall k | 0 <= k < |u| :: IsNumberChar(u[k]) by {
      forall k | 0 <= k < |u| ensures IsNumberChar(u[k]) {
        if k >= |whole| + |f| { assert u[k] == x[k - |whole| - |f|]; }
        else if k >= |whole| { assert u[k] == f[k - |whole|]; }
        else { assert u[k] == whole[k]; }
      }
    }
    if negative {
      assert t == "-" + u;
      assert forall k | 0 < k < |t| :: t[k] == u[k - 1];
    } else {
      assert t == u;
    }
  }

  // ---- strings ----

  /** The body of a string literal for text t: a backslash before every quote and backslash. */
  function Escape(t: string): (e: string)
    ensures |e| >= |t|
  {
    if t == [] then []
    else (if t[0] == '"' || t[0] == '\\' then ['\\', t[0]] else [t[0]]) + Escape(t[1..])
  }

  /** Escaping works character by character: the escape of a concatenation is the concatenation of the escapes. */
  lemma {:induction false} EscapeConcat(t: string, u: string)
    ensures Escape(t + u) == Escape(t) + Escape(u)
    decreases |t|
  {
    if t != [] {
      assert (t + u)[1..] == t[1..] + u;
      EscapeConcat(t[1..], u);
    } else {
      assert t + u == u;
    }
  }

  /** Text without quotes or backslashes is its own escape. */
  lemma {:induction false} EscapePlain(t: string)
    requires forall k | 0 <= k < |t| :: t[k] != '"' && t[k] != '\\'
    ensures Escape(t) == t
    decreases |t|
  {
    if t != [] {
      EscapePlain(t[1..]);
    }
  }

  /** w appears in s at index j. */
  predicate Occurs(s: string, j: nat, w: string)
  {
    j + |w| <= |s| && forall x | 0 <= x < |w| :: s[j + x] == w[x]
  }

  /** An escaped body followed by a quote reads back as its text: escaping and reading are inverse. */
  lemma {:induction false} StringBody(s: string, b: bool, open: nat, j: nat, acc: string, t: string)
    requires open < j && Occurs(s, j, Escape(t)) && j + |Escape(t)| < |s| && s[j + |Escape(t)|] == '"'
    ensures var close := j + |Escape(t)|;
      ScanString(s, b, open, j, acc) == Tok(String(acc + t), open, close, close + 1)
    decreases |t|
  {
    if t == [] {
      assert acc + t == acc;
    } else {
      var e := Escape(t);
      var head := if t[0] == '"' || t[0] == '\\' then ['\\', t[0]] else [t[0]];
      assert e == head + Escape(t[1..]);
      assert Occurs(s, j + |head|, Escape(t[1..])) by {
        forall x | 0 <= x < |Escape(t[1..])| ensures s[j + |head| + x] == Escape(t[1..])[x] {
          assert e[|head| + x] == Escape(t[1..])[x];
        }
      }
      assert s[j] == e[0];
      if |head| == 2 {
        assert s[j + 1] == e[1];
      }
      StringBody(s, b, open, j + |head|, acc + [t[0]], t[1..]);
      assert acc + [t[0]] + t[1..] == acc + t;
    }
  }

  /** The string literal for t, quotes included. */
  function Quote(t: string): (q: string)
    ensures |q| >= 2 && q[0] == '"'
  {
    "\"" + Escape(t) + "\""
  }

  /** A quoted text at index i is one `String` token carrying exactly that text, from the opening to the closing quote. */
  lemma StringToken(s: string, b: bool, i: nat, t: string)
    requires Occurs(s, i, Quote(t))
    ensures Scan(s, b, i) == Tok(String(t), i, i + |Quote(t)| - 1, i + |Quote(t)|)
  {
    var q, e := Quote(t), Escape(t);
    assert s[i] == q[0];
    assert Occurs(s, i + 1, e) by {
      forall x | 0 <= x < |e| ensures s[i + 1 + x] == e[x] {
        assert q[1 + x] == e[x];
      }
    }
    assert s[i + 1 + |e|] == q[1 + |e|];
    StringBody(s, b, i, i + 1, "", t);
    assert "" + t == t;
  }

  /** A quote, characters that are neither quotes nor backslashes, and a quote: one `String` token holding those characters. */
  lemma PlainStringAt(s: string, b: bool, i: nat, j: nat)
    requires i < j < |s| && s[i] == '"' && s[j] == '"'
    requires forall x | i < x < j :: s[x] != '"' && s[x] != '\\'
    ensures Scan(s, b, i) == Tok(String(s[i + 1..j]), i, j, j + 1)
  {
    var t := s[i + 1..j];
    EscapePlain(t);
    assert Occurs(s, i, Quote(t)) by {
      var q := Quote(t);
      forall x | 0 <= x < |q| ensures s[i + x] == q[x] {
        if 0 < x < |q| - 1 {
          assert q[x] == t[x - 1];
        }
      }
    }
    StringToken(s, b, i, t);
  }

  /**
   * Input that ends inside a string body (directly after a backslash
   * included) leaves the string unclosed: `UnclosedStringLiteral`, or the
   * source's failure if it fails at its end.
   */
  lemma {:induction false} StringUnclosed(s: string, b: bool, open: nat, j: nat, acc: string, t: string, dangling: bool)
    requires open < j && Occurs(s, j, Escape(t))
    requires |s| == j + |Escape(t)| + (if dangling then 1 else 0)
    requires dangling ==> s[|s| - 1] == '\\'
    ensures ScanString(s, b, open, j, acc) == if b then Failed else Unclosed(open)
    decreases |t|
  {
    if t != [] {
      var e := Escape(t);
      var head := if t[0] == '"' || t[0] == '\\' then ['\\', t[0]] else [t[0]];
      assert e == head + Escape(t[1..]);
      assert Occurs(s, j + |head|, Escape(t[1..])) by {
        forall x | 0 <= x < |Escape(t[1..])| ensures s[j + |head| + x] == Escape(t[1..])[x] {
          assert e[|head| + x] == Escape(t[1..])[x];
        }
      }
      assert s[j] == e[0];
      if |head| == 2 {
        assert s[j + 1] == e[1];
      }
      StringUnclosed(s, b, open, j + |head|, acc + [t[0]], t[1..], dangling);
    }
  }

  /**
   * From j on, s has no closing quote: every character is an ordinary one or
   * is taken by a backslash before it, and a backslash may be the last character.
   */
  predicate InsideString(s: string, j: nat)
    decreases |s| - j
  {
    j >= |s| ||
    (s[j] == '\\' && (j + 1 == |s| || InsideString(s, j + 2))) ||
    (s[j] != '"' && s[j] != '\\' && InsideString(s, j + 1))
  }

  /**
   * A string read ends without a token exactly when the input holds no closing
   * quote from there on, and then it is the unclosed-string error (or the source's failure).
   */
  lemma {:induction false} UnclosedExactly(s: string, b: bool, open: nat, j: nat, acc: string)
    requires open < j <= |s|
    ensures !ScanString(s, b, open, j, acc).Tok? <==> InsideString(s, j)
    ensures InsideString(s, j) ==> ScanString(s, b, open, j, acc) == if b then Failed else Unclosed(open)
    decreases |s| - j
  {
    if j < |s| && s[j] != '"' {
      if s[j] == '\\' {
        if j + 1 < |s| {
          UnclosedExactly(s, b, open, j + 2, acc + [s[j + 1]]);
        }
      } else {
        UnclosedExactly(s, b, open, j + 1, acc + [s[j]]);
      }
    }
  }
}
