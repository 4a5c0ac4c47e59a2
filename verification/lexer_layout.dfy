/**
 * Layout independence of the lexer: the kinds and payloads of the tokens it
 * returns do not change when blanks are inserted between two tokens.
 *
 * `Tokens` lists what successive reads return, up to the first read that is
 * not a token. Two lemmas carry the proof: a read depends only on the input
 * from where it starts (`ScanShift`), and a token read never looks past the
 * character after its end (`ScanPrefix`).
 */
module LexerLayout {
  import opened JsonLexer
  import LexerFacts

  /** How a run of reads stopped, without the places. */
  datatype Halt =
    | Ended                      // an EOF token
    | Unterminated               // an unclosed string literal
    | BadKeyword(name: string)   // a keyword that breaks off
    | BadLexeme(lexeme: string)  // a number that does not convert
    | Broke                      // the source failed

  datatype Lexed = Lexed(tokens: seq<Data>, halt: Halt)

  function HaltOf(s: string, o: Outcome): Halt
    requires Placed(s, 0, o) && !o.Tok?
  {
    match o
    case End => Ended
    case Unclosed(_) => Unterminated
    case Mismatch(name, _, _) => BadKeyword(name)
    case BadNumber(f, l) => BadLexeme(s[f..l + 1])
    case Failed => Broke
  }

  /** The token data of successive reads from index i, and how they stop. */
  function Tokens(s: string, b: bool, i: nat): Lexed
    requires i <= |s|
    decreases |s| - i
  {
    var o := Scan(s, b, i);
    if o.Tok? then
      var rest := Tokens(s, b, o.next);
      Lexed([o.data] + rest.tokens, rest.halt)
    else Lexed([], HaltOf(s, o))
  }

  /** Successive token reads from i reach index m exactly. */
  predicate Reaches(s: string, b: bool, i: nat, m: nat)
    requires i <= m <= |s|
    decreases m - i
  {
    i == m || (var o := Scan(s, b, i); o.Tok? && o.next <= m && Reaches(s, b, o.next, m))
  }

  /** Whitespace: a blank, tab, line feed or carriage return. */
  predicate IsBlank(c: char) { c == ' ' || c == '\t' || c == '\n' || c == '\r' }

  // ---- a read depends only on the input from where it starts ----

  /** s from i on is t from j on. */
  predicate SameFrom(s: string, i: nat, t: string, j: nat)
  {
    i <= |s| && j <= |t| && |s| - i == |t| - j && forall k | i <= k < |s| :: s[k] == t[k - i + j]
  }

  /** The indices of o are at least i. */
  predicate From(o: Outcome, i: nat)
  {
    match o
    case Tok(_, f, l, n) => i <= f <= l < n
    case Unclosed(f) => i <= f
    case Mismatch(_, f, a) => i <= f <= a
    case BadNumber(f, l) => i <= f <= l
    case _ => true
  }

  /** o with its indices moved from base i to base j. */
  function Moved(o: Outcome, i: nat, j: nat): Outcome
    requires From(o, i)
  {
    match o
    case Tok(d, f, l, n) => Tok(d, f - i + j, l - i + j, n - i + j)
    case Unclosed(f) => Unclosed(f - i + j)
    case Mismatch(name, f, a) => Mismatch(name, f - i + j, a - i + j)
    case BadNumber(f, l) => BadNumber(f - i + j, l - i + j)
    case _ => o
  }

  lemma {:induction false} StringShift(s: string, t: string, b: bool, os: nat, ot: nat, js: nat, jt: nat, acc: string)
    requires os < js <= |s| && ot < jt <= |t| && js - os == jt - ot && SameFrom(s, js, t, jt)
    ensures ScanString(t, b, ot, jt, acc) == Moved(ScanString(s, b, os, js, acc), os, ot)
    decreases |s| - js
  {
    if js < |s| {
      assert s[js] == t[jt];
      if s[js] == '\\' && js + 1 < |s| {
        assert s[js + 1] == t[jt + 1];
        StringShift(s, t, b, os, ot, js + 2, jt + 2, acc + [s[js + 1]]);
      } else if s[js] != '"' && s[js] != '\\' {
        StringShift(s, t, b, os, ot, js + 1, jt + 1, acc + [s[js]]);
      }
    }
  }

  lemma {:induction false} NumberShift(s: string, t: string, b: bool, fs: nat, ft: nat, js: nat, jt: nat)
    requires fs < js <= |s| && ft < jt <= |t| && js - fs == jt - ft && SameFrom(s, fs, t, ft)
    ensures ScanNumber(t, b, ft, jt) == Moved(ScanNumber(s, b, fs, js), fs, ft)
    decreases |s| - js
  {
    if js < |s| {
      assert s[js] == t[jt];
    }
    if js < |s| && IsNumberChar(s[js]) {
      NumberShift(s, t, b, fs, ft, js + 1, jt + 1);
    } else {
      assert s[fs..js] == t[ft..jt];
    }
  }

  lemma {:induction false} KeywordShift(s: string, t: string, b: bool, fs: nat, ft: nat, k: nat)
    requires fs < |s| && StartsKeyword(s[fs]) && SameFrom(s, fs, t, ft)
    requires k <= |KeywordRest(s[fs])| && fs + 1 + k <= |s|
    ensures ft < |t| && t[ft] == s[fs]
    ensures ScanKeyword(t, b, ft, k) == Moved(ScanKeyword(s, b, fs, k), fs, ft)
    decreases |KeywordRest(s[fs])| - k
  {
    assert s[fs] == t[ft];
    var rest := KeywordRest(s[fs]);
    if k < |rest| && fs + 1 + k < |s| {
      assert s[fs + 1 + k] == t[ft + 1 + k];
      if s[fs + 1 + k] == rest[k] {
        KeywordShift(s, t, b, fs, ft, k + 1);
      }
    }
  }

  lemma PlacedFrom(s: string, i: nat, o: Outcome)
    requires Placed(s, i, o)
    ensures From(o, i)
  {
  }

  /** A read sees only the input from where it starts: on equal rests, reads agree up to the move. */
  lemma {:induction false} ScanShift(s: string, t: string, b: bool, i: nat, j: nat)
    requires SameFrom(s, i, t, j)
    ensures From(Scan(s, b, i), i)
    ensures Scan(t, b, j) == Moved(Scan(s, b, i), i, j)
    decreases |s| - i
  {
    PlacedFrom(s, i, Scan(s, b, i));
    if i < |s| {
      assert s[i] == t[j];
      var c := s[i];
      if c == '"' {
        StringShift(s, t, b, i, j, i + 1, j + 1, "");
      } else if StartsNumber(c) {
        NumberShift(s, t, b, i, j, i + 1, j + 1);
      } else if StartsKeyword(c) {
        KeywordShift(s, t, b, i, j, 0);
      } else if !IsDelimiter(c) {
        ScanShift(s, t, b, i + 1, j + 1);
      }
    }
  }

  /** On equal rests, successive reads give the same token data and stop the same way. */
  lemma {:induction false} TokensShift(s: string, t: string, b: bool, i: nat, j: nat)
    requires SameFrom(s, i, t, j)
    ensures Tokens(s, b, i) == Tokens(t, b, j)
    decreases |s| - i
  {
    var o := Scan(s, b, i);
    ScanShift(s, t, b, i, j);
    if o.Tok? {
      TokensShift(s, t, b, o.next, o.next - i + j);
    } else if o.BadNumber? {
      assert s[o.first..o.last + 1] == t[o.first - i + j..o.last - i + j + 1];
    }
  }

  // ---- a token read never looks past the character after its end ----

  /** s and t agree below m. */
  predicate Agree(s: string, t: string, m: nat)
  {
    m <= |s| && m <= |t| && forall k | 0 <= k < m :: s[k] == t[k]
  }

  lemma {:induction false} StringPrefix(s: string, t: string, b: bool, open: nat, j: nat, acc: string, m: nat)
    requires open < j <= |s| && j <= |t| && Agree(s, t, m)
    requires var o := ScanString(s, b, open, j, acc); o.Tok? && o.next <= m
    ensures ScanString(t, b, open, j, acc) == ScanString(s, b, open, j, acc)
    decreases |s| - j
  {
    assert s[j] == t[j];
    if s[j] == '\\' {
      assert s[j + 1] == t[j + 1];
      StringPrefix(s, t, b, open, j + 2, acc + [s[j + 1]], m);
    } else if s[j] != '"' {
      StringPrefix(s, t, b, open, j + 1, acc + [s[j]], m);
    }
  }

  lemma {:induction false} NumberPrefix(s: string, t: string, b: bool, first: nat, j: nat, m: nat)
    requires first < j <= |s| && j <= |t| && Agree(s, t, m)
    requires m < |t| && !IsNumberChar(t[m])
    requires var o := ScanNumber(s, b, first, j); o.Tok? && o.next <= m
    ensures ScanNumber(t, b, first, j) == ScanNumber(s, b, first, j)
    decreases |s| - j
  {
    if j < |s| && IsNumberChar(s[j]) {
      assert s[j] == t[j];
      NumberPrefix(s, t, b, first, j + 1, m);
    } else {
      if j < m {
        assert s[j] == t[j];
      }
      assert s[first..j] == t[first..j];
    }
  }

  lemma {:induction false} KeywordPrefix(s: string, t: string, b: bool, first: nat, k: nat, m: nat)
    requires first < |s| && StartsKeyword(s[first]) && Agree(s, t, m)
    requires k <= |KeywordRest(s[first])| && first + 1 + k <= |s| && first + 1 + k <= |t| && first < m
    requires var o := ScanKeyword(s, b, first, k); o.Tok? && o.next <= m
    ensures t[first] == s[first]
    ensures ScanKeyword(t, b, first, k) == ScanKeyword(s, b, first, k)
    decreases |KeywordRest(s[first])| - k
  {
    assert s[first] == t[first];
    if k < |KeywordRest(s[first])| {
      assert s[first + 1 + k] == t[first + 1 + k];
      KeywordPrefix(s, t, b, first, k + 1, m);
    }
  }

  /**
   * A token read from i that ends by m reads the same in any input that agrees
   * below m and holds a character there that cannot continue a number.
   */
  lemma {:induction false} ScanPrefix(s: string, t: string, b: bool, i: nat, m: nat)
    requires i <= m && Agree(s, t, m) && m < |t| && !IsNumberChar(t[m])
    requires var o := Scan(s, b, i); o.Tok? && o.next <= m
    ensures Scan(t, b, i) == Scan(s, b, i)
    decreases |s| - i
  {
    assert s[i] == t[i];
    var c := s[i];
    if c == '"' {
      StringPrefix(s, t, b, i, i + 1, "", m);
    } else if StartsNumber(c) {
      NumberPrefix(s, t, b, i, i + 1, m);
    } else if StartsKeyword(c) {
      KeywordPrefix(s, t, b, i, 0, m);
    } else if !IsDelimiter(c) {
      ScanPrefix(s, t, b, i + 1, m);
    }
  }

  // ---- inserting blanks between tokens ----

  lemma {:induction false} InsertAt(x: string, w: string, y: string, b: bool, i: nat)
    requires i <= |x| && Reaches(x + y, b, i, |x|)
    requires |w| > 0 && forall k | 0 <= k < |w| :: IsBlank(w[k])
    ensures Tokens(x + y, b, i) == Tokens(x + w + y, b, i)
    decreases |x| - i
  {
    var s, t := x + y, x + w + y;
    if i == |x| {
      assert LexerFacts.AllSkipped(t, |x|, |x| + |w|) by {
        forall k | |x| <= k < |x| + |w| ensures IsSkipped(t[k]) {
          assert t[k] == w[k - |x|];
        }
      }
      LexerFacts.SkippedStretch(t, b, |x|, |x| + |w|);
      assert SameFrom(s, |x|, t, |x| + |w|) by {
        forall k | |x| <= k < |s| ensures s[k] == t[k - |x| + (|x| + |w|)] {
          assert s[k] == y[k - |x|];
        }
      }
      TokensShift(s, t, b, |x|, |x| + |w|);
      assert Tokens(t, b, |x|) == Tokens(t, b, |x| + |w|);
    } else {
      var o := Scan(s, b, i);
      assert Agree(s, t, |x|) by {
        forall k | 0 <= k < |x| ensures s[k] == t[k] {
          assert s[k] == x[k];
        }
      }
      assert t[|x|] == w[0];
      ScanPrefix(s, t, b, i, |x|);
      InsertAt(x, w, y, b, o.next);
    }
  }

  lemma NoInsertion(x: string, w: string, y: string)
    requires |w| == 0
    ensures x + w + y == x + y
  {
    assert x + w == x;
  }

  /**
   * Blanks inserted at an index the reads from the start reach (right after a
   * token) change neither the token data nor how the reads stop.
   */
  lemma BlanksBetweenTokens(x: string, w: string, y: string, b: bool)
    requires Reaches(x + y, b, 0, |x|)
    requires forall k | 0 <= k < |w| :: IsBlank(w[k])
    ensures Tokens(x + y, b, 0) == Tokens(x + w + y, b, 0)
  {
    if |w| == 0 {
      NoInsertion(x, w, y);
    } else {
      InsertAt(x, w, y, b, 0);
    }
  }
}
