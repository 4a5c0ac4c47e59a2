/**
 * Which texts convert to a 64-bit float: the grammar accepted by Rust's
 * `f64::from_str`, which the lexer applies to every number lexeme. The value
 * produced is not modelled, only whether the conversion succeeds.
 *
 *   Float   ::= Sign? ( 'inf' | 'infinity' | 'nan' | Decimal )   (letters in any case)
 *   Decimal ::= ( Digit+ | Digit+ '.' Digit* | Digit* '.' Digit+ ) Exp?
 *   Exp     ::= [eE] Sign? Digit+
 *
 * Decimal is recognised by the automaton below, one character at a time.
 */
module FloatLiteral {

  predicate IsDigit(c: char) { '0' <= c <= '9' }

  predicate AllDigits(t: string) { forall k :: 0 <= k < |t| ==> IsDigit(t[k]) }

  /** States of the Decimal recogniser, named after what has been read. */
  datatype State =
    | Begin      // nothing yet, a sign may come
    | Start      // nothing but a sign, if any
    | Whole      // digits
    | LeadDot    // a dot with no digit before it
    | Fraction   // digits and a dot, or a dot and digits
    | Mark       // an exponent marker
    | MarkSign   // an exponent marker and its sign
    | Power      // exponent digits
    | Dead       // no continuation can be accepted

  predicate Accepting(q: State) { q.Whole? || q.Fraction? || q.Power? }

  function Step(q: State, c: char): State
  {
    match q
    case Begin => if c == '+' || c == '-' then Start else if IsDigit(c) then Whole else if c == '.' then LeadDot else Dead
    case Start => if IsDigit(c) then Whole else if c == '.' then LeadDot else Dead
    case Whole => if IsDigit(c) then Whole else if c == '.' then Fraction else if c == 'e' || c == 'E' then Mark else Dead
    case LeadDot => if IsDigit(c) then Fraction else Dead
    case Fraction => if IsDigit(c) then Fraction else if c == 'e' || c == 'E' then Mark else Dead
    case Mark => if IsDigit(c) then Power else if c == '+' || c == '-' then MarkSign else Dead
    case MarkSign => if IsDigit(c) then Power else Dead
    case Power => if IsDigit(c) then Power else Dead
    case Dead => Dead
  }

  /** Whether the automaton, in state q, accepts the rest u. */
  predicate Decimal(u: string, q: State)
    decreases |u|
  {
    if |u| == 0 then Accepting(q) else Decimal(u[1..], Step(q, u[0]))
  }

  function LowerAscii(c: char): char
  {
    if 'A' <= c <= 'Z' then (c as int + 32) as char else c
  }

  /** u spells w (lower case) in any mixture of cases. */
  predicate SpellsIgnoringCase(u: string, w: string)
    decreases |u|
  {
    |u| == |w| && (|u| == 0 || (LowerAscii(u[0]) == w[0] && SpellsIgnoringCase(u[1..], w[1..])))
  }

  function DropSign(t: string): string
  {
    if |t| > 0 && (t[0] == '+' || t[0] == '-') then t[1..] else t
  }

  /** t is `inf`, `infinity` or `nan` in any case, after a sign if `signed` allows one. */
  predicate Special(t: string, signed: bool)
    decreases |t|
  {
    if signed && |t| > 0 && (t[0] == '+' || t[0] == '-') then Special(t[1..], false)
    else SpellsIgnoringCase(t, "inf") || SpellsIgnoringCase(t, "infinity") || SpellsIgnoringCase(t, "nan")
  }

  predicate IsFloatLiteral(t: string)
  {
    Special(t, true) || Decimal(t, Begin)
  }

  /** A run of digits leaves the automaton where it was, in the states that take digits in a loop. */
  lemma {:induction false} DigitsLoop(d: string, rest: string, q: State)
    requires AllDigits(d) && (q.Whole? || q.Fraction? || q.Power?)
    ensures Decimal(d + rest, q) == Decimal(rest, q)
    decreases |d|
  {
    if |d| > 0 {
      assert (d + rest)[1..] == d[1..] + rest;
      DigitsLoop(d[1..], rest, q);
    } else {
      assert d + rest == rest;
    }
  }

  /** Once the recogniser has failed, nothing after is accepted. */
  lemma {:induction false} DeadRejects(u: string)
    ensures !Decimal(u, State.Dead)
    decreases |u|
  {
    if |u| > 0 {
      DeadRejects(u[1..]);
    }
  }

  /** The number text of JSON (RFC 8259, section 6), written with a lower-case `e`. */
  function JsonNumberText(negative: bool, whole: string, fraction: string, exponent: string): string
  {
    (if negative then "-" else "") + UnsignedText(whole, fraction, exponent)
  }

  function UnsignedText(whole: string, fraction: string, exponent: string): string
  {
    whole + (FractionText(fraction) + ExponentText(exponent))
  }

  function ExponentText(exponent: string): string
  {
    if exponent == "" then "" else "e" + exponent
  }

  /** An optional sign and at least one digit. */
  predicate IsJsonExponent(exponent: string)
  {
    exponent == "" || (|DropSign(exponent)| > 0 && AllDigits(DropSign(exponent)))
  }

  /** After the mantissa, an exponent part (or none) is accepted. */
  lemma ExponentAccepted(exponent: string, q: State)
    requires IsJsonExponent(exponent) && (q.Whole? || q.Fraction?)
    ensures Decimal(ExponentText(exponent), q)
  {
    if exponent != "" {
      var d := DropSign(exponent);
      var e := ExponentText(exponent);
      assert e[1..] == exponent;
      var first := d[..1];
      assert d == first + d[1..];
      DigitsLoop(d[1..], [], Power);
      assert d[1..] + [] == d[1..];
      if exponent[0] == '+' || exponent[0] == '-' {
        assert exponent[1..] == d;
        assert Decimal(d, MarkSign);
      } else {
        assert Decimal(d, Mark);
      }
    }
  }

  function FractionText(fraction: string): string
  {
    if fraction == "" then "" else "." + fraction
  }

  /** After the integer digits, the fraction and exponent parts are accepted. */
  lemma TailAccepted(fraction: string, exponent: string)
    requires AllDigits(fraction) && IsJsonExponent(exponent)
    ensures Decimal(FractionText(fraction) + ExponentText(exponent), Whole)
  {
    var e := ExponentText(exponent);
    if fraction != "" {
      ExponentAccepted(exponent, Fraction);
      DigitsLoop(fraction, e, Fraction);
      DecimalCons('.', fraction + e, Whole);
      assert FractionText(fraction) + e == ['.'] + (fraction + e);
    } else {
      ExponentAccepted(exponent, Whole);
      assert FractionText(fraction) + e == e;
    }
  }

  lemma FirstApart(w: string, t: string)
    requires |w| > 0
    ensures w + t == [w[0]] + (w[1..] + t)
  {
    assert w == [w[0]] + w[1..];
  }

  /** The recogniser reads its input one character at a time. */
  lemma DecimalCons(c: char, rest: string, q: State)
    ensures Decimal([c] + rest, q) == Decimal(rest, Step(q, c))
  {
    assert ([c] + rest)[1..] == rest;
  }

  /** An unsigned JSON number is accepted from the automaton's start. */
  lemma UnsignedAccepted(whole: string, fraction: string, exponent: string)
    requires |whole| > 0 && AllDigits(whole) && AllDigits(fraction) && IsJsonExponent(exponent)
    ensures Decimal(UnsignedText(whole, fraction, exponent), Start)
    ensures Decimal(UnsignedText(whole, fraction, exponent), Begin)
  {
    var tail := FractionText(fraction) + ExponentText(exponent);
    TailAccepted(fraction, exponent);
    DigitsLoop(whole[1..], tail, Whole);
    FirstApart(whole, tail);
    DecimalCons(whole[0], whole[1..] + tail, Start);
    DecimalCons(whole[0], whole[1..] + tail, Begin);
  }

  /** A sign-free text accepted from the start stays accepted behind an optional minus sign. */
  lemma SignAccepted(negative: bool, u: string)
    requires Decimal(u, Start) && Decimal(u, Begin)
    ensures Decimal((if negative then "-" else "") + u, Begin)
  {
    if negative {
      var t := "-" + u;
      assert t[0] == '-' && t[1..] == u;
    } else {
      assert "" + u == u;
    }
  }

  /** Every JSON number text is a literal Rust's `f64` parser accepts. */
  lemma JsonNumberConverts(negative: bool, whole: string, fraction: string, exponent: string)
    requires |whole| > 0 && AllDigits(whole) && AllDigits(fraction) && IsJsonExponent(exponent)
    ensures IsFloatLiteral(JsonNumberText(negative, whole, fraction, exponent))
  {
    UnsignedAccepted(whole, fraction, exponent);
    SignAccepted(negative, UnsignedText(whole, fraction, exponent));
  }
}
