/**
 * Turning the scorer's free-text reply into a number, following Python's
 * float() on decimal literals: surrounding whitespace is ignored, then an
 * optional sign, digits, and an optional decimal point followed by digits,
 * with at least one digit in all ("1", "5.0", "-.5", "7." are numbers;
 * "text", "", "+", "." are not).
 */
module ScoreParsing {
  import opened Wrappers

  predicate IsDigit(c: char) { '0' <= c <= '9' }

  predicate AllDigits(s: string) { forall i :: 0 <= i < |s| ==> IsDigit(s[i]) }

  /** ASCII whitespace, as float() skips it. */
  predicate IsSpace(c: char) {
    c == ' ' || c == '\t' || c == '\n' || c == '\r' || c == '\U{000B}' || c == '\U{000C}'
  }

  predicate AllSpace(s: string) { forall i :: 0 <= i < |s| ==> IsSpace(s[i]) }

  /** The characters a decimal literal is written with. */
  predicate IsNumeralChar(c: char) { IsDigit(c) || c == '+' || c == '-' || c == '.' }

  // ---------------------------------------------------------------------
  // Decimal literals and their values.

  datatype Sign = NoSign | Plus | Minus

  /** sign, whole-part digits, whether a point is written, fraction digits */
  datatype Literal = Literal(sign: Sign, whole: string, point: bool, fraction: string)

  ghost predicate WellFormed(lit: Literal) {
    && AllDigits(lit.whole)
    && AllDigits(lit.fraction)
    && (lit.point || lit.fraction == [])
    && |lit.whole| + |lit.fraction| > 0
  }

  function SignText(sign: Sign): string {
    match sign
    case NoSign => ""
    case Plus => "+"
    case Minus => "-"
  }

  function Render(lit: Literal): string {
    SignText(lit.sign) + lit.whole + (if lit.point then "." + lit.fraction else "")
  }

  function DigitValue(c: char): nat
    requires IsDigit(c)
  {
    c as int - '0' as int
  }

  /** The natural number a digit string denotes ("" denotes 0). */
  function NatValue(s: string): nat
    requires AllDigits(s)
  {
    if s == [] then 0 else NatValue(s[..|s| - 1]) * 10 + DigitValue(s[|s| - 1])
  }

  /** The value of the digits after a decimal point ("25" denotes 0.25). */
  function FractionValue(s: string): real
    requires AllDigits(s)
  {
    if s == [] then 0.0 else (DigitValue(s[0]) as real + FractionValue(s[1..])) / 10.0
  }

  function Value(lit: Literal): real
    requires AllDigits(lit.whole) && AllDigits(lit.fraction)
  {
    var magnitude := NatValue(lit.whole) as real + FractionValue(lit.fraction);
    if lit.sign == Minus then -magnitude else magnitude
  }

  // ---------------------------------------------------------------------
  // Whitespace stripping.

  function LeadingSpace(s: string): (n: nat)
    ensures n <= |s|
    ensures forall i :: 0 <= i < n ==> IsSpace(s[i])
    ensures n < |s| ==> !IsSpace(s[n])
  {
    if s == [] || !IsSpace(s[0]) then 0 else 1 + LeadingSpace(s[1..])
  }

  function TrailingSpace(s: string): (n: nat)
    ensures n <= |s|
    ensures forall i :: |s| - n <= i < |s| ==> IsSpace(s[i])
    ensures n < |s| ==> !IsSpace(s[|s| - n - 1])
  {
    if s == [] || !IsSpace(s[|s| - 1]) then 0 else 1 + TrailingSpace(s[..|s| - 1])
  }

  /** `s` without its leading and trailing whitespace: what remains starts and
      ends with a non-space. */
  function Strip(s: string): (r: string)
    ensures r != [] ==> !IsSpace(r[0]) && !IsSpace(r[|r| - 1])
  {
    var t := s[LeadingSpace(s)..];
    t[..|t| - TrailingSpace(t)]
  }

  /** A text is its stripped part with whitespace padding on both sides. */
  lemma StripSplits(s: string)
    ensures exists a, b :: AllSpace(a) && AllSpace(b) && s == a + Strip(s) + b
  {
    var lead := LeadingSpace(s);
    var t := s[lead..];
    var m := |t| - TrailingSpace(t);
    var a, b := s[..lead], t[m..];
    assert AllSpace(a) && AllSpace(b);
    CutInThree(s, lead, m);
    assert s == a + Strip(s) + b;
  }

  /** Cutting `s` at `i` and then `m` further on, and gluing the pieces back. */
  lemma CutInThree(s: string, i: nat, m: nat)
    requires i + m <= |s|
    ensures s == s[..i] + s[i..][..m] + s[i..][m..]
  {
    assert s[i..] == s[i..][..m] + s[i..][m..];
  }

  /** Stripping keeps every character of `s` that is not whitespace. */
  lemma StripKeepsNonSpace(s: string)
    ensures forall i :: 0 <= i < |s| && !IsSpace(s[i]) ==> s[i] in Strip(s)
  {
    var a := LeadingSpace(s);
    var t := s[a..];
    var r := Strip(s);
    forall i | 0 <= i < |s| && !IsSpace(s[i]) ensures a <= i < a + |r| && s[i] == r[i - a] {
      assert t[i - a] == s[i];
    }
  }

  /** Stripping removes exactly the whitespace padding around a text that has no
      whitespace at its ends. */
  lemma {:induction false} StripPadding(a: string, t: string, b: string)
    requires AllSpace(a) && AllSpace(b)
    requires t != [] ==> !IsSpace(t[0]) && !IsSpace(t[|t| - 1])
    ensures Strip(a + t + b) == t
  {
    var s := a + t + b;
    assert s == a + (t + b);
    LeadingOfPadded(a, t + b);
    var lead := LeadingSpace(s);
    if t == [] {
      LeadingOfPadded(b, []);
      assert b + [] == b && t + b == b;
      assert lead == |s|;
    } else {
      assert (t + b)[0] == t[0];
      assert lead == |a|;
      var rest := s[lead..];
      assert rest == t + b;
      TrailingOfPadded(t, b);
      assert rest[..|rest| - |b|] == t;
    }
  }

  lemma {:induction false} LeadingOfPadded(a: string, u: string)
    requires AllSpace(a)
    ensures LeadingSpace(a + u) == |a| + LeadingSpace(u)
  {
    if a != [] {
      assert (a + u)[0] == a[0] && IsSpace(a[0]);
      assert (a + u)[1..] == a[1..] + u;
      LeadingOfPadded(a[1..], u);
    } else {
      assert a + u == u;
    }
  }

  lemma {:induction false} TrailingOfPadded(u: string, b: string)
    requires AllSpace(b)
    requires u == [] || !IsSpace(u[|u| - 1])
    ensures TrailingSpace(u + b) == |b|
  {
    if b != [] {
      assert (u + b)[..|u + b| - 1] == u + b[..|b| - 1];
      TrailingOfPadded(u, b[..|b| - 1]);
    } else {
      assert u + b == u;
    }
  }

  // ---------------------------------------------------------------------
  // The parser.

  /** Length of the longest prefix of `s` made of digits. */
  function DigitRun(s: string): (n: nat)
    ensures n <= |s| && AllDigits(s[..n])
    ensures n < |s| ==> !IsDigit(s[n])
  {
    if s == [] || !IsDigit(s[0]) then 0
    else
      var n := 1 + DigitRun(s[1..]);
      assert s[..n] == [s[0]] + s[1..][..n - 1];
      n
  }

  /** Splits off an optional leading sign. */
  function SplitSign(s: string): (r: (Sign, string))
    ensures SignText(r.0) + r.1 == s
  {
    if |s| > 0 && s[0] == '+' then (Plus, s[1..])
    else if |s| > 0 && s[0] == '-' then (Minus, s[1..])
    else (NoSign, s)
  }

  /** Reads digits, then an optional point followed by digits, at least one digit in all. */
  function ParseUnsigned(sign: Sign, rest: string): (r: Option<Literal>)
    ensures r.Some? ==> WellFormed(r.value) && r.value.sign == sign
    ensures r.Some? ==> r.value.whole + (if r.value.point then "." + r.value.fraction else "") == rest
  {
    var n := DigitRun(rest);
    var whole, tail := rest[..n], rest[n..];
    assert rest == whole + tail;
    if tail == [] then
      if n > 0 then Some(Literal(sign, whole, false, [])) else None
    else if tail[0] == '.' && AllDigits(tail[1..]) && n + |tail[1..]| > 0 then
      assert tail == "." + tail[1..];
      Some(Literal(sign, whole, true, tail[1..]))
    else None
  }

  /** Reads `s`, with no surrounding whitespace, as a decimal literal. Whatever
      it accepts is well formed and is exactly how `s` is written. */
  function ParseLiteral(s: string): (r: Option<Literal>)
    ensures r.Some? ==> WellFormed(r.value) && Render(r.value) == s
  {
    var (sign, rest) := SplitSign(s);
    var r := ParseUnsigned(sign, rest);
    if r.None? then r
    else
      var lit := r.value;
      assert Render(lit) == SignText(sign) + (lit.whole + (if lit.point then "." + lit.fraction else ""));
      r
  }

  /** The number a reply denotes, if it is a decimal literal. */
  function ParseNumber(reply: string): Option<real> {
    match ParseLiteral(Strip(reply))
    case None => None
    case Some(lit) => Some(Value(lit))
  }

  // ---------------------------------------------------------------------
  // Parsing and writing a literal are inverse.

  lemma {:induction false} DigitRunOfDigits(d: string, t: string)
    requires AllDigits(d)
    requires t == [] || !IsDigit(t[0])
    ensures DigitRun(d + t) == |d|
  {
    if d != [] {
      assert (d + t)[1..] == d[1..] + t;
      DigitRunOfDigits(d[1..], t);
    }
  }

  lemma SplitSignOfSigned(sign: Sign, rest: string)
    requires rest == [] || (rest[0] != '+' && rest[0] != '-')
    ensures SplitSign(SignText(sign) + rest) == (sign, rest)
  {
    var s := SignText(sign) + rest;
    if sign == NoSign {
      assert s == rest;
    } else {
      assert s[1..] == rest;
    }
  }

  /** Every well-formed literal is read back as itself. */
  lemma ParseRender(lit: Literal)
    requires WellFormed(lit)
    ensures ParseLiteral(Render(lit)) == Some(lit)
  {
    var tail := if lit.point then "." + lit.fraction else "";
    var rest := lit.whole + tail;
    assert Render(lit) == SignText(lit.sign) + rest;
    assert rest != [] && rest[0] != '+' && rest[0] != '-';
    SplitSignOfSigned(lit.sign, rest);
    DigitRunOfDigits(lit.whole, tail);
    assert rest[..|lit.whole|] == lit.whole && rest[|lit.whole|..] == tail;
    if lit.point {
      assert tail[0] == '.' && tail[1..] == lit.fraction;
    } else {
      assert lit == Literal(lit.sign, lit.whole, false, []);
    }
  }

  /** A reply parses exactly when, stripped, it is the writing of a well-formed
      literal; its number is that literal's value. */
  lemma ParseNumberSound(reply: string)
    requires ParseNumber(reply).Some?
    ensures exists lit :: WellFormed(lit) && Render(lit) == Strip(reply) && Value(lit) == ParseNumber(reply).value
  {
    var lit := ParseLiteral(Strip(reply)).value;
    assert WellFormed(lit) && Render(lit) == Strip(reply);
  }

  lemma ParseNumberComplete(a: string, lit: Literal, b: string)
    requires WellFormed(lit)
    requires AllSpace(a) && AllSpace(b)
    ensures ParseNumber(a + Render(lit) + b) == Some(Value(lit))
  {
    RenderEnds(lit);
    StripPadding(a, Render(lit), b);
    ParseRender(lit);
  }

  /** A literal is written with numeral characters only. */
  lemma RenderChars(lit: Literal)
    requires WellFormed(lit)
    ensures forall i :: 0 <= i < |Render(lit)| ==> IsNumeralChar(Render(lit)[i])
  {
    var tail := if lit.point then "." + lit.fraction else "";
    assert Render(lit) == SignText(lit.sign) + lit.whole + tail;
  }

  /** So a literal neither starts nor ends with whitespace. */
  lemma RenderEnds(lit: Literal)
    requires WellFormed(lit)
    ensures Render(lit) != [] && !IsSpace(Render(lit)[0]) && !IsSpace(Render(lit)[|Render(lit)| - 1])
  {
    RenderChars(lit);
  }

  /** Whatever is read as a literal is written with numeral characters only. */
  lemma ParsedIsNumeral(s: string)
    ensures ParseLiteral(s).Some? ==> forall j :: 0 <= j < |s| ==> IsNumeralChar(s[j])
  {
    if ParseLiteral(s).Some? {
      RenderChars(ParseLiteral(s).value);
    }
  }

  /** A reply containing a character that is neither whitespace nor used in
      numerals ("text") is not a number. */
  lemma NonNumeralIsNotANumber(reply: string, i: nat)
    requires i < |reply| && !IsSpace(reply[i]) && !IsNumeralChar(reply[i])
    ensures ParseNumber(reply) == None
  {
    ParsedIsNumeral(Strip(reply));
    StripKeepsNonSpace(reply);
    assert reply[i] in Strip(reply);
  }
}
