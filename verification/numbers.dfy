/** Numeric sanitising and parsing of CSV cells: the `replace('$', '')`,
    `replace(',', '')` clean-up and a decimal reading of Python's
    `float(text)`. */
module Numbers {
  import opened Basics
  import opened Text

  predicate IsDigit(c: char) {
    '0' <= c <= '9'
  }

  predicate AllDigits(s: string) {
    forall i :: 0 <= i < |s| ==> IsDigit(s[i])
  }

  /** The characters a decimal numeral can be made of. */
  predicate IsNumeralChar(c: char) {
    IsDigit(c) || c == '.' || c == '+' || c == '-'
  }

  function DigitValue(c: char): nat
    requires IsDigit(c)
  {
    c as int - '0' as int
  }

  function DigitChar(d: nat): (c: char)
    requires d < 10
    ensures IsDigit(c) && DigitValue(c) == d
  {
    ('0' as int + d) as char
  }

  /** The natural number a string of decimal digits denotes. */
  function DigitsValue(s: string): nat
    requires AllDigits(s)
  {
    if s == [] then 0 else DigitsValue(s[..|s| - 1]) * 10 + DigitValue(s[|s| - 1])
  }

  function Pow10(n: nat): (r: nat)
    ensures r >= 1
  {
    if n == 0 then 1 else 10 * Pow10(n - 1)
  }

  /** The value of the decimal numeral `whole.frac`. */
  function DecimalValue(whole: string, frac: string): (v: real)
    requires AllDigits(whole) && AllDigits(frac)
    ensures v >= 0.0
  {
    DigitsValue(whole) as real + DigitsValue(frac) as real / Pow10(|frac|) as real
  }

  /** An unsigned decimal: digits, at most one `.`, more digits, and at
      least one digit in all (`"5"`, `"5."`, `".5"`, `"12.25"`). */
  function ParseUnsigned(s: string): (r: Option<real>)
    ensures r.Some? ==> r.value >= 0.0 && |s| > 0
    ensures r.Some? ==> forall i :: 0 <= i < |s| ==> IsDigit(s[i]) || s[i] == '.'
  {
    var whole := BeforeFirst(s, '.');
    var frac := if |whole| < |s| then s[|whole| + 1..] else "";
    if AllDigits(whole) && AllDigits(frac) && |whole| + |frac| > 0 then
      assert forall i :: |whole| < i < |s| ==> s[i] == frac[i - |whole| - 1];
      Some(DecimalValue(whole, frac))
    else
      None
  }

  /** A decimal with at most one leading sign. */
  function ParseSigned(t: string): (r: Option<real>)
    ensures r.Some? ==> forall i :: 0 <= i < |t| ==> IsNumeralChar(t[i])
  {
    if |t| > 0 && (t[0] == '-' || t[0] == '+') then
      match ParseUnsigned(t[1..])
      case Some(v) =>
        assert forall i :: 1 <= i < |t| ==> t[i] == t[1..][i - 1];
        Some(if t[0] == '-' then -v else v)
      case None => None
    else
      ParseUnsigned(t)
  }

  /** `float(text)` restricted to plain decimals: surrounding whitespace is
      ignored and one leading sign is allowed. `None` is the `ValueError`
      Python raises; a successful parse means every non-blank character of
      the text belongs to a numeral. */
  function ParseNumber(s: string): (r: Option<real>)
    ensures r.Some? ==> forall c :: c in s && !IsSpace(c) ==> IsNumeralChar(c)
    ensures r.Some? ==> exists pre, d, post :: IsPaddedDecimal(s, pre, d, post) && r.value == ValueOf(d)
  {
    var t := Strip(s);
    var r := ParseSigned(t);
    if r.Some? then
      assert exists pre, d, post :: IsPaddedDecimal(s, pre, d, post) && r.value == ValueOf(d) by {
        var k :| IsStrippedAt(s, t, k);
        var pre, post := Around(s, t, k);
        var d := SignedShape(t);
        assert IsPaddedDecimal(s, pre, d, post);
      }
      assert forall c :: c in s && !IsSpace(c) ==> IsNumeralChar(c) by {
        forall c | c in s && !IsSpace(c)
          ensures IsNumeralChar(c)
        {
          var i :| 0 <= i < |s| && s[i] == c;
          var j :| 0 <= j < |t| && t[j] == c;
        }
      }
      r
    else r
  }

  /** A value of Python's `float`: a finite number, not-a-number, or an
      infinity with its sign. */
  datatype Float = Finite(value: real) | NaN | Infinity(negative: bool)

  /** The text after one optional leading sign. */
  function Unsigned(t: string): (u: string)
    ensures u == t || (|t| > 0 && u == t[1..])
  {
    if |t| > 0 && (t[0] == '-' || t[0] == '+') then t[1..] else t
  }

  /** The word `float` reads as not-a-number or an infinity, once the text
      is stripped, its sign dropped and its letters lower-cased. */
  function SpecialWord(s: string): string {
    Lower(Unsigned(Strip(s)))
  }

  /** `float(text)` with its special values: a plain decimal is finite;
      `nan`, `inf` and `infinity` in any letter case and with an optional
      sign are not-a-number and the infinities; anything else raises
      `ValueError`, which is `None`. */
  function ParseFloat(s: string): (r: Option<Float>)
    ensures ParseNumber(s).Some? ==> r == Some(Finite(ParseNumber(s).value))
    ensures r.Some? && r.value.Finite? ==> ParseNumber(s) == Some(r.value.value)
    ensures r == Some(NaN) <==> SpecialWord(s) == "nan"
    ensures (r.Some? && r.value.Infinity?) <==> SpecialWord(s) == "inf" || SpecialWord(s) == "infinity"
    ensures r.Some? && r.value.Infinity? ==> |Strip(s)| > 0 && (r.value.negative <==> Strip(s)[0] == '-')
    ensures r.None? <==> ParseNumber(s).None? && SpecialWord(s) != "nan" && SpecialWord(s) != "inf" && SpecialWord(s) != "infinity"
  {
    var t := Strip(s);
    var word := SpecialWord(s);
    if word == "nan" || word == "inf" || word == "infinity" then
      SpecialWordNotNumeral(s);
      if word == "nan" then Some(NaN) else Some(Infinity(t[0] == '-'))
    else
      match ParseNumber(s)
      case Some(v) => Some(Finite(v))
      case None => None
  }

  /** Text whose special word is a letter word is not a decimal. */
  lemma SpecialWordNotNumeral(s: string)
    requires |SpecialWord(s)| > 0 && (SpecialWord(s)[0] == 'n' || SpecialWord(s)[0] == 'i')
    ensures ParseNumber(s).None? && |Strip(s)| > 0
  {
    var t := Strip(s);
    var u := Unsigned(t);
    assert |u| == |SpecialWord(s)|;
    var x := u[0];
    LetterFirst(u);
    assert x in t by {
      if u != t {
        assert x == t[1];
      }
    }
    LetterDefeatsParse(s, x);
  }

  lemma LetterFirst(u: string)
    requires |Lower(u)| > 0 && (Lower(u)[0] == 'n' || Lower(u)[0] == 'i')
    ensures |u| > 0 && !IsSpace(u[0]) && !IsNumeralChar(u[0])
  {
    assert Lower(u)[0] == LowerChar(u[0]);
  }

  /** A character outside every numeral, anywhere in the text, makes
      `float` fail. */
  lemma LetterDefeatsParse(s: string, x: char)
    requires x in Strip(s) && !IsSpace(x) && !IsNumeralChar(x)
    ensures ParseNumber(s).None?
  {
    assert x in s;
  }

  /** A null cell prints as `nan`, which `float` reads as not-a-number. */
  lemma NanTextIsNaN()
    ensures ParseFloat("nan") == Some(NaN)
  {
    StripUnblanked("nan");
    assert Unsigned("nan") == "nan";
    assert Lower("nan") == "nan";
  }

  /** `text.replace(',', '').replace('$', '')`: drops thousands separators
      and dollar signs and nothing else. */
  function Sanitize(s: string): (r: string)
    ensures ',' !in r && '$' !in r
    ensures multiset(r) == multiset(s)[',' := 0]['$' := 0]
    ensures ',' !in s && '$' !in s ==> r == s
  {
    RemoveChar(RemoveChar(s, ','), '$')
  }

  /** Sanitising works piece by piece, so the kept characters stay in
      their order. */
  lemma SanitizeAppend(a: string, b: string)
    ensures Sanitize(a + b) == Sanitize(a) + Sanitize(b)
  {
    RemoveCharAppend(a, b, ',');
    RemoveCharAppend(RemoveChar(a, ','), RemoveChar(b, ','), '$');
  }

  /** A dollar sign anywhere makes `float` fail: the CSV import that removes
      only commas from the share count skips `"$10"`. */
  lemma DollarDefeatsParse(s: string)
    requires '$' in s
    ensures ParseNumber(s) == None
  {
    assert !IsSpace('$') && !IsNumeralChar('$');
  }

  /** The decimal numeral of a natural number, most significant digit first. */
  function Numeral(n: nat): (s: string)
    ensures |s| > 0 && AllDigits(s)
  {
    if n < 10 then [DigitChar(n)] else Numeral(n / 10) + [DigitChar(n % 10)]
  }

  lemma {:induction false} NumeralValue(n: nat)
    ensures DigitsValue(Numeral(n)) == n
  {
    if n >= 10 {
      var s := Numeral(n);
      assert s[..|s| - 1] == Numeral(n / 10);
      NumeralValue(n / 10);
    }
  }

  lemma BeforeFirstOfJoin(a: string, c: char, b: string)
    requires c !in a
    ensures BeforeFirst(a + [c] + b, c) == a
  {
    var s := a + [c] + b;
    var r := BeforeFirst(s, c);
    assert s[|a|] == c;
    assert s[..|a|] == a;
  }

  /** Text without blanks at either end is left alone by `strip`. */
  lemma StripUnblanked(s: string)
    requires |s| > 0 && !IsSpace(s[0]) && !IsSpace(s[|s| - 1])
    ensures Strip(s) == s
  {
    assert TrimStart(s) == s;
    assert TrimEnd(s) == s;
  }

  lemma NumeralUnblanked(n: nat)
    ensures !IsSpace(Numeral(n)[0]) && !IsSpace(Numeral(n)[|Numeral(n)| - 1])
  {
  }

  /** Blank-free, sign-free text is parsed as an unsigned decimal. */
  lemma ParseUnsignedText(s: string)
    requires |s| > 0 && !IsSpace(s[0]) && !IsSpace(s[|s| - 1])
    requires s[0] != '-' && s[0] != '+'
    ensures ParseNumber(s) == ParseUnsigned(s)
  {
    StripUnblanked(s);
  }

  lemma ParseDigits(s: string)
    requires |s| > 0 && AllDigits(s)
    ensures ParseUnsigned(s) == Some(DigitsValue(s) as real)
  {
    var w := BeforeFirst(s, '.');
    assert w == s;
    assert DigitsValue("") == 0 && Pow10(0) == 1;
    assert DecimalValue(w, "") == DigitsValue(s) as real;
  }

  /** Reading back a rendered whole number gives the number. */
  lemma {:induction false} ParseNumeral(n: nat)
    ensures ParseNumber(Numeral(n)) == Some(n as real)
  {
    var s := Numeral(n);
    NumeralUnblanked(n);
    ParseUnsignedText(s);
    ParseDigits(s);
    NumeralValue(n);
  }

  lemma ParseWholeAndFraction(w: string, f: string)
    requires |w| + |f| > 0 && AllDigits(w) && AllDigits(f)
    ensures ParseUnsigned(w + "." + f) == Some(DecimalValue(w, f))
  {
    var s := w + "." + f;
    BeforeFirstOfJoin(w, '.', f);
    var whole := BeforeFirst(s, '.');
    assert whole == w;
    assert |whole| < |s|;
    var frac := s[|whole| + 1..];
    assert frac == f;
    assert AllDigits(whole) && AllDigits(frac) && |whole| + |frac| > 0;
  }

  /** Reading back `whole.frac` gives the value of its digits: the
      fractional digits are kept exactly. */
  lemma ParseDecimalText(w: string, f: string)
    requires |w| > 0 && AllDigits(w) && |f| > 0 && AllDigits(f)
    ensures ParseNumber(w + "." + f) == Some(DecimalValue(w, f))
  {
    var s := w + "." + f;
    assert s[0] == w[0] && s[|s| - 1] == f[|f| - 1];
    ParseUnsignedText(s);
    ParseWholeAndFraction(w, f);
  }

  /** A leading minus sign negates the parsed value. */
  lemma ParseNegated(s: string)
    requires ParseUnsigned(s).Some?
    ensures ParseNumber("-" + s) == Some(-ParseUnsigned(s).value)
  {
    var t := "-" + s;
    var last := s[|s| - 1];
    assert IsDigit(last) || last == '.';
    assert t[|t| - 1] == last && t[1..] == s;
    StripUnblanked(t);
    ParseNumberIsSigned(t);
    ParseMinus(t, s);
  }

  /** A leading minus negates the unsigned reading of the rest. */
  lemma ParseMinus(t: string, rest: string)
    requires |t| > 0 && t[0] == '-' && t[1..] == rest
    ensures ParseSigned(t) == (if ParseUnsigned(rest).Some? then Some(-ParseUnsigned(rest).value) else None)
  {
  }

  lemma ParseNumberIsSigned(s: string)
    ensures ParseNumber(s) == ParseSigned(Strip(s))
  {
  }

  /** A decimal numeral as written: an optional sign, whole digits, an
      optional point and fraction digits. */
  datatype Decimal = Decimal(sign: string, whole: string, point: bool, frac: string)

  /** The numerals `float` reads as plain decimals: at most one sign, at
      least one digit, and fraction digits only after a point. */
  predicate WellFormed(d: Decimal) {
    && (d.sign == "" || d.sign == "-" || d.sign == "+")
    && AllDigits(d.whole) && AllDigits(d.frac)
    && |d.whole| + |d.frac| > 0
    && (d.point || d.frac == "")
  }

  /** The numeral without its sign. */
  function Magnitude(d: Decimal): string {
    d.whole + (if d.point then "." else "") + d.frac
  }

  function Spelling(d: Decimal): string {
    d.sign + Magnitude(d)
  }

  /** The number a well-formed numeral denotes. */
  function ValueOf(d: Decimal): real
    requires WellFormed(d)
  {
    if d.sign == "-" then -DecimalValue(d.whole, d.frac) else DecimalValue(d.whole, d.frac)
  }

  predicate AllBlank(s: string) {
    forall i :: 0 <= i < |s| ==> IsSpace(s[i])
  }

  /** `s` is the well-formed numeral `d` with the blanks `pre` before it and
      `post` after it. */
  predicate IsPaddedDecimal(s: string, pre: string, d: Decimal, post: string) {
    AllBlank(pre) && AllBlank(post) && WellFormed(d) && s == pre + Spelling(d) + post
  }

  /** A well-formed numeral between blanks is read as its value. */
  lemma DecimalParses(pre: string, d: Decimal, post: string)
    requires WellFormed(d) && AllBlank(pre) && AllBlank(post)
    ensures ParseNumber(pre + Spelling(d) + post) == Some(ValueOf(d))
  {
    var m := Spelling(d);
    SpellingEnds(d);
    StripPadded(pre, m, post);
    ParseNumberIsSigned(pre + m + post);
    SignedParses(d);
  }

  /** The blanks before and after the slice a stripped text occupies. */
  lemma Around(s: string, t: string, k: int) returns (pre: string, post: string)
    requires IsStrippedAt(s, t, k)
    ensures AllBlank(pre) && AllBlank(post) && s == pre + t + post
  {
    pre, post := s[..k], s[k + |t|..];
    assert s == s[..k] + s[k..k + |t|] + s[k + |t|..];
  }

  /** The text a stripped, accepted text spells, as a numeral. */
  lemma SignedShape(t: string) returns (d: Decimal)
    requires ParseSigned(t).Some?
    ensures WellFormed(d) && Spelling(d) == t && ParseSigned(t) == Some(ValueOf(d))
  {
    if |t| > 0 && (t[0] == '-' || t[0] == '+') {
      var u := t[1..];
      ParseSignedOf(t, u);
      var d0 := UnsignedShape(u);
      d := d0.(sign := t[..1]);
      assert t == t[..1] + u;
    } else {
      d := UnsignedShape(t);
    }
  }

  lemma UnsignedShape(u: string) returns (d: Decimal)
    requires ParseUnsigned(u).Some?
    ensures WellFormed(d) && d.sign == "" && Magnitude(d) == u && ParseUnsigned(u) == Some(ValueOf(d))
  {
    var whole := BeforeFirst(u, '.');
    var frac := if |whole| < |u| then u[|whole| + 1..] else "";
    d := Decimal("", whole, |whole| < |u|, frac);
    if |whole| < |u| {
      assert u == whole + "." + frac;
    }
  }

  /** A sign in front reads the rest as unsigned and negates it for `-`. */
  lemma ParseSignedOf(t: string, rest: string)
    requires |t| > 0 && (t[0] == '-' || t[0] == '+') && t[1..] == rest
    ensures ParseSigned(t) == (if ParseUnsigned(rest).Some?
      then Some(if t[0] == '-' then -ParseUnsigned(rest).value else ParseUnsigned(rest).value) else None)
  {
  }

  lemma SignedParses(d: Decimal)
    requires WellFormed(d)
    ensures ParseSigned(Spelling(d)) == Some(ValueOf(d))
  {
    var u := Magnitude(d);
    var t := Spelling(d);
    UnsignedParses(d);
    if d.sign == "" {
      assert t == u;
      MagnitudeStart(d);
      NoSignIsUnsigned(u);
    } else {
      assert t[1..] == u;
      ParseSignedOf(t, u);
    }
  }

  lemma NoSignIsUnsigned(t: string)
    requires |t| > 0 && t[0] != '-' && t[0] != '+'
    ensures ParseSigned(t) == ParseUnsigned(t)
  {
  }

  lemma UnsignedParses(d: Decimal)
    requires WellFormed(d)
    ensures ParseUnsigned(Magnitude(d)) == Some(DecimalValue(d.whole, d.frac))
  {
    if d.point {
      assert Magnitude(d) == d.whole + "." + d.frac;
      ParseWholeAndFraction(d.whole, d.frac);
    } else {
      assert Magnitude(d) == d.whole;
      ParseDigits(d.whole);
      assert DigitsValue(d.frac) == 0 && Pow10(0) == 1;
    }
  }

  /** The magnitude starts with a digit or the point. */
  lemma MagnitudeStart(d: Decimal)
    requires WellFormed(d)
    ensures |Magnitude(d)| > 0 && (IsDigit(Magnitude(d)[0]) || Magnitude(d)[0] == '.')
  {
    var m := Magnitude(d);
    if d.whole != "" {
      assert m[0] == d.whole[0];
    } else {
      assert d.point;
      assert m[0] == '.';
    }
  }

  /** A well-formed numeral neither starts nor ends with a blank. */
  lemma SpellingEnds(d: Decimal)
    requires WellFormed(d)
    ensures var m := Spelling(d); |m| > 0 && !IsSpace(m[0]) && !IsSpace(m[|m| - 1])
  {
    var m := Spelling(d);
    var u := Magnitude(d);
    MagnitudeStart(d);
    assert m[|m| - 1] == u[|u| - 1];
    if d.frac != "" {
      assert u[|u| - 1] == d.frac[|d.frac| - 1];
    } else if d.point {
      assert u[|u| - 1] == '.';
    } else {
      assert u[|u| - 1] == d.whole[|d.whole| - 1];
    }
    if d.sign == "" {
      assert m[0] == u[0];
    } else {
      assert m[0] == d.sign[0];
    }
  }

  /** Text padded with blanks strips to the text. */
  lemma StripPadded(pre: string, m: string, post: string)
    requires |m| > 0 && !IsSpace(m[0]) && !IsSpace(m[|m| - 1])
    requires AllBlank(pre) && AllBlank(post)
    ensures Strip(pre + m + post) == m
  {
    var s := pre + m + post;
    var r := Strip(s);
    assert s[|pre|] == m[0];
    assert r != [];
    var k :| IsStrippedAt(s, r, k);
    PaddedSlice(pre, m, post, r, k);
  }

  /** The only slice with non-blank ends and only blanks around it is the
      padded text itself. */
  lemma PaddedSlice(pre: string, m: string, post: string, r: string, k: int)
    requires |m| > 0 && !IsSpace(m[0]) && !IsSpace(m[|m| - 1])
    requires AllBlank(pre) && AllBlank(post)
    requires |r| > 0 && !IsSpace(r[0]) && !IsSpace(r[|r| - 1])
    requires IsStrippedAt(pre + m + post, r, k)
    ensures r == m
  {
    var s := pre + m + post;
    var a, b := |pre|, |pre| + |m|;
    assert forall i :: 0 <= i < a ==> IsSpace(s[i]) by {
      assert forall i :: 0 <= i < a ==> s[i] == pre[i];
    }
    assert forall i :: b <= i < |s| ==> IsSpace(s[i]) by {
      assert forall i :: b <= i < |s| ==> s[i] == post[i - b];
    }
    var e := k + |r| - 1;
    assert !IsSpace(s[a]) && !IsSpace(s[b - 1]);
    assert r[0] == s[k] && r[|r| - 1] == s[e];
    assert !IsSpace(s[k]) && !IsSpace(s[e]);
    assert k == a && e == b - 1;
    assert s[a..b] == m;
  }

  /** A second point is rejected. */
  lemma TwoPointsRejected()
    ensures ParseNumber("1.2.3").None?
  {
    var s := "1.2.3";
    StripUnblanked(s);
    ParseNumberIsSigned(s);
    TwoPointsUnsigned();
    NoSignIsUnsigned(s);
  }

  lemma TwoPointsUnsigned()
    ensures ParseUnsigned("1.2.3").None?
  {
    var s := "1.2.3";
    BeforeFirstOfJoin("1", '.', "2.3");
    assert s == "1" + "." + "2.3";
    assert !IsDigit("2.3"[1]);
  }

  /** A doubled sign is rejected. */
  lemma DoubleSignRejected()
    ensures ParseNumber("--5").None?
  {
    var s := "--5";
    StripUnblanked(s);
    ParseNumberIsSigned(s);
    assert s[1..] == "-5";
    assert BeforeFirst("-5", '.') == "-5" && !IsDigit("-5"[0]);
    ParseSignedOf(s, "-5");
  }

  /** A point without digits is rejected. */
  lemma LonePointRejected()
    ensures ParseNumber(".").None?
  {
    StripUnblanked(".");
    ParseNumberIsSigned(".");
    assert BeforeFirst(".", '.') == "" && "."[1..] == "";
  }
}
