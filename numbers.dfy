/**
 * Numbers as the log stores them: `str(int)` and `str(float)` on the way
 * out, Python's `float()` on the way in, and `int()` applied to a float,
 * which truncates toward zero.
 *
 * A binary float is always a finite decimal fraction, so the values the
 * recorder writes are modelled exactly as a `Decimal`: an integer mantissa
 * and a count of fractional digits.
 */
module Numbers {
  import opened Wrappers
  import opened Text

  predicate IsDigit(c: char) {
    '0' <= c <= '9'
  }

  predicate AllDigits(s: string) {
    forall i :: 0 <= i < |s| ==> IsDigit(s[i])
  }

  /** The characters a number literal may be made of: digits, a point and a sign. */
  predicate IsNumberChar(c: char) {
    IsDigit(c) || c == '.' || c == '-' || c == '+'
  }

  predicate NumberChars(s: string) {
    forall i :: 0 <= i < |s| ==> IsNumberChar(s[i])
  }

  /** No character of a number literal is white space. */
  lemma NumberCharsNoSpace(s: string)
    requires NumberChars(s)
    ensures NoSpace(s)
  {
    forall i | 0 <= i < |s| ensures !IsSpace(s[i]) {
      assert IsNumberChar(s[i]);
    }
  }

  function DigitChar(d: nat): (c: char)
    requires d < 10
    ensures IsDigit(c) && c as int - '0' as int == d
  {
    ('0' as int + d) as char
  }

  /** The value of a string of decimal digits, most significant first (the empty string is 0). */
  function DigitsValue(s: string): nat
    requires AllDigits(s)
    decreases |s|
  {
    if s == [] then 0
    else DigitsValue(s[..|s| - 1]) * 10 + (s[|s| - 1] as int - '0' as int)
  }

  function Pow10(n: nat): (p: nat)
    ensures p >= 1
  {
    if n == 0 then 1 else 10 * Pow10(n - 1)
  }

  /** Appending one digit multiplies the value by ten and adds the digit. */
  lemma DigitsValueSnoc(s: string, d: nat)
    requires AllDigits(s) && d < 10
    ensures AllDigits(s + [DigitChar(d)])
    ensures DigitsValue(s + [DigitChar(d)]) == DigitsValue(s) * 10 + d
  {
    assert (s + [DigitChar(d)])[..|s|] == s;
  }

  /** `str(n)` for a natural number: its decimal digits, which read back as `n`. */
  function FormatNat(n: nat): (s: string)
    ensures s != [] && AllDigits(s) && DigitsValue(s) == n
  {
    if n < 10 then
      assert [DigitChar(n)][..0] == [];
      [DigitChar(n)]
    else
      DigitsValueSnoc(FormatNat(n / 10), n % 10);
      FormatNat(n / 10) + [DigitChar(n % 10)]
  }

  /**
   * The last `k` decimal digits of `n`, zero-padded to exactly `k`
   * characters, and what is left of `n` above them.
   */
  function SplitDigits(n: nat, k: nat): (r: (nat, string))
    ensures |r.1| == k && AllDigits(r.1)
    ensures r.0 * Pow10(k) + DigitsValue(r.1) == n
  {
    if k == 0 then (n, [])
    else
      var (q, s) := SplitDigits(n / 10, k - 1);
      DigitsValueSnoc(s, n % 10);
      Regroup(q, Pow10(k - 1), DigitsValue(s), n % 10);
      (q, s + [DigitChar(n % 10)])
  }

  /** The magnitude of `n`. */
  function Abs(n: int): (m: nat)
    ensures m == n || m == -n
  {
    if n < 0 then -n else n
  }

  /** `str(n)` for an integer: an optional minus sign and the digits of its magnitude. */
  function FormatInt(n: int): (s: string)
    ensures s != [] && NumberChars(s)
    ensures (IsDigit(s[0]) || s[0] == '-') && IsDigit(s[|s| - 1])
  {
    if n < 0 then "-" + FormatNat(Abs(n)) else FormatNat(n)
  }

  /**
   * The number `mantissa / 10^scale`. Every float the recorder can write is
   * one of these, and so is every literal `float()` accepts here.
   */
  datatype Decimal = Decimal(mantissa: int, scale: nat) {
    function Value(): real {
      mantissa as real / Pow10(scale) as real
    }

    function Negate(): Decimal {
      Decimal(-mantissa, scale)
    }
  }

  /** `d` written with at least one fractional digit, as Python prints `3.0` for three. */
  function Normalize(d: Decimal): (e: Decimal)
    ensures e.scale >= 1
    ensures (e.mantissa < 0) == (d.mantissa < 0)
  {
    if d.scale == 0 then Decimal(d.mantissa * 10, 1) else d
  }

  /** Normalising does not change the value. */
  lemma NormalizeValue(d: Decimal)
    ensures Normalize(d).Value() == d.Value()
  {
    if d.scale == 0 {
      assert Pow10(1) == 10 && Pow10(0) == 1;
    }
  }

  /** The text of `n / 10^scale` for `n >= 0`: whole digits, a point, exactly `scale` fractional digits. */
  function FractionText(n: nat, scale: nat): (s: string)
    requires scale >= 1
    ensures s != [] && NumberChars(s) && '.' in s
    ensures IsDigit(s[0]) && IsDigit(s[|s| - 1])
  {
    var (q, f) := SplitDigits(n, scale);
    var w := FormatNat(q);
    var s := w + "." + f;
    assert s[|w|] == '.';
    s
  }

  /**
   * `str(x)` for a float in positional notation: the sign, the integer
   * digits, a point and at least one fractional digit (`3.0`, `0.25`, `-1.5`).
   */
  function FormatDecimal(d: Decimal): (s: string)
    ensures s != [] && NumberChars(s) && '.' in s
    ensures (IsDigit(s[0]) || s[0] == '-') && IsDigit(s[|s| - 1])
  {
    var e := Normalize(d);
    if e.mantissa < 0 then
      var u := FractionText(Abs(e.mantissa), e.scale);
      assert ("-" + u)[|"-" + u| - 1] == u[|u| - 1];
      "-" + u
    else FractionText(e.mantissa, e.scale)
  }

  /**
   * `float(t)` for a literal without sign: digits, optionally a point and
   * more digits, with at least one digit in all (`3`, `3.`, `.5`, `3.25`).
   */
  function ParseUnsigned(t: string): Option<Decimal> {
    var i := IndexOf(t, '.');
    ParseParts(t[..i], if i < |t| then t[i + 1..] else [])
  }

  /**
   * The digits before and after the point, when both are digits and not
   * both empty: all the digits read as one integer, scaled down by the
   * number of fractional digits (`3.25` is 325 / 10^2).
   */
  function ParseParts(whole: string, frac: string): Option<Decimal> {
    if AllDigits(whole) && AllDigits(frac) && |whole| + |frac| > 0 then
      assert AllDigits(whole + frac) by {
        forall i | 0 <= i < |whole + frac| ensures IsDigit((whole + frac)[i]) {
          if i >= |whole| {
            assert (whole + frac)[i] == frac[i - |whole|];
          }
        }
      }
      Some(Decimal(DigitsValue(whole + frac), |frac|))
    else
      None
  }

  /** A stripped literal: an optional sign, then an unsigned literal. */
  function ParseSigned(t: string): Option<Decimal> {
    if |t| > 0 && t[0] == '-' then
      (match ParseUnsigned(t[1..]) case Some(d) => Some(d.Negate()) case None => None)
    else if |t| > 0 && t[0] == '+' then ParseUnsigned(t[1..])
    else ParseUnsigned(t)
  }

  /**
   * The white space `float()` skips around a literal. It first turns every
   * non-ASCII white-space character into a space, then trims the ASCII
   * white space `\t \n \v \f \r` and space. So it skips every character of
   * `str.isspace` except the ASCII separators U+001C to U+001F.
   */
  const FloatSpaces: set<char> := Spaces - {'\U{1C}', '\U{1D}', '\U{1E}', '\U{1F}'}

  /** Drops the leading characters that `float()` skips. */
  function TrimLeft(s: string): (r: string)
    ensures |r| <= |s|
    ensures r == [] || r[0] !in FloatSpaces
  {
    if s != [] && s[0] in FloatSpaces then TrimLeft(s[1..]) else s
  }

  /** Drops the trailing characters that `float()` skips. */
  function TrimRight(s: string): (r: string)
    ensures |r| <= |s|
    ensures r == [] || r[|r| - 1] !in FloatSpaces
  {
    if s != [] && s[|s| - 1] in FloatSpaces then TrimRight(s[..|s| - 1]) else s
  }

  /** The text `float()` reads once the white space it skips is gone from both ends. */
  function Trim(s: string): (r: string)
    ensures r == [] || (r[0] !in FloatSpaces && r[|r| - 1] !in FloatSpaces)
  {
    TrimRightDrops(TrimLeft(s));
    TrimRight(TrimLeft(s))
  }

  /** `TrimLeft` keeps a suffix of its input, and everything it drops is skipped by `float()`. */
  lemma {:induction false} TrimLeftDrops(s: string)
    ensures var r := TrimLeft(s);
      r == s[|s| - |r|..] && forall j :: 0 <= j < |s| - |r| ==> s[j] in FloatSpaces
    decreases |s|
  {
    if s != [] && s[0] in FloatSpaces {
      var t := s[1..];
      TrimLeftDrops(t);
      var r := TrimLeft(t);
      assert t[|t| - |r|..] == s[|s| - |r|..];
      forall j | 0 <= j < |s| - |r| ensures s[j] in FloatSpaces {
        if j > 0 {
          assert s[j] == t[j - 1];
        }
      }
    }
  }

  /** `TrimRight` keeps a prefix of its input, and everything it drops is skipped by `float()`. */
  lemma {:induction false} TrimRightDrops(s: string)
    ensures var r := TrimRight(s);
      r == s[..|r|] && forall j :: |r| <= j < |s| ==> s[j] in FloatSpaces
    decreases |s|
  {
    if s != [] && s[|s| - 1] in FloatSpaces {
      var t := s[..|s| - 1];
      TrimRightDrops(t);
      var r := TrimRight(t);
      assert t[..|r|] == s[..|r|];
      forall j | |r| <= j < |s| ensures s[j] in FloatSpaces {
        if j < |s| - 1 {
          assert s[j] == t[j];
        }
      }
    }
  }

  /**
   * `float()` does not skip the separator U+001C: `float("3\x1c")` is a
   * `ValueError`, although `"3\x1c".strip()` is `"3"`.
   */
  lemma SeparatorNotSkipped()
    ensures ParseFloat("3\U{1C}") == None
    ensures Strip("3\U{1C}") == "3"
  {
    var s := "3\U{1C}";
    assert TrimLeft(s) == s;
    assert TrimRight(s) == s;
    assert IndexOf(s, '.') == 2;
    assert !AllDigits(s);
    assert StripLeft(s) == s;
    assert StripRight(s[..1]) == "3";
  }

  /** `float()` does skip a blank: `float("3 ")` is 3. */
  lemma BlankSkipped()
    ensures ParseFloat("3 ") == Some(3.0)
  {
    var t := "3 ";
    assert TrimLeft(t) == t;
    assert TrimRight(t[..1]) == "3";
    assert Trim(t) == "3";
    ParseUnsignedWhole("3");
    assert ParseLiteral(t) == Some(Decimal(3, 0));
  }

  /** A text with nothing `float()` skips at either end is read as it is. */
  lemma TrimBordered(s: string)
    requires s != [] && s[0] !in FloatSpaces && s[|s| - 1] !in FloatSpaces
    ensures Trim(s) == s
  {
  }

  /**
   * The literal Python's `float(s)` reads: the white space it skips at
   * either end is ignored, then an optional sign and an unsigned literal;
   * anything else is a `ValueError`, modelled as `None`. Only nonempty runs
   * of digits, points and signs are accepted.
   */
  function ParseLiteral(s: string): (r: Option<Decimal>)
    ensures r.Some? ==> Trim(s) != [] && NumberChars(Trim(s))
  {
    SignedChars(Trim(s));
    ParseSigned(Trim(s))
  }

  /** Python's `float(s)`: the value of the literal, or `None` for a `ValueError`. */
  function ParseFloat(s: string): (r: Option<real>)
    ensures r.Some? <==> ParseLiteral(s).Some?
    ensures r.Some? ==> Trim(s) != [] && NumberChars(Trim(s))
  {
    match ParseLiteral(s)
    case Some(d) => Some(d.Value())
    case None => None
  }

  /** A signed literal is a nonempty run of number characters. */
  lemma {:induction false} SignedChars(t: string)
    ensures ParseSigned(t).Some? ==> t != [] && NumberChars(t)
  {
    if ParseSigned(t).Some? {
      var u := if t[0] == '-' || t[0] == '+' then t[1..] else t;
      UnsignedChars(u);
      assert NumberChars(t) by {
        forall j | 0 <= j < |t| ensures IsNumberChar(t[j]) {
          if u != t && j > 0 {
            assert t[j] == u[j - 1];
          }
        }
      }
    }
  }

  /** A literal that parses is made of number characters only. */
  lemma UnsignedChars(t: string)
    requires ParseUnsigned(t).Some?
    ensures NumberChars(t)
  {
    var i := IndexOf(t, '.');
    var whole, frac := t[..i], if i < |t| then t[i + 1..] else [];
    assert AllDigits(whole) && AllDigits(frac);
    forall j | 0 <= j < |t| ensures IsNumberChar(t[j]) {
      if j < i {
        assert t[j] == whole[j];
      } else if j > i {
        assert t[j] == frac[j - i - 1];
      }
    }
  }

  /** Digits contain no point. */
  lemma NoPointInDigits(w: string)
    requires AllDigits(w)
    ensures '.' !in w
  {
    forall i | 0 <= i < |w| ensures w[i] != '.' {
      assert IsDigit(w[i]);
    }
  }

  /** A literal with a point parses as the parts before and after its first point. */
  lemma ParseUnsignedAtPoint(w: string, f: string)
    requires '.' !in w
    ensures ParseUnsigned(w + "." + f) == ParseParts(w, f)
  {
    var t := w + "." + f;
    assert t == w + ("." + f);
    IndexOfConcat(w, "." + f, '.');
    assert IndexOf("." + f, '.') == 0;
    assert t[..|w|] == w;
    assert t[|w| + 1..] == f;
  }

  /** A string of digits parses to its value. */
  lemma ParseUnsignedWhole(w: string)
    requires AllDigits(w) && w != []
    ensures ParseUnsigned(w) == Some(Decimal(DigitsValue(w), 0))
  {
    NoPointInDigits(w);
    assert w[..|w|] == w;
    assert w + [] == w;
  }

  /** The value of two digit strings written one after the other. */
  lemma {:induction false} DigitsValueConcat(a: string, b: string)
    requires AllDigits(a) && AllDigits(b)
    ensures AllDigits(a + b)
    ensures DigitsValue(a + b) == DigitsValue(a) * Pow10(|b|) + DigitsValue(b)
    decreases |b|
  {
    if b == [] {
      assert a + b == a;
    } else {
      var c := b[..|b| - 1];
      var last := b[|b| - 1];
      assert a + b == (a + c) + [last];
      assert b == c + [last];
      DigitsValueConcat(a, c);
      DigitsValueSnoc(a + c, last as int - '0' as int);
      DigitsValueSnoc(c, last as int - '0' as int);
      assert DigitChar(last as int - '0' as int) == last;
      Regroup(DigitsValue(a), Pow10(|c|), DigitsValue(c), last as int - '0' as int);
    }
  }

  /** Moving one more digit into the low part of `x * p + y`, kept apart from the string reasoning above. */
  lemma Regroup(x: int, p: int, y: int, d: int)
    ensures (x * p + y) * 10 + d == x * (10 * p) + (y * 10 + d)
  {
  }

  /** Parts whose digits spell `n` with `scale` fractional digits parse to `n / 10^scale`. */
  lemma ParsePartsValue(w: string, f: string, n: nat)
    requires AllDigits(w) && AllDigits(f) && w != []
    requires DigitsValue(w) * Pow10(|f|) + DigitsValue(f) == n
    ensures ParseParts(w, f) == Some(Decimal(n, |f|))
  {
    DigitsValueConcat(w, f);
  }

  /** The text of `n / 10^scale` parses back to exactly that decimal. */
  lemma ParseFractionText(n: nat, scale: nat)
    requires scale >= 1
    ensures ParseUnsigned(FractionText(n, scale)) == Some(Decimal(n, scale))
  {
    var (q, f) := SplitDigits(n, scale);
    var w := FormatNat(q);
    NoPointInDigits(w);
    ParseUnsignedAtPoint(w, f);
    ParsePartsValue(w, f, n);
  }

  /** `float()` skips nothing around a number literal. */
  lemma TrimNumber(s: string)
    requires s != [] && NumberChars(s)
    ensures Trim(s) == s
  {
    assert IsNumberChar(s[0]) && IsNumberChar(s[|s| - 1]);
    TrimBordered(s);
  }

  /** A minus sign followed by number characters is still made of number characters. */
  lemma NegativeChars(u: string)
    requires NumberChars(u)
    ensures NumberChars("-" + u)
  {
    var s := "-" + u;
    forall i | 0 <= i < |s| ensures IsNumberChar(s[i]) {
      if i > 0 {
        assert s[i] == u[i - 1];
      }
    }
  }

  /** An unsigned literal with no white space is read by `float()` as it is. */
  lemma ParseLiteralUnsigned(u: string)
    requires u != [] && IsDigit(u[0]) && NumberChars(u)
    ensures ParseLiteral(u) == ParseUnsigned(u)
  {
    TrimNumber(u);
  }

  /** A minus sign before an unsigned literal negates it. */
  lemma ParseLiteralNegative(u: string)
    requires u != [] && IsDigit(u[0]) && NumberChars(u)
    ensures ParseLiteral("-" + u) == match ParseUnsigned(u) case Some(d) => Some(d.Negate()) case None => None
  {
    NegativeChars(u);
    TrimNumber("-" + u);
    assert ("-" + u)[1..] == u;
  }

  /** A minus sign before a literal for `d` gives the literal for `-d`. */
  lemma NegatedLiteral(u: string, d: Decimal)
    requires u != [] && IsDigit(u[0]) && NumberChars(u) && ParseUnsigned(u) == Some(d)
    ensures ParseLiteral("-" + u) == Some(d.Negate())
  {
    ParseLiteralNegative(u);
  }

  /** `float(str(n)) == n` for every integer, as a literal. */
  lemma ParseLiteralFormatInt(n: int)
    ensures ParseLiteral(FormatInt(n)) == Some(Decimal(n, 0))
  {
    if n < 0 {
      ParseLiteralNegative(FormatNat(Abs(n)));
      ParseUnsignedWhole(FormatNat(Abs(n)));
      assert Decimal(Abs(n), 0).Negate() == Decimal(n, 0);
    } else {
      ParseLiteralUnsigned(FormatNat(n));
      ParseUnsignedWhole(FormatNat(n));
    }
  }

  /** `float(str(n)) == n` for every integer. */
  lemma ParseFormatInt(n: int)
    ensures ParseFloat(FormatInt(n)) == Some(n as real)
  {
    ParseLiteralFormatInt(n);
    WholeValue(n);
    ParseFloatLiteral(FormatInt(n), Decimal(n, 0));
  }

  /** A decimal with no fractional digits is the integer it spells. */
  lemma WholeValue(n: int)
    ensures Decimal(n, 0).Value() == n as real
  {
    assert Pow10(0) == 1;
  }

  /** `float()` gives the value of the literal it reads. */
  lemma ParseFloatLiteral(s: string, d: Decimal)
    requires ParseLiteral(s) == Some(d)
    ensures ParseFloat(s) == Some(d.Value())
  {
  }

  /** A non-negative decimal text reads back as that decimal. */
  lemma ParseLiteralFractionText(n: nat, scale: nat)
    requires scale >= 1
    ensures ParseLiteral(FractionText(n, scale)) == Some(Decimal(n, scale))
  {
    ParseFractionText(n, scale);
    ParseLiteralUnsigned(FractionText(n, scale));
  }

  /** A minus sign before the text of `n / 10^scale` reads back as its negation. */
  lemma ParseLiteralNegativeText(n: nat, scale: nat)
    requires scale >= 1
    ensures ParseLiteral("-" + FractionText(n, scale)) == Some(Decimal(n, scale).Negate())
  {
    ParseFractionText(n, scale);
    NegatedLiteral(FractionText(n, scale), Decimal(n, scale));
  }

  /** The text of a negative decimal with a fractional digit reads back as that decimal. */
  lemma ParseNegativeNormalized(e: Decimal)
    requires e.mantissa < 0 && e.scale >= 1
    ensures ParseLiteral("-" + FractionText(Abs(e.mantissa), e.scale)) == Some(e)
  {
    ParseLiteralNegativeText(Abs(e.mantissa), e.scale);
    assert Decimal(Abs(e.mantissa), e.scale).Negate() == e;
  }

  /** The text of a negative decimal reads back as that decimal. */
  lemma ParseFormatNegativeDecimal(d: Decimal)
    requires Normalize(d).mantissa < 0
    ensures ParseLiteral(FormatDecimal(d)) == Some(Normalize(d))
  {
    var e := Normalize(d);
    ParseNegativeNormalized(e);
    assert FormatDecimal(d) == "-" + FractionText(Abs(e.mantissa), e.scale);
  }

  /** The text of a non-negative decimal reads back as that decimal. */
  lemma ParseFormatNonNegativeDecimal(d: Decimal)
    requires Normalize(d).mantissa >= 0
    ensures ParseLiteral(FormatDecimal(d)) == Some(Normalize(d))
  {
    var e := Normalize(d);
    ParseLiteralFractionText(e.mantissa, e.scale);
    assert FormatDecimal(d) == FractionText(e.mantissa, e.scale);
  }

  /** The decimal text the recorder writes reads back as the same decimal, normalised. */
  lemma ParseLiteralFormatDecimal(d: Decimal)
    ensures ParseLiteral(FormatDecimal(d)) == Some(Normalize(d))
  {
    if Normalize(d).mantissa < 0 {
      ParseFormatNegativeDecimal(d);
    } else {
      ParseFormatNonNegativeDecimal(d);
    }
  }

  /** `float(str(x)) == x`: the decimal text the recorder writes reads back as the same number. */
  lemma ParseFormatDecimal(d: Decimal)
    ensures ParseFloat(FormatDecimal(d)) == Some(d.Value())
  {
    ParseLiteralFormatDecimal(d);
    NormalizeValue(d);
  }

  /** Python's `int(x)` for a float: truncation toward zero. */
  function Truncate(x: real): (k: int)
    ensures x >= 0.0 ==> k as real <= x < k as real + 1.0
    ensures x < 0.0 ==> k as real - 1.0 < x <= k as real
  {
    if x >= 0.0 then x.Floor else -((-x).Floor)
  }

  /** A whole number is its own truncation. */
  lemma TruncateWhole(n: int)
    ensures Truncate(n as real) == n
  {
  }
}
