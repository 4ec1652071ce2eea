/** The Kotlin and Java standard-library text operations the app's logic is built
    from: `indexOf`, `substringBefore`/`substringAfter`, `take`, `toIntOrNull`,
    `toFloatOrNull`, `Int.toString` and `String.format("%.2f", x)`. Characters are
    Dafny chars; numbers are exact (unbounded `int`, `real`). */
module KotlinText {
  import opened Wrappers
  import opened Rounding

  const IntMax: int := 0x7fff_ffff
  const IntMin: int := -0x8000_0000

  predicate IsDigit(c: char)
  {
    '0' <= c <= '9'
  }

  predicate AllDigits(s: string)
  {
    forall i :: 0 <= i < |s| ==> IsDigit(s[i])
  }

  /** `Char.isWhitespace`, on the ASCII range: space, '\t' to '\r', and the
      separators U+001C to U+001F. */
  predicate IsWhitespace(c: char)
  {
    c == ' ' || '\t' <= c <= '\r' || '\U{1C}' <= c <= '\U{1F}'
  }

  /** `isBlank()`: empty or whitespace only. */
  predicate IsBlank(s: string)
  {
    forall i :: 0 <= i < |s| ==> IsWhitespace(s[i])
  }

  /** A text `toIntOrNull()` reads is never blank. */
  lemma ParsedIntNotBlank(s: string)
    requires ParseInt(s).Some?
    ensures !IsBlank(s)
  {
    var digits := if s[0] == '-' || s[0] == '+' then s[1..] else s;
    assert IsDigit(digits[0]);
    assert digits[0] == s[|s| - |digits|];
  }

  /** `s.indexOf(c)`: the first position of c, or -1. */
  function IndexOf(s: string, c: char): (i: int)
    ensures -1 <= i < |s|
    ensures i == -1 <==> c !in s
    ensures 0 <= i ==> s[i] == c && c !in s[..i]
  {
    if s == [] then -1
    else if s[0] == c then 0
    else
      var j := IndexOf(s[1..], c);
      assert 0 <= j ==> s[..j + 1] == [s[0]] + s[1..][..j];
      if j == -1 then -1 else j + 1
  }

  /** `s.substringBefore(c)`: everything before the first c, or s when c is absent. */
  function SubstringBefore(s: string, c: char): (r: string)
  {
    if c in s then s[..IndexOf(s, c)] else s
  }

  /** `s.substringAfter(c)`: everything after the first c, or s when c is absent. */
  function SubstringAfter(s: string, c: char): (r: string)
  {
    if c in s then s[IndexOf(s, c) + 1..] else s
  }

  /** `s.take(n)`: the first n characters, or all of s when it is shorter. */
  function Take(s: string, n: nat): (r: string)
  {
    if |s| <= n then s else s[..n]
  }

  /** The first c splits s into the part before it and the part after it. */
  lemma SplitAtFirst(s: string, c: char)
    requires c in s
    ensures s == SubstringBefore(s, c) + [c] + SubstringAfter(s, c)
    ensures c !in SubstringBefore(s, c)
  {
    var i := IndexOf(s, c);
    assert s == s[..i] + [s[i]] + s[i + 1..];
  }

  /** `a` is a subsequence of `b`: `b` with some characters deleted. */
  ghost predicate IsSubsequence(a: string, b: string)
    decreases |b|
  {
    a == [] ||
    (b != [] &&
     ((a[|a| - 1] == b[|b| - 1] && IsSubsequence(a[..|a| - 1], b[..|b| - 1])) ||
      IsSubsequence(a, b[..|b| - 1])))
  }

  lemma {:induction false} SubsequencePrefix(a: string, b: string, k: nat)
    requires IsSubsequence(a, b) && k <= |a|
    ensures IsSubsequence(a[..k], b)
    decreases |b|
  {
    if k == |a| {
      assert a[..k] == a;
    } else if a[..k] != [] {
      var a', b' := a[..|a| - 1], b[..|b| - 1];
      if a[|a| - 1] == b[|b| - 1] && IsSubsequence(a', b') {
        SubsequencePrefix(a', b', k);
        assert a'[..k] == a[..k];
      } else {
        SubsequencePrefix(a, b', k);
      }
    }
  }

  function DigitValue(c: char): (d: nat)
    requires IsDigit(c)
    ensures d < 10
  {
    c as int - '0' as int
  }

  function DigitChar(d: nat): (c: char)
    requires d < 10
    ensures IsDigit(c) && DigitValue(c) == d
  {
    (d + '0' as int) as char
  }

  /** The value of a string of decimal digits (leading zeros allowed). */
  function DigitsValue(s: string): nat
    requires AllDigits(s)
    decreases |s|
  {
    if s == [] then 0 else 10 * DigitsValue(s[..|s| - 1]) + DigitValue(s[|s| - 1])
  }

  /** `n.toString()` for n >= 0: canonical decimal, no leading zeros. */
  function NatToString(n: nat): string
    decreases n
  {
    if n < 10 then [DigitChar(n)] else NatToString(n / 10) + [DigitChar(n % 10)]
  }

  /** Printing then reading back a natural gives it back, and the printed form
      carries no leading zero. */
  lemma {:induction false} NatToStringRoundTrip(n: nat)
    ensures |NatToString(n)| >= 1 && AllDigits(NatToString(n))
    ensures DigitsValue(NatToString(n)) == n
    ensures NatToString(n)[0] == '0' ==> n == 0
    decreases n
  {
    if n >= 10 {
      NatToStringRoundTrip(n / 10);
      var s := NatToString(n);
      assert s[..|s| - 1] == NatToString(n / 10);
    }
  }

  /** `i.toString()`. */
  function IntToString(i: int): string
  {
    if i < 0 then "-" + NatToString(-i) else NatToString(i)
  }

  /** `s.toIntOrNull()`: an optional sign, then at least one digit, within 32 bits. */
  function ParseInt(s: string): (r: Option<int>)
    ensures r.Some? ==> IntMin <= r.value <= IntMax
  {
    if s == [] then None
    else
      var digits := if s[0] == '-' || s[0] == '+' then s[1..] else s;
      if digits == [] || !AllDigits(digits) then None
      else
        var v := if s[0] == '-' then -(DigitsValue(digits) as int) else DigitsValue(digits);
        if IntMin <= v <= IntMax then Some(v) else None
  }

  /** An unsigned digit string reads as its value, when that fits. */
  lemma ParseIntOfDigits(s: string)
    requires s != [] && AllDigits(s)
    ensures ParseInt(s) == if DigitsValue(s) <= IntMax then Some(DigitsValue(s) as int) else None
  {
    assert IsDigit(s[0]);
  }

  /** A '-' and a digit string read as the negated value, when that fits. */
  lemma ParseIntOfNegated(s: string)
    requires s != [] && AllDigits(s)
    ensures ParseInt("-" + s) == if IntMin <= -(DigitsValue(s) as int) then Some(-(DigitsValue(s) as int)) else None
  {
    var t := "-" + s;
    assert t[0] == '-' && t[1..] == s;
  }

  lemma IntToStringRoundTrip(i: int)
    requires IntMin <= i <= IntMax
    ensures ParseInt(IntToString(i)) == Some(i)
  {
    if i < 0 {
      NatToStringRoundTrip(-i);
      ParseIntOfNegated(NatToString(-i));
    } else {
      NatToStringRoundTrip(i);
      ParseIntOfDigits(NatToString(i));
    }
  }

  /** Digits with at most one '.', and at least one digit on some side of it. */
  function ParseUnsignedDecimal(s: string): Option<real>
  {
    var whole := SubstringBefore(s, '.');
    var fraction := if '.' in s then SubstringAfter(s, '.') else "";
    if AllDigits(whole) && AllDigits(fraction) && |whole| + |fraction| > 0 then
      Some(DecimalValue(whole, fraction))
    else
      None
  }

  /** The value of "whole.fraction" for digit strings. */
  function DecimalValue(whole: string, fraction: string): real
    requires AllDigits(whole) && AllDigits(fraction)
  {
    DigitsValue(whole) as real + FractionValue(fraction)
  }

  /** The value of the digits after the point: 0.d1d2... */
  function FractionValue(fraction: string): real
    requires AllDigits(fraction)
  {
    if fraction == [] then 0.0 else (DigitValue(fraction[0]) as real + FractionValue(fraction[1..])) / 10.0
  }

  /** `s.toFloatOrNull()` on the decimal forms: an optional sign, then digits
      with at most one '.', and at least one digit. Exact, not rounded to a Float. */
  function ParseDecimal(s: string): (r: Option<real>)
  {
    if s != [] && (s[0] == '-' || s[0] == '+') then
      match ParseUnsignedDecimal(s[1..])
      case Some(v) => Some(if s[0] == '-' then -v else v)
      case None => None
    else
      ParseUnsignedDecimal(s)
  }

  /** A leading sign is read off before the unsigned part. */
  lemma ParseDecimalSigned(sign: char, t: string, v: real)
    requires sign == '-' || sign == '+'
    requires ParseUnsignedDecimal(t) == Some(v)
    ensures ParseDecimal([sign] + t) == Some(if sign == '-' then -v else v)
  {
    var s := [sign] + t;
    assert s[0] == sign && s[1..] == t;
  }

  /** Without a sign the text is read as unsigned. */
  lemma ParseDecimalUnsigned(t: string)
    requires t != [] && IsDigit(t[0])
    ensures ParseDecimal(t) == ParseUnsignedDecimal(t)
  {
  }

  /** Strings without any digit never parse: the blank, "-", "." and "-." fields. */
  lemma {:induction false} ParseDecimalNeedsDigit(s: string)
    requires forall i :: 0 <= i < |s| ==> !IsDigit(s[i])
    ensures ParseDecimal(s) == None
  {
    var body := if s != [] && (s[0] == '-' || s[0] == '+') then s[1..] else s;
    assert forall i :: 0 <= i < |body| ==> !IsDigit(body[i]);
    if '.' in body {
      SplitAtFirst(body, '.');
      var whole, fraction := SubstringBefore(body, '.'), SubstringAfter(body, '.');
      assert whole == [] || !IsDigit(whole[0]);
      assert fraction == [] || fraction[0] == body[|whole| + 1];
    } else {
      assert body == [] || !IsDigit(body[0]);
    }
  }

  /** h hundredths printed as "whole.dd". */
  function HundredthsText(h: nat): string
  {
    NatToString(h / 100) + "." + [DigitChar(h % 100 / 10), DigitChar(h % 10)]
  }

  /** `String.format("%.2f", x)` with '.' as the decimal separator: a '-' for
      every negative value (so "-0.00" for a small negative), the whole part,
      '.', and exactly two decimals rounded HALF_UP. */
  function FixedTwo(x: real): string
  {
    var h := Hundredths(x);
    if x < 0.0 then "-" + HundredthsText(-h) else HundredthsText(h)
  }

  /** "%.2f" of a non-negative value is its hundredths printed, without a sign. */
  lemma FixedTwoNonNegative(x: real)
    requires x >= 0.0
    ensures Hundredths(x) >= 0 && FixedTwo(x) == HundredthsText(Hundredths(x))
  {
    HundredthsSign(x);
  }

  lemma HundredthsTextShape(h: nat)
    ensures var s := HundredthsText(h);
      |s| >= 4 && IsDigit(s[0]) && s[|s| - 3] == '.' && IsDigit(s[|s| - 2]) && IsDigit(s[|s| - 1])
  {
    NatToStringRoundTrip(h / 100);
  }

  /** The printed form always ends in '.' and two digits, and starts with '-'
      exactly for negative values, otherwise with a digit. */
  lemma FixedTwoShape(x: real)
    ensures var s := FixedTwo(x);
      |s| >= 4 && s[|s| - 3] == '.' && IsDigit(s[|s| - 2]) && IsDigit(s[|s| - 1]) &&
      (s[0] == '-' <==> x < 0.0) && (x >= 0.0 ==> IsDigit(s[0]))
  {
    HundredthsSign(x);
    var h := Hundredths(x);
    HundredthsTextShape(if x < 0.0 then -h else h);
  }

  lemma HundredthsTextValue(h: nat)
    ensures ParseUnsignedDecimal(HundredthsText(h)) == Some(h as real / 100.0)
  {
    var whole, digits := NatToString(h / 100), [DigitChar(h % 100 / 10), DigitChar(h % 10)];
    NatToStringRoundTrip(h / 100);
    UnsignedRoundTrip(whole, digits);
    TwoDigitsValue(h);
    assert h == 100 * (h / 100) + h % 100;
  }

  lemma TwoDigitsValue(h: nat)
    ensures var digits := [DigitChar(h % 100 / 10), DigitChar(h % 10)];
      AllDigits(digits) && FractionValue(digits) == (h % 100) as real / 100.0
  {
    var r := h % 100;
    LastDigitOfHundredths(h);
    TwoDigitFraction(r / 10, r % 10);
  }

  lemma LastDigitOfHundredths(h: nat)
    ensures h % 10 == h % 100 % 10
    ensures h % 100 == 10 * (h % 100 / 10) + h % 10
  {
    var q, r := h / 100, h % 100;
    var t, u := r / 10, r % 10;
    assert r == 10 * t + u;
    assert h == 10 * (10 * q + t) + u;
    LastDigitOf(h, 10 * q + t, u);
  }

  lemma LastDigitOf(n: int, k: int, u: int)
    requires n == 10 * k + u && 0 <= u < 10
    ensures n % 10 == u
  {
  }

  /** Two fraction digits d1 d2 are worth (10 d1 + d2) / 100. */
  lemma TwoDigitFraction(tens: nat, units: nat)
    requires tens < 10 && units < 10
    ensures var digits := [DigitChar(tens), DigitChar(units)];
      AllDigits(digits) && FractionValue(digits) == (10 * tens + units) as real / 100.0
  {
    var digits := [DigitChar(tens), DigitChar(units)];
    var last := [DigitChar(units)];
    assert last[1..] == [];
    assert FractionValue(last) == units as real / 10.0;
    assert digits[1..] == last;
  }

  /** A sign followed by h hundredths reads back as h / 100. */
  lemma SignedHundredthsRoundTrip(negative: bool, h: int)
    requires negative ==> h <= 0
    requires !negative ==> h >= 0
    ensures ParseDecimal(if negative then "-" + HundredthsText(-h) else HundredthsText(h))
         == Some(h as real / 100.0)
  {
    var m := if negative then -h else h;
    var t := HundredthsText(m);
    HundredthsTextValue(m);
    if negative {
      ParseDecimalSigned('-', t, m as real / 100.0);
      assert -(m as real / 100.0) == h as real / 100.0;
    } else {
      HundredthsTextShape(m);
      ParseDecimalUnsigned(t);
    }
  }

  /** Reading back what "%.2f" printed gives the value rounded to hundredths. */
  lemma FixedTwoRoundTrip(x: real)
    ensures ParseDecimal(FixedTwo(x)) == Some(Hundredths(x) as real / 100.0)
  {
    HundredthsSign(x);
    SignedHundredthsRoundTrip(x < 0.0, Hundredths(x));
  }

  /** The first occurrence is the one with no earlier occurrence. */
  lemma IndexOfAt(s: string, c: char, i: nat)
    requires i < |s| && s[i] == c && c !in s[..i]
    ensures IndexOf(s, c) == i
  {
  }

  /** Splitting "before.after" at its first '.' when before holds none. */
  lemma SplitAtDot(before: string, after: string)
    requires '.' !in before
    ensures SubstringBefore(before + "." + after, '.') == before
    ensures SubstringAfter(before + "." + after, '.') == after
    ensures '.' in before + "." + after
  {
    var s := before + "." + after;
    assert s[..|before|] == before;
    assert s[|before|] == '.';
    IndexOfAt(s, '.', |before|);
    assert s[|before| + 1..] == after;
  }

  lemma DigitsHaveNoDot(s: string)
    requires AllDigits(s)
    ensures '.' !in s
  {
    forall k | 0 <= k < |s| ensures s[k] != '.' {
      assert IsDigit(s[k]);
    }
  }

  /** Reading back "whole.fraction" for digit strings whole (non-empty) and fraction. */
  lemma UnsignedRoundTrip(whole: string, fraction: string)
    requires AllDigits(whole) && AllDigits(fraction) && whole != []
    ensures ParseUnsignedDecimal(whole + "." + fraction) == Some(DecimalValue(whole, fraction))
  {
    DigitsHaveNoDot(whole);
    SplitAtDot(whole, fraction);
  }
}
