/** The input sanitisers and the diopter formatter of the app's utility file:
    `getValidatedPower`, `getValidatedAxis`, `getValidatedAge`, `formatDiopter`
    (number and text overloads) and the private `capitalize`. */
module Functions {
  import opened Wrappers
  import opened Rounding
  import opened KotlinText

  // ---------------------------------------------------------------------------
  // getValidatedPower

  /** The characters getValidatedPower can keep. */
  predicate IsPowerChar(c: char)
  {
    IsDigit(c) || c == '.' || c == '-'
  }

  /** The `filterIndexed` test of getValidatedPower at position i: every digit,
      the first '.', and a '-' only when it is the first character. */
  predicate KeepsPowerChar(text: string, i: nat)
    requires i < |text|
  {
    || IsDigit(text[i])
    || (text[i] == '.' && IndexOf(text, '.') == i)
    || (text[i] == '-' && IndexOf(text, '-') == i && IndexOf(text, '-') == 0)
  }

  /** The filtered characters among the first n of text, in order. */
  function FilterPower(text: string, n: nat): string
    requires n <= |text|
    decreases n
  {
    if n == 0 then []
    else FilterPower(text, n - 1) + (if KeepsPowerChar(text, n - 1) then [text[n - 1]] else [])
  }

  /** `getValidatedPower`: filter, then keep at most two characters after the '.'. */
  function GetValidatedPower(text: string): string
  {
    var filtered := FilterPower(text, |text|);
    if '.' in filtered then
      SubstringBefore(filtered, '.') + "." + Take(SubstringAfter(filtered, '.'), 2)
    else
      filtered
  }

  /** The filter keeps a subsequence of the first n characters. */
  lemma {:induction false} FilterPowerSubsequence(text: string, n: nat)
    requires n <= |text|
    ensures IsSubsequence(FilterPower(text, n), text[..n])
    decreases n
  {
    if n > 0 {
      FilterPowerSubsequence(text, n - 1);
      var f', f := FilterPower(text, n - 1), FilterPower(text, n);
      assert text[..n][..n - 1] == text[..n - 1];
      if KeepsPowerChar(text, n - 1) {
        assert f[..|f| - 1] == f';
      } else {
        assert f == f';
      }
    }
  }

  /** The filter keeps power characters only. */
  lemma {:induction false} FilterPowerChars(text: string, n: nat)
    requires n <= |text|
    ensures forall k :: 0 <= k < |FilterPower(text, n)| ==> IsPowerChar(FilterPower(text, n)[k])
    decreases n
  {
    if n > 0 {
      FilterPowerChars(text, n - 1);
    }
  }

  /** The filter keeps every digit among the first n characters. */
  lemma {:induction false} FilterPowerDigits(text: string, n: nat)
    requires n <= |text|
    ensures forall d :: IsDigit(d) ==> multiset(FilterPower(text, n))[d] == multiset(text[..n])[d]
    decreases n
  {
    if n > 0 {
      FilterPowerDigits(text, n - 1);
      var f', f, c := FilterPower(text, n - 1), FilterPower(text, n), text[n - 1];
      assert text[..n] == text[..n - 1] + [c];
      assert multiset(text[..n]) == multiset(text[..n - 1]) + multiset{c};
      if KeepsPowerChar(text, n - 1) {
        assert f == f' + [c];
        assert multiset(f) == multiset(f') + multiset{c};
      } else {
        assert f == f' && !IsDigit(c);
      }
      forall d | IsDigit(d)
        ensures multiset(f)[d] == multiset(text[..n])[d]
      {
      }
    }
  }

  /** The filter keeps one '.', the first of the text, once it has been reached. */
  lemma {:induction false} FilterPowerDots(text: string, n: nat)
    requires n <= |text|
    ensures multiset(FilterPower(text, n))['.'] == (if 0 <= IndexOf(text, '.') < n then 1 else 0)
    decreases n
  {
    if n > 0 {
      FilterPowerDots(text, n - 1);
      var c := text[n - 1];
      if c == '.' && !KeepsPowerChar(text, n - 1) {
        assert 0 <= IndexOf(text, '.') < n - 1;
      }
    }
  }

  /** A '-' survives only at the front, and exactly when the text starts with one. */
  lemma {:induction false} FilterPowerMinus(text: string, n: nat)
    requires n <= |text|
    ensures var f := FilterPower(text, n);
      && (forall k :: 0 < k < |f| ==> f[k] != '-')
      && ((|f| > 0 && f[0] == '-') <==> (n > 0 && text[0] == '-'))
    decreases n
  {
    if n > 0 {
      FilterPowerMinus(text, n - 1);
      var f', f := FilterPower(text, n - 1), FilterPower(text, n);
      var c := text[n - 1];
      if KeepsPowerChar(text, n - 1) {
        assert f == f' + [c];
        assert c == '-' ==> n == 1;
      } else {
        assert f == f';
        assert n == 1 ==> c != '-';
      }
    }
  }

  /** The result is a prefix of the filtered text: everything up to the '.' is
      kept as filtered, and only characters beyond the second decimal are cut. */
  lemma ValidatedPowerPrefix(text: string)
    ensures var f, r := FilterPower(text, |text|), GetValidatedPower(text);
      && |r| <= |f| && r == f[..|r|]
      && ('.' in r <==> '.' in f)
      && ('.' in f ==> IndexOf(r, '.') == IndexOf(f, '.'))
      && (|r| == |f| || ('.' in r && |r| == IndexOf(r, '.') + 3))
  {
    var f, r := FilterPower(text, |text|), GetValidatedPower(text);
    if '.' in f {
      var i := IndexOf(f, '.');
      SplitAtFirst(f, '.');
      var m := if |f| - i - 1 <= 2 then |f| - i - 1 else 2;
      assert Take(SubstringAfter(f, '.'), 2) == f[i + 1..i + 1 + m];
      assert r == f[..i + 1 + m];
      assert r[i] == '.' && r[..i] == f[..i];
      IndexOfAt(r, '.', i);
    }
  }

  /** A character occurring at most once sits at its first position. */
  lemma UniqueOccurrence(s: string, c: char, k: nat)
    requires k < |s| && s[k] == c && multiset(s)[c] <= 1
    ensures IndexOf(s, c) == k
  {
    assert s == s[..k] + s[k..];
  }

  /** The sanitised power is a subsequence of the input over digits, '.' and '-'. */
  lemma ValidatedPowerSubsequence(text: string)
    ensures var r := GetValidatedPower(text);
      && IsSubsequence(r, text)
      && (forall k :: 0 <= k < |r| ==> IsPowerChar(r[k]))
  {
    var f, r := FilterPower(text, |text|), GetValidatedPower(text);
    FilterPowerSubsequence(text, |text|);
    FilterPowerChars(text, |text|);
    ValidatedPowerPrefix(text);
    assert text[..|text|] == text;
    SubsequencePrefix(f, text, |r|);
  }

  /** At most one '.', present exactly when the input has one, followed by at
      most two decimals. */
  lemma ValidatedPowerDot(text: string)
    ensures var r := GetValidatedPower(text);
      && multiset(r)['.'] <= 1
      && ('.' in r <==> '.' in text)
      && ('.' in r ==> |r| <= IndexOf(r, '.') + 3)
  {
    var f, r := FilterPower(text, |text|), GetValidatedPower(text);
    FilterPowerDots(text, |text|);
    ValidatedPowerPrefix(text);
    assert f == r + f[|r|..];
    assert multiset(f) == multiset(r) + multiset(f[|r|..]);
    if '.' in text {
      assert 0 <= IndexOf(text, '.') < |text|;
      assert multiset(f)['.'] == 1;
    }
  }

  /** A '-' only at the front, and there exactly when the input starts with '-'. */
  lemma ValidatedPowerMinus(text: string)
    ensures var r := GetValidatedPower(text);
      && (forall k :: 0 < k < |r| ==> r[k] != '-')
      && ((|r| > 0 && r[0] == '-') <==> (|text| > 0 && text[0] == '-'))
  {
    var f, r := FilterPower(text, |text|), GetValidatedPower(text);
    FilterPowerMinus(text, |text|);
    ValidatedPowerPrefix(text);
    if |f| > 0 && f[0] == '-' {
      assert |r| > 0 by {
        if '.' in f { assert |r| > IndexOf(f, '.'); }
      }
    }
  }

  /** The sanitised power: a subsequence of the input over digits, '.' and '-';
      at most one '.', present exactly when the input has one; a '-' only at
      the front, exactly when the input starts with '-'; at most two decimals. */
  lemma ValidatedPowerShape(text: string)
    ensures var r := GetValidatedPower(text);
      && IsSubsequence(r, text)
      && (forall k :: 0 <= k < |r| ==> IsPowerChar(r[k]))
      && multiset(r)['.'] <= 1
      && ('.' in r <==> '.' in text)
      && (forall k :: 0 < k < |r| ==> r[k] != '-')
      && ((|r| > 0 && r[0] == '-') <==> (|text| > 0 && text[0] == '-'))
      && ('.' in r ==> |r| <= IndexOf(r, '.') + 3)
  {
    ValidatedPowerSubsequence(text);
    ValidatedPowerDot(text);
    ValidatedPowerMinus(text);
  }

  /** A text whose characters all pass the filter comes through unchanged. */
  lemma {:induction false} FilterPowerKeepsAll(text: string, n: nat)
    requires n <= |text|
    requires forall k :: 0 <= k < n ==> KeepsPowerChar(text, k)
    ensures FilterPower(text, n) == text[..n]
    decreases n
  {
    if n > 0 {
      FilterPowerKeepsAll(text, n - 1);
      assert text[..n] == text[..n - 1] + [text[n - 1]];
    }
  }

  /** Sanitising an already sanitised power changes nothing. */
  lemma ValidatedPowerIdempotent(text: string)
    ensures GetValidatedPower(GetValidatedPower(text)) == GetValidatedPower(text)
  {
    var r := GetValidatedPower(text);
    ValidatedPowerShape(text);
    forall k | 0 <= k < |r|
      ensures KeepsPowerChar(r, k)
    {
      if r[k] == '.' {
        UniqueOccurrence(r, '.', k);
      } else if r[k] == '-' {
        IndexOfAt(r, '-', 0);
      }
    }
    FilterPowerKeepsAll(r, |r|);
    assert r[..|r|] == r;
    if '.' in r {
      SplitAtFirst(r, '.');
      assert |SubstringAfter(r, '.')| <= 2;
    }
  }

  /** There is no cap on the whole part: a text of digits comes through unchanged. */
  lemma ValidatedPowerOfDigits(text: string)
    requires AllDigits(text)
    ensures GetValidatedPower(text) == text
  {
    FilterPowerKeepsAll(text, |text|);
    assert text[..|text|] == text;
    DigitsHaveNoDot(text);
  }

  // ---------------------------------------------------------------------------
  // getValidatedAxis and getValidatedAge

  /** `text.filterIndexed { _, c -> c in "0123456789" }`: exactly the digits, in order. */
  function FilterDigits(text: string): (r: string)
    ensures AllDigits(r) && |r| <= |text|
    decreases |text|
  {
    if text == [] then []
    else FilterDigits(text[..|text| - 1]) + (if IsDigit(text[|text| - 1]) then [text[|text| - 1]] else [])
  }

  /** The filter keeps every digit and nothing else. */
  lemma {:induction false} FilterDigitsCounts(text: string)
    ensures forall c :: IsDigit(c) ==> multiset(FilterDigits(text))[c] == multiset(text)[c]
    ensures forall c :: !IsDigit(c) ==> multiset(FilterDigits(text))[c] == 0
    decreases |text|
  {
    if text != [] {
      FilterDigitsCounts(text[..|text| - 1]);
      assert text == text[..|text| - 1] + [text[|text| - 1]];
    }
  }

  lemma {:induction false} FilterDigitsOfDigits(s: string)
    requires AllDigits(s)
    ensures FilterDigits(s) == s
    decreases |s|
  {
    if s != [] {
      FilterDigitsOfDigits(s[..|s| - 1]);
      assert s == s[..|s| - 1] + [s[|s| - 1]];
    }
  }

  lemma FilterDigitsEmpty(text: string)
    ensures FilterDigits(text) == [] <==> forall i :: 0 <= i < |text| ==> !IsDigit(text[i])
  {
    FilterDigitsCounts(text);
    if exists i :: 0 <= i < |text| && IsDigit(text[i]) {
      var i :| 0 <= i < |text| && IsDigit(text[i]);
      assert text[i] in multiset(text);
    }
  }

  /** `coerceIn(lo, hi)`. */
  function CoerceIn(v: int, lo: int, hi: int): (r: int)
    requires lo <= hi
    ensures lo <= r <= hi
    ensures lo <= v <= hi ==> r == v
  {
    if v < lo then lo else if v > hi then hi else v
  }

  /** The shared shape of getValidatedAxis and getValidatedAge: the digits,
      read with `toInt()`, clamped to [lo, hi] and printed back; the blank text
      when there are no digits. None where `toInt()` throws (a value beyond 32 bits). */
  function ValidatedNumber(text: string, lo: nat, hi: nat): Option<string>
    requires lo <= hi
  {
    var digits := FilterDigits(text);
    if digits != [] then
      match ParseInt(digits)
      case Some(v) => Some(IntToString(CoerceIn(v, lo, hi)))
      case None => None
    else
      Some(digits)
  }

  /** `getValidatedAxis`: clamped to [1, 180]. */
  function GetValidatedAxis(text: string): Option<string>
  {
    ValidatedNumber(text, 1, 180)
  }

  /** `getValidatedAge`: clamped to [0, 100]. */
  function GetValidatedAge(text: string): Option<string>
  {
    ValidatedNumber(text, 0, 100)
  }

  /** Blank exactly when the text has no digit. */
  lemma ValidatedNumberBlank(text: string, lo: nat, hi: nat)
    requires lo <= hi <= IntMax
    ensures ValidatedNumber(text, lo, hi) == Some("") <==> forall i :: 0 <= i < |text| ==> !IsDigit(text[i])
  {
    FilterDigitsEmpty(text);
    var digits := FilterDigits(text);
    if digits != [] {
      assert !(digits[0] == '-' || digits[0] == '+');
      NatToStringRoundTrip(CoerceIn(DigitsValue(digits), lo, hi));
    }
  }

  /** Otherwise the canonical decimal (no leading zeros) of the digits' value
      clamped to [lo, hi]; no result exactly when that value does not fit in 32 bits. */
  lemma ValidatedNumberValue(text: string, lo: nat, hi: nat)
    requires lo <= hi <= IntMax
    ensures var digits, r := FilterDigits(text), ValidatedNumber(text, lo, hi);
      && (r.None? <==> digits != [] && DigitsValue(digits) > IntMax)
      && (digits != [] && DigitsValue(digits) <= IntMax ==>
            r == Some(NatToString(CoerceIn(DigitsValue(digits), lo, hi))))
  {
    var digits := FilterDigits(text);
    if digits != [] {
      assert !(digits[0] == '-' || digits[0] == '+');
    }
  }

  /** A non-blank result is all digits, within [lo, hi], without leading zeros. */
  lemma ValidatedNumberCanonical(text: string, lo: nat, hi: nat)
    requires lo <= hi <= IntMax
    ensures var r := ValidatedNumber(text, lo, hi);
      r.Some? && r.value != "" ==>
        AllDigits(r.value) && lo <= DigitsValue(r.value) <= hi && (r.value[0] == '0' ==> r.value == "0")
  {
    ValidatedNumberValue(text, lo, hi);
    var digits := FilterDigits(text);
    if digits != [] && DigitsValue(digits) <= IntMax {
      var v := CoerceIn(DigitsValue(digits), lo, hi);
      NatToStringRoundTrip(v);
    }
  }

  lemma ValidatedNumberSpec(text: string, lo: nat, hi: nat)
    requires lo <= hi <= IntMax
    ensures var digits, r := FilterDigits(text), ValidatedNumber(text, lo, hi);
      && (r == Some("") <==> forall i :: 0 <= i < |text| ==> !IsDigit(text[i]))
      && (r.None? <==> digits != [] && DigitsValue(digits) > IntMax)
      && (digits != [] && DigitsValue(digits) <= IntMax ==>
            r == Some(NatToString(CoerceIn(DigitsValue(digits), lo, hi))))
      && (r.Some? && r.value != "" ==>
            AllDigits(r.value) && lo <= DigitsValue(r.value) <= hi &&
            (r.value[0] == '0' ==> r.value == "0"))
  {
    ValidatedNumberBlank(text, lo, hi);
    ValidatedNumberValue(text, lo, hi);
    ValidatedNumberCanonical(text, lo, hi);
  }

  /** Validating an already validated axis or age changes nothing. */
  lemma ValidatedNumberIdempotent(text: string, lo: nat, hi: nat)
    requires lo <= hi <= IntMax
    requires ValidatedNumber(text, lo, hi).Some?
    ensures ValidatedNumber(ValidatedNumber(text, lo, hi).value, lo, hi) == ValidatedNumber(text, lo, hi)
  {
    ValidatedNumberSpec(text, lo, hi);
    var r := ValidatedNumber(text, lo, hi).value;
    if r != "" {
      var digits := FilterDigits(text);
      var v := CoerceIn(DigitsValue(digits), lo, hi);
      NatToStringRoundTrip(v);
      FilterDigitsOfDigits(r);
      ParseIntOfDigits(r);
    }
  }

  // ---------------------------------------------------------------------------
  // formatDiopter

  /** `formatDiopter(round, withSign)` on a number: a '+' when signing a
      positive value (tested before rounding), then "%.2f" of the value, or of
      `0.25 * Math.round(x / 0.25)` when rounding. */
  function FormatDiopter(x: real, round: bool, withSign: bool): string
  {
    var sign := if x > 0.0 && withSign then "+" else "";
    var power := if round then RoundQuarter(x) else x;
    sign + FixedTwo(power)
  }

  /** Without a sign request (or for a non-positive value) the text is "%.2f" alone. */
  lemma UnsignedFormat(x: real, round: bool, withSign: bool)
    requires !(x > 0.0 && withSign)
    ensures FormatDiopter(x, round, withSign) == FixedTwo(if round then RoundQuarter(x) else x)
  {
    EmptyPrefix(FixedTwo(if round then RoundQuarter(x) else x));
  }

  lemma EmptyPrefix(t: string)
    ensures "" + t == t
  {
  }

  /** `formatDiopter` on a text: `toFloat()` first, None where that throws. */
  function FormatDiopterText(s: string, round: bool, withSign: bool): Option<string>
  {
    match ParseDecimal(s)
    case Some(x) => Some(FormatDiopter(x, round, withSign))
    case None => None
  }

  /** The '+' appears exactly for a signed positive value, a '-' exactly for a
      negative printed value, and there are always exactly two decimals. */
  lemma FormatDiopterShape(x: real, round: bool, withSign: bool)
    ensures var r, power := FormatDiopter(x, round, withSign), if round then RoundQuarter(x) else x;
      && |r| >= 4 && r[|r| - 3] == '.' && IsDigit(r[|r| - 2]) && IsDigit(r[|r| - 1])
      && (r[0] == '+' <==> withSign && x > 0.0)
      && (r[0] == '-' <==> power < 0.0)
      && '+' !in r[1..] && '-' !in r[1..]
  {
    var power := if round then RoundQuarter(x) else x;
    RoundQuarterSign(x);
    FixedTwoShape(power);
    FixedTwoSignOnlyFirst(power);
  }

  lemma FixedTwoSignOnlyFirst(x: real)
    ensures '+' !in FixedTwo(x) && '-' !in FixedTwo(x)[1..]
  {
    HundredthsSign(x);
    var h := Hundredths(x);
    var n: nat := if x < 0.0 then -h else h;
    NatToStringRoundTrip(n / 100);
    var t := HundredthsText(n);
    assert forall k :: 0 <= k < |t| ==> IsDigit(t[k]) || t[k] == '.';
    if x < 0.0 {
      assert FixedTwo(x)[1..] == t;
    }
  }

  /** Reading a formatted diopter back with `toFloat()` gives the value rounded
      to the quarter (when rounding) or to the hundredth (otherwise). */
  lemma FormatDiopterReadBack(x: real, round: bool, withSign: bool)
    ensures ParseDecimal(FormatDiopter(x, round, withSign))
         == Some(if round then RoundQuarter(x) else Hundredths(x) as real / 100.0)
  {
    if round {
      RoundedReadBack(x, withSign);
    } else {
      SignedReadBack(x, x > 0.0 && withSign);
    }
  }

  /** A quarter-rounded power prints exactly, so it reads back as itself. */
  lemma RoundedReadBack(x: real, withSign: bool)
    ensures ParseDecimal(FormatDiopter(x, true, withSign)) == Some(RoundQuarter(x))
  {
    QuarterPrintsExactly(x);
    SignedReadBack(RoundQuarter(x), x > 0.0 && withSign);
  }

  lemma QuarterPrintsExactly(x: real)
    ensures Hundredths(RoundQuarter(x)) as real / 100.0 == RoundQuarter(x)
    ensures x > 0.0 ==> RoundQuarter(x) >= 0.0
  {
    RoundQuarterSign(x);
    RoundQuarterBounds(x);
    HundredthsOfQuarter(RoundQuarter(x));
  }

  /** "%.2f" of a non-negative value read back after a '+'. */
  lemma PlusReadBack(power: real)
    requires power >= 0.0
    ensures ParseDecimal("+" + FixedTwo(power)) == Some(Hundredths(power) as real / 100.0)
  {
    FixedTwoNonNegative(power);
    var h := Hundredths(power);
    HundredthsTextValue(h);
    ParseDecimalSigned('+', HundredthsText(h), h as real / 100.0);
  }

  /** "%.2f" read back, with or without a leading '+'. */
  lemma SignedReadBack(power: real, plus: bool)
    requires plus ==> power >= 0.0
    ensures ParseDecimal((if plus then "+" else "") + FixedTwo(power)) == Some(Hundredths(power) as real / 100.0)
  {
    if plus {
      PlusReadBack(power);
    } else {
      FixedTwoRoundTrip(power);
      assert "" + FixedTwo(power) == FixedTwo(power);
    }
  }

  /** A small positive value that rounds to zero still carries the '+';
      zero and negative values never do. */
  lemma FormatDiopterExamples()
    ensures FormatDiopter(0.1, true, true) == "+0.00"
    ensures FormatDiopter(0.0, true, true) == "0.00"
    ensures FormatDiopter(-4.0, false, true) == "-4.00"
    ensures FormatDiopter(0.125, true, true) == "+0.25"
  {
    assert RoundQuarter(0.1) == 0.0;
    assert Hundredths(0.0) == 0;
    assert RoundQuarter(0.125) == 0.25;
    assert Hundredths(0.25) == 25;
    assert Hundredths(-4.0) == -400;
    assert NatToString(4) == "4";
  }

  /** Re-formatting a rounded diopter text with rounding gives the format of the
      rounded value: the digits are stable, but a value that rounded to zero
      loses its '+'. */
  lemma FormatDiopterTextStable(x: real, withSign: bool)
    ensures FormatDiopterText(FormatDiopter(x, true, withSign), true, withSign)
         == Some(FormatDiopter(RoundQuarter(x), true, withSign))
  {
    FormatDiopterReadBack(x, true, withSign);
    RoundQuarterIdempotent(x);
  }

  /** Re-formatting a rounded diopter text leaves it unchanged exactly when it
      is not a signed value below an eighth, whose "+0.00" loses its '+'. */
  lemma FormatDiopterTextUnchanged(x: real, withSign: bool)
    ensures FormatDiopterText(FormatDiopter(x, true, withSign), true, withSign) == Some(FormatDiopter(x, true, withSign))
        <==> !(withSign && 0.0 < x < 0.125)
  {
    var q := RoundQuarter(x);
    FormatDiopterTextStable(x, withSign);
    RoundQuarterIdempotent(x);
    FormatDiopterShape(x, true, withSign);
    FormatDiopterShape(q, true, withSign);
    if withSign && 0.0 < x < 0.125 {
      assert (4.0 * x + 0.5).Floor == 0;
      assert q == 0.0;
    } else if x >= 0.125 {
      assert (4.0 * x + 0.5).Floor >= 1;
      assert q > 0.0;
    } else if x <= 0.0 {
      RoundQuarterSign(x);
    }
  }

  // ---------------------------------------------------------------------------
  // capitalize

  /** `Character.isUpperCase`, on ASCII letters. */
  predicate IsUpperCase(c: char)
  {
    'A' <= c <= 'Z'
  }

  /** `Char.uppercaseChar`, on ASCII letters. */
  function UppercaseChar(c: char): char
  {
    if 'a' <= c <= 'z' then (c as int - 32) as char else c
  }

  /** `capitalize(s)`, where None is Kotlin's null. */
  function Capitalize(s: Option<string>): string
  {
    match s
    case None => ""
    case Some(t) =>
      if t == [] then ""
      else if IsUpperCase(t[0]) then t
      else [UppercaseChar(t[0])] + t[1..]
  }

  /** Null and empty give ""; otherwise the length and the tail are kept and
      only the first character is uppercased; doing it twice changes nothing. */
  lemma CapitalizeSpec(s: Option<string>)
    ensures var r := Capitalize(s);
      && (s.None? || s == Some("") ==> r == "")
      && (s.Some? && s.value != "" ==>
            |r| == |s.value| && r[1..] == s.value[1..] && r[0] == UppercaseChar(s.value[0]) &&
            (IsUpperCase(s.value[0]) ==> r == s.value))
      && Capitalize(Some(r)) == r
  {
    if s.Some? && s.value != [] {
      var t := s.value;
      var r := Capitalize(s);
      assert r[0] == UppercaseChar(t[0]);
      assert !IsUpperCase(r[0]) ==> r[0] == UppercaseChar(r[0]);
    }
  }
}
