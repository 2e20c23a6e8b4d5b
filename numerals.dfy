/** `convertToArabicNumbers`: a number's decimal text with every ASCII digit
    replaced by the Arabic-Indic digit of the same value. The source maps
    each character through `parseInt` and indexes the digit table; a
    character that is not a digit indexes nothing and joins as the empty
    string, so it disappears from the result. */
module Numerals {

  /** U+0660 ARABIC-INDIC DIGIT ZERO through U+0669 ARABIC-INDIC DIGIT NINE. */
  const ArabicIndicDigits: seq<char> :=
    ['\U{0660}', '\U{0661}', '\U{0662}', '\U{0663}', '\U{0664}',
     '\U{0665}', '\U{0666}', '\U{0667}', '\U{0668}', '\U{0669}']

  predicate IsDigit(c: char) {
    '0' <= c <= '9'
  }

  predicate AllDigits(s: string) {
    forall i :: 0 <= i < |s| ==> IsDigit(s[i])
  }

  function DigitValue(c: char): (d: nat)
    requires IsDigit(c)
    ensures d < 10
  {
    (c as int - '0' as int) as nat
  }

  function DigitChar(d: nat): (c: char)
    requires d < 10
    ensures IsDigit(c) && DigitValue(c) == d
  {
    ('0' as int + d) as char
  }

  /** The decimal text of a non-negative integer, most significant digit
      first, without leading zeros. */
  function DecimalString(n: nat): (s: string)
    ensures |s| >= 1 && AllDigits(s)
    ensures n > 0 ==> s[0] != '0'
  {
    if n < 10 then [DigitChar(n)]
    else DecimalString(n / 10) + [DigitChar(n % 10)]
  }

  /** `Number.prototype.toString` on an integer. */
  function NumberToString(n: int): (s: string)
    ensures n >= 0 ==> AllDigits(s) && |s| >= 1
    ensures n < 0 ==> |s| >= 2 && s[0] == '-' && AllDigits(s[1..])
    ensures n != 0 ==> s[if n < 0 then 1 else 0] != '0'
  {
    if n < 0 then "-" + DecimalString(-n) else DecimalString(n)
  }

  /** The per-character map and join. */
  function MapDigits(s: string): (r: string)
    ensures |r| <= |s|
    ensures forall i :: 0 <= i < |r| ==> r[i] in ArabicIndicDigits
  {
    if s == [] then []
    else
      var c := s[|s| - 1];
      MapDigits(s[..|s| - 1]) + (if IsDigit(c) then [ArabicIndicDigits[DigitValue(c)]] else [])
  }

  function ConvertToArabicNumbers(num: int): (r: string)
    ensures forall i :: 0 <= i < |r| ==> r[i] in ArabicIndicDigits
  {
    MapDigits(NumberToString(num))
  }

  /** Reads a string of ASCII digits back as a number. */
  function ParseDecimal(s: string): nat
    requires AllDigits(s)
  {
    if s == [] then 0 else ParseDecimal(s[..|s| - 1]) * 10 + DigitValue(s[|s| - 1])
  }

  /** The value of an Arabic-Indic digit: its position in the table. */
  function ArabicDigitValue(c: char): (d: nat)
    requires c in ArabicIndicDigits
    ensures d < 10 && ArabicIndicDigits[d] == c
  {
    c as int - 0x0660
  }

  /** Reads a string of Arabic-Indic digits back as a number. */
  function ParseArabic(s: string): nat
    requires forall i :: 0 <= i < |s| ==> s[i] in ArabicIndicDigits
  {
    if s == [] then 0 else ParseArabic(s[..|s| - 1]) * 10 + ArabicDigitValue(s[|s| - 1])
  }

  lemma {:induction false} DecimalRoundTrip(n: nat)
    ensures ParseDecimal(DecimalString(n)) == n
  {
    if n >= 10 {
      DecimalRoundTrip(n / 10);
      var s := DecimalString(n);
      assert s[..|s| - 1] == DecimalString(n / 10);
    } else {
      assert DecimalString(n)[..0] == [];
    }
  }

  /** On a digit string the map replaces each character in place: same
      length, and position `i` holds the table entry of digit `i`. */
  lemma {:induction false} MapDigitsPerPosition(s: string)
    requires AllDigits(s)
    ensures |MapDigits(s)| == |s|
    ensures forall i :: 0 <= i < |s| ==> MapDigits(s)[i] == ArabicIndicDigits[DigitValue(s[i])]
  {
    if s != [] {
      MapDigitsPerPosition(s[..|s| - 1]);
    }
  }

  /** Reading the converted digits as Arabic-Indic numerals gives back the
      number the ASCII digits denote. */
  lemma {:induction false} MapDigitsParse(s: string)
    requires AllDigits(s)
    ensures |MapDigits(s)| == |s|
    ensures forall i :: 0 <= i < |MapDigits(s)| ==> MapDigits(s)[i] in ArabicIndicDigits
    ensures ParseArabic(MapDigits(s)) == ParseDecimal(s)
  {
    MapDigitsPerPosition(s);
    if s != [] {
      var r := MapDigits(s);
      MapDigitsParse(s[..|s| - 1]);
      assert r[..|r| - 1] == MapDigits(s[..|s| - 1]);
      assert ArabicDigitValue(r[|r| - 1]) == DigitValue(s[|s| - 1]);
    }
  }

  /** For a non-negative integer the result has one Arabic-Indic digit per
      decimal digit, and reading it back gives the integer. */
  lemma ConvertNonNegative(n: nat)
    ensures |ConvertToArabicNumbers(n)| == |DecimalString(n)|
    ensures forall i :: 0 <= i < |DecimalString(n)| ==>
              ConvertToArabicNumbers(n)[i] == ArabicIndicDigits[DigitValue(DecimalString(n)[i])]
    ensures forall i :: 0 <= i < |ConvertToArabicNumbers(n)| ==> ConvertToArabicNumbers(n)[i] in ArabicIndicDigits
    ensures ParseArabic(ConvertToArabicNumbers(n)) == n
  {
    MapDigitsPerPosition(DecimalString(n));
    MapDigitsParse(DecimalString(n));
    DecimalRoundTrip(n);
  }

  /** Distinct non-negative integers are shown as distinct strings. */
  lemma ConvertInjective(a: nat, b: nat)
    requires ConvertToArabicNumbers(a) == ConvertToArabicNumbers(b)
    ensures a == b
  {
    ConvertNonNegative(a);
    ConvertNonNegative(b);
  }

  /** The minus sign of a negative number is not a digit and is dropped. */
  lemma ConvertDropsSign(n: int)
    requires n > 0
    ensures ConvertToArabicNumbers(-n) == ConvertToArabicNumbers(n)
  {
    MapDigitsAppend("-", DecimalString(n));
    assert MapDigits("-") == [] by {
      assert "-"[..0] == [];
    }
  }

  /** The text `NaN`, which the countdown cells pass before the first tick,
      becomes the empty string. */
  lemma ConvertNaNText()
    ensures MapDigits("NaN") == ""
  {
    assert "NaN"[..2] == "Na" && "Na"[..1] == "N" && "N"[..0] == "";
  }

  lemma {:induction false} MapDigitsAppend(s: string, t: string)
    ensures MapDigits(s + t) == MapDigits(s) + MapDigits(t)
  {
    if t == [] {
      assert s + t == s;
    } else {
      var u := s + t;
      assert u[..|u| - 1] == s + t[..|t| - 1];
      assert u[|u| - 1] == t[|t| - 1];
      MapDigitsAppend(s, t[..|t| - 1]);
    }
  }
}
