/**
 * The two number conversions the edge-list reader applies to its fields:
 * Python's `int(text)` (base 10) and `float(text)`, on their decimal syntax.
 * Both ignore whitespace around the text (every character `str.isspace()`
 * accepts except the four separator controls U+001C to U+001F), accept one
 * leading sign, and allow single underscores between digits. `int` refuses
 * a text of more than 4300 digits. A float text is a decimal mantissa with an
 * optional exponent, or one of the words `inf`, `infinity`, `nan` in any
 * letter case. Values are exact: a float keeps the real number its text
 * denotes, with no rounding to binary.
 */
module Numbers {
  import opened Wrappers
  import opened Text

  /** The value `float` returns, without IEEE rounding. */
  datatype Weight = Finite(value: real) | Infinite(negative: bool) | NaN

  predicate IsDigit(c: char) {
    '0' <= c <= '9'
  }

  /** One or more ASCII digits, with single underscores allowed between two digits. */
  predicate IsDigitString(s: string) {
    && |s| > 0
    && IsDigit(s[0]) && IsDigit(s[|s| - 1])
    && (forall i :: 0 <= i < |s| ==> IsDigit(s[i]) || s[i] == '_')
    && (forall i :: 0 <= i < |s| - 1 && s[i] == '_' ==> IsDigit(s[i + 1]))
  }

  /** The decimal value of the digits of `s`, skipping underscores. */
  function DigitsValue(s: string): nat {
    if s == [] then 0
    else
      var last := s[|s| - 1];
      if IsDigit(last) then 10 * DigitsValue(s[..|s| - 1]) + (last as int - '0' as int)
      else DigitsValue(s[..|s| - 1])
  }

  /** How many digits `s` holds. */
  function DigitCount(s: string): nat {
    if s == [] then 0 else (if IsDigit(s[|s| - 1]) then 1 else 0) + DigitCount(s[..|s| - 1])
  }

  function Pow10(k: nat): (r: real)
    ensures r >= 1.0
  {
    if k == 0 then 1.0 else 10.0 * Pow10(k - 1)
  }

  /** The factor 10^e for a possibly negative exponent `e`. */
  function Scale(e: int): (r: real)
    ensures r > 0.0
  {
    if e >= 0 then Pow10(e) else 1.0 / Pow10(-e)
  }

  /** Removes one leading `+` or `-`, telling whether it was a minus. */
  function SplitSign(t: string): (bool, string) {
    if |t| > 0 && (t[0] == '+' || t[0] == '-') then (t[0] == '-', t[1..]) else (false, t)
  }

  /** The index of the first character of `s` that is in `marks`, or `|s|` when there is none. */
  function FirstIndex(s: string, marks: set<char>): (i: nat)
    ensures i <= |s|
    ensures i < |s| ==> s[i] in marks
    ensures forall k :: 0 <= k < i ==> s[k] !in marks
  {
    if s == [] then 0
    else if s[0] in marks then 0
    else 1 + FirstIndex(s[1..], marks)
  }

  function LowerAscii(s: string): string {
    seq(|s|, i requires 0 <= i < |s| => if 'A' <= s[i] <= 'Z' then (s[i] as int + 32) as char else s[i])
  }

  /** An optional sign followed by a digit string; shared by integers and exponents. */
  function ParseSignedDigits(t: string): Option<int> {
    var (negative, digits) := SplitSign(t);
    if IsDigitString(digits) then
      Some(if negative then -(DigitsValue(digits) as int) else DigitsValue(digits) as int)
    else None
  }

  /**
   * The whitespace `int` and `float` skip around a number: non-ASCII
   * whitespace is first rewritten to a space, then only the six ASCII
   * spaces are removed, so the controls U+001C to U+001F stay.
   */
  predicate IsNumberSpace(c: char) {
    IsWhitespace(c) && !('\U{1c}' <= c <= '\U{1f}')
  }

  predicate AllNumberSpace(s: string) {
    forall i :: 0 <= i < |s| ==> IsNumberSpace(s[i])
  }

  /** Neither end of `s` is number space. */
  predicate NumberTrimmed(s: string) {
    s == [] || (!IsNumberSpace(s[0]) && !IsNumberSpace(s[|s| - 1]))
  }

  function TrimNumberStart(s: string): string {
    if |s| > 0 && IsNumberSpace(s[0]) then TrimNumberStart(s[1..]) else s
  }

  /** `TrimNumberStart` keeps the longest suffix that does not start with number space. */
  lemma {:induction false} TrimNumberStartFacts(s: string)
    ensures |TrimNumberStart(s)| <= |s| && TrimNumberStart(s) == s[|s| - |TrimNumberStart(s)|..]
    ensures AllNumberSpace(s[..|s| - |TrimNumberStart(s)|])
    ensures TrimNumberStart(s) == [] || !IsNumberSpace(TrimNumberStart(s)[0])
  {
    if |s| > 0 && IsNumberSpace(s[0]) {
      TrimNumberStartFacts(s[1..]);
      var k := |s| - |TrimNumberStart(s)|;
      assert s[..k] == [s[0]] + s[1..][..k - 1];
    }
  }

  function TrimNumberEnd(s: string): string {
    if |s| > 0 && IsNumberSpace(s[|s| - 1]) then TrimNumberEnd(s[..|s| - 1]) else s
  }

  /** `TrimNumberEnd` keeps the longest prefix that does not end with number space. */
  lemma {:induction false} TrimNumberEndFacts(s: string)
    ensures |TrimNumberEnd(s)| <= |s| && TrimNumberEnd(s) == s[..|TrimNumberEnd(s)|]
    ensures TrimNumberEnd(s) == [] || !IsNumberSpace(TrimNumberEnd(s)[|TrimNumberEnd(s)| - 1])
  {
    if |s| > 0 && IsNumberSpace(s[|s| - 1]) {
      TrimNumberEndFacts(s[..|s| - 1]);
    }
  }

  /** The text a number conversion reads: `s` without number space at its ends. */
  function NumberText(s: string): (r: string)
    ensures NumberTrimmed(r)
    ensures |r| <= |s|
  {
    TrimNumberStartFacts(s);
    TrimNumberEndFacts(TrimNumberStart(s));
    TrimNumberEnd(TrimNumberStart(s))
  }

  lemma {:induction false} TrimNumberStartOfSpacePrefix(ws: string, t: string)
    requires AllNumberSpace(ws)
    requires t == [] || !IsNumberSpace(t[0])
    ensures TrimNumberStart(ws + t) == t
  {
    if ws != [] {
      assert (ws + t)[1..] == ws[1..] + t;
      TrimNumberStartOfSpacePrefix(ws[1..], t);
    }
  }

  lemma {:induction false} TrimNumberEndOfSpaceSuffix(t: string, ws: string)
    requires AllNumberSpace(ws)
    requires t == [] || !IsNumberSpace(t[|t| - 1])
    ensures TrimNumberEnd(t + ws) == t
  {
    if ws != [] {
      assert (t + ws)[..|t + ws| - 1] == t + ws[..|ws| - 1];
      TrimNumberEndOfSpaceSuffix(t, ws[..|ws| - 1]);
    }
  }

  /** Whatever number space surrounds a number-trimmed text, a conversion reads exactly that text. */
  lemma {:induction false} NumberTextSurrounded(before: string, t: string, after: string)
    requires AllNumberSpace(before) && AllNumberSpace(after)
    requires NumberTrimmed(t)
    ensures NumberText(before + t + after) == t
  {
    if t == [] {
      assert before + t + after == before + after;
      assert AllNumberSpace(before + after) by {
        forall i | 0 <= i < |before + after| ensures IsNumberSpace((before + after)[i]) {
          if i >= |before| { assert (before + after)[i] == after[i - |before|]; }
        }
      }
      TrimNumberStartOfSpacePrefix(before + after, []);
      assert before + after + [] == before + after;
    } else {
      assert before + t + after == before + (t + after);
      TrimNumberStartOfSpacePrefix(before, t + after);
      TrimNumberEndOfSpaceSuffix(t, after);
    }
  }

  /**
   * The default of `sys.get_int_max_str_digits()`: `int` refuses a decimal
   * text with more digits than this (underscores and the sign not counted).
   */
  const MaxStrDigits: nat := 4300

  /** Python's `int(s)`: `None` where Python raises `ValueError`. */
  function ParseInt(s: string): Option<int> {
    var t := NumberText(s);
    if DigitCount(SplitSign(t).1) > MaxStrDigits then None else ParseSignedDigits(t)
  }

  /** `12`, `12.`, `.5` or `12.5` (digit strings on either side of the point). */
  function ParseMantissa(m: string): Option<real> {
    var d := FirstIndex(m, {'.'});
    var whole := m[..d];
    if d == |m| then
      if IsDigitString(whole) then Some(DigitsValue(whole) as real) else None
    else
      var fraction := m[d + 1..];
      if && (whole == [] || IsDigitString(whole))
         && (fraction == [] || IsDigitString(fraction))
         && (whole != [] || fraction != [])
      then Some(DigitsValue(whole) as real + DigitsValue(fraction) as real / Pow10(DigitCount(fraction)))
      else None
  }

  /** An unsigned mantissa optionally followed by `e` or `E` and a signed exponent. */
  function ParseDecimal(body: string): Option<real> {
    var e := FirstIndex(body, {'e', 'E'});
    var mantissa := ParseMantissa(body[..e]);
    var exponent := if e == |body| then Some(0) else ParseSignedDigits(body[e + 1..]);
    if mantissa.Some? && exponent.Some? then Some(mantissa.value * Scale(exponent.value)) else None
  }

  /** Python's `float(s)`: `None` where Python raises `ValueError`. */
  function ParseFloat(s: string): Option<Weight> {
    var (negative, body) := SplitSign(NumberText(s));
    var word := LowerAscii(body);
    if word == "inf" || word == "infinity" then Some(Infinite(negative))
    else if word == "nan" then Some(NaN)
    else
      match ParseDecimal(body)
      case None => None
      case Some(x) => Some(Finite(if negative then -x else x))
  }

  /** The canonical decimal text of a natural number. */
  function NatToString(n: nat): string {
    if n < 10 then [('0' as int + n) as char]
    else NatToString(n / 10) + [('0' as int + n % 10) as char]
  }

  /** The canonical decimal text of an integer, as Python's `str(n)` writes it. */
  function IntToString(n: int): string {
    if n < 0 then "-" + NatToString(-n) else NatToString(n)
  }

  lemma {:induction false} NatToStringDigits(n: nat)
    ensures IsDigitString(NatToString(n))
    ensures forall i :: 0 <= i < |NatToString(n)| ==> IsDigit(NatToString(n)[i])
    ensures DigitsValue(NatToString(n)) == n
  {
    if n >= 10 {
      NatToStringDigits(n / 10);
      var s := NatToString(n);
      assert s[..|s| - 1] == NatToString(n / 10);
    }
  }

  /**
   * Spaces, tabs, line breaks and Unicode spaces around a number do not
   * change what it converts to.
   */
  lemma {:induction false} ParseIgnoresSurroundingWhitespace(before: string, t: string, after: string)
    requires AllNumberSpace(before) && AllNumberSpace(after)
    requires NumberTrimmed(t)
    ensures ParseInt(before + t + after) == ParseInt(t)
    ensures ParseFloat(before + t + after) == ParseFloat(t)
  {
    NumberTextSurrounded(before, t, after);
    assert [] + t + [] == t;
    NumberTextSurrounded([], t, []);
    SameNumberTextSameValue(before + t + after, t);
  }

  /** Both conversions depend on nothing but the text they read. */
  lemma SameNumberTextSameValue(a: string, b: string)
    requires NumberText(a) == NumberText(b)
    ensures ParseInt(a) == ParseInt(b) && ParseFloat(a) == ParseFloat(b)
  {
  }

  /** The decimal text of `n` has at most `MaxStrDigits` digits, so `int` accepts it. */
  predicate WithinDigitLimit(n: int) {
    |NatToString(if n < 0 then -n else n)| <= MaxStrDigits
  }

  /** In a string of digits only, every character counts as a digit. */
  lemma {:induction false} DigitCountOfDigits(s: string)
    requires forall i :: 0 <= i < |s| ==> IsDigit(s[i])
    ensures DigitCount(s) == |s|
  {
    if s != [] {
      DigitCountOfDigits(s[..|s| - 1]);
    }
  }

  /**
   * `int` reads back every integer from its decimal text when that text is
   * within the digit limit, and rejects it otherwise.
   */
  lemma {:induction false} ParseIntRoundTrip(n: int)
    ensures ParseInt(IntToString(n)) == if WithinDigitLimit(n) then Some(n) else None
  {
    var digits := NatToString(if n < 0 then -n else n);
    IntTextParts(n);
    NatToStringDigits(if n < 0 then -n else n);
    DigitCountOfDigits(digits);
  }

  /** A conversion reads the decimal text of `n` whole, as its sign and the digits of `|n|`. */
  lemma {:induction false} IntTextParts(n: int)
    ensures NumberText(IntToString(n)) == IntToString(n)
    ensures SplitSign(IntToString(n)) == (n < 0, NatToString(if n < 0 then -n else n))
  {
    var s := IntToString(n);
    var digits := NatToString(if n < 0 then -n else n);
    NatToStringDigits(if n < 0 then -n else n);
    assert NumberTrimmed(s) by {
      assert IsDigit(digits[0]) && IsDigit(digits[|digits| - 1]);
    }
    assert [] + s + [] == s;
    NumberTextSurrounded([], s, []);
  }

  lemma {:induction false} DigitStringHasNoMarks(s: string, marks: set<char>)
    requires forall i :: 0 <= i < |s| ==> IsDigit(s[i]) || s[i] == '_'
    requires forall c :: c in marks ==> !IsDigit(c) && c != '_'
    ensures FirstIndex(s, marks) == |s|
  {
    if s != [] {
      DigitStringHasNoMarks(s[1..], marks);
    }
  }

  /** Every text `int` accepts is also a float text, denoting the same number. */
  lemma {:induction false} ParseIntAsFloat(s: string)
    requires ParseInt(s).Some?
    ensures ParseFloat(s) == Some(Finite(ParseInt(s).value as real))
  {
    var (negative, body) := SplitSign(NumberText(s));
    assert IsDigitString(body);
    assert LowerAscii(body)[0] == body[0];
    assert LowerAscii(body) != "inf" && LowerAscii(body) != "infinity" && LowerAscii(body) != "nan";
    DigitStringHasNoMarks(body, {'e', 'E'});
    DigitStringHasNoMarks(body, {'.'});
    assert body[..|body|] == body;
  }

  /** Blank text is neither an integer nor a float (`int('')` and `float('')` raise). */
  lemma {:induction false} BlankIsNotANumber(s: string)
    requires AllWhitespace(s)
    ensures ParseInt(s) == None && ParseFloat(s) == None
  {
    var t := NumberText(s);
    TrimNumberStartFacts(s);
    TrimNumberEndFacts(TrimNumberStart(s));
    if t == [] {
      assert LowerAscii([]) == [];
    } else {
      assert t[0] == s[|s| - |TrimNumberStart(s)|];
      assert IsWhitespace(t[0]);
      assert SplitSign(t) == (false, t);
      assert LowerAscii(t)[0] == t[0];
      var e := FirstIndex(t, {'e', 'E'});
      if e > 0 {
        var m := t[..e];
        assert m[0] == t[0];
        var d := FirstIndex(m, {'.'});
        assert d > 0;
        assert m[..d][0] == t[0];
      }
    }
  }

  /**
   * A separator control (U+001C to U+001F) is not skipped: a field ending in
   * one is not a number, although `str.strip()` would have removed it.
   */
  lemma {:induction false} SeparatorControlIsNotSpace(t: string, c: char)
    requires '\U{1c}' <= c <= '\U{1f}'
    ensures IsWhitespace(c)
    ensures ParseInt(t + [c]) == None
  {
    var s := t + [c];
    TrimNumberStartFacts(s);
    var u := TrimNumberStart(s);
    assert !IsNumberSpace(s[|s| - 1]);
    assert u != [] by { assert |s| > 0 && s[..|s|][|s| - 1] == s[|s| - 1]; }
    assert u[|u| - 1] == c;
    assert NumberText(s) == u;
    var (negative, digits) := SplitSign(u);
    assert digits == [] || digits[|digits| - 1] == c;
  }
}
