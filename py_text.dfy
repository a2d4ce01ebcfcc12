// The three Python built-ins the database facade leans on to move values
// through text: `str(int)` (what a stored value becomes), and `int(s)` and
// `float(s)` (how `DBDB.get` turns stored text back into numbers), plus
// `int(x)` on a float, which truncates toward zero.
module PyText {
  import opened Results

  predicate IsDigit(c: char) { '0' <= c <= '9' }

  predicate AllDigits(s: string) { forall i | 0 <= i < |s| :: IsDigit(s[i]) }

  /** The characters Python counts as whitespace (`str.isspace()`), which
      `int()` and `float()` ignore around a number: the ASCII ones, the
      separators U+001C to U+001F, and the Unicode spaces and line and
      paragraph separators. */
  predicate IsSpace(c: char) {
    c == ' ' || c == '\t' || c == '\n' || c == '\r' || c == '\U{000B}' || c == '\U{000C}'
    || ('\U{001C}' <= c <= '\U{001F}')
    || c == '\U{0085}' || c == '\U{00A0}' || c == '\U{1680}'
    || ('\U{2000}' <= c <= '\U{200A}')
    || c == '\U{2028}' || c == '\U{2029}' || c == '\U{202F}' || c == '\U{205F}' || c == '\U{3000}'
  }

  function DigitChar(d: nat): (c: char)
    requires d < 10
    ensures IsDigit(c) && c as int - '0' as int == d
  {
    ('0' as int + d) as char
  }

  function DigitsValue(s: string): nat
    requires AllDigits(s)
  {
    if s == [] then 0 else DigitsValue(s[..|s| - 1]) * 10 + (s[|s| - 1] as int - '0' as int)
  }

  /** Decimal digits of `n`, no leading zeros. */
  function ShowNat(n: nat): (s: string)
    ensures |s| >= 1 && AllDigits(s)
  {
    if n < 10 then [DigitChar(n)] else ShowNat(n / 10) + [DigitChar(n % 10)]
  }

  /** `str(i)` for a Python int. */
  function ShowInt(i: int): (s: string)
    ensures |s| >= 1 && IsDigit(s[|s| - 1])
    ensures s[0] == '-' || IsDigit(s[0])
  {
    if i < 0 then "-" + ShowNat(-i) else ShowNat(i)
  }

  function StripLeft(s: string): (t: string)
    ensures t == [] || !IsSpace(t[0])
    ensures |t| <= |s| && t == s[|s| - |t|..]
  {
    if s != [] && IsSpace(s[0]) then StripLeft(s[1..]) else s
  }

  function StripRight(s: string): (t: string)
    ensures t == [] || !IsSpace(t[|t| - 1])
    ensures |t| <= |s| && t == s[..|t|]
  {
    if s != [] && IsSpace(s[|s| - 1]) then StripRight(s[..|s| - 1]) else s
  }

  /** `s.strip()`: surrounding whitespace removed, which `int()` and
      `float()` ignore. */
  function Strip(s: string): string { StripRight(StripLeft(s)) }

  /** Splits an optional leading sign off: (is it negative, the rest). */
  function SplitSign(t: string): (bool, string)
  {
    if |t| > 0 && (t[0] == '-' || t[0] == '+') then (t[0] == '-', t[1..]) else (false, t)
  }

  function Signed(negative: bool, x: int): int { if negative then -x else x }

  /** `int(s)` on a str: optional surrounding whitespace, an optional sign and
      at least one decimal digit; anything else is the ValueError, `None`. */
  function ParseInt(s: string): (r: Option<int>)
    ensures r.Some? ==> exists i :: 0 <= i < |s| && IsDigit(s[i])
  {
    var (negative, body) := SplitSign(Strip(s));
    if |body| > 0 && AllDigits(body) then
      assert IsDigit(Strip(s)[|Strip(s)| - |body|]);
      Some(Signed(negative, DigitsValue(body)))
    else None
  }

  function Pow10(n: nat): (p: nat)
    ensures p >= 1
  {
    if n == 0 then 1 else 10 * Pow10(n - 1)
  }

  /** Index of the first character satisfying the test, or |s| when none does. */
  function FirstIndex(s: string, isMark: char -> bool): (k: nat)
    ensures k <= |s|
    ensures forall i | 0 <= i < k :: !isMark(s[i])
    ensures k < |s| ==> isMark(s[k])
  {
    if s == [] then 0 else if isMark(s[0]) then 0 else 1 + FirstIndex(s[1..], isMark)
  }

  predicate IsExponentMark(c: char) { c == 'e' || c == 'E' }

  predicate IsPoint(c: char) { c == '.' }

  /** Value of `ddd.fff` as an exact rational, or `None` when it is not one. */
  function ParseMantissa(m: string): Option<real>
  {
    var dot := FirstIndex(m, IsPoint);
    var whole := m[..dot];
    var frac := if dot < |m| then m[dot + 1..] else [];
    if AllDigits(whole) && AllDigits(frac) && |whole| + |frac| >= 1 then
      Some((DigitsValue(whole) * Pow10(|frac|) + DigitsValue(frac)) as real / Pow10(|frac|) as real)
    else None
  }

  function ParseExponent(e: string): Option<int>
  {
    var (negative, digits) := SplitSign(e);
    if |digits| > 0 && AllDigits(digits) then Some(Signed(negative, DigitsValue(digits))) else None
  }

  function Scale(m: real, e: int): real
  {
    if e >= 0 then m * Pow10(e) as real else m / Pow10(-e) as real
  }

  /** `float(s)` on a str, for the decimal forms: whitespace, a sign, digits
      with at most one point and at least one digit, an optional exponent.
      The value is the exact rational the text denotes. */
  function ParseFloat(s: string): (r: Option<real>)
    ensures r.Some? ==> exists i :: 0 <= i < |s| && IsDigit(s[i])
  {
    var (negative, body) := SplitSign(Strip(s));
    var e := FirstIndex(body, IsExponentMark);
    var mantissa := ParseMantissa(body[..e]);
    var exponent := if e < |body| then ParseExponent(body[e + 1..]) else Some(0);
    if mantissa.Some? && exponent.Some? then
      var x := Scale(mantissa.value, exponent.value);
      TextHasDigit(s, e);
      Some(if negative then -x else x)
    else None
  }

  /** A text whose unsigned part begins with a mantissa `float()` accepts
      holds a digit. */
  lemma TextHasDigit(s: string, e: nat)
    requires e <= |SplitSign(Strip(s)).1| && ParseMantissa(SplitSign(Strip(s)).1[..e]).Some?
    ensures exists i :: 0 <= i < |s| && IsDigit(s[i])
  {
    var left := StripLeft(s);
    var stripped := StripRight(left);
    var body := SplitSign(stripped).1;
    MantissaHasDigit(body[..e]);
    var k :| 0 <= k < e && IsDigit(body[..e][k]);
    var j := |stripped| - |body| + k;
    assert body[k] == stripped[j];
    assert stripped[j] == left[j];
    assert left[j] == s[|s| - |left| + j];
  }

  /** A mantissa `float()` accepts holds a digit. */
  lemma MantissaHasDigit(m: string)
    requires ParseMantissa(m).Some?
    ensures exists k :: 0 <= k < |m| && IsDigit(m[k])
  {
    var dot := FirstIndex(m, IsPoint);
    if dot > 0 {
      assert IsDigit(m[..dot][0]);
    } else {
      assert IsDigit(m[dot + 1..][0]);
    }
  }

  /** `int(x)` for a float: rounds toward zero. */
  function Trunc(x: real): (n: int)
    ensures 0.0 <= x ==> 0 <= n && n as real <= x < n as real + 1.0
    ensures x < 0.0 ==> n <= 0 && n as real - 1.0 < x <= n as real
  {
    if x >= 0.0 then x.Floor else -((-x).Floor)
  }

  lemma {:induction false} DigitsValueOfShowNat(n: nat)
    ensures DigitsValue(ShowNat(n)) == n
  {
    if n >= 10 {
      var s := ShowNat(n);
      assert s[..|s| - 1] == ShowNat(n / 10);
      DigitsValueOfShowNat(n / 10);
    }
  }

  lemma StripUnpadded(s: string)
    requires s != [] && !IsSpace(s[0]) && !IsSpace(s[|s| - 1])
    ensures Strip(s) == s
  {
  }

  /** A sign followed by digits has no surrounding whitespace and splits
      back into that sign and those digits. */
  lemma SignedDigitsShape(s: string, negative: bool, digits: string)
    requires |digits| > 0 && AllDigits(digits)
    requires s == (if negative then "-" else "") + digits
    ensures Strip(s) == s && SplitSign(s) == (negative, digits)
  {
    var last := digits[|digits| - 1];
    assert IsDigit(last) && !IsSpace(last);
    if negative {
      assert s == ['-'] + digits;
      assert s[0] == '-' && s[|s| - 1] == last;
      assert s[1..] == digits;
    } else {
      assert s == digits;
      assert IsDigit(s[0]) && !IsSpace(s[0]);
    }
    StripUnpadded(s);
  }

  /** A stripped signed run of digits reads as its value. */
  lemma ParseSignedDigits(s: string, negative: bool, digits: string)
    requires |digits| > 0 && AllDigits(digits)
    requires Strip(s) == s && SplitSign(s) == (negative, digits)
    ensures ParseInt(s) == Some(Signed(negative, DigitsValue(digits)))
  {
  }

  /** What `str` writes for an int, `int` reads back: the text stored for an
      int value comes back as the same int. */
  lemma ParseShowInt(i: int)
    ensures ParseInt(ShowInt(i)) == Some(i)
  {
    var n: nat := if i < 0 then -i else i;
    DigitsValueOfShowNat(n);
    SignedDigitsShape(ShowInt(i), i < 0, ShowNat(n));
    ParseSignedDigits(ShowInt(i), i < 0, ShowNat(n));
  }

  lemma {:induction false} FirstIndexNone(s: string, isMark: char -> bool)
    requires forall i | 0 <= i < |s| :: !isMark(s[i])
    ensures FirstIndex(s, isMark) == |s|
  {
    if s != [] {
      FirstIndexNone(s[1..], isMark);
    }
  }

  /** `float` accepts every text `int` accepts, with the same value. This is
      why `DBDB.get` tries `int` first: a stored "42" comes back as an int. */
  lemma ParseFloatExtendsParseInt(s: string)
    requires ParseInt(s).Some?
    ensures ParseFloat(s) == Some(ParseInt(s).value as real)
  {
    var (negative, body) := SplitSign(Strip(s));
    assert |body| > 0 && AllDigits(body);
    FirstIndexNone(body, IsExponentMark);
    FirstIndexNone(body, IsPoint);
    assert body[..|body|] == body;
    assert ParseMantissa(body) == Some(DigitsValue(body) as real);
    assert Scale(DigitsValue(body) as real, 0) == DigitsValue(body) as real;
  }

  /** A nonempty text of digits and points has no padding, no sign and no
      exponent mark. */
  lemma PlainNumeralIsBare(s: string)
    requires |s| > 0 && forall i | 0 <= i < |s| :: IsDigit(s[i]) || IsPoint(s[i])
    ensures SplitSign(Strip(s)) == (false, s)
    ensures FirstIndex(s, IsExponentMark) == |s|
  {
    StripUnpadded(s);
    FirstIndexNone(s, IsExponentMark);
  }

  /** A text whose stripped, unsigned body is a mantissa with no exponent
      reads as that mantissa's value. */
  lemma ParseFloatPlain(s: string, x: real)
    requires !SplitSign(Strip(s)).0
    requires FirstIndex(SplitSign(Strip(s)).1, IsExponentMark) == |SplitSign(Strip(s)).1|
    requires ParseMantissa(SplitSign(Strip(s)).1) == Some(x)
    ensures ParseFloat(s) == Some(x)
  {
    var body := SplitSign(Strip(s)).1;
    assert body[..|body|] == body;
    ScaleZero(x);
  }

  lemma ScaleZero(x: real)
    ensures Scale(x, 0) == x
  {
    assert Pow10(0) == 1;
  }

  /** A text with a decimal point is never an int: `int("42.5")` fails. */
  lemma PointIsNotInt(s: string, k: nat)
    requires k < |s| && s[k] == '.'
    requires forall i | 0 <= i < |s| :: !IsSpace(s[i])
    ensures ParseInt(s) == None
  {
    assert StripLeft(s) == s;
    assert StripRight(s) == s;
    var body := SplitSign(s).1;
    var j := if |s| > 0 && (s[0] == '-' || s[0] == '+') then k - 1 else k;
    assert 0 <= j < |body| && body[j] == '.';
    assert !AllDigits(body);
  }
}
