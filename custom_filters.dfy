/**
 * The `abs_val` template filter: the absolute value of the value converted
 * to an integer, or the value itself when the conversion raises a
 * `TypeError` or a `ValueError`.
 *
 * Template values are modelled by `Value`; the integer conversion follows
 * Python's `int(...)` on each kind: booleans are 0 and 1, decimals are
 * truncated toward zero, and text is parsed as a base-10 literal with
 * surrounding whitespace, an optional sign and single underscores between
 * digits.
 */
module CustomFilters {
  import opened Wrappers
  import Digits

  /** A value a template may pass to the filter; a `Decimal` is held in hundredths. */
  datatype Value =
    | NoneValue
    | Bool(b: bool)
    | Int(i: int)
    | Decimal(cents: int)
    | Text(s: string)
    | Other

  function Abs(n: int): (r: nat)
    ensures r == n || r == -n
  {
    if n < 0 then -n else n
  }

  // ---------------------------------------------------------------------------
  // int(...) on text
  // ---------------------------------------------------------------------------

  /** The characters `int(...)` skips around a literal: Python's whitespace. */
  predicate IsPyWhitespace(c: char) {
    || '\U{0009}' <= c <= '\U{000D}'
    || '\U{001C}' <= c <= '\U{0020}'
    || c == '\U{0085}' || c == '\U{00A0}' || c == '\U{1680}'
    || '\U{2000}' <= c <= '\U{200A}'
    || c == '\U{2028}' || c == '\U{2029}' || c == '\U{202F}' || c == '\U{205F}' || c == '\U{3000}'
  }

  predicate AllWhitespace(s: string) {
    forall i :: 0 <= i < |s| ==> IsPyWhitespace(s[i])
  }

  /** `s` without its leading whitespace. */
  function StripLeft(s: string): (r: string)
    ensures |r| <= |s| && r == s[|s| - |r|..]
    ensures forall i :: 0 <= i < |s| - |r| ==> IsPyWhitespace(s[i])
    ensures r == [] || !IsPyWhitespace(r[0])
    decreases |s|
  {
    if s != [] && IsPyWhitespace(s[0]) then
      var r := StripLeft(s[1..]);
      assert s[1..][|s[1..]| - |r|..] == s[|s| - |r|..];
      r
    else s
  }

  /** `s` without its trailing whitespace. */
  function StripRight(s: string): (r: string)
    ensures |r| <= |s| && r == s[..|r|]
    ensures forall i :: |r| <= i < |s| ==> IsPyWhitespace(s[i])
    ensures r == [] || !IsPyWhitespace(r[|r| - 1])
    decreases |s|
  {
    if s != [] && IsPyWhitespace(s[|s| - 1]) then
      StripRight(s[..|s| - 1])
    else s
  }

  function Strip(s: string): string {
    StripRight(StripLeft(s))
  }

  /** A digit run as `int(...)` accepts it: digits, with single underscores only between two digits. */
  predicate WellFormedDigits(s: string) {
    && |s| > 0
    && Digits.IsDigit(s[0])
    && Digits.IsDigit(s[|s| - 1])
    && DigitsOrUnderscores(s)
    && (forall i :: 0 <= i < |s| - 1 ==> !(s[i] == '_' && s[i + 1] == '_'))
  }

  predicate DigitsOrUnderscores(s: string) {
    forall i :: 0 <= i < |s| ==> Digits.IsDigit(s[i]) || s[i] == '_'
  }

  /** The number the digits of `s` spell, underscores skipped. */
  function DigitsValue(s: string): nat
    requires DigitsOrUnderscores(s)
    decreases |s|
  {
    if s == [] then 0
    else if s[|s| - 1] == '_' then DigitsValue(s[..|s| - 1])
    else 10 * DigitsValue(s[..|s| - 1]) + Digits.DigitValue(s[|s| - 1])
  }

  /** The number of digits in `s`, underscores not counted. */
  function DigitCount(s: string): (n: nat)
    ensures n <= |s|
    decreases |s|
  {
    if s == [] then 0 else DigitCount(s[..|s| - 1]) + (if s[|s| - 1] == '_' then 0 else 1)
  }

  /**
   * The most digits the interpreter converts from text by default
   * (`sys.get_int_max_str_digits()`); a longer literal is a `ValueError`.
   */
  const MaxStrDigits: nat := 4300

  /** A run of digits as `int(...)` reads it, or `None` where it raises `ValueError`. */
  function ParseDigits(body: string): Option<nat> {
    if WellFormedDigits(body) && DigitCount(body) <= MaxStrDigits then Some(DigitsValue(body)) else None
  }

  /** Stripped text: an optional sign, then the digits. */
  function ParseStripped(t: string): Option<int> {
    if |t| > 0 && (t[0] == '-' || t[0] == '+') then
      match ParseDigits(t[1..])
      case Some(v) => Some(if t[0] == '-' then -(v as int) else v)
      case None => None
    else
      match ParseDigits(t)
      case Some(v) => Some(v)
      case None => None
  }

  /** `int(s)` for a string: the value, or `None` where Python raises `ValueError`. */
  function ParseInt(s: string): Option<int> {
    ParseStripped(Strip(s))
  }

  /** `str(n)`: an optional minus sign and the digits of the magnitude. */
  function IntToString(n: int): string {
    if n < 0 then "-" + Digits.NatToString(-n) else Digits.NatToString(n)
  }

  // ---------------------------------------------------------------------------
  // The filter
  // ---------------------------------------------------------------------------

  /** `int(d)` for a decimal `d`: truncation toward zero. */
  function TruncateCents(cents: int): (n: int)
    ensures cents >= 0 ==> 0 <= 100 * n <= cents < 100 * n + 100
    ensures cents < 0 ==> 100 * n - 100 < cents <= 100 * n <= 0
  {
    if cents >= 0 then cents / 100 else -((-cents) / 100)
  }

  /** `int(value)`: the integer, or `None` where Python raises `TypeError` or `ValueError`. */
  function ToInt(v: Value): Option<int> {
    match v
    case NoneValue => None
    case Bool(b) => Some(if b then 1 else 0)
    case Int(i) => Some(i)
    case Decimal(c) => Some(TruncateCents(c))
    case Text(s) => ParseInt(s)
    case Other => None
  }

  /** `abs_val(value)`. */
  function AbsVal(v: Value): Value {
    match ToInt(v)
    case Some(n) => Int(Abs(n))
    case None => v
  }

  // ---------------------------------------------------------------------------
  // Properties
  // ---------------------------------------------------------------------------

  /** A convertible value becomes the non-negative magnitude of its integer; any other comes back unchanged. */
  lemma AbsValResult(v: Value)
    ensures ToInt(v).Some? ==>
      AbsVal(v).Int? && AbsVal(v).i >= 0 && (AbsVal(v).i == ToInt(v).value || AbsVal(v).i == -ToInt(v).value)
    ensures ToInt(v).None? ==> AbsVal(v) == v
  {
  }

  /** Negating an integer or a decimal does not change the filter's result. */
  lemma AbsValNegation(n: int)
    ensures AbsVal(Int(-n)) == AbsVal(Int(n))
    ensures AbsVal(Decimal(-n)) == AbsVal(Decimal(n))
  {
  }

  /** Applying the filter twice is applying it once. */
  lemma AbsValIdempotent(v: Value)
    ensures AbsVal(AbsVal(v)) == AbsVal(v)
  {
  }

  /** The value of a decimal rendering is the number rendered. */
  lemma {:induction false} NatToStringDigits(n: nat)
    ensures DigitsOrUnderscores(Digits.NatToString(n))
    ensures WellFormedDigits(Digits.NatToString(n))
    ensures DigitsValue(Digits.NatToString(n)) == n
    ensures DigitCount(Digits.NatToString(n)) == |Digits.NatToString(n)|
    decreases n
  {
    var s := Digits.NatToString(n);
    if n >= 10 {
      NatToStringDigits(n / 10);
      assert s[..|s| - 1] == Digits.NatToString(n / 10);
    }
  }

  /** Leading whitespace is skipped up to the first other character. */
  lemma {:induction false} StripLeftWhitespace(ws: string, t: string)
    requires AllWhitespace(ws)
    requires t == [] || !IsPyWhitespace(t[0])
    ensures StripLeft(ws + t) == t
    decreases |ws|
  {
    if ws == [] {
      assert ws + t == t;
    } else {
      assert (ws + t)[1..] == ws[1..] + t;
      StripLeftWhitespace(ws[1..], t);
    }
  }

  /** Trailing whitespace is skipped back to the last other character. */
  lemma {:induction false} StripRightWhitespace(t: string, ws: string)
    requires AllWhitespace(ws)
    requires t == [] || !IsPyWhitespace(t[|t| - 1])
    ensures StripRight(t + ws) == t
    decreases |ws|
  {
    if ws == [] {
      assert t + ws == t;
    } else {
      var init := ws[..|ws| - 1];
      assert (t + ws)[..|t + ws| - 1] == t + init;
      StripRightWhitespace(t, init);
    }
  }

  /** `int(...)` on stripped text reads the sign and the digits. */
  lemma ParseSigned(digits: string, negative: bool)
    requires WellFormedDigits(digits) && DigitsOrUnderscores(digits) && DigitCount(digits) <= MaxStrDigits
    ensures ParseStripped((if negative then "-" else "") + digits)
         == Some(if negative then -(DigitsValue(digits) as int) else DigitsValue(digits))
  {
    var t := (if negative then "-" else "") + digits;
    if negative {
      assert t[0] == '-' && t[1..] == digits;
    } else {
      assert t == digits && Digits.IsDigit(t[0]);
    }
  }

  /** Whitespace around text with non-whitespace ends is stripped away. */
  lemma StripAround(before: string, text: string, after: string)
    requires AllWhitespace(before) && AllWhitespace(after)
    requires |text| > 0 && !IsPyWhitespace(text[0]) && !IsPyWhitespace(text[|text| - 1])
    ensures Strip(before + text + after) == text
  {
    assert before + text + after == before + (text + after);
    StripLeftWhitespace(before, text + after);
    StripRightWhitespace(text, after);
  }

  /** The stripped text of an integer reads back as that integer. */
  lemma ParseIntText(n: int)
    requires |Digits.NatToString(Abs(n))| <= MaxStrDigits
    ensures ParseStripped(IntToString(n)) == Some(n)
  {
    var digits := Digits.NatToString(Abs(n));
    assert IntToString(n) == (if n < 0 then "-" else "") + digits;
    NatToStringDigits(Abs(n));
    ParseSigned(digits, n < 0);
  }

  /** `int(str(n))` is `n`, with any whitespace around the text. */
  lemma ParseIntRoundTrip(n: int, before: string, after: string)
    requires AllWhitespace(before) && AllWhitespace(after)
    requires |Digits.NatToString(Abs(n))| <= MaxStrDigits
    ensures ParseInt(before + IntToString(n) + after) == Some(n)
  {
    var text := IntToString(n);
    assert Digits.IsDigit(Digits.NatToString(Abs(n))[0]);
    assert !IsPyWhitespace(text[0]) && !IsPyWhitespace(text[|text| - 1]);
    StripAround(before, text, after);
    ParseIntText(n);
  }

  /** Text whose ends are not whitespace is left as it is by stripping. */
  lemma StripUnchanged(t: string)
    requires t == [] || (!IsPyWhitespace(t[0]) && !IsPyWhitespace(t[|t| - 1]))
    ensures Strip(t) == t
  {
  }

  /** The filter on the text of an integer is that integer's magnitude. */
  lemma AbsValOfIntText(n: int)
    requires |Digits.NatToString(Abs(n))| <= MaxStrDigits
    ensures AbsVal(Text(IntToString(n))) == Int(Abs(n))
  {
    var text := IntToString(n);
    assert Digits.IsDigit(Digits.NatToString(Abs(n))[0]);
    StripUnchanged(text);
    ParseIntText(n);
  }

  /** Values `int(...)` cannot convert come back unchanged. */
  lemma AbsValKeepsUnconvertible()
    ensures AbsVal(NoneValue) == NoneValue
    ensures AbsVal(Other) == Other
  {
  }

  /** Booleans and decimals convert as `int(...)` converts them. */
  lemma AbsValConvertsBoolAndDecimal()
    ensures AbsVal(Bool(true)) == Int(1)
    ensures AbsVal(Bool(false)) == Int(0)
    ensures AbsVal(Decimal(-250)) == Int(2)
    ensures AbsVal(Decimal(-99)) == Int(0)
  {
  }

  /** Empty or all-whitespace text comes back unchanged. */
  lemma AbsValKeepsBlankText(s: string)
    requires AllWhitespace(s)
    ensures AbsVal(Text(s)) == Text(s)
  {
    assert s + [] == s;
    StripLeftWhitespace(s, []);
  }

  /** A stripped literal holding a character other than a digit or an underscore, sign aside, is rejected. */
  lemma AbsValKeepsStrayCharacter(s: string, i: int)
    requires 0 <= i < |Strip(s)|
    requires !Digits.IsDigit(Strip(s)[i]) && Strip(s)[i] != '_'
    requires i == 0 ==> Strip(s)[0] != '-' && Strip(s)[0] != '+'
    ensures AbsVal(Text(s)) == Text(s)
  {
    var t := Strip(s);
    if t[0] == '-' || t[0] == '+' {
      assert t[1..][i - 1] == t[i];
    }
  }

  /** An underscore first or last among the digits, or next to another underscore, is rejected. */
  lemma MisplacedUnderscoreRejected(t: string, i: int)
    requires 0 <= i < |t| && t[i] == '_'
    requires i == 0 || i == |t| - 1 || t[i + 1] == '_' || t[i - 1] == '-' || t[i - 1] == '+'
    ensures ParseStripped(t) == None
  {
    if t[0] == '-' || t[0] == '+' {
      var body := t[1..];
      assert body[i - 1] == '_';
      if i + 1 < |t| {
        assert body[i] == t[i + 1];
      }
      if i >= 2 {
        assert body[i - 2] == t[i - 1];
      }
    }
  }

  lemma AbsValKeepsMisplacedUnderscore(s: string, i: int)
    requires 0 <= i < |Strip(s)| && Strip(s)[i] == '_'
    requires || i == 0 || i == |Strip(s)| - 1 || Strip(s)[i + 1] == '_'
             || Strip(s)[i - 1] == '-' || Strip(s)[i - 1] == '+'
    ensures AbsVal(Text(s)) == Text(s)
  {
    MisplacedUnderscoreRejected(Strip(s), i);
  }

  /** A signed digit run keeps its sign and digits when the whitespace around it is stripped. */
  lemma StripSignedText(before: string, sign: string, digits: string, after: string)
    requires AllWhitespace(before) && AllWhitespace(after)
    requires sign == "" || sign == "-"
    requires WellFormedDigits(digits)
    ensures Strip(before + sign + digits + after) == sign + digits
  {
    var text := sign + digits;
    assert text[0] == (if sign == "" then digits[0] else '-');
    assert text[|text| - 1] == digits[|digits| - 1];
    assert before + sign + digits == before + text by {
      assert (before + sign) + digits == before + (sign + digits);
    }
    StripAround(before, text, after);
  }

  /** Surrounding whitespace and a sign are accepted around digits with single underscores. */
  lemma AbsValOfSignedText(before: string, negative: bool, digits: string, after: string)
    requires AllWhitespace(before) && AllWhitespace(after)
    requires WellFormedDigits(digits) && DigitCount(digits) <= MaxStrDigits
    ensures AbsVal(Text(before + (if negative then "-" else "") + digits + after)) == Int(DigitsValue(digits))
  {
    var sign := if negative then "-" else "";
    var v := if negative then -(DigitsValue(digits) as int) else DigitsValue(digits);
    ParseSigned(digits, negative);
    StripSignedText(before, sign, digits, after);
    assert Abs(v) == DigitsValue(digits);
  }

  /** An underscore among the digits adds nothing to their value or their count. */
  lemma {:induction false} UnderscoreSkipped(a: string, b: string)
    requires DigitsOrUnderscores(a) && DigitsOrUnderscores(b)
    ensures DigitsOrUnderscores(a + "_" + b) && DigitsOrUnderscores(a + b)
    ensures DigitsValue(a + "_" + b) == DigitsValue(a + b)
    ensures DigitCount(a + "_" + b) == DigitCount(a + b)
    decreases |b|
  {
    var u := a + "_" + b;
    assert DigitsOrUnderscores(u) by {
      forall i | 0 <= i < |u| ensures Digits.IsDigit(u[i]) || u[i] == '_' {
        if i < |a| { assert u[i] == a[i]; } else if i > |a| { assert u[i] == b[i - |a| - 1]; }
      }
    }
    assert DigitsOrUnderscores(a + b) by {
      forall i | 0 <= i < |a + b| ensures Digits.IsDigit((a + b)[i]) || (a + b)[i] == '_' {
        if i < |a| { assert (a + b)[i] == a[i]; } else { assert (a + b)[i] == b[i - |a|]; }
      }
    }
    if b == [] {
      assert u[..|u| - 1] == a && a + b == a;
    } else {
      var init := b[..|b| - 1];
      assert DigitsOrUnderscores(init);
      assert u[..|u| - 1] == a + "_" + init;
      assert (a + b)[..|a + b| - 1] == a + init;
      UnderscoreSkipped(a, init);
    }
  }

  /** Two well-formed digit runs joined by one underscore form a well-formed run. */
  lemma UnderscoreJoin(a: string, b: string)
    requires WellFormedDigits(a) && WellFormedDigits(b)
    ensures WellFormedDigits(a + "_" + b)
  {
    var u := a + "_" + b;
    UnderscoreSkipped(a, b);
    forall i | 0 <= i < |u| - 1 ensures !(u[i] == '_' && u[i + 1] == '_') {
      if i + 1 < |a| {
        assert u[i] == a[i] && u[i + 1] == a[i + 1];
      } else if i + 1 == |a| {
        assert u[i] == a[|a| - 1];
      } else if i == |a| {
        assert u[i + 1] == b[0];
      } else {
        assert u[i] == b[i - |a| - 1] && u[i + 1] == b[i - |a|];
      }
    }
    assert u[|u| - 1] == b[|b| - 1];
  }
}
