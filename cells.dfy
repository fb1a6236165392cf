/** Spreadsheet cell values as the loader sees them, and the Python
    conversions the loader applies to them: `int(float(v))`, `int(v)`,
    `str(v)`, `str.strip()` and truthiness. No floating point enters the
    model: a floating-point cell is represented by its truncation. */
module Cells {
  import opened Common

  /** A cell value read from a worksheet.
      - Empty: an empty cell (Python `None`);
      - IntC: an integer cell;
      - DecC: a floating-point cell; `whole` is its value truncated toward
        zero (the cell `10.0` is `DecC(10)`);
      - StrC: a text cell. */
  datatype Cell = Empty | IntC(i: int) | DecC(whole: int) | StrC(s: string)

  type Row = seq<Cell>
  type Sheet = seq<Row>

  // ---------------------------------------------------------------------
  // Characters, stripping

  /** The ASCII whitespace that `str.strip()` and `float()` ignore: tab,
      line feed, vertical tab, form feed, carriage return and space. */
  predicate IsSpace(c: char)
  {
    c == ' ' || ('\t' <= c <= '\r')
  }

  function TrimLeft(s: string): (r: string)
    ensures |r| <= |s| && r == s[|s| - |r|..]
    ensures |r| > 0 ==> !IsSpace(r[0])
    ensures forall i :: 0 <= i < |s| - |r| ==> IsSpace(s[i])
  {
    if |s| > 0 && IsSpace(s[0]) then TrimLeft(s[1..]) else s
  }

  function TrimRight(s: string): (r: string)
    ensures |r| <= |s| && r == s[..|r|]
    ensures |r| > 0 ==> !IsSpace(r[|r| - 1])
    ensures forall i :: |r| <= i < |s| ==> IsSpace(s[i])
  {
    if |s| > 0 && IsSpace(s[|s| - 1]) then TrimRight(s[..|s| - 1]) else s
  }

  /** Python's `s.strip()`. */
  function Strip(s: string): string
  {
    TrimRight(TrimLeft(s))
  }

  /** `Strip` leaves a string with no surrounding whitespace unchanged. */
  lemma StripUnpadded(s: string)
    requires |s| > 0 ==> !IsSpace(s[0]) && !IsSpace(s[|s| - 1])
    ensures Strip(s) == s
  {
  }

  // ---------------------------------------------------------------------
  // Decimal digits

  predicate IsDigit(c: char)
  {
    '0' <= c <= '9'
  }

  predicate AllDigits(s: string)
  {
    forall i :: 0 <= i < |s| ==> IsDigit(s[i])
  }

  function DigitValue(c: char): nat
    requires IsDigit(c)
  {
    (c as int) - ('0' as int)
  }

  function DigitChar(d: nat): (c: char)
    requires d < 10
    ensures IsDigit(c) && DigitValue(c) == d
  {
    (('0' as int) + d) as char
  }

  /** The number written by a string of decimal digits (0 for ""). */
  function DigitsValue(s: string): nat
    requires AllDigits(s)
  {
    if |s| == 0 then 0 else 10 * DigitsValue(s[..|s| - 1]) + DigitValue(s[|s| - 1])
  }

  /** Decimal notation of a natural number, without leading zeros. */
  function NatToString(n: nat): (r: string)
    ensures |r| > 0 && AllDigits(r)
  {
    (if n < 10 then "" else NatToString(n / 10)) + [DigitChar(n % 10)]
  }

  /** Python's `str(n)` for an integer. */
  function IntToString(n: int): string
  {
    if n < 0 then "-" + NatToString(-n) else NatToString(n)
  }

  lemma {:induction false} NatToStringValue(n: nat)
    ensures DigitsValue(NatToString(n)) == n
  {
    var s := NatToString(n);
    var prefix := if n < 10 then "" else NatToString(n / 10);
    var last := DigitChar(n % 10);
    assert s == prefix + [last];
    assert s[..|s| - 1] == prefix && s[|s| - 1] == last;
    assert DigitsValue(s) == 10 * DigitsValue(prefix) + n % 10;
    if n >= 10 {
      NatToStringValue(n / 10);
      assert DigitsValue(prefix) == n / 10;
    }
  }

  /** In a string that starts with digits, the first point comes after them. */
  lemma {:induction false} DotIndexAfterDigits(s: string, t: string)
    requires AllDigits(s)
    ensures DotIndex(s + t) == |s| + DotIndex(t)
  {
    if |s| > 0 {
      assert (s + t)[0] == s[0];
      assert (s + t)[1..] == s[1..] + t;
      DotIndexAfterDigits(s[1..], t);
    } else {
      assert s + t == t;
    }
  }

  // ---------------------------------------------------------------------
  // Number syntax accepted by Python's int() and float()

  /** Splits an optional leading sign off `t`: (is it negative, the rest). */
  function SplitSign(t: string): (bool, string)
  {
    if |t| > 0 && (t[0] == '+' || t[0] == '-') then (t[0] == '-', t[1..]) else (false, t)
  }

  /** Index of the first '.' of `s`, or |s| when there is none. */
  function DotIndex(s: string): (i: nat)
    ensures i <= |s|
    ensures i < |s| ==> s[i] == '.'
    ensures forall j :: 0 <= j < i ==> s[j] != '.'
  {
    if |s| == 0 then 0
    else if s[0] == '.' then 0
    else 1 + DotIndex(s[1..])
  }

  function Signed(negative: bool, n: nat): int
  {
    if negative then 0 - n else n
  }

  /** Python's `int(s)` for a string: surrounding whitespace, an optional
      sign, then one or more decimal digits; None where Python raises
      ValueError. */
  function ParseInteger(s: string): Option<int>
  {
    var (negative, body) := SplitSign(Strip(s));
    if |body| > 0 && AllDigits(body) then Some(Signed(negative, DigitsValue(body))) else None
  }

  /** Python's `int(float(s))` for a string: surrounding whitespace, an
      optional sign, digits with at most one decimal point and at least one
      digit; the result is truncated toward zero. None where Python raises
      ValueError. */
  function ParseDecimal(s: string): Option<int>
  {
    var (negative, body) := SplitSign(Strip(s));
    var dot := DotIndex(body);
    var whole := body[..dot];
    var fraction := if dot < |body| then body[dot + 1..] else "";
    if AllDigits(whole) && AllDigits(fraction) && |whole| + |fraction| > 0
    then Some(Signed(negative, DigitsValue(whole)))
    else None
  }

  // ---------------------------------------------------------------------
  // Conversions applied to cells

  /** `int(float(v))` on a cell value; None where Python raises ValueError
      or TypeError (the loader catches both). */
  function IntOfFloat(c: Cell): Option<int>
  {
    match c
    case Empty => None
    case IntC(n) => Some(n)
    case DecC(w) => Some(w)
    case StrC(s) => ParseDecimal(s)
  }

  /** `int(v)` on a cell value; None where Python raises. */
  function IntOf(c: Cell): Option<int>
  {
    match c
    case Empty => None
    case IntC(n) => Some(n)
    case DecC(w) => Some(w)
    case StrC(s) => ParseInteger(s)
  }

  /** `str(v)` on a cell value. */
  function CellStr(c: Cell): string
  {
    match c
    case Empty => "None"
    case IntC(n) => IntToString(n)
    case DecC(w) => IntToString(w) + ".0"
    case StrC(s) => s
  }

  /** Python truthiness of a cell value (`if v:`). */
  predicate Truthy(c: Cell)
  {
    match c
    case Empty => false
    case IntC(n) => n != 0
    case DecC(w) => w != 0
    case StrC(s) => s != ""
  }

  // ---------------------------------------------------------------------
  // Properties of the conversions

  lemma IntToStringShape(n: int)
    ensures |IntToString(n)| > 0
    ensures !IsSpace(IntToString(n)[0]) && !IsSpace(IntToString(n)[|IntToString(n)| - 1])
    ensures SplitSign(IntToString(n)) == (n < 0, NatToString(if n < 0 then -n else n))
  {
    var d := NatToString(if n < 0 then -n else n);
    assert IsDigit(d[0]) && IsDigit(d[|d| - 1]);
  }

  /** `int(str(n)) == n`. */
  lemma ParseIntegerOfIntToString(n: int)
    ensures ParseInteger(IntToString(n)) == Some(n)
  {
    IntToStringShape(n);
    StripUnpadded(IntToString(n));
    NatToStringValue(if n < 0 then -n else n);
  }

  /** `int(float(str(n))) == n`: the string "1" loads as the integer 1. */
  lemma ParseDecimalOfIntToString(n: int)
    ensures ParseDecimal(IntToString(n)) == Some(n)
  {
    var t := IntToString(n);
    IntToStringShape(n);
    StripUnpadded(t);
    var digits := NatToString(if n < 0 then -n else n);
    assert digits + "" == digits;
    ParseDecimalOfDigits(t, n < 0, digits, "");
    NatToStringValue(if n < 0 then -n else n);
  }

  /** `int(float(str(n) + ".0")) == n`: the text "10.0" loads as 10. */
  lemma ParseDecimalOfPointZero(n: int)
    ensures ParseDecimal(IntToString(n) + ".0") == Some(n)
  {
    var t := IntToString(n) + ".0";
    IntToStringShape(n);
    StripUnpadded(t);
    var digits := NatToString(if n < 0 then -n else n);
    SplitSignAppend(IntToString(n), ".0");
    ParseDecimalOfDigits(t, n < 0, digits, ".0");
    NatToStringValue(if n < 0 then -n else n);
  }

  /** Text appended after a non-empty string does not change its sign. */
  lemma SplitSignAppend(t: string, u: string)
    requires |t| > 0
    ensures SplitSign(t + u) == (SplitSign(t).0, SplitSign(t).1 + u)
  {
    assert (t + u)[0] == t[0];
    assert (t + u)[1..] == t[1..] + u;
  }

  /** An unpadded text of a sign, digits and an optional ".0" reads as the
      signed value of the digits. */
  lemma ParseDecimalOfDigits(t: string, negative: bool, digits: string, fraction: string)
    requires Strip(t) == t && SplitSign(t) == (negative, digits + fraction)
    requires |digits| > 0 && AllDigits(digits)
    requires fraction == "" || fraction == ".0"
    ensures ParseDecimal(t) == Some(Signed(negative, DigitsValue(digits)))
  {
    var body := digits + fraction;
    DotIndexAfterDigits(digits, fraction);
    assert DotIndex(fraction) == 0;
    assert body[..|digits|] == digits;
    if fraction == ".0" {
      assert body[|digits| + 1..] == "0";
    }
  }

  /** `int(str(n) + ".0")` raises ValueError: `int()` accepts no point. */
  lemma ParseIntegerRejectsPoint(n: int)
    ensures ParseInteger(IntToString(n) + ".0") == None
  {
    var t := IntToString(n) + ".0";
    IntToStringShape(n);
    StripUnpadded(t);
    var digits := NatToString(if n < 0 then -n else n);
    var body := digits + ".0";
    SplitSignAppend(IntToString(n), ".0");
    assert !IsDigit(body[|digits|]);
  }

  /** Whatever `int()` accepts, `int(float())` accepts with the same result. */
  lemma IntOfAgreesWithIntOfFloat(c: Cell)
    requires IntOf(c).Some?
    ensures IntOfFloat(c) == IntOf(c)
  {
    if c.StrC? {
      var (negative, body) := SplitSign(Strip(c.s));
      DotIndexAfterDigits(body, "");
      assert body + "" == body;
      assert body[..|body|] == body;
    }
  }

  /** A blank or empty cell is never a number. */
  lemma BlankIsNotANumber(s: string)
    requires Strip(s) == ""
    ensures ParseDecimal(s) == None && ParseInteger(s) == None
  {
  }
}
