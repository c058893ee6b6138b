/**
 * The textual number formats the server relies on: `to_string()` of an
 * unsigned integer (status codes, `Content-Length`, error messages), Rust's
 * `str::parse::<i32>()` (path extraction), and `String::len()`, which is a
 * UTF-8 byte count.
 */
module Numbers {
  import opened Wrappers

  const I32Min: int := -0x8000_0000
  const I32Max: int := 0x7fff_ffff

  predicate InI32(x: int) {
    I32Min <= x <= I32Max
  }

  predicate IsDigit(c: char) {
    '0' <= c <= '9'
  }

  predicate AllDigits(s: string) {
    forall i :: 0 <= i < |s| ==> IsDigit(s[i])
  }

  function DigitChar(d: nat): (c: char)
    requires d < 10
    ensures IsDigit(c)
  {
    ('0' as int + d) as char
  }

  function DigitValue(c: char): (d: nat)
    requires IsDigit(c)
    ensures d < 10
  {
    c as int - '0' as int
  }

  /** The value of a string of decimal digits, most significant first. */
  function DigitsValue(s: string): nat
    requires AllDigits(s)
    decreases |s|
  {
    if |s| == 0 then 0 else DigitsValue(s[..|s| - 1]) * 10 + DigitValue(s[|s| - 1])
  }

  /** `n.to_string()` for an unsigned integer: its shortest decimal spelling. */
  function NatToString(n: nat): (r: string)
    ensures |r| >= 1 && AllDigits(r)
    ensures r[0] != '0' || n == 0
    ensures DigitsValue(r) == n
    decreases n
  {
    if n < 10 then [DigitChar(n)]
    else
      var prefix := NatToString(n / 10);
      var r := prefix + [DigitChar(n % 10)];
      assert r[..|r| - 1] == prefix;
      r
  }

  /** `x.to_string()` for a signed integer. */
  function IntToString(x: int): string {
    if x < 0 then "-" + NatToString(-x) else NatToString(x)
  }

  /**
   * `s.parse::<i32>()`: an optional `+` or `-`, then one or more decimal
   * digits, and a value inside the `i32` range; anything else is an error.
   */
  function ParseI32(s: string): (r: Option<int>)
    ensures r.Some? ==> InI32(r.value)
  {
    var signed := |s| > 0 && (s[0] == '+' || s[0] == '-');
    var digits := if signed then s[1..] else s;
    if |digits| == 0 || !AllDigits(digits) then None
    else
      var magnitude: int := DigitsValue(digits);
      var v: int := if signed && s[0] == '-' then -magnitude else magnitude;
      if InI32(v) then Some(v) else None
  }

  /** Printing an `i32` and parsing it back gives the same number. */
  lemma ParseI32OfIntToString(x: int)
    requires InI32(x)
    ensures ParseI32(IntToString(x)) == Some(x)
  {
    if x < 0 {
      var s := IntToString(x);
      assert s[1..] == NatToString(-x);
    }
  }

  lemma ParseSigned()
    ensures ParseI32("42") == Some(42)
    ensures ParseI32("-17") == Some(-17)
  {
    ParseI32OfIntToString(42);
    assert IntToString(42) == "42";
    ParseI32OfIntToString(-17);
    assert IntToString(-17) == "-17";
  }

  lemma ParsePlus()
    ensures ParseI32("+7") == Some(7)
  {
    assert "+7"[1..] == "7";
    assert AllDigits("7");
    assert DigitsValue("7") == DigitsValue("") * 10 + 7 by { assert "7"[..0] == ""; }
  }

  lemma ParseZeroPadded()
    ensures ParseI32("007") == Some(7)
  {
    assert DigitsValue("007") == DigitsValue("00") * 10 + 7 by { assert "007"[..2] == "00"; }
    assert DigitsValue("00") == 0 by { assert "00"[..1] == "0"; }
  }

  /** Rust's parse accepts a plain, signed or zero-padded decimal number. */
  lemma ParseI32Accepts()
    ensures ParseI32("42") == Some(42)
    ensures ParseI32("-17") == Some(-17)
    ensures ParseI32("+7") == Some(7)
    ensures ParseI32("007") == Some(7)
  {
    ParseSigned();
    ParsePlus();
    ParseZeroPadded();
  }

  /** A number outside the `i32` range is refused even though it is well formed. */
  lemma ParseI32OutOfRange(x: int)
    requires !InI32(x)
    ensures ParseI32(IntToString(x)) == None
  {
    if x < 0 {
      var s := IntToString(x);
      assert s[1..] == NatToString(-x);
    }
  }

  /** Rust's parse refuses letters, an empty string and a bare sign. */
  lemma ParseI32Refuses()
    ensures ParseI32("abc") == None
    ensures ParseI32("") == None
    ensures ParseI32("-") == None
    ensures ParseI32("4x") == None
  {
    assert !AllDigits("abc") by { assert !IsDigit("abc"[0]); }
    assert !AllDigits("4x") by { assert !IsDigit("4x"[1]); }
  }

  // ---------------------------------------------------------------------
  // UTF-8 byte length

  /** The number of bytes UTF-8 uses for one Unicode scalar value. */
  function Utf8Width(c: char): (w: nat)
    ensures 1 <= w <= 4
  {
    if c as int < 0x80 then 1
    else if c as int < 0x800 then 2
    else if c as int < 0x1_0000 then 3
    else 4
  }

  /** `s.len()` for a Rust `String`: its length in UTF-8 bytes. */
  function Utf8Len(s: string): (n: nat)
    ensures |s| <= n <= 4 * |s|
    ensures (forall i :: 0 <= i < |s| ==> s[i] as int < 0x80) ==> n == |s|
    decreases |s|
  {
    if |s| == 0 then 0 else Utf8Width(s[0]) + Utf8Len(s[1..])
  }
}
