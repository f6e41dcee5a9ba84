/** Shared vocabulary of the session-resumption model: bytes, optional values,
    the two exception kinds the library raises, and the small string helpers
    PHP provides (`bin2hex`, `(string)` on integers, ASCII case folding). */
module Common {

  newtype uint8 = x: int | 0 <= x < 256

  /** A PHP string is a byte string. */
  type Bytes = seq<uint8>

  datatype Option<+T> = None | Some(value: T)

  /** The exception classes the library throws. `TypeError` stands for the
      engine's own error under `strict_types` (wrong argument types). */
  datatype Error = InvalidArgument | Runtime | TypeError

  datatype Result<+T> = Ok(value: T) | Err(error: Error)

  /** The bytes of an ASCII string literal. */
  function Ascii(s: string): (r: Bytes)
    requires forall i :: 0 <= i < |s| ==> s[i] as int < 128
    ensures |r| == |s|
    ensures forall i :: 0 <= i < |s| ==> r[i] as int == s[i] as int
  {
    if |s| == 0 then [] else [s[0] as int as uint8] + Ascii(s[1..])
  }

  // ---------------------------------------------------------------------------
  // bin2hex

  function HexDigit(n: int): (r: uint8)
    requires 0 <= n < 16
    ensures ('0' as int <= r as int <= '9' as int) || ('a' as int <= r as int <= 'f' as int)
  {
    if n < 10 then (48 + n) as uint8 else (87 + n) as uint8
  }

  /** `bin2hex`: two lower-case hexadecimal digits per input byte. */
  function Hex(b: Bytes): (r: Bytes)
    ensures |r| == 2 * |b|
    ensures forall i :: 0 <= i < |b| ==>
              r[2 * i] == HexDigit(b[i] as int / 16) && r[2 * i + 1] == HexDigit(b[i] as int % 16)
  {
    if |b| == 0 then []
    else
      var rest := Hex(b[1..]);
      var r := [HexDigit(b[0] as int / 16), HexDigit(b[0] as int % 16)] + rest;
      assert forall i :: 1 <= i < |b| ==> r[2 * i] == rest[2 * (i - 1)] && r[2 * i + 1] == rest[2 * (i - 1) + 1];
      r
  }

  function HexValue(d: uint8): int
  {
    if d as int <= '9' as int then d as int - 48 else d as int - 87
  }

  /** `hex2bin`, the inverse of `Hex` on well-formed input. */
  function Unhex(h: Bytes): Bytes
    requires |h| % 2 == 0
  {
    if |h| == 0 then []
    else [((16 * HexValue(h[0]) + HexValue(h[1])) % 256) as uint8] + Unhex(h[2..])
  }

  /** `hex2bin` undoes `bin2hex`. */
  lemma {:induction false} HexRoundTrip(b: Bytes)
    ensures Unhex(Hex(b)) == b
  {
    if |b| != 0 {
      var d0, d1 := HexDigit(b[0] as int / 16), HexDigit(b[0] as int % 16);
      var rest := Hex(b[1..]);
      var h := [d0, d1] + rest;
      assert Hex(b) == h;
      assert h[0] == d0 && h[1] == d1 && h[2..] == rest;
      HexRoundTrip(b[1..]);
      HexByteRoundTrip(b[0]);
      assert Unhex(h) == [b[0]] + b[1..];
      assert [b[0]] + b[1..] == b;
    }
  }

  /** One byte: its two digits read back as the byte. */
  lemma HexByteRoundTrip(x: uint8)
    ensures ((16 * HexValue(HexDigit(x as int / 16)) + HexValue(HexDigit(x as int % 16))) % 256) as uint8 == x
  {
    var n := x as int;
    assert HexValue(HexDigit(n / 16)) == n / 16;
    assert HexValue(HexDigit(n % 16)) == n % 16;
    assert 16 * (n / 16) + n % 16 == n;
  }

  /** Distinct random byte strings give distinct hexadecimal names. */
  lemma HexInjective(a: Bytes, b: Bytes)
    requires Hex(a) == Hex(b)
    ensures a == b
  {
    HexRoundTrip(a);
    HexRoundTrip(b);
  }

  // ---------------------------------------------------------------------------
  // (string) $int

  predicate IsDigit(c: uint8)
  {
    '0' as int <= c as int <= '9' as int
  }

  /** Decimal digits of a natural number, most significant first. */
  function DecimalDigits(n: nat): (r: Bytes)
    ensures |r| >= 1
    ensures forall i :: 0 <= i < |r| ==> IsDigit(r[i])
    ensures n >= 10 ==> r[0] != '0' as int as uint8
  {
    if n < 10 then [(48 + n) as uint8] else DecimalDigits(n / 10) + [(48 + n % 10) as uint8]
  }

  /** PHP's `(string)` cast of an integer: optional minus sign, then the digits. */
  function DecimalString(n: int): (r: Bytes)
    ensures n >= 0 ==> r == DecimalDigits(n)
    ensures n < 0 ==> |r| >= 2 && r[0] == '-' as int as uint8 && r[1..] == DecimalDigits(-n)
  {
    if n < 0 then [45 as uint8] + DecimalDigits(-n) else DecimalDigits(n)
  }

  /** Value of a digit string read left to right. */
  function DigitsValue(s: Bytes): nat
  {
    if |s| == 0 then 0
    else 10 * DigitsValue(s[..|s| - 1]) + (if IsDigit(s[|s| - 1]) then s[|s| - 1] as int - 48 else 0)
  }

  /** Reads back an integer written by `DecimalString`. */
  function ParseDecimal(s: Bytes): int
  {
    if |s| > 0 && s[0] == 45 as uint8 then -(DigitsValue(s[1..]) as int) else DigitsValue(s)
  }

  /** Reading back the digits of a natural number gives the number. */
  lemma {:induction false} DigitsRoundTrip(n: nat)
    ensures DigitsValue(DecimalDigits(n)) == n
  {
    if n >= 10 {
      var d := DecimalDigits(n);
      assert d[..|d| - 1] == DecimalDigits(n / 10);
      DigitsRoundTrip(n / 10);
    }
  }

  /** Reading back `(string)$n` gives `$n`, so the cast loses nothing. */
  lemma DecimalRoundTrip(n: int)
    ensures ParseDecimal(DecimalString(n)) == n
  {
    if n < 0 {
      DigitsRoundTrip(-n);
    } else {
      DigitsRoundTrip(n);
    }
  }

  // ---------------------------------------------------------------------------
  // Integer-like array keys

  /** The largest integer of a 64-bit PHP build. */
  const PhpIntMax: int := 0x7FFF_FFFF_FFFF_FFFF

  /** A string PHP turns into an integer when it is used as an array key:
      "0", or an optional minus sign, a non-zero digit and further digits,
      with a value that fits a 64-bit integer ("-0", "007" and "4a" stay
      strings). Eighteen digits always fit; nineteen fit up to the bound. */
  predicate IntegerKey(s: Bytes)
  {
    if s == [48 as uint8] then true
    else
      var negative := |s| > 0 && s[0] == 45 as uint8;
      var digits := if negative then s[1..] else s;
      && 0 < |digits| <= 19 && digits[0] != 48 as uint8 && AllDigits(digits)
      && (|digits| <= 18 || DigitsValue(digits) <= (if negative then PhpIntMax + 1 else PhpIntMax))
  }

  predicate AllDigits(d: Bytes)
  {
    forall i :: 0 <= i < |d| ==> IsDigit(d[i])
  }

  /** A few strings on either side of the rule. */
  lemma IntegerKeyExamples()
    ensures IntegerKey(Ascii("42")) && IntegerKey(Ascii("-7")) && IntegerKey(Ascii("0"))
    ensures !IntegerKey(Ascii("042")) && !IntegerKey(Ascii("-0")) && !IntegerKey(Ascii("4a")) && !IntegerKey([])
  {
    assert Ascii("42") == [52, 50] && AllDigits([52, 50]);
    assert Ascii("-7") == [45, 55] && Ascii("-7")[1..] == [55] && AllDigits([55]);
    assert Ascii("0") == [48];
    assert Ascii("042")[0] == 48;
    assert Ascii("-0") == [45, 48] && Ascii("-0")[1..] == [48];
    assert Ascii("4a") == [52, 97];
  }

  /** Bytes whose nibbles are all 0 to 9 render as decimal digits. */
  lemma {:induction false} DecimalNibblesHexDigits(b: Bytes)
    requires forall i :: 0 <= i < |b| ==> b[i] as int / 16 < 10 && b[i] as int % 16 < 10
    ensures AllDigits(Hex(b))
  {
    if |b| != 0 {
      DecimalNibblesHexDigits(b[1..]);
      var rest := Hex(b[1..]);
      var h := [HexDigit(b[0] as int / 16), HexDigit(b[0] as int % 16)] + rest;
      assert Hex(b) == h;
      assert forall i :: 2 <= i < |h| ==> h[i] == rest[i - 2];
    }
  }

  /** A `bin2hex` name made only of the nibbles 0 to 9, not starting with a
      zero, is integer-like when it has at most eighteen digits. */
  lemma DecimalHexIsIntegerKey(b: Bytes)
    requires 0 < |b| <= 9 && b[0] as int / 16 != 0
    requires forall i :: 0 <= i < |b| ==> b[i] as int / 16 < 10 && b[i] as int % 16 < 10
    ensures IntegerKey(Hex(b))
  {
    DecimalNibblesHexDigits(b);
    assert Hex(b)[0] == HexDigit(b[0] as int / 16);
  }

  // ---------------------------------------------------------------------------
  // ASCII case folding, as `strcasecmp` performs it

  function ToLower(c: uint8): (r: uint8)
    ensures 'A' as int <= c as int <= 'Z' as int ==> r as int == c as int + 32
    ensures !('A' as int <= c as int <= 'Z' as int) ==> r == c
  {
    if 65 <= c as int <= 90 then (c as int + 32) as uint8 else c
  }

  function FoldCase(s: Bytes): (r: Bytes)
    ensures |r| == |s|
    ensures forall i :: 0 <= i < |s| ==> r[i] == ToLower(s[i])
  {
    seq(|s|, i requires 0 <= i < |s| => ToLower(s[i]))
  }

  /** `strcasecmp`: the sign of the first difference of the lowered bytes, or
      of the length difference when one string is a prefix of the other. */
  function StrCaseCmp(a: Bytes, b: Bytes): int
    decreases |a|
  {
    if |a| == 0 && |b| == 0 then 0
    else if |a| == 0 then -1
    else if |b| == 0 then 1
    else if ToLower(a[0]) < ToLower(b[0]) then -1
    else if ToLower(a[0]) > ToLower(b[0]) then 1
    else StrCaseCmp(a[1..], b[1..])
  }

  /** `strcasecmp` reports equality exactly when the case-folded strings agree. */
  lemma {:induction false} StrCaseCmpZeroIff(a: Bytes, b: Bytes)
    ensures StrCaseCmp(a, b) == 0 <==> FoldCase(a) == FoldCase(b)
    decreases |a|
  {
    if |a| != 0 && |b| != 0 {
      StrCaseCmpZeroIff(a[1..], b[1..]);
      if ToLower(a[0]) == ToLower(b[0]) {
        if FoldCase(a[1..]) == FoldCase(b[1..]) {
          assert FoldCase(a) == [ToLower(a[0])] + FoldCase(a[1..]);
          assert FoldCase(b) == [ToLower(b[0])] + FoldCase(b[1..]);
        }
      } else {
        assert FoldCase(a)[0] != FoldCase(b)[0];
      }
    } else if |a| != 0 || |b| != 0 {
      assert |FoldCase(a)| != |FoldCase(b)|;
    }
  }
}
