/** Fixed-width C integers and the two text conversions the demos use:
    `atoi` for command-line values and the framework's decimal `Text()`. */
module Numbers {

  type u8 = x: int | 0 <= x < 0x100
  type u16 = x: int | 0 <= x < 0x1_0000
  type u32 = x: int | 0 <= x < 0x1_0000_0000
  type u64 = x: int | 0 <= x < 0x1_0000_0000_0000_0000

  /** Conversion of any integer to `uint8_t`: reduction modulo 2^8. */
  function ToU8(n: int): (r: u8)
    ensures 0 <= n < 0x100 ==> r == n
    ensures (n - r) % 0x100 == 0
  {
    n % 0x100
  }

  /** Conversion of any integer to `uint16_t`: reduction modulo 2^16. */
  function ToU16(n: int): (r: u16)
    ensures 0 <= n < 0x1_0000 ==> r == n
    ensures (n - r) % 0x1_0000 == 0
  {
    n % 0x1_0000
  }

  /** Conversion of any integer to `uint32_t`: reduction modulo 2^32. */
  function ToU32(n: int): (r: u32)
    ensures 0 <= n < 0x1_0000_0000 ==> r == n
    ensures (n - r) % 0x1_0000_0000 == 0
  {
    n % 0x1_0000_0000
  }

  /** Conversion of a `uint32_t` to `int32_t` (two's complement). */
  function ToI32(u: u32): (r: int)
    ensures -0x8000_0000 <= r < 0x8000_0000
    ensures ToU32(r) == u
  {
    if u < 0x8000_0000 then u else u - 0x1_0000_0000
  }

  /** Incrementing a `uint32_t` wraps like incrementing the integer it
      came from. */
  lemma ToU32Succ(m: int)
    ensures ToU32(ToU32(m) + 1) == ToU32(m + 1)
  {
    var q, r := m / 0x1_0000_0000, m % 0x1_0000_0000;
    assert m + 1 == q * 0x1_0000_0000 + (r + 1);
    if r + 1 < 0x1_0000_0000 {
      assert (m + 1) / 0x1_0000_0000 == q;
    } else {
      assert m + 1 == (q + 1) * 0x1_0000_0000;
    }
  }

  predicate IsDigit(c: char) {
    '0' <= c <= '9'
  }

  /** The characters `isspace` accepts in the C locale. */
  predicate IsSpace(c: char) {
    c == ' ' || c == '\t' || c == '\n' || c == '\r' || c as int == 11 || c as int == 12
  }

  function DigitValue(c: char): (d: nat)
    requires IsDigit(c)
    ensures d < 10
  {
    c as int - '0' as int
  }

  function DigitChar(d: nat): (c: char)
    requires d < 10
    ensures IsDigit(c) && DigitValue(c) == d
  {
    ('0' as int + d) as char
  }

  /** Length of the longest prefix of `s` made of decimal digits. */
  function DigitRun(s: string): (n: nat)
    ensures n <= |s|
    ensures forall i | 0 <= i < n :: IsDigit(s[i])
    ensures n < |s| ==> !IsDigit(s[n])
  {
    if |s| == 0 || !IsDigit(s[0]) then 0 else 1 + DigitRun(s[1..])
  }

  /** Value of a string of decimal digits, most significant first. */
  function DigitsValue(s: string): (v: nat)
    requires forall i | 0 <= i < |s| :: IsDigit(s[i])
  {
    if |s| == 0 then 0
    else 10 * DigitsValue(s[..|s| - 1]) + DigitValue(s[|s| - 1])
  }

  function SkipSpaces(s: string): (t: string)
    ensures |t| <= |s| && t == s[|s| - |t|..]
    ensures |t| > 0 ==> !IsSpace(t[0])
  {
    if |s| > 0 && IsSpace(s[0]) then SkipSpaces(s[1..]) else s
  }

  /** C `atoi`: leading white space, an optional sign, then the longest run of
      digits; anything after that run is ignored and no digits reads as 0. */
  function Atoi(s: string): (n: int)
    ensures n < 0 ==> '-' in s
  {
    var t := SkipSpaces(s);
    if |t| > 0 && (t[0] == '-' || t[0] == '+') then
      var u := t[1..];
      var v: int := DigitsValue(u[..DigitRun(u)]);
      if t[0] == '-' then -v else v
    else
      DigitsValue(t[..DigitRun(t)])
  }

  /** Decimal text of a non-negative number, without leading zeros. */
  function NatText(n: nat): (s: string)
    ensures |s| > 0
    ensures forall i | 0 <= i < |s| :: IsDigit(s[i])
    ensures DigitsValue(s) == n
  {
    if n < 10 then [DigitChar(n)]
    else
      var s := NatText(n / 10) + [DigitChar(n % 10)];
      assert s[..|s| - 1] == NatText(n / 10);
      s
  }

  /** Decimal text of any integer, with a leading '-' when negative: the
      framework's `NumberType<T>(n).Text()`. */
  function DecimalText(n: int): (s: string)
    ensures |s| > 0
    ensures n >= 0 <==> IsDigit(s[0])
  {
    if n < 0 then "-" + NatText(-n) else NatText(n)
  }

  lemma {:induction false} DigitRunOfDigits(s: string)
    requires forall i | 0 <= i < |s| :: IsDigit(s[i])
    ensures DigitRun(s) == |s|
    decreases |s|
  {
    if |s| > 0 {
      DigitRunOfDigits(s[1..]);
    }
  }

  /** `atoi` reads back every value the framework prints: decimal text and
      `atoi` are inverse on all integers. */
  lemma AtoiDecimalText(n: int)
    ensures Atoi(DecimalText(n)) == n
  {
    var s := DecimalText(n);
    var d := NatText(if n < 0 then -n else n);
    DigitRunOfDigits(d);
    assert d[..|d|] == d;
    if n < 0 {
      assert s[0] == '-' && s[1..] == d;
    } else {
      assert s == d && IsDigit(s[0]);
    }
    assert !IsSpace(s[0]);
    assert SkipSpaces(s) == s;
  }
}
