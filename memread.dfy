/** parse_hex of mem-read.c: an optional "0x" or "0X" prefix, then at
    least one hexadecimal digit and nothing else. The value is accumulated
    in a 32-bit unsigned integer, four bits per digit, so only the last
    eight digits survive. */
module MemRead {
  import opened CTypes

  /** 2^32: uint32_t arithmetic is modulo this. */
  const U32_RANGE := 0x1_0000_0000

  predicate IsHexDigit(c: CChar)
  {
    ('0' <= c <= '9') || ('a' <= c <= 'f') || ('A' <= c <= 'F')
  }

  /** The value of one digit: 'a'..'f' and 'A'..'F' both stand for 10..15. */
  function HexDigitValue(c: CChar): (v: nat)
    requires IsHexDigit(c)
    ensures v < 16
  {
    if '0' <= c <= '9' then c as int - '0' as int
    else if 'a' <= c <= 'f' then c as int - 'a' as int + 10
    else c as int - 'A' as int + 10
  }

  predicate AllHex(d: seq<CChar>)
  {
    forall k :: 0 <= k < |d| ==> IsHexDigit(d[k])
  }

  /** The value of a hexadecimal numeral, most significant digit first. */
  function HexValue(d: seq<CChar>): nat
    requires AllHex(d)
  {
    if d == [] then 0 else HexValue(d[..|d| - 1]) * 16 + HexDigitValue(d[|d| - 1])
  }

  function Pow16(n: nat): (p: nat)
    ensures p > 0
  {
    if n == 0 then 1 else 16 * Pow16(n - 1)
  }

  /** Eight hexadecimal digits make 32 bits. */
  lemma EightDigits()
    ensures Pow16(8) == U32_RANGE
  {
  }

  /** Where the digits start: after a "0x" or "0X" prefix, if there is one. */
  function DigitsStart(s: seq<CChar>): (k: nat)
    ensures k <= |s|
  {
    if At(s, 0) == '0' && (At(s, 1) == 'x' || At(s, 1) == 'X') then 2 else 0
  }

  /** What parse_hex does with a C string: None when it returns false,
      otherwise the value it stores in *out. */
  function HexParse(s: seq<CChar>): Option<U32>
    requires NoNul(s)
  {
    var d := s[DigitsStart(s)..];
    if d == [] || !AllHex(d) then None else Some(HexValue(d) % U32_RANGE)
  }

  /** A remainder modulo 2^32 is determined by any quotient and remainder
      that add up. */
  lemma ModRange(x: int, q: int, r: int)
    requires 0 <= r < U32_RANGE && x == q * U32_RANGE + r
    ensures x % U32_RANGE == r
  {
  }

  /** The same modulo 2^28. */
  lemma ModShifted(x: int, q: int, r: int)
    requires 0 <= r < 0x1000_0000 && x == q * 0x1000_0000 + r
    ensures x % 0x1000_0000 == r
  {
  }

  /** `result << 4` keeps the low 28 bits of a uint32_t, moved up four
      places; the four bits it frees are then filled by `| val`. */
  lemma ShiftIn(h: nat, v: nat)
    requires v < 16
    ensures (h * 16 + v) % U32_RANGE == (h % U32_RANGE % 0x1000_0000) * 16 + v
  {
    var q, r := h / 0x1000_0000, h % 0x1000_0000;
    var a, b := q / 16, q % 16;
    assert h == a * U32_RANGE + (b * 0x1000_0000 + r);
    ModRange(h, a, b * 0x1000_0000 + r);
    ModShifted(b * 0x1000_0000 + r, b, r);
    assert h * 16 + v == (a * 16 + b) * U32_RANGE + (r * 16 + v);
    ModRange(h * 16 + v, a * 16 + b, r * 16 + v);
  }

  /** One more digit on the right of a numeral, as the loop of parse_hex
      takes it in. */
  lemma AppendDigit(d: seq<CChar>, c: CChar)
    requires AllHex(d) && IsHexDigit(c)
    ensures AllHex(d + [c])
    ensures HexValue(d + [c]) % U32_RANGE
      == (HexValue(d) % U32_RANGE % 0x1000_0000) * 16 + HexDigitValue(c)
  {
    assert (d + [c])[..|d|] == d;
    ShiftIn(HexValue(d), HexDigitValue(c));
  }

  /** parse_hex(str, out): `prior` is *out on entry. On failure *out is
      left as it was; on success it holds the parsed value. */
  method ParseHex(str: seq<CChar>, prior: U32) returns (ok: bool, out: U32)
    requires NoNul(str)
    ensures ok == HexParse(str).Some?
    ensures ok ==> out == HexParse(str).value
    ensures !ok ==> out == prior
  {
    var result: U32 := 0;
    var p := 0;
    if At(str, 0) == '0' && (At(str, 1) == 'x' || At(str, 1) == 'X') {
      p := 2;
    }
    if At(str, p) == NUL {
      return false, prior;
    }
    var start := p;
    while At(str, p) != NUL
      invariant start <= p <= |str| && start == DigitsStart(str)
      invariant AllHex(str[start..p]) && result == HexValue(str[start..p]) % U32_RANGE
      decreases |str| - p
    {
      var c := str[p];
      p := p + 1;
      var val := 0xFF;
      if '0' <= c <= '9' {
        val := c as int - '0' as int;
      } else if 'a' <= c <= 'f' {
        val := c as int - 'a' as int + 10;
      } else if 'A' <= c <= 'F' {
        val := c as int - 'A' as int + 10;
      } else {
        assert str[start..][p - 1 - start] == c;
        return false, prior;
      }
      if val == 0xFF {
        return false, prior;
      }
      assert str[start..p] == str[start..p - 1] + [c];
      AppendDigit(str[start..p - 1], c);
      result := (result % 0x1000_0000) * 16 + val;
    }
    assert str[start..p] == str[start..];
    return true, result;
  }

  // ---- What the value keeps ----

  /** Digits in front of a numeral scale its value by a power of 16. */
  lemma {:induction false} HexValueSplit(a: seq<CChar>, b: seq<CChar>)
    requires AllHex(a) && AllHex(b)
    ensures AllHex(a + b) && HexValue(a + b) == HexValue(a) * Pow16(|b|) + HexValue(b)
    decreases |b|
  {
    if b != [] {
      var b' := b[..|b| - 1];
      assert (a + b)[..|a + b| - 1] == a + b';
      var c := b[|b| - 1];
      assert (a + b)[|a + b| - 1] == c;
      HexValueSplit(a, b');
      assert HexValue(b) == HexValue(b') * 16 + HexDigitValue(c);
      ScaleStep(HexValue(a), Pow16(|b'|), HexValue(b'), HexDigitValue(c));
    } else {
      assert a + b == a;
    }
  }

  lemma ScaleStep(x: int, p: int, h: int, v: int)
    ensures (x * p + h) * 16 + v == x * (16 * p) + (h * 16 + v)
  {
  }

  /** n digits make a value below 16^n. */
  lemma {:induction false} HexValueBound(d: seq<CChar>)
    requires AllHex(d)
    ensures HexValue(d) < Pow16(|d|)
    decreases |d|
  {
    if d != [] {
      HexValueBound(d[..|d| - 1]);
    }
  }

  /** Only the last eight digits count: the shifts push every earlier one
      out of the 32 bits. */
  lemma LastEightDigits(s: seq<CChar>)
    requires NoNul(s) && HexParse(s).Some?
    ensures var d := s[DigitsStart(s)..];
      |d| >= 8 ==> HexParse(s) == Some(HexValue(d[|d| - 8..]))
  {
    var d := s[DigitsStart(s)..];
    if |d| >= 8 {
      var a, b := d[..|d| - 8], d[|d| - 8..];
      assert a + b == d;
      HexValueSplit(a, b);
      HexValueBound(b);
      EightDigits();
      ModRange(HexValue(d), HexValue(a), HexValue(b));
    }
  }

  // ---- Case does not matter ----

  /** Lower-case ASCII letters raised to upper case; other characters kept. */
  function Upper(c: CChar): (u: CChar)
  {
    if 'a' <= c <= 'z' then (c as int - 32) as char else c
  }

  function UpperAll(s: seq<CChar>): (u: seq<CChar>)
    ensures |u| == |s| && forall k :: 0 <= k < |s| ==> u[k] == Upper(s[k])
  {
    seq(|s|, k requires 0 <= k < |s| => Upper(s[k]))
  }

  lemma {:induction false} HexValueUpper(d: seq<CChar>)
    requires AllHex(d)
    ensures AllHex(UpperAll(d)) && HexValue(UpperAll(d)) == HexValue(d)
    decreases |d|
  {
    if d != [] {
      var d' := d[..|d| - 1];
      assert UpperAll(d)[..|d| - 1] == UpperAll(d');
      HexValueUpper(d');
    }
  }

  /** Upper-casing the argument does not change what parse_hex reports:
      the prefix may be "0x" or "0X", and 'a'..'f' read as 'A'..'F'. */
  lemma CaseInsensitive(s: seq<CChar>)
    requires NoNul(s)
    ensures NoNul(UpperAll(s)) && HexParse(UpperAll(s)) == HexParse(s)
  {
    var u := UpperAll(s);
    var k := DigitsStart(s);
    assert DigitsStart(u) == k;
    var d, e := s[k..], u[k..];
    assert e == UpperAll(d);
    if AllHex(d) {
      HexValueUpper(d);
    } else {
      var j :| 0 <= j < |d| && !IsHexDigit(d[j]);
      assert !IsHexDigit(e[j]);
    }
  }

  // ---- The round trip with print_hex ----

  /** hex_digits of print_hex in kernel.c. */
  function HexChar(v: nat): (c: CChar)
    requires v < 16
    ensures IsHexDigit(c) && HexDigitValue(c) == v
  {
    "0123456789ABCDEF"[v]
  }

  /** The last n hexadecimal digits of x, most significant first. */
  function HexDigitsOf(x: nat, n: nat): (d: seq<CChar>)
    ensures |d| == n && AllHex(d)
  {
    if n == 0 then [] else HexDigitsOf(x / 16, n - 1) + [HexChar(x % 16)]
  }

  /** What print_hex prints: "0x" and eight upper-case digits. */
  function HexText(x: U32): (t: seq<CChar>)
    ensures |t| == 10 && NoNul(t)
  {
    "0x" + HexDigitsOf(x, 8)
  }

  /** One digit of print_hex: the last digit is x % 16, the others are
      the digits of x / 16. */
  lemma HexDigitsStep(x: nat, n: nat)
    requires n > 0
    ensures HexValue(HexDigitsOf(x, n)) == HexValue(HexDigitsOf(x / 16, n - 1)) * 16 + x % 16
  {
    var d := HexDigitsOf(x, n);
    assert d[..n - 1] == HexDigitsOf(x / 16, n - 1);
    assert d[n - 1] == HexChar(x % 16);
  }

  /** n digits of a number below 16^n read back as that number. */
  lemma {:induction false} HexDigitsValue(x: nat, n: nat)
    requires x < Pow16(n)
    ensures HexValue(HexDigitsOf(x, n)) == x
  {
    if n > 0 {
      assert Pow16(n) == 16 * Pow16(n - 1);
      assert x / 16 < Pow16(n - 1);
      HexDigitsValue(x / 16, n - 1);
      HexDigitsStep(x, n);
    }
  }

  /** parse_hex reads back what print_hex prints. */
  lemma HexRoundTrip(x: U32)
    ensures HexParse(HexText(x)) == Some(x)
  {
    EightDigits();
    HexDigitsValue(x, 8);
    var t, d := HexText(x), HexDigitsOf(x, 8);
    assert t[0] == '0' && t[1] == 'x';
    assert DigitsStart(t) == 2;
    assert t[2..] == d;
    ModRange(x, 0, x);
    assert HexValue(d) % U32_RANGE == x;
  }
}
