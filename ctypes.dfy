/** Machine-level types shared by every module: fixed-width unsigned
    integers, the 8-bit C character, C strings in buffers, and the
    explicit wrap-around of 32-bit unsigned arithmetic. */
module CTypes {

  type Byte = b: int | 0 <= b < 0x100
  type U8 = Byte
  type U16 = x: int | 0 <= x < 0x1_0000
  type U32 = x: int | 0 <= x < 0x1_0000_0000
  type U64 = x: int | 0 <= x < 0x1_0000_0000_0000_0000

  /** A C `char`: eight bits, written as a Dafny character so that
      string literals can be used. */
  type CChar = c: char | c as int < 0x100

  const NUL: CChar := 0 as char

  datatype Option<T> = None | Some(value: T)

  /** Unsigned 32-bit arithmetic wraps modulo 2^32 (Dafny's % is Euclidean,
      so negative intermediate values land in range as C's conversion does). */
  function Wrap32(x: int): (r: U32)
  {
    x % 0x1_0000_0000
  }

  /** In-range values are unaffected by the wrap. */
  lemma Wrap32InRange(x: int)
    requires 0 <= x < 0x1_0000_0000
    ensures Wrap32(x) == x
  {
  }

  /** A C string argument: the characters before its terminator. */
  predicate NoNul(s: seq<CChar>)
  {
    forall i :: 0 <= i < |s| ==> s[i] != NUL
  }

  /** Reading a C string argument at index i: past the end is the terminator. */
  function At(s: seq<CChar>, i: nat): CChar
  {
    if i < |s| then s[i] else NUL
  }

  /** Where `while (s[i] == ' ') i++;` stops. */
  function SkipSpaces(s: seq<CChar>, i: nat): (j: nat)
    requires i <= |s|
    ensures i <= j <= |s| && At(s, j) != ' '
    ensures forall k :: i <= k < j ==> s[k] == ' '
    decreases |s| - i
  {
    if At(s, i) == ' ' then SkipSpaces(s, i + 1) else i
  }

  /** The converse of SkipSpaces's postcondition: a run of spaces ended
      by anything else is skipped exactly. */
  lemma {:induction false} SkipSpacesFinds(s: seq<CChar>, i: nat, j: nat)
    requires i <= j <= |s| && At(s, j) != ' '
    requires forall k :: i <= k < j ==> s[k] == ' '
    ensures SkipSpaces(s, i) == j
    decreases j - i
  {
    if i < j {
      SkipSpacesFinds(s, i + 1, j);
    }
  }

  /** The loop itself: `while (s[i] == ' ') i++;` */
  method ScanSpaces(s: seq<CChar>, i: nat) returns (j: nat)
    requires i <= |s|
    ensures j == SkipSpaces(s, i)
  {
    j := i;
    while At(s, j) == ' '
      invariant i <= j <= |s| && SkipSpaces(s, j) == SkipSpaces(s, i)
      decreases |s| - j
    {
      j := j + 1;
    }
  }

  predicate IsDigit(c: CChar) { '0' <= c <= '9' }

  function DigitValue(c: CChar): nat
    requires IsDigit(c)
  {
    c as int - '0' as int
  }

  predicate AllDigits(d: seq<CChar>) { forall k :: 0 <= k < |d| ==> IsDigit(d[k]) }

  /** The value of a decimal numeral, most significant digit first. */
  function DecimalValue(d: seq<CChar>): nat
    requires AllDigits(d)
  {
    if d == [] then 0 else DecimalValue(d[..|d| - 1]) * 10 + DigitValue(d[|d| - 1])
  }

  /** A buffer that holds a terminated C string. */
  predicate Terminated(buf: seq<CChar>)
  {
    exists i :: 0 <= i < |buf| && buf[i] == NUL
  }

  /** Index of the first NUL of a terminated buffer (what strlen returns). */
  function CLen(buf: seq<CChar>): (n: nat)
    requires Terminated(buf)
    ensures n < |buf| && buf[n] == NUL
    ensures forall j :: 0 <= j < n ==> buf[j] != NUL
  {
    if buf[0] == NUL then 0
    else
      assert Terminated(buf[1..]) by {
        var i :| 0 <= i < |buf| && buf[i] == NUL;
        assert buf[1..][i - 1] == NUL;
      }
      1 + CLen(buf[1..])
  }

  /** The C string a terminated buffer holds. */
  function CStr(buf: seq<CChar>): (s: seq<CChar>)
    requires Terminated(buf)
    ensures NoNul(s) && |s| < |buf|
  {
    buf[..CLen(buf)]
  }

  /** Any buffer made of a NUL-free string, its terminator and anything after
      it holds exactly that string. */
  lemma CStrOfTerminated(s: seq<CChar>, rest: seq<CChar>)
    requires NoNul(s)
    ensures Terminated(s + [NUL] + rest)
    ensures CLen(s + [NUL] + rest) == |s| && CStr(s + [NUL] + rest) == s
  {
    var b := s + [NUL] + rest;
    assert b[|s|] == NUL;
    assert forall j :: 0 <= j < |s| ==> b[j] == s[j];
  }

  /** A buffer holds a given C string exactly when that string, then a NUL,
      is a prefix of it. */
  lemma CStrFromPrefix(buf: seq<CChar>, s: seq<CChar>)
    requires NoNul(s)
    ensures (Terminated(buf) && CStr(buf) == s) <==> (|s| < |buf| && buf[..|s|] == s && buf[|s|] == NUL)
  {
    if |s| < |buf| && buf[..|s|] == s && buf[|s|] == NUL {
      assert buf == s + [NUL] + buf[|s| + 1..];
      CStrOfTerminated(s, buf[|s| + 1..]);
    }
  }

  /** The bytes of a C string: each character is one unsigned byte. */
  function Bytes(s: seq<CChar>): (b: seq<Byte>)
    ensures |b| == |s| && forall i :: 0 <= i < |s| ==> b[i] == s[i] as int
  {
    seq(|s|, i requires 0 <= i < |s| => s[i] as int)
  }
}
