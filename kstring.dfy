/** The freestanding string and memory routines of the kernel
    (kernel.c lines 18-25). Read-only C string arguments are given as the
    characters before their terminator; buffers that are written are arrays
    and keep whatever lies beyond the bytes the routine writes. */
module KernelString {
  import opened CTypes

  /** Three-way comparison of two C strings the way strcmp does it: the
      difference of the first pair of unsigned characters that differ, a
      string's end reading as NUL. */
  function Compare(x: seq<CChar>, y: seq<CChar>): int
  {
    if |x| == 0 || |y| == 0 || x[0] != y[0] then At(x, 0) as int - At(y, 0) as int
    else Compare(x[1..], y[1..])
  }

  /** Lexicographic order by unsigned character value, a proper prefix first. */
  predicate LexLess(x: seq<CChar>, y: seq<CChar>)
  {
    |y| > 0 && (|x| == 0 || x[0] < y[0] || (x[0] == y[0] && LexLess(x[1..], y[1..])))
  }

  /** The first `n` characters of a string (all of it when shorter). */
  function Take(s: seq<CChar>, n: nat): (t: seq<CChar>)
    ensures |t| == if n < |s| then n else |s|
    ensures t == s[..|t|]
  {
    if n < |s| then s[..n] else s
  }

  /** What strncpy leaves in the first `n` bytes of its destination: the
      source's characters, capped at n, then NUL padding. */
  function StrncpyImage(src: seq<CChar>, n: nat): seq<CChar>
  {
    Take(src, n) + seq(n - |Take(src, n)|, _ => NUL)
  }

  lemma {:induction false} CompareZeroIff(x: seq<CChar>, y: seq<CChar>)
    requires NoNul(x) && NoNul(y)
    ensures Compare(x, y) == 0 <==> x == y
  {
    if |x| == 0 || |y| == 0 || x[0] != y[0] {
      if |x| > 0 && |y| > 0 {
        assert x[0] as int != y[0] as int;
      } else if |x| > 0 {
        assert x[0] != NUL;
      } else if |y| > 0 {
        assert y[0] != NUL;
      }
    } else {
      CompareZeroIff(x[1..], y[1..]);
      if x[1..] == y[1..] {
        assert x == [x[0]] + x[1..] && y == [y[0]] + y[1..];
      }
    }
  }

  lemma {:induction false} CompareNegativeIffLess(x: seq<CChar>, y: seq<CChar>)
    requires NoNul(x) && NoNul(y)
    ensures Compare(x, y) < 0 <==> LexLess(x, y)
  {
    if |x| == 0 || |y| == 0 || x[0] != y[0] {
      if |y| > 0 {
        assert y[0] != NUL;
      }
      if |x| > 0 {
        assert x[0] != NUL;
      }
    } else {
      CompareNegativeIffLess(x[1..], y[1..]);
    }
  }

  lemma {:induction false} CompareAntisymmetric(x: seq<CChar>, y: seq<CChar>)
    ensures Compare(x, y) == -Compare(y, x)
  {
    if |x| == 0 || |y| == 0 || x[0] != y[0] {
    } else {
      CompareAntisymmetric(x[1..], y[1..]);
    }
  }

  /** strncpy's image has exactly n bytes, and holds a terminated copy of the
      source exactly when the source is shorter than n. */
  lemma StrncpyImageFacts(src: seq<CChar>, n: nat)
    requires NoNul(src)
    ensures |StrncpyImage(src, n)| == n
    ensures Terminated(StrncpyImage(src, n)) <==> |src| < n
    ensures |src| < n ==> CStr(StrncpyImage(src, n)) == src
  {
    var img := StrncpyImage(src, n);
    if |src| < n {
      assert img[..|src|] == src && img[|src|] == NUL;
      CStrFromPrefix(img, src);
    } else {
      assert img == src[..n];
      assert forall i :: 0 <= i < |img| ==> img[i] == src[i];
    }
  }

  /** size_t strlen(const char*): index of the first NUL. */
  method Strlen(buf: seq<CChar>) returns (n: nat)
    requires Terminated(buf)
    ensures n == CLen(buf)
  {
    n := 0;
    while buf[n] != NUL
      invariant n <= CLen(buf)
      decreases CLen(buf) - n
    {
      n := n + 1;
    }
  }

  /** int strcmp(const char*, const char*). */
  method Strcmp(a: seq<CChar>, b: seq<CChar>) returns (r: int)
    requires NoNul(a) && NoNul(b)
    ensures r == Compare(a, b)
  {
    var i := 0;
    while At(a, i) != NUL && At(a, i) == At(b, i)
      invariant i <= |a| && i <= |b|
      invariant Compare(a, b) == Compare(a[i..], b[i..])
      decreases |a| - i
    {
      assert a[i..][1..] == a[i + 1..] && b[i..][1..] == b[i + 1..];
      i := i + 1;
    }
    r := At(a, i) as int - At(b, i) as int;
  }

  /** int strncmp(const char*, const char*, size_t n). */
  method Strncmp(a: seq<CChar>, b: seq<CChar>, n: nat) returns (r: int)
    requires NoNul(a) && NoNul(b)
    ensures r == Compare(Take(a, n), Take(b, n))
  {
    var i := 0;
    while i < n
      invariant i <= n && i <= |a| && i <= |b|
      invariant Compare(Take(a, n), Take(b, n)) == Compare(Take(a, n)[i..], Take(b, n)[i..])
    {
      if At(a, i) != At(b, i) {
        return At(a, i) as int - At(b, i) as int;
      }
      if At(a, i) == NUL {
        return 0;
      }
      assert Take(a, n)[i..][1..] == Take(a, n)[i + 1..];
      assert Take(b, n)[i..][1..] == Take(b, n)[i + 1..];
      i := i + 1;
    }
    return 0;
  }

  /** char *strcpy(char *dest, const char *src): copies through the NUL. */
  method Strcpy(dest: array<CChar>, src: seq<CChar>)
    requires NoNul(src) && |src| < dest.Length
    modifies dest
    ensures dest[..|src| + 1] == src + [NUL]
    ensures dest[|src| + 1..] == old(dest[|src| + 1..])
    ensures Terminated(dest[..]) && CStr(dest[..]) == src
  {
    var i := 0;
    while At(src, i) != NUL
      invariant i <= |src|
      invariant dest[..i] == src[..i]
      invariant dest[|src| + 1..] == old(dest[|src| + 1..])
      decreases |src| - i
    {
      dest[i] := src[i];
      i := i + 1;
    }
    dest[i] := NUL;
    assert dest[..|src| + 1] == src + [NUL];
    CStrFromPrefix(dest[..], src);
  }

  /** char *strcat(char *dest, const char *src): appends at dest's NUL. */
  method Strcat(dest: array<CChar>, src: seq<CChar>)
    requires Terminated(dest[..]) && NoNul(src)
    requires CLen(dest[..]) + |src| < dest.Length
    modifies dest
    ensures var d := old(CLen(dest[..]));
      && dest[..d] == old(dest[..d])
      && dest[d..d + |src| + 1] == src + [NUL]
      && dest[d + |src| + 1..] == old(dest[d + |src| + 1..])
    ensures Terminated(dest[..]) && CStr(dest[..]) == old(CStr(dest[..])) + src
  {
    ghost var before := dest[..];
    var d := Strlen(dest[..]);
    CopyAt(dest, d, src);
    dest[d + |src|] := NUL;
    ghost var joined := before[..d] + src;
    ghost var after := joined + [NUL] + before[d + |src| + 1..];
    assert dest[..] == after;
    Spliced(before, d, src, after);
    CStrFromPrefix(dest[..], joined);
  }

  /** The copy loop of strcat: the characters of `src` go to dest[d..],
      up to the end of `src`. */
  method CopyAt(dest: array<CChar>, d: nat, src: seq<CChar>)
    requires NoNul(src) && d + |src| <= dest.Length
    modifies dest
    ensures dest[..] == old(dest[..d]) + src + old(dest[d + |src|..])
  {
    ghost var before := dest[..];
    var i := 0;
    while At(src, i) != NUL
      invariant i <= |src|
      invariant forall k :: 0 <= k < dest.Length ==> dest[k] == if d <= k < d + i then src[k - d] else before[k]
      decreases |src| - i
    {
      dest[d + i] := src[i];
      i := i + 1;
    }
    ghost var after := before[..d] + src + before[d + |src|..];
    assert dest[..] == after by {
      forall k | 0 <= k < dest.Length
        ensures dest[k] == after[k]
      {
        if k < d {
          assert after[k] == before[k];
        } else if k < d + |src| {
          assert after[k] == src[k - d];
        } else {
          assert after[k] == before[k];
        }
      }
    }
  }

  /** The parts of a buffer after `src` and a NUL are written at d. */
  lemma Spliced(before: seq<CChar>, d: nat, src: seq<CChar>, after: seq<CChar>)
    requires d + |src| < |before|
    requires after == before[..d] + src + [NUL] + before[d + |src| + 1..]
    ensures after[..d] == before[..d]
    ensures after[d..d + |src| + 1] == src + [NUL]
    ensures after[d + |src| + 1..] == before[d + |src| + 1..]
  {
    assert after[..d] == before[..d];
  }

  /** char *strncpy(char *dest, const char *src, size_t n): exactly n bytes
      are written; no terminator when the source has n or more characters. */
  method Strncpy(dest: array<CChar>, src: seq<CChar>, n: nat)
    requires NoNul(src) && n <= dest.Length
    modifies dest
    ensures dest[..n] == StrncpyImage(src, n)
    ensures dest[n..] == old(dest[n..])
  {
    var i := 0;
    while i < n && At(src, i) != NUL
      invariant i <= n && i <= |src|
      invariant dest[..i] == src[..i]
      invariant dest[n..] == old(dest[n..])
    {
      dest[i] := src[i];
      i := i + 1;
    }
    assert i == |Take(src, n)|;
    while i < n
      invariant |Take(src, n)| <= i <= n
      invariant dest[..|Take(src, n)|] == Take(src, n)
      invariant forall k :: |Take(src, n)| <= k < i ==> dest[k] == NUL
      invariant dest[n..] == old(dest[n..])
    {
      dest[i] := NUL;
      i := i + 1;
    }
  }

  /** void *memset(void *s, int c, size_t n), at byte offset `off` of an
      object: n bytes become (unsigned char)c, nothing else changes. */
  method Memset(s: array<Byte>, off: nat, c: int, n: nat)
    requires off + n <= s.Length
    modifies s
    ensures forall i :: off <= i < off + n ==> s[i] == c % 0x100
    ensures forall i :: 0 <= i < s.Length && !(off <= i < off + n) ==> s[i] == old(s[i])
  {
    var k := 0;
    while k < n
      invariant k <= n
      invariant forall i :: off <= i < off + k ==> s[i] == c % 0x100
      invariant forall i :: 0 <= i < s.Length && !(off <= i < off + k) ==> s[i] == old(s[i])
    {
      s[off + k] := c % 0x100;
      k := k + 1;
    }
  }

  /** void *memmove(void *dest, const void *src, size_t n) within one memory
      `m`: the destination receives the source's original bytes even when the
      two ranges overlap, copying forward when dest < src and backward when
      dest > src. */
  method Memmove(m: array<Byte>, dst: nat, src: nat, n: nat)
    requires dst + n <= m.Length && src + n <= m.Length
    modifies m
    ensures m[dst..dst + n] == old(m[src..src + n])
    ensures forall i :: 0 <= i < m.Length && !(dst <= i < dst + n) ==> m[i] == old(m[i])
  {
    ghost var orig := m[..];
    if dst < src {
      var i := 0;
      while i < n
        invariant i <= n
        invariant forall k :: dst <= k < dst + i ==> m[k] == orig[k - dst + src]
        invariant forall k :: 0 <= k < m.Length && !(dst <= k < dst + i) ==> m[k] == orig[k]
      {
        m[dst + i] := m[src + i];
        i := i + 1;
      }
    } else if dst > src {
      var i: nat := n;
      while i > 0
        invariant i <= n && |orig| == m.Length
        invariant forall k :: dst + i <= k < dst + n ==> m[k] == orig[k - dst + src]
        invariant forall k :: 0 <= k < m.Length && !(dst + i <= k < dst + n) ==> m[k] == orig[k]
      {
        m[dst + i - 1] := m[src + i - 1];
        i := i - 1;
      }
    }
    assert forall k :: dst <= k < dst + n ==> m[k] == orig[k - dst + src];
    assert m[dst..dst + n] == orig[src..src + n];
  }
}
