/** The shell's `color` command (color.c): `color <f|b> <0-15>` sets the
    terminal's foreground or background colour. */
module Color {
  import opened CTypes

  /** Largest value of a 32-bit C `int`. */
  const INT_MAX := 0x7FFF_FFFF
  /** Sixteen VGA text colours, 0 to 15. */
  const MAX_COLOR := 15

  /** What handle_color_command does: print the usage text, print the
      range error, or set one of the two colours. */
  datatype ColorCommand = ShowUsage | RangeError | SetForeground(value: nat) | SetBackground(value: nat)

  /** Where the target character and the value's digits were found. */
  datatype ColorArgs = ColorArgs(targetAt: nat, digitsAt: nat, digitsEnd: nat)

  predicate IsTarget(c: CChar)
  {
    c == 'f' || c == 'b'
  }

  predicate AllSpaces(s: seq<CChar>)
  {
    forall k :: 0 <= k < |s| ==> s[k] == ' '
  }

  /** Where the digit loop `while (*p >= '0' && *p <= '9')` stops. */
  function DigitRun(s: seq<CChar>, i: nat): (j: nat)
    requires i <= |s|
    ensures i <= j <= |s| && !IsDigit(At(s, j))
    ensures forall k :: i <= k < j ==> IsDigit(s[k])
    decreases |s| - i
  {
    if IsDigit(At(s, i)) then DigitRun(s, i + 1) else i
  }

  /** The shape of the arguments: spaces, a target 'f' or 'b', spaces, then
      at least one digit. None where the usage text is printed. */
  function ScanColor(args: seq<CChar>): (r: Option<ColorArgs>)
    ensures r.Some? ==>
      var c := r.value;
      c.targetAt < c.digitsAt < c.digitsEnd <= |args|
      && AllSpaces(args[..c.targetAt]) && IsTarget(args[c.targetAt])
      && AllSpaces(args[c.targetAt + 1..c.digitsAt])
      && AllDigits(args[c.digitsAt..c.digitsEnd]) && !IsDigit(At(args, c.digitsEnd))
  {
    var t := SkipSpaces(args, 0);
    if At(args, t) == NUL || !IsTarget(At(args, t)) then None
    else
      var v := SkipSpaces(args, t + 1);
      if !IsDigit(At(args, v)) then None
      else Some(ColorArgs(t, v, DigitRun(args, v)))
  }

  /** The value's digits, when the arguments have the right shape. */
  function ValueDigits(args: seq<CChar>): (d: seq<CChar>)
    ensures AllDigits(d)
  {
    match ScanColor(args)
    case None => []
    case Some(c) => args[c.digitsAt..c.digitsEnd]
  }

  /** The digit loop accumulates into a signed `int`; in C an overflow
      there is undefined, so callers keep the value within range. */
  predicate ValueFits(args: seq<CChar>)
  {
    DecimalValue(ValueDigits(args)) <= INT_MAX
  }

  /** What handle_color_command decides for its argument string. */
  function ParseColor(args: seq<CChar>): ColorCommand
  {
    match ScanColor(args)
    case None => ShowUsage
    case Some(c) =>
      var value := DecimalValue(args[c.digitsAt..c.digitsEnd]);
      if value > MAX_COLOR then RangeError
      else if args[c.targetAt] == 'f' then SetForeground(value)
      else SetBackground(value)
  }

  /** A shorter run of the same digits never has a larger value. */
  lemma {:induction false} DecimalPrefix(d: seq<CChar>, k: nat)
    requires AllDigits(d) && k <= |d|
    ensures DecimalValue(d[..k]) <= DecimalValue(d)
    decreases |d| - k
  {
    if k < |d| {
      DecimalPrefix(d[..|d| - 1], k);
      assert d[..|d| - 1][..k] == d[..k];
    } else {
      assert d[..k] == d;
    }
  }

  lemma AppendDecimal(d: seq<CChar>, c: CChar)
    requires AllDigits(d) && IsDigit(c)
    ensures AllDigits(d + [c]) && DecimalValue(d + [c]) == DecimalValue(d) * 10 + DigitValue(c)
  {
    assert (d + [c])[..|d|] == d;
  }

  /** One pass of the digit loop over the run args[p..e]. */
  lemma DigitStep(args: seq<CChar>, p: nat, q: nat, e: nat)
    requires p <= q < e <= |args| && AllDigits(args[p..e])
    ensures IsDigit(args[q]) && AllDigits(args[p..q]) && AllDigits(args[p..q + 1])
    ensures DecimalValue(args[p..q + 1]) == DecimalValue(args[p..q]) * 10 + DigitValue(args[q])
    ensures DecimalValue(args[p..q + 1]) <= DecimalValue(args[p..e])
  {
    assert args[p..e][q - p] == args[q];
    assert args[p..e][..q - p] == args[p..q];
    assert args[p..q + 1] == args[p..q] + [args[q]];
    AppendDecimal(args[p..q], args[q]);
    assert args[p..e][..q + 1 - p] == args[p..q + 1];
    DecimalPrefix(args[p..e], q + 1 - p);
  }

  // ---- What the command reads ----

  /** The converse of ScanColor's postcondition: an argument string
      with the command's shape at these positions is read at exactly
      these positions, so the value is the whole digit run and whatever
      follows the run is ignored. */
  lemma ScanColorFinds(args: seq<CChar>, c: ColorArgs)
    requires c.targetAt < c.digitsAt < c.digitsEnd <= |args|
    requires AllSpaces(args[..c.targetAt]) && IsTarget(args[c.targetAt])
    requires AllSpaces(args[c.targetAt + 1..c.digitsAt])
    requires AllDigits(args[c.digitsAt..c.digitsEnd]) && !IsDigit(At(args, c.digitsEnd))
    ensures ScanColor(args) == Some(c)
  {
    assert forall k :: 0 <= k < c.targetAt ==> args[..c.targetAt][k] == args[k];
    SkipSpacesFinds(args, 0, c.targetAt);
    assert forall k :: c.targetAt + 1 <= k < c.digitsAt ==>
      args[c.targetAt + 1..c.digitsAt][k - c.targetAt - 1] == args[k];
    SkipSpacesFinds(args, c.targetAt + 1, c.digitsAt);
    assert forall k :: c.digitsAt <= k < c.digitsEnd ==>
      args[c.digitsAt..c.digitsEnd][k - c.digitsAt] == args[k];
    DigitsRun(args, c.digitsAt, c.digitsEnd);
  }

  lemma {:induction false} DigitsRun(s: seq<CChar>, i: nat, j: nat)
    requires i <= j <= |s| && !IsDigit(At(s, j))
    requires forall k :: i <= k < j ==> IsDigit(s[k])
    ensures DigitRun(s, i) == j
    decreases j - i
  {
    if i < j {
      DigitsRun(s, i + 1, j);
    }
  }

  /** Arguments that are only spaces (or nothing) print the usage text. */
  lemma BlankIsUsage(args: seq<CChar>)
    requires AllSpaces(args)
    ensures ParseColor(args) == ShowUsage
  {
    SkipSpacesFinds(args, 0, |args|);
  }

  /** The accepted values are exactly 0 to 15, and the colour set is the
      one the target names. */
  lemma ColorCommandBounds(args: seq<CChar>)
    ensures ParseColor(args).SetForeground? || ParseColor(args).SetBackground? ==>
      ParseColor(args).value <= MAX_COLOR
    ensures ParseColor(args).SetForeground? <==>
      ScanColor(args).Some? && args[ScanColor(args).value.targetAt] == 'f'
        && DecimalValue(ValueDigits(args)) <= MAX_COLOR
    ensures ParseColor(args).SetBackground? <==>
      ScanColor(args).Some? && args[ScanColor(args).value.targetAt] == 'b'
        && DecimalValue(ValueDigits(args)) <= MAX_COLOR
  {
  }

  /** The digit loop: `value = value * 10 + (*p - '0')` over the digit
      run at p. The caller keeps the run's value within a C `int`. */
  method ReadDecimal(args: seq<CChar>, p: nat) returns (value: int, q: nat)
    requires p <= |args| && DecimalValue(args[p..DigitRun(args, p)]) <= INT_MAX
    ensures q == DigitRun(args, p) && value == DecimalValue(args[p..q])
  {
    ghost var e := DigitRun(args, p);
    assert AllDigits(args[p..e]);
    value, q := 0, p;
    while '0' <= At(args, q) <= '9'
      invariant p <= q <= e && DigitRun(args, q) == e
      invariant AllDigits(args[p..q]) && value == DecimalValue(args[p..q])
      decreases |args| - q
    {
      DigitStep(args, p, q, e);
      assert value * 10 + (args[q] as int - '0' as int) <= INT_MAX;
      value := value * 10 + (args[q] as int - '0' as int);
      q := q + 1;
    }
  }

  /** The reading half of handle_color_command: everything up to the
      assignment of a colour. */
  method ReadColorCommand(args: seq<CChar>) returns (cmd: ColorCommand)
    requires ValueFits(args)
    ensures cmd == ParseColor(args)
  {
    var p := ScanSpaces(args, 0);
    if At(args, p) == NUL {
      return ShowUsage;
    }
    var target := At(args, p);
    p := p + 1;
    if target != 'f' && target != 'b' {
      return ShowUsage;
    }
    p := ScanSpaces(args, p);
    if At(args, p) < '0' || At(args, p) > '9' {
      return ShowUsage;
    }
    assert ValueDigits(args) == args[p..DigitRun(args, p)];
    var value;
    value, p := ReadDecimal(args, p);
    if value < 0 || value > MAX_COLOR {
      return RangeError;
    }
    if target == 'f' {
      return SetForeground(value);
    }
    return SetBackground(value);
  }

  /** The terminal colours kept in kernel.c. */
  class Terminal {
    var fg: U8
    var bg: U8

    constructor (fg0: U8, bg0: U8)
      ensures fg == fg0 && bg == bg0
    {
      fg := fg0;
      bg := bg0;
    }

    /** handle_color_command: the reply says which message was printed or
        which colour was set. Only the named colour changes. */
    method HandleColorCommand(args: seq<CChar>) returns (reply: ColorCommand)
      requires ValueFits(args)
      modifies this
      ensures reply == ParseColor(args)
      ensures reply.SetForeground? ==> fg == reply.value && bg == old(bg)
      ensures reply.SetBackground? ==> bg == reply.value && fg == old(fg)
      ensures reply.ShowUsage? || reply.RangeError? ==> fg == old(fg) && bg == old(bg)
    {
      reply := ReadColorCommand(args);
      ColorCommandBounds(args);
      if reply.SetForeground? {
        fg := reply.value;
      } else if reply.SetBackground? {
        bg := reply.value;
      }
    }
  }
}
