/** The control statements of basic.c: FOR and NEXT over the stack of
    loop frames, GOSUB and RETURN over the stack of return lines, and GOTO.
    The run loop of handle_run calls execute_line on the line at index i
    and then increments i; a statement that jumps therefore stores the
    index of the line BEFORE the one to run next. */
module BasicControl {
  import opened CTypes
  import opened BasicParser
  import opened BasicProgram
  import opened KernelString

  const MAX_FOR_LOOP_STACK := 8
  const MAX_GOSUB_STACK := 16

  /** The index of one of the variables A to Z. */
  type VarIndex = k: int | 0 <= k < VARIABLE_COUNT

  /** ForLoop: the loop variable, the limit, the step, and the index of
      the FOR line. */
  datatype ForLoop = ForLoop(variable: VarIndex, toValue: int, stepValue: int, sourceLine: int)

  /** What handle_for reads after the keyword: either a header, or the
      place where it gave up; `end` is where current_pos is left. */
  datatype ForHeader =
    | Rejected(end: nat)
    | Header(variable: VarIndex, start: int, toValue: int, stepValue: int, end: nat)

  /** The parsing part of handle_for from position i: blanks, a variable
      letter, "=", the start expression, "TO", the limit, and optionally
      "STEP" and the step, which is 1 without it. */
  function ForHeaderAt(s: seq<CChar>, vars: seq<int>, i: nat): (h: ForHeader)
    requires i <= |s| && |vars| == VARIABLE_COUNT
    ensures i <= h.end <= |s|
  {
    var j := SkipBlanks(s, i);
    if !IsVariable(At(s, j)) then Rejected(j) else FromEquals(s, vars, VariableIndex(At(s, j)), j + 1)
  }

  /** After the variable letter: "=", then the start expression. */
  function FromEquals(s: seq<CChar>, vars: seq<int>, k: VarIndex, i: nat): (h: ForHeader)
    requires i <= |s| && |vars| == VARIABLE_COUNT
    ensures i <= h.end <= |s|
  {
    var eq := MatchAt(s, i, "=");
    if !eq.0 then Rejected(eq.1) else FromTo(s, vars, k, ExprAt(s, vars, eq.1))
  }

  /** After the start expression `a`: "TO", then the limit. */
  function FromTo(s: seq<CChar>, vars: seq<int>, k: VarIndex, a: Parsed): (h: ForHeader)
    requires a.next <= |s| && |vars| == VARIABLE_COUNT
    ensures a.next <= h.end <= |s|
  {
    var to := MatchAt(s, a.next, "TO");
    if !to.0 then Rejected(to.1) else FromStep(s, vars, k, a.value, ExprAt(s, vars, to.1))
  }

  /** After the limit `t`: an optional "STEP" and the step. */
  function FromStep(s: seq<CChar>, vars: seq<int>, k: VarIndex, start: int, t: Parsed): (h: ForHeader)
    requires t.next <= |s| && |vars| == VARIABLE_COUNT
    ensures t.next <= h.end <= |s| && h.Header?
  {
    var st := MatchAt(s, t.next, "STEP");
    var step := if st.0 then ExprAt(s, vars, st.1) else Parsed(1, st.1);
    Header(k, start, t.value, step.value, step.next)
  }

  /** Without a letter after the blanks handle_for stops there; with one,
      the header names that letter's variable. */
  lemma ForHeaderVariable(s: seq<CChar>, vars: seq<int>, i: nat)
    requires i <= |s| && |vars| == VARIABLE_COUNT
    ensures var j := SkipBlanks(s, i);
      var h := ForHeaderAt(s, vars, i);
      && (!IsVariable(At(s, j)) <==> h == Rejected(j))
      && (h.Header? ==> h.variable == VariableIndex(At(s, j)) && j < |s|)
  {
    var j := SkipBlanks(s, i);
    if IsVariable(At(s, j)) {
      var h := FromEquals(s, vars, VariableIndex(At(s, j)), j + 1);
      assert j + 1 <= h.end;
    }
  }

  /** The keywords "=" and "TO" are required: when either is missing the
      header is rejected where the keyword was looked for. */
  lemma KeywordsRequired(s: seq<CChar>, vars: seq<int>, k: VarIndex, i: nat, a: Parsed)
    requires i <= |s| && a.next <= |s| && |vars| == VARIABLE_COUNT
    ensures !MatchAt(s, i, "=").0 ==> FromEquals(s, vars, k, i) == Rejected(SkipBlanks(s, i))
    ensures !MatchAt(s, a.next, "TO").0 ==> FromTo(s, vars, k, a) == Rejected(SkipBlanks(s, a.next))
  {
    MatchMeaning(s, i, "=");
    MatchMeaning(s, a.next, "TO");
  }

  /** Without "STEP" after the limit the step is 1 and the cursor stops
      after the blanks; with it, the step is the expression that follows. */
  lemma StepDefault(s: seq<CChar>, vars: seq<int>, k: VarIndex, start: int, t: Parsed)
    requires t.next <= |s| && |vars| == VARIABLE_COUNT
    ensures var st := MatchAt(s, t.next, "STEP");
      var h := FromStep(s, vars, k, start, t);
      && h.variable == k && h.start == start && h.toValue == t.value
      && (!st.0 ==> h.stepValue == 1 && h.end == SkipBlanks(s, t.next))
      && (st.0 ==> h.stepValue == ExprAt(s, vars, st.1).value && h.end == ExprAt(s, vars, st.1).next)
  {
    MatchMeaning(s, t.next, "STEP");
  }

  /** The interpreter's control state: the variables, the FOR frames and
      the GOSUB return lines from bottom to top, and the index of the
      current line. */
  datatype Control = Control(vars: seq<int>, frames: seq<ForLoop>, returnLines: seq<int>, index: int)

  /** Both stacks within their capacity, and all 26 variables. */
  predicate ControlOk(c: Control)
  {
    |c.vars| == VARIABLE_COUNT && |c.frames| <= MAX_FOR_LOOP_STACK && |c.returnLines| <= MAX_GOSUB_STACK
  }

  /** A statement's return code with the control state after it. */
  datatype Outcome = Outcome(code: int, after: Control)

  /** The end test of handle_next: beyond the limit, upward for a
      positive step and downward otherwise. */
  predicate Passed(v: int, toValue: int, stepValue: int)
  {
    if stepValue > 0 then v > toValue else v < toValue
  }

  /** handle_for once the header is read: a full stack fails before
      anything is parsed, a rejected header fails, and otherwise the
      variable is set to the start value and a frame is pushed that
      remembers the current line. */
  function ForStep(c: Control, h: ForHeader): (o: Outcome)
    requires ControlOk(c)
    ensures ControlOk(o.after)
  {
    if |c.frames| >= MAX_FOR_LOOP_STACK then Outcome(-1, c)
    else match h
      case Rejected(_) => Outcome(-1, c)
      case Header(k, a, t, st, _) =>
        Outcome(0, c.(vars := c.vars[k := a], frames := c.frames + [ForLoop(k, t, st, c.index)]))
  }

  /** handle_next as written: the step is added to the variable of the top
      frame; a passed limit pops the frame, otherwise the index is set to
      the FOR line's index minus one. */
  function NextStep(c: Control): (o: Outcome)
    requires ControlOk(c)
    ensures ControlOk(o.after)
  {
    if |c.frames| == 0 then Outcome(-1, c)
    else
      var f := c.frames[|c.frames| - 1];
      var v := c.vars[f.variable] + f.stepValue;
      if Passed(v, f.toValue, f.stepValue) then
        Outcome(0, c.(vars := c.vars[f.variable := v], frames := c.frames[..|c.frames| - 1]))
      else
        Outcome(0, c.(vars := c.vars[f.variable := v], index := f.sourceLine - 1))
  }

  /** handle_next as evidently intended: the loop goes back to the line
      after the FOR line, so the index is set to the FOR line's index. */
  function NextFixed(c: Control): (o: Outcome)
    requires ControlOk(c)
    ensures ControlOk(o.after)
  {
    if |c.frames| == 0 then Outcome(-1, c)
    else
      var f := c.frames[|c.frames| - 1];
      var v := c.vars[f.variable] + f.stepValue;
      if Passed(v, f.toValue, f.stepValue) then
        Outcome(0, c.(vars := c.vars[f.variable := v], frames := c.frames[..|c.frames| - 1]))
      else
        Outcome(0, c.(vars := c.vars[f.variable := v], index := f.sourceLine))
  }

  /** handle_goto with the index find_line_index gave for the target line
      number: -1 for a missing line, otherwise the index before it. */
  function GotoStep(c: Control, target: int): (o: Outcome)
    requires ControlOk(c)
    ensures ControlOk(o.after)
  {
    if target == -1 then Outcome(-1, c) else Outcome(0, c.(index := target - 1))
  }

  /** handle_gosub as written: the current index is pushed, then
      handle_goto runs on a local variable, so its code is returned but
      the jump is lost. */
  function GosubStep(c: Control, target: int): (o: Outcome)
    requires ControlOk(c)
    ensures ControlOk(o.after)
  {
    if |c.returnLines| >= MAX_GOSUB_STACK then Outcome(-1, c)
    else
      var pushed := c.(returnLines := c.returnLines + [c.index]);
      Outcome(GotoStep(pushed, target).code, pushed)
  }

  /** handle_gosub as evidently intended: the jump of handle_goto goes to
      the current index. */
  function GosubFixed(c: Control, target: int): (o: Outcome)
    requires ControlOk(c)
    ensures ControlOk(o.after)
  {
    if |c.returnLines| >= MAX_GOSUB_STACK then Outcome(-1, c)
    else GotoStep(c.(returnLines := c.returnLines + [c.index]), target)
  }

  /** handle_return: the top return line is popped into the index. */
  function ReturnStep(c: Control): (o: Outcome)
    requires ControlOk(c)
    ensures ControlOk(o.after)
  {
    if |c.returnLines| == 0 then Outcome(-1, c)
    else Outcome(0, c.(returnLines := c.returnLines[..|c.returnLines| - 1], index := c.returnLines[|c.returnLines| - 1]))
  }

  /** FOR succeeds exactly with a free frame and a well-formed header; it
      then sets only the loop variable, and pushes a frame holding the
      limit, the step and the FOR line; a failing FOR changes nothing. */
  lemma ForMeaning(c: Control, h: ForHeader)
    requires ControlOk(c)
    ensures var o := ForStep(c, h);
      && (o.code == 0 <==> |c.frames| < MAX_FOR_LOOP_STACK && h.Header?)
      && (o.code != 0 ==> o.code == -1 && o.after == c)
      && (o.code == 0 ==>
            && o.after.vars[h.variable] == h.start
            && (forall k :: 0 <= k < VARIABLE_COUNT && k != h.variable ==> o.after.vars[k] == c.vars[k])
            && o.after.frames[..|c.frames|] == c.frames
            && o.after.frames[|c.frames|] == ForLoop(h.variable, h.toValue, h.stepValue, c.index)
            && |o.after.frames| == |c.frames| + 1
            && o.after.returnLines == c.returnLines && o.after.index == c.index)
  {
  }

  /** NEXT fails exactly on an empty stack. Otherwise it advances the
      top frame's variable by the step and no other variable; it pops the
      frame exactly when the limit is passed, and otherwise leaves the
      frames alone and makes the FOR line itself the next line to run. */
  lemma NextMeaning(c: Control)
    requires ControlOk(c)
    ensures var o := NextStep(c);
      && (o.code == -1 <==> c.frames == [])
      && (o.code != -1 ==> o.code == 0)
      && (c.frames == [] ==> o.after == c)
      && (c.frames != [] ==>
            var f := c.frames[|c.frames| - 1];
            var v := c.vars[f.variable] + f.stepValue;
            && o.after.vars[f.variable] == v
            && (forall k :: 0 <= k < VARIABLE_COUNT && k != f.variable ==> o.after.vars[k] == c.vars[k])
            && o.after.returnLines == c.returnLines
            && (Passed(v, f.toValue, f.stepValue) ==>
                  o.after.frames + [f] == c.frames && o.after.index == c.index)
            && (!Passed(v, f.toValue, f.stepValue) ==>
                  o.after.frames == c.frames && o.after.index + 1 == f.sourceLine))
  {
    if c.frames != [] {
      var n := |c.frames| - 1;
      assert c.frames[..n] + [c.frames[n]] == c.frames;
    }
  }

  /** GOTO succeeds exactly when a line with the number exists, and the
      next line to run is then that line. */
  lemma GotoMeaning(c: Control, lines: seq<ProgramLine>, n: int)
    requires ControlOk(c)
    ensures var o := GotoStep(c, FindLine(lines, n, 0));
      && (o.code == -1 <==> forall k :: 0 <= k < |lines| ==> lines[k].lineNumber != n)
      && (o.code != -1 ==> o.code == 0 && 0 <= o.after.index + 1 < |lines| && lines[o.after.index + 1].lineNumber == n)
      && o.after.vars == c.vars && o.after.frames == c.frames && o.after.returnLines == c.returnLines
  {
    FindLineMeaning(lines, n, 0);
  }

  /** As written, GOSUB never moves the index: the line after the GOSUB
      runs next whether or not the target exists. It fails on a full
      stack, and when the target line does not exist, in which case the
      return line has been pushed anyway. */
  lemma GosubNeverJumps(c: Control, target: int)
    requires ControlOk(c)
    ensures var o := GosubStep(c, target);
      && o.after.index == c.index
      && (o.code == 0 <==> |c.returnLines| < MAX_GOSUB_STACK && target != -1)
      && (|c.returnLines| < MAX_GOSUB_STACK ==> o.after.returnLines == c.returnLines + [c.index])
  {
  }

  /** As written, a GOSUB followed at once by RETURN leaves the stack as
      it was and continues after the GOSUB line, just as if the
      subroutine had been skipped. */
  lemma GosubThenReturn(c: Control, target: int)
    requires ControlOk(c) && |c.returnLines| < MAX_GOSUB_STACK
    ensures ReturnStep(GosubStep(c, target).after) == Outcome(0, c)
  {
    var pushed := c.returnLines + [c.index];
    assert pushed[..|pushed| - 1] == c.returnLines;
  }

  /** GOSUB as evidently intended: with a free return slot and an existing
      target it runs the target line next; a RETURN from any state whose
      return stack is the one GOSUB left comes back to the line after the
      GOSUB with the return stack as it was before. */
  lemma GosubReturnRoundTrip(c: Control, lines: seq<ProgramLine>, n: int, d: Control)
    requires ControlOk(c) && ControlOk(d) && |c.returnLines| < MAX_GOSUB_STACK
    requires FindLine(lines, n, 0) != -1
    requires d.returnLines == GosubFixed(c, FindLine(lines, n, 0)).after.returnLines
    ensures var g := GosubFixed(c, FindLine(lines, n, 0));
      && g.code == 0
      && lines[g.after.index + 1].lineNumber == n
      && g.after.vars == c.vars && g.after.frames == c.frames
      && ReturnStep(d) == Outcome(0, d.(returnLines := c.returnLines, index := c.index))
  {
    var pushed := c.returnLines + [c.index];
    assert pushed[..|pushed| - 1] == c.returnLines;
  }

  // ---------------------------------------------------------------------
  // A FOR loop as the run loop executes it: line c.index holds the FOR
  // statement, line n >= c.index holds its NEXT, and the lines between do
  // not touch the variables or the stacks.

  /** As written: FOR, then the body up to the NEXT line, then NEXT, and
      the run loop's increment. When NEXT sends the run back to the FOR
      line, handle_for runs again: it parses the header of line `s` from
      position `i` afresh, against the variables as they are then. The
      result is the outcome of the last statement that runs. */
  function ForNextAsWritten(c: Control, s: seq<CChar>, i: nat, n: int): (o: Outcome)
    requires ControlOk(c) && c.index <= n && i <= |s|
    decreases MAX_FOR_LOOP_STACK - |c.frames|
  {
    var f := ForStep(c, ForHeaderAt(s, c.vars, i));
    if f.code != 0 then f
    else
      var x := NextStep(f.after.(index := n));
      if x.after.index + 1 == c.index then ForNextAsWritten(x.after.(index := c.index), s, i, n)
      else x
  }

  /** The variables with variable k set to w. */
  function WithVar(vars: seq<int>, k: VarIndex, w: int): (r: seq<int>)
    requires |vars| == VARIABLE_COUNT
    ensures |r| == VARIABLE_COUNT && r[k] == w
    ensures forall j :: 0 <= j < VARIABLE_COUNT && j != k ==> r[j] == vars[j]
  {
    vars[k := w]
  }

  /** The header of line `s` reads the same whatever value the loop
      variable holds: its start, limit and step do not mention it. */
  ghost predicate IgnoresLoopVariable(s: seq<CChar>, vars: seq<int>, i: nat)
    requires i <= |s| && |vars| == VARIABLE_COUNT
  {
    var h := ForHeaderAt(s, vars, i);
    h.Header? && forall w: int :: ForHeaderAt(s, WithVar(vars, h.variable, w), i) == h
  }

  /** The finding: as written, a FOR loop whose header does not read its
      own variable completes only when its body is meant to run once. Any
      such loop whose body should run at least twice makes NEXT re-run
      the FOR statement, which resets the variable and pushes one more
      frame each time, until FOR fails on a full stack. */
  lemma {:induction false} NextReentersFor(c: Control, s: seq<CChar>, i: nat, n: int)
    requires ControlOk(c) && c.index <= n && i <= |s| && |c.frames| < MAX_FOR_LOOP_STACK
    requires IgnoresLoopVariable(s, c.vars, i)
    ensures var h := ForHeaderAt(s, c.vars, i);
      var o := ForNextAsWritten(c, s, i, n);
      && (o.code == 0 <==> Passed(h.start + h.stepValue, h.toValue, h.stepValue))
      && (o.code == 0 ==> o.after.frames == c.frames && o.after.index == n)
      && (o.code != 0 ==> o.code == -1 && |o.after.frames| == MAX_FOR_LOOP_STACK)
    decreases MAX_FOR_LOOP_STACK - |c.frames|
  {
    var h := ForHeaderAt(s, c.vars, i);
    var c' := ReentryState(c, h);
    ForNextOnce(c, s, i, n);
    if !Passed(h.start + h.stepValue, h.toValue, h.stepValue) {
      ReentryKeepsHeader(c, s, i);
      if |c'.frames| < MAX_FOR_LOOP_STACK {
        NextReentersFor(c', s, i, n);
      }
    }
  }

  /** The state in which FOR runs again after one FOR / NEXT round that
      did not pass the limit: the variable stepped once, one more frame,
      and the index back on the FOR line. */
  function ReentryState(c: Control, h: ForHeader): (c': Control)
    requires ControlOk(c) && |c.frames| < MAX_FOR_LOOP_STACK && h.Header?
    ensures ControlOk(c') && |c'.frames| == |c.frames| + 1 && c'.index == c.index
  {
    Control(WithVar(c.vars, h.variable, h.start + h.stepValue),
            c.frames + [ForLoop(h.variable, h.toValue, h.stepValue, c.index)], c.returnLines, c.index)
  }

  /** One FOR / NEXT round as written: a passed limit completes the loop
      with the frames as before; otherwise the run is back at the FOR line
      in the re-entry state. */
  lemma ForNextOnce(c: Control, s: seq<CChar>, i: nat, n: int)
    requires ControlOk(c) && c.index <= n && i <= |s| && |c.frames| < MAX_FOR_LOOP_STACK
    requires ForHeaderAt(s, c.vars, i).Header?
    ensures var h := ForHeaderAt(s, c.vars, i);
      var o := ForNextAsWritten(c, s, i, n);
      && (Passed(h.start + h.stepValue, h.toValue, h.stepValue) ==>
            o.code == 0 && o.after.frames == c.frames && o.after.index == n)
      && (!Passed(h.start + h.stepValue, h.toValue, h.stepValue) ==>
            o == ForNextAsWritten(ReentryState(c, h), s, i, n))
  {
    var h := ForHeaderAt(s, c.vars, i);
    var pushed := c.frames + [ForLoop(h.variable, h.toValue, h.stepValue, c.index)];
    assert pushed[..|pushed| - 1] == c.frames;
    var f := ForStep(c, h);
    assert f == Outcome(0, c.(vars := c.vars[h.variable := h.start], frames := pushed));
    var x := NextStep(f.after.(index := n));
    var stepped := c.vars[h.variable := h.start][h.variable := h.start + h.stepValue];
    assert stepped == WithVar(c.vars, h.variable, h.start + h.stepValue);
    if Passed(h.start + h.stepValue, h.toValue, h.stepValue) {
      assert x == Outcome(0, Control(stepped, c.frames, c.returnLines, n));
    } else {
      assert x == Outcome(0, Control(stepped, pushed, c.returnLines, c.index - 1));
      assert x.after.(index := c.index) == ReentryState(c, h);
    }
  }

  /** A header that ignores its loop variable reads the same, and still
      ignores it, in the re-entry state. */
  lemma ReentryKeepsHeader(c: Control, s: seq<CChar>, i: nat)
    requires ControlOk(c) && i <= |s| && |c.frames| < MAX_FOR_LOOP_STACK
    requires IgnoresLoopVariable(s, c.vars, i)
    ensures var h := ForHeaderAt(s, c.vars, i);
      var c' := ReentryState(c, h);
      ForHeaderAt(s, c'.vars, i) == h && IgnoresLoopVariable(s, c'.vars, i)
  {
    var h := ForHeaderAt(s, c.vars, i);
    var c' := ReentryState(c, h);
    assert ForHeaderAt(s, c'.vars, i) == h;
    forall w: int
      ensures ForHeaderAt(s, WithVar(c'.vars, h.variable, w), i) == h
    {
      assert WithVar(c'.vars, h.variable, w) == WithVar(c.vars, h.variable, w);
    }
  }

  /** As evidently intended: after FOR, the NEXT line runs repeatedly
      while it jumps back; the result counts the jumps. */
  function NextRounds(c: Control, n: int): (r: (Outcome, nat))
    requires ControlOk(c) && c.frames != [] && c.frames[|c.frames| - 1].stepValue > 0
    decreases Remaining(c)
  {
    var x := NextFixed(c.(index := n));
    if |x.after.frames| < |c.frames| then (x, 0)
    else
      var r := NextRounds(x.after, n);
      (r.0, r.1 + 1)
  }

  /** How far the top frame's variable is from passing its limit upward. */
  function Remaining(c: Control): nat
    requires ControlOk(c) && c.frames != []
  {
    var f := c.frames[|c.frames| - 1];
    if c.vars[f.variable] <= f.toValue then f.toValue - c.vars[f.variable] + 1 else 0
  }

  /** With the corrected NEXT and a positive step, the NEXT line jumps
      back once for every further value v + step, v + 2 * step, ... that
      has not passed the limit, and then pops the frame; the run goes on
      after the NEXT line with the variable at the first value past the
      limit. */
  lemma {:induction false} NextRoundsCount(c: Control, n: int)
    requires ControlOk(c) && c.frames != [] && c.frames[|c.frames| - 1].stepValue > 0
    ensures var r := NextRounds(c, n);
      var f := c.frames[|c.frames| - 1];
      var v := c.vars[f.variable];
      && (v > f.toValue ==> r.1 == 0)
      && (v <= f.toValue ==> v + r.1 * f.stepValue <= f.toValue < v + (r.1 + 1) * f.stepValue)
      && r.0 == Outcome(0, Control(c.vars[f.variable := v + (r.1 + 1) * f.stepValue],
                                   c.frames[..|c.frames| - 1], c.returnLines, n))
    decreases Remaining(c)
  {
    var f := c.frames[|c.frames| - 1];
    var v := c.vars[f.variable];
    if v + f.stepValue > f.toValue {
      NextRoundsLast(c, n);
    } else {
      var c' := Control(c.vars[f.variable := v + f.stepValue], c.frames, c.returnLines, f.sourceLine);
      NextRoundsAgain(c, n, c');
      NextRoundsCount(c', n);
      var r, r' := NextRounds(c, n), NextRounds(c', n);
      Distribute(r'.1, f.stepValue);
      Distribute(r.1, f.stepValue);
      assert c'.vars[f.variable := v + (r.1 + 1) * f.stepValue]
          == c.vars[f.variable := v + (r.1 + 1) * f.stepValue];
    }
  }

  /** The NEXT round that passes the limit pops the frame. */
  lemma NextRoundsLast(c: Control, n: int)
    requires ControlOk(c) && c.frames != [] && c.frames[|c.frames| - 1].stepValue > 0
    requires var f := c.frames[|c.frames| - 1]; c.vars[f.variable] + f.stepValue > f.toValue
    ensures var f := c.frames[|c.frames| - 1];
      NextRounds(c, n) == (Outcome(0, Control(c.vars[f.variable := c.vars[f.variable] + f.stepValue],
                                               c.frames[..|c.frames| - 1], c.returnLines, n)), 0)
  {
  }

  /** A NEXT round within the limit steps the variable, jumps back to the
      FOR line and leaves the stack as it was. */
  lemma NextRoundsAgain(c: Control, n: int, c': Control)
    requires ControlOk(c) && c.frames != [] && c.frames[|c.frames| - 1].stepValue > 0
    requires var f := c.frames[|c.frames| - 1]; c.vars[f.variable] + f.stepValue <= f.toValue
    requires var f := c.frames[|c.frames| - 1];
      c' == Control(c.vars[f.variable := c.vars[f.variable] + f.stepValue], c.frames, c.returnLines, f.sourceLine)
    ensures ControlOk(c') && c'.frames == c.frames && Remaining(c') < Remaining(c)
    ensures NextFixed(c.(index := n)) == Outcome(0, c')
  {
    var f := c.frames[|c.frames| - 1];
    assert !Passed(c.vars[f.variable] + f.stepValue, f.toValue, f.stepValue);
  }

  lemma Distribute(j: int, step: int)
    ensures (j + 1) * step == j * step + step
  {
  }

  /** The corrected loop of FOR and NEXT: FOR, then the NEXT rounds. */
  function ForNextFixed(c: Control, h: ForHeader, n: int): (r: (Outcome, nat))
    requires ControlOk(c) && h.Header? && h.stepValue > 0
  {
    var f := ForStep(c, h);
    if f.code != 0 then (f, 0) else NextRounds(f.after, n)
  }

  /** With the corrected NEXT, a FOR loop from `start` to a limit not below
      it with a positive step runs its body once for each of start,
      start + step, ... up to the last value not past the limit; then the
      frames are as they were before the FOR, the variable holds the
      first value past the limit, and the run goes on after the NEXT line. */
  lemma ForNextFixedRuns(c: Control, h: ForHeader, n: int)
    requires ControlOk(c) && h.Header? && h.stepValue > 0 && h.start <= h.toValue
    requires |c.frames| < MAX_FOR_LOOP_STACK
    ensures var r := ForNextFixed(c, h, n);
      var runs := r.1 + 1;
      && h.start + (runs - 1) * h.stepValue <= h.toValue < h.start + runs * h.stepValue
      && r.0.code == 0 && r.0.after.frames == c.frames && r.0.after.index == n
      && r.0.after.returnLines == c.returnLines
      && r.0.after.vars == c.vars[h.variable := h.start + runs * h.stepValue]
  {
    var pushed := c.frames + [ForLoop(h.variable, h.toValue, h.stepValue, c.index)];
    var started := Control(c.vars[h.variable := h.start], pushed, c.returnLines, c.index);
    assert ForStep(c, h) == Outcome(0, started);
    assert pushed[..|pushed| - 1] == c.frames;
    assert started.vars[h.variable] == h.start;
    NextRoundsCount(started, n);
    var r := NextRounds(started, n);
    var last := h.start + (r.1 + 1) * h.stepValue;
    assert r.0 == Outcome(0, Control(started.vars[h.variable := last], c.frames, c.returnLines, n));
    assert started.vars[h.variable := last] == c.vars[h.variable := last];
  }

  /** The interpreter's control state in place: the FOR and GOSUB stacks
      as fixed arrays with their stack pointers, next to the parser, which
      holds the variables, and the program store. */
  class Interpreter {
    const parser: Parser
    const store: ProgramStore
    /** for_loop_stack and for_loop_sp. */
    const forStack: array<ForLoop>
    var forSp: nat
    /** gosub_stack and gosub_sp. */
    const gosubStack: array<int>
    var gosubSp: nat

    predicate Valid()
      reads this, parser, store, store.program
    {
      && parser.Valid() && store.Valid()
      && forStack.Length == MAX_FOR_LOOP_STACK && forSp <= MAX_FOR_LOOP_STACK
      && gosubStack.Length == MAX_GOSUB_STACK && gosubSp <= MAX_GOSUB_STACK
    }

    /** The control state with the current line index `index`. */
    function Now(index: int): (c: Control)
      requires Valid()
      reads this, parser, store, store.program, forStack, gosubStack
      ensures ControlOk(c)
    {
      Control(parser.vars, forStack[..forSp], gosubStack[..gosubSp], index)
    }

    /** handle_run's reset: both stack pointers are zeroed. */
    constructor (parser: Parser, store: ProgramStore)
      requires parser.Valid() && store.Valid()
      ensures Valid() && this.parser == parser && this.store == store
      ensures forSp == 0 && gosubSp == 0 && fresh(forStack) && fresh(gosubStack)
    {
      this.parser := parser;
      this.store := store;
      forStack := new ForLoop[MAX_FOR_LOOP_STACK](_ => ForLoop(0, 0, 0, 0));
      forSp := 0;
      gosubStack := new int[MAX_GOSUB_STACK](_ => 0);
      gosubSp := 0;
    }

    /** The parsing part of handle_for. */
    method ReadForHeader() returns (h: ForHeader)
      requires parser.Valid()
      modifies parser
      ensures parser.Valid() && parser.line == old(parser.line) && parser.vars == old(parser.vars)
      ensures h == ForHeaderAt(parser.line, parser.vars, old(parser.pos)) && parser.pos == h.end
    {
      parser.SkipWhitespace();
      var c := At(parser.line, parser.pos);
      if !IsVariable(c) {
        return Rejected(parser.pos);
      }
      parser.pos := parser.pos + 1;
      h := ReadFromEquals(VariableIndex(c));
    }

    method ReadFromEquals(k: VarIndex) returns (h: ForHeader)
      requires parser.Valid()
      modifies parser
      ensures parser.Valid() && parser.line == old(parser.line) && parser.vars == old(parser.vars)
      ensures h == FromEquals(parser.line, parser.vars, k, old(parser.pos)) && parser.pos == h.end
    {
      var eq := parser.Match("=");
      if !eq {
        return Rejected(parser.pos);
      }
      var a := parser.ParseExpression();
      h := ReadFromTo(k, a);
    }

    method ReadFromTo(k: VarIndex, a: int) returns (h: ForHeader)
      requires parser.Valid()
      modifies parser
      ensures parser.Valid() && parser.line == old(parser.line) && parser.vars == old(parser.vars)
      ensures h == FromTo(parser.line, parser.vars, k, Parsed(a, old(parser.pos))) && parser.pos == h.end
    {
      var to := parser.Match("TO");
      if !to {
        return Rejected(parser.pos);
      }
      var t := parser.ParseExpression();
      h := ReadFromStep(k, a, t);
    }

    method ReadFromStep(k: VarIndex, a: int, t: int) returns (h: ForHeader)
      requires parser.Valid()
      modifies parser
      ensures parser.Valid() && parser.line == old(parser.line) && parser.vars == old(parser.vars)
      ensures h == FromStep(parser.line, parser.vars, k, a, Parsed(t, old(parser.pos))) && parser.pos == h.end
    {
      var step := 1;
      var st := parser.Match("STEP");
      if st {
        step := parser.ParseExpression();
      }
      h := Header(k, a, t, step, parser.pos);
    }

    /** handle_for at line `index`. */
    method For(index: int) returns (r: int)
      requires Valid()
      modifies this, parser, forStack
      ensures Valid() && parser.line == old(parser.line)
      ensures var h := ForHeaderAt(old(parser.line), old(parser.vars), old(parser.pos));
        && Outcome(r, Now(index)) == ForStep(old(Now(index)), h)
        && parser.pos == (if old(forSp) >= MAX_FOR_LOOP_STACK then old(parser.pos) else h.end)
    {
      if forSp >= MAX_FOR_LOOP_STACK {
        return -1;
      }
      var h := ReadForHeader();
      r := Push(h, index);
    }

    /** The end of handle_for with the header read: the variable is set
        and the frame pushed. */
    method Push(h: ForHeader, index: int) returns (r: int)
      requires Valid() && forSp < MAX_FOR_LOOP_STACK
      modifies this, parser, forStack
      ensures Valid() && parser.line == old(parser.line) && parser.pos == old(parser.pos)
      ensures Outcome(r, Now(index)) == ForStep(old(Now(index)), h)
    {
      if h.Rejected? {
        return -1;
      }
      parser.vars := parser.vars[h.variable := h.start];
      forStack[forSp] := ForLoop(h.variable, h.toValue, h.stepValue, index);
      forSp := forSp + 1;
      r := 0;
    }

    /** handle_next at line `index`; `index'` is the current index after it. */
    method Next(index: int) returns (r: int, index': int)
      requires Valid()
      modifies this, parser
      ensures Valid() && parser.line == old(parser.line) && parser.pos == old(parser.pos)
      ensures Outcome(r, Now(index')) == NextStep(old(Now(index)))
    {
      if forSp == 0 {
        return -1, index;
      }
      var f := forStack[forSp - 1];
      var v := parser.vars[f.variable] + f.stepValue;
      parser.vars := parser.vars[f.variable := v];
      var finished := if f.stepValue > 0 then v > f.toValue else v < f.toValue;
      if finished {
        forSp := forSp - 1;
        index' := index;
      } else {
        index' := f.sourceLine - 1;
      }
      r := 0;
    }

    /** handle_goto at line `index`: the target line number is an
        expression. */
    method Goto(index: int) returns (r: int, index': int)
      requires Valid()
      modifies parser
      ensures Valid() && parser.line == old(parser.line) && parser.vars == old(parser.vars)
      ensures var e := ExprAt(old(parser.line), old(parser.vars), old(parser.pos));
        && parser.pos == e.next
        && Outcome(r, Now(index')) == GotoStep(Now(index), FindLine(store.Lines(), e.value, 0))
    {
      var target := parser.ParseExpression();
      var k := store.FindLineIndex(target);
      if k == -1 {
        return -1, index;
      }
      return 0, k - 1;
    }

    /** handle_gosub at line `index`, as written. */
    method Gosub(index: int) returns (r: int)
      requires Valid()
      modifies this, parser, gosubStack
      ensures Valid() && parser.line == old(parser.line) && parser.vars == old(parser.vars)
      ensures var e := ExprAt(old(parser.line), old(parser.vars), old(parser.pos));
        && parser.pos == (if old(gosubSp) >= MAX_GOSUB_STACK then old(parser.pos) else e.next)
        && Outcome(r, Now(index)) == GosubStep(old(Now(index)), FindLine(store.Lines(), e.value, 0))
    {
      if gosubSp >= MAX_GOSUB_STACK {
        return -1;
      }
      gosubStack[gosubSp] := index;
      gosubSp := gosubSp + 1;
      var discarded;
      r, discarded := Goto(index);
    }

    /** handle_return at line `index`. */
    method Return(index: int) returns (r: int, index': int)
      requires Valid()
      modifies this
      ensures Valid()
      ensures Outcome(r, Now(index')) == ReturnStep(old(Now(index)))
    {
      if gosubSp == 0 {
        return -1, index;
      }
      gosubSp := gosubSp - 1;
      return 0, gosubStack[gosubSp];
    }
  }
}
