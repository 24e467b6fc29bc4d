/** The tokenizer and the recursive-descent integer expression parser of
    the BASIC interpreter (basic.c lines 74-96 and 151-219). The parser
    walks a global cursor through the current line and reads the values of
    the variables A-Z. C's int arithmetic is modelled on unbounded
    integers, with division truncating toward zero. */
module BasicParser {
  import opened CTypes
  import opened KernelString

  /** MAX_VARIABLES: 'A' through 'Z'. */
  const VARIABLE_COUNT := 26

  predicate IsBlank(c: CChar) { c == ' ' || c == '\t' }
  predicate IsVariable(c: CChar) { 'A' <= c <= 'Z' }

  function VariableIndex(c: CChar): (k: nat)
    requires IsVariable(c)
    ensures k < VARIABLE_COUNT
  {
    c as int - 'A' as int
  }

  /** Where skip_whitespace leaves the cursor: the first character at or
      after `i` that is neither a space nor a tab. */
  function SkipBlanks(s: seq<CChar>, i: nat): (j: nat)
    requires i <= |s|
    ensures i <= j <= |s|
    ensures !IsBlank(At(s, j))
    decreases |s| - i
  {
    if IsBlank(At(s, i)) then SkipBlanks(s, i + 1) else i
  }

  /** The characters match accepts right after a keyword. */
  predicate Boundary(c: CChar)
  {
    c == ' ' || c == '\t' || c == NUL || c == '\n' || c == '"' || IsDigit(c) || c == '(' || c == '-'
  }

  /** match(keyword) from position i: whether it matched, and where the
      cursor ends. The blanks are skipped even when the keyword does not
      match. */
  function MatchAt(s: seq<CChar>, i: nat, kw: seq<CChar>): (r: (bool, nat))
    requires i <= |s|
    ensures i <= r.1 <= |s|
  {
    var j := SkipBlanks(s, i);
    if Take(s[j..], |kw|) == kw && Boundary(At(s, j + |kw|)) then (true, j + |kw|) else (false, j)
  }

  /** A keyword matches exactly when it follows the blanks and is followed
      by a boundary character, so it is never the start of a longer word
      such as PRINTX; the cursor moves past it, or only past the blanks. */
  lemma MatchMeaning(s: seq<CChar>, i: nat, kw: seq<CChar>)
    requires i <= |s|
    ensures var j := SkipBlanks(s, i);
      var r := MatchAt(s, i, kw);
      && (r.0 <==> j + |kw| <= |s| && s[j..j + |kw|] == kw && Boundary(At(s, j + |kw|)))
      && (r.0 ==> r.1 == j + |kw| && !IsVariable(At(s, r.1)))
      && (!r.0 ==> r.1 == j)
  {
    var j := SkipBlanks(s, i);
    if j + |kw| <= |s| {
      assert Take(s[j..], |kw|) == s[j..j + |kw|];
    }
  }

  /** A parse result: the value and where the cursor stops. */
  datatype Parsed = Parsed(value: int, next: nat)

  /** C's int division, which truncates toward zero. */
  function CDiv(a: int, b: int): int
    requires b != 0
  {
    var q := Abs(a) / Abs(b);
    if (a < 0) == (b < 0) then q else -q
  }

  function Abs(x: int): nat { if x < 0 then -x else x }

  /** The quotient rounds toward zero: negating either operand negates
      it, and for a non-negative dividend and a positive divisor it is the
      largest multiple of the divisor not above the dividend. */
  lemma CDivMeaning(a: int, b: int)
    requires b != 0
    ensures CDiv(-a, b) == -CDiv(a, b) && CDiv(a, -b) == -CDiv(a, b)
    ensures a >= 0 && b > 0 ==> 0 <= CDiv(a, b) * b <= a < CDiv(a, b) * b + b
  {
    CDivSigns(a, b);
    if a >= 0 && b > 0 {
      DivisionParts(a, b);
    }
  }

  lemma CDivSigns(a: int, b: int)
    requires b != 0
    ensures CDiv(-a, b) == -CDiv(a, b) && CDiv(a, -b) == -CDiv(a, b)
  {
    assert Abs(-a) == Abs(a) && Abs(-b) == Abs(b);
    if a == 0 {
      assert Abs(a) / Abs(b) == 0;
    }
  }

  lemma DivisionParts(x: nat, y: nat)
    requires y != 0
    ensures 0 <= x / y * y <= x < x / y * y + y
  {
  }

  /** The digit loop of parse_factor: accumulate `acc * 10 + digit` while
      the cursor is on a digit. */
  function Digits(s: seq<CChar>, i: nat, acc: int): (r: Parsed)
    requires i <= |s|
    ensures i <= r.next <= |s|
    ensures !IsDigit(At(s, r.next))
    decreases |s| - i
  {
    if IsDigit(At(s, i)) then Digits(s, i + 1, acc * 10 + DigitValue(s[i])) else Parsed(acc, i)
  }

  /** parse_factor from position i: blanks, then an optional '-' that
      negates the operand after it. */
  function FactorAt(s: seq<CChar>, vars: seq<int>, i: nat): (r: Parsed)
    requires i <= |s| && |vars| == VARIABLE_COUNT
    ensures i <= r.next <= |s|
    decreases |s| - i, 1
  {
    var j := SkipBlanks(s, i);
    if At(s, j) == '-' then
      var a := OperandAt(s, vars, j + 1);
      Parsed(a.value * -1, a.next)
    else
      OperandAt(s, vars, j)
  }

  /** The operand of parse_factor at position k: a decimal literal, a
      variable, or a parenthesised expression whose closing ')' is
      optional (its absence only prints an error). Anything else is 0
      without consuming it. */
  function OperandAt(s: seq<CChar>, vars: seq<int>, k: nat): (r: Parsed)
    requires k <= |s| && |vars| == VARIABLE_COUNT
    ensures k <= r.next <= |s|
    decreases |s| - k, 0
  {
    var c := At(s, k);
    if IsDigit(c) then
      Digits(s, k, 0)
    else if IsVariable(c) then
      Parsed(vars[VariableIndex(c)], k + 1)
    else if c == '(' then
      var e := ExprAt(s, vars, k + 1);
      var m := SkipBlanks(s, e.next);
      Parsed(e.value, if At(s, m) == ')' then m + 1 else m)
    else
      Parsed(0, k)
  }

  /** parse_term from position i: a factor, then the loop over '*' and '/'. */
  function TermAt(s: seq<CChar>, vars: seq<int>, i: nat): (r: Parsed)
    requires i <= |s| && |vars| == VARIABLE_COUNT
    ensures i <= r.next <= |s|
    decreases |s| - i, 3
  {
    var f := FactorAt(s, vars, i);
    TermLoop(s, vars, f.value, f.next)
  }

  /** The loop of parse_term with `left` so far. A zero divisor makes the
      term 0 at once, with the cursor after the divisor. */
  function TermLoop(s: seq<CChar>, vars: seq<int>, left: int, i: nat): (r: Parsed)
    requires i <= |s| && |vars| == VARIABLE_COUNT
    ensures i <= r.next <= |s|
    decreases |s| - i, 2
  {
    var j := SkipBlanks(s, i);
    if At(s, j) == '*' then
      var f := FactorAt(s, vars, j + 1);
      TermLoop(s, vars, left * f.value, f.next)
    else if At(s, j) == '/' then
      var f := FactorAt(s, vars, j + 1);
      if f.value == 0 then Parsed(0, f.next)
      else TermLoop(s, vars, CDiv(left, f.value), f.next)
    else
      Parsed(left, j)
  }

  /** parse_expression from position i: a term, then the loop over '+'
      and '-'. */
  function ExprAt(s: seq<CChar>, vars: seq<int>, i: nat): (r: Parsed)
    requires i <= |s| && |vars| == VARIABLE_COUNT
    ensures i <= r.next <= |s|
    decreases |s| - i, 5
  {
    var t := TermAt(s, vars, i);
    ExprLoop(s, vars, t.value, t.next)
  }

  function ExprLoop(s: seq<CChar>, vars: seq<int>, left: int, i: nat): (r: Parsed)
    requires i <= |s| && |vars| == VARIABLE_COUNT
    ensures i <= r.next <= |s|
    decreases |s| - i, 4
  {
    var j := SkipBlanks(s, i);
    if At(s, j) == '+' then
      var t := TermAt(s, vars, j + 1);
      ExprLoop(s, vars, left + t.value, t.next)
    else if At(s, j) == '-' then
      var t := TermAt(s, vars, j + 1);
      ExprLoop(s, vars, left - t.value, t.next)
    else
      Parsed(left, j)
  }

  // ---------------------------------------------------------------------
  // The grammar the parser implements, as syntax trees. Sums are built of
  // terms and terms of factors, both associating to the left, so the
  // trees fix precedence and associativity; the theorem below says the
  // parser evaluates the text of any tree to the tree's value.

  datatype Atom = Number(digits: seq<CChar>) | Variable(name: CChar) | Group(inner: Expression)
  datatype Factor = Factor(negated: bool, atom: Atom)
  datatype Term = Single(factor: Factor) | Times(left: Term, right: Factor) | Over(left: Term, right: Factor)
  datatype Expression = Only(term: Term) | Plus(left: Expression, right: Term) | Minus(left: Expression, right: Term)


  predicate AtomOk(a: Atom)
  {
    match a
    case Number(d) => |d| > 0 && AllDigits(d)
    case Variable(c) => IsVariable(c)
    case Group(e) => ExpressionOk(e)
  }

  predicate FactorOk(f: Factor) { AtomOk(f.atom) }

  predicate TermOk(t: Term)
  {
    match t
    case Single(f) => FactorOk(f)
    case Times(l, f) => TermOk(l) && FactorOk(f)
    case Over(l, f) => TermOk(l) && FactorOk(f)
  }

  predicate ExpressionOk(e: Expression)
  {
    match e
    case Only(t) => TermOk(t)
    case Plus(l, t) => ExpressionOk(l) && TermOk(t)
    case Minus(l, t) => ExpressionOk(l) && TermOk(t)
  }

  function PrintAtom(a: Atom): seq<CChar>
  {
    match a
    case Number(d) => d
    case Variable(c) => [c]
    case Group(e) => "(" + PrintExpression(e) + ")"
  }

  function PrintFactor(f: Factor): seq<CChar>
  {
    (if f.negated then "-" else "") + PrintAtom(f.atom)
  }

  function PrintTerm(t: Term): seq<CChar>
  {
    match t
    case Single(f) => PrintFactor(f)
    case Times(l, f) => PrintTerm(l) + "*" + PrintFactor(f)
    case Over(l, f) => PrintTerm(l) + "/" + PrintFactor(f)
  }

  function PrintExpression(e: Expression): seq<CChar>
  {
    match e
    case Only(t) => PrintTerm(t)
    case Plus(l, t) => PrintExpression(l) + "+" + PrintTerm(t)
    case Minus(l, t) => PrintExpression(l) + "-" + PrintTerm(t)
  }

  /** Values under C's integer operators; None when a divisor is zero. */
  function EvalAtom(a: Atom, vars: seq<int>): Option<int>
    requires AtomOk(a) && |vars| == VARIABLE_COUNT
  {
    match a
    case Number(d) => Some(DecimalValue(d))
    case Variable(c) => Some(vars[VariableIndex(c)])
    case Group(e) => EvalExpression(e, vars)
  }

  function EvalFactor(f: Factor, vars: seq<int>): Option<int>
    requires FactorOk(f) && |vars| == VARIABLE_COUNT
  {
    match EvalAtom(f.atom, vars)
    case None => None
    case Some(v) => Some(if f.negated then -v else v)
  }

  function EvalTerm(t: Term, vars: seq<int>): Option<int>
    requires TermOk(t) && |vars| == VARIABLE_COUNT
  {
    match t
    case Single(f) => EvalFactor(f, vars)
    case Times(l, f) =>
      if EvalTerm(l, vars).Some? && EvalFactor(f, vars).Some?
      then Some(EvalTerm(l, vars).value * EvalFactor(f, vars).value) else None
    case Over(l, f) =>
      if EvalTerm(l, vars).Some? && EvalFactor(f, vars).Some? && EvalFactor(f, vars).value != 0
      then Some(CDiv(EvalTerm(l, vars).value, EvalFactor(f, vars).value)) else None
  }

  function EvalExpression(e: Expression, vars: seq<int>): Option<int>
    requires ExpressionOk(e) && |vars| == VARIABLE_COUNT
  {
    match e
    case Only(t) => EvalTerm(t, vars)
    case Plus(l, t) =>
      if EvalExpression(l, vars).Some? && EvalTerm(t, vars).Some?
      then Some(EvalExpression(l, vars).value + EvalTerm(t, vars).value) else None
    case Minus(l, t) =>
      if EvalExpression(l, vars).Some? && EvalTerm(t, vars).Some?
      then Some(EvalExpression(l, vars).value - EvalTerm(t, vars).value) else None
  }

  /** `p` occurs in `s` at position i. */
  predicate Occurs(s: seq<CChar>, i: nat, p: seq<CChar>)
  {
    i + |p| <= |s| && Matches(s, i, p)
  }

  /** Character by character: s[i + k] == p[k] for every k. */
  predicate Matches(s: seq<CChar>, i: nat, p: seq<CChar>)
    decreases |p|
  {
    |p| == 0 || (i < |s| && s[i] == p[0] && Matches(s, i + 1, p[1..]))
  }

  lemma {:induction false} MatchesSplit(s: seq<CChar>, i: nat, a: seq<CChar>, b: seq<CChar>)
    requires Matches(s, i, a + b)
    ensures Matches(s, i, a) && Matches(s, i + |a|, b)
    decreases |a|
  {
    if a == [] {
      assert a + b == b;
    } else {
      assert (a + b)[1..] == a[1..] + b;
      MatchesSplit(s, i + 1, a[1..], b);
    }
  }

  lemma OccursSplit(s: seq<CChar>, i: nat, a: seq<CChar>, b: seq<CChar>)
    requires Occurs(s, i, a + b)
    ensures Occurs(s, i, a) && Occurs(s, i + |a|, b)
  {
    MatchesSplit(s, i, a, b);
  }

  /** The text of a binary operation: left operand, operator, right operand. */
  lemma OperatorSplit(s: seq<CChar>, i: nat, a: seq<CChar>, op: CChar, b: seq<CChar>)
    requires Occurs(s, i, a + [op] + b)
    ensures Occurs(s, i, a) && i + |a| < |s| && s[i + |a|] == op && Occurs(s, i + |a| + 1, b)
  {
    OccursSplit(s, i, a + [op], b);
    OccursSplit(s, i, a, [op]);
  }

  /** A text occurs at the start of itself. */
  lemma {:induction false} MatchesSelf(p: seq<CChar>, k: nat)
    requires k <= |p|
    ensures Matches(p, k, p[k..])
    decreases |p| - k
  {
    if k < |p| {
      assert p[k..][1..] == p[k + 1..];
      MatchesSelf(p, k + 1);
    }
  }

  /** The first character after a whole expression and its trailing blanks:
      one that neither operator loop of the parser continues with. */
  predicate Closes(c: CChar)
  {
    c != '*' && c != '/' && c != '+' && c != '-'
  }

  /** Appending a digit to a literal: the decimal value accumulates the way
      the digit loop does. */
  lemma {:induction false} DigitsRead(s: seq<CChar>, i: nat, p: seq<CChar>, d: seq<CChar>)
    requires AllDigits(p) && AllDigits(d) && Occurs(s, i, d) && !IsDigit(At(s, i + |d|))
    ensures Digits(s, i, DecimalValue(p)) == Parsed(DecimalValue(p + d), i + |d|)
    decreases |d|
  {
    if d == [] {
      assert p + d == p;
    } else {
      assert s[i] == d[0];
      var p' := p + [d[0]];
      assert p'[..|p'| - 1] == p;
      assert DecimalValue(p') == DecimalValue(p) * 10 + DigitValue(d[0]);
      OccursSplit(s, i, [d[0]], d[1..]);
      assert [d[0]] + d[1..] == d;
      DigitsRead(s, i + 1, p', d[1..]);
      assert p' + d[1..] == p + d;
    }
  }

  // One step of each parser function at a time, so that the proofs below
  // never unfold the mutually recursive definitions themselves.

  lemma FactorSign(s: seq<CChar>, vars: seq<int>, i: nat, k: nat, negated: bool)
    requires |vars| == VARIABLE_COUNT && k == (if negated then i + 1 else i) && k < |s|
    requires negated ==> s[i] == '-'
    requires !negated ==> s[k] != '-' && !IsBlank(s[k])
    ensures var a := OperandAt(s, vars, k);
      negated ==> FactorAt(s, vars, i) == Parsed(-a.value, a.next)
    ensures !negated ==> FactorAt(s, vars, i) == OperandAt(s, vars, k)
  {
    assert SkipBlanks(s, i) == i;
  }

  lemma FactorNumberStep(s: seq<CChar>, vars: seq<int>, i: nat, k: nat, negated: bool, d: seq<CChar>)
    requires |vars| == VARIABLE_COUNT && k == (if negated then i + 1 else i)
    requires |d| > 0 && AllDigits(d) && Occurs(s, k, d) && !IsDigit(At(s, k + |d|))
    requires negated ==> s[i] == '-'
    ensures negated ==> FactorAt(s, vars, i) == Parsed(-(DecimalValue(d) as int), k + |d|)
    ensures !negated ==> FactorAt(s, vars, i) == Parsed(DecimalValue(d), k + |d|)
  {
    OperandNumber(s, vars, k, d);
    FactorSign(s, vars, i, k, negated);
  }

  /** A run of digits is read as its decimal value. */
  lemma OperandNumber(s: seq<CChar>, vars: seq<int>, k: nat, d: seq<CChar>)
    requires |vars| == VARIABLE_COUNT
    requires |d| > 0 && AllDigits(d) && Occurs(s, k, d) && !IsDigit(At(s, k + |d|))
    ensures k < |s| && IsDigit(s[k])
    ensures OperandAt(s, vars, k) == Parsed(DecimalValue(d), k + |d|)
  {
    assert s[k] == d[0];
    DigitsRead(s, k, [], d);
    assert [] + d == d;
  }

  lemma FactorVariableStep(s: seq<CChar>, vars: seq<int>, i: nat, k: nat, negated: bool, c: CChar)
    requires |vars| == VARIABLE_COUNT && k == (if negated then i + 1 else i)
    requires IsVariable(c) && k < |s| && s[k] == c
    requires negated ==> s[i] == '-'
    ensures negated ==> FactorAt(s, vars, i) == Parsed(-vars[VariableIndex(c)], k + 1)
    ensures !negated ==> FactorAt(s, vars, i) == Parsed(vars[VariableIndex(c)], k + 1)
  {
    FactorSign(s, vars, i, k, negated);
  }

  lemma FactorGroupStep(s: seq<CChar>, vars: seq<int>, i: nat, k: nat, negated: bool, v: int, m: nat)
    requires |vars| == VARIABLE_COUNT && k == (if negated then i + 1 else i)
    requires k < |s| && s[k] == '(' && ExprAt(s, vars, k + 1) == Parsed(v, m)
    requires m < |s| && s[m] == ')'
    requires negated ==> s[i] == '-'
    ensures negated ==> FactorAt(s, vars, i) == Parsed(-v, m + 1)
    ensures !negated ==> FactorAt(s, vars, i) == Parsed(v, m + 1)
  {
    FactorSign(s, vars, i, k, negated);
    assert SkipBlanks(s, m) == m;
  }

  lemma TermTimesStep(s: seq<CChar>, vars: seq<int>, left: int, j: nat, f: Parsed)
    requires |vars| == VARIABLE_COUNT && j < |s| && s[j] == '*' && FactorAt(s, vars, j + 1) == f
    ensures TermLoop(s, vars, left, j) == TermLoop(s, vars, left * f.value, f.next)
  {
    assert SkipBlanks(s, j) == j;
  }

  lemma TermOverStep(s: seq<CChar>, vars: seq<int>, left: int, j: nat, f: Parsed)
    requires |vars| == VARIABLE_COUNT && j < |s| && s[j] == '/' && FactorAt(s, vars, j + 1) == f
    ensures TermLoop(s, vars, left, j) ==
      if f.value == 0 then Parsed(0, f.next) else TermLoop(s, vars, CDiv(left, f.value), f.next)
  {
    assert SkipBlanks(s, j) == j;
  }

  lemma ExprPlusStep(s: seq<CChar>, vars: seq<int>, left: int, j: nat, v: int, next: nat)
    requires |vars| == VARIABLE_COUNT && j < |s| && s[j] == '+' && TermAt(s, vars, j + 1) == Parsed(v, next)
    ensures ExprLoop(s, vars, left, j) == ExprLoop(s, vars, left + v, next)
  {
    assert SkipBlanks(s, j) == j;
  }

  lemma ExprMinusStep(s: seq<CChar>, vars: seq<int>, left: int, j: nat, v: int, next: nat)
    requires |vars| == VARIABLE_COUNT && j < |s| && s[j] == '-' && TermAt(s, vars, j + 1) == Parsed(v, next)
    ensures ExprLoop(s, vars, left, j) == ExprLoop(s, vars, left - v, next)
  {
    assert SkipBlanks(s, j) == j;
  }

  /** One round of the product loop from position i: blanks, an operator,
      and the factor after it. */
  lemma TermRound(s: seq<CChar>, vars: seq<int>, left: int, i: nat, v: int, next: nat)
    requires i <= |s| && |vars| == VARIABLE_COUNT
    requires SkipBlanks(s, i) < |s| && (s[SkipBlanks(s, i)] == '*' || s[SkipBlanks(s, i)] == '/')
    requires FactorAt(s, vars, SkipBlanks(s, i) + 1) == Parsed(v, next)
    ensures s[SkipBlanks(s, i)] == '*' ==> TermLoop(s, vars, left, i) == TermLoop(s, vars, left * v, next)
    ensures s[SkipBlanks(s, i)] == '/' ==>
      TermLoop(s, vars, left, i) == if v == 0 then Parsed(0, next) else TermLoop(s, vars, CDiv(left, v), next)
  {
    var j := SkipBlanks(s, i);
    TermLoopSkips(s, vars, left, i);
    if s[j] == '*' {
      TermTimesStep(s, vars, left, j, Parsed(v, next));
    } else {
      TermOverStep(s, vars, left, j, Parsed(v, next));
    }
  }

  /** The product loop stops on the first character after the blanks that
      is not an operator of its level. */
  lemma TermRoundStops(s: seq<CChar>, vars: seq<int>, left: int, i: nat)
    requires i <= |s| && |vars| == VARIABLE_COUNT
    requires At(s, SkipBlanks(s, i)) != '*' && At(s, SkipBlanks(s, i)) != '/'
    ensures TermLoop(s, vars, left, i) == Parsed(left, SkipBlanks(s, i))
  {
  }

  /** One round of the sum loop from position i: blanks, an operator, and
      the term after it. */
  lemma ExprRound(s: seq<CChar>, vars: seq<int>, left: int, i: nat, v: int, next: nat)
    requires i <= |s| && |vars| == VARIABLE_COUNT
    requires SkipBlanks(s, i) < |s| && (s[SkipBlanks(s, i)] == '+' || s[SkipBlanks(s, i)] == '-')
    requires TermAt(s, vars, SkipBlanks(s, i) + 1) == Parsed(v, next)
    ensures s[SkipBlanks(s, i)] == '+' ==> ExprLoop(s, vars, left, i) == ExprLoop(s, vars, left + v, next)
    ensures s[SkipBlanks(s, i)] == '-' ==> ExprLoop(s, vars, left, i) == ExprLoop(s, vars, left - v, next)
  {
    var j := SkipBlanks(s, i);
    ExprLoopSkips(s, vars, left, i);
    if s[j] == '+' {
      ExprPlusStep(s, vars, left, j, v, next);
    } else {
      ExprMinusStep(s, vars, left, j, v, next);
    }
  }

  /** The sum loop stops on the first character after the blanks that is
      not an operator of its level. */
  lemma ExprRoundStops(s: seq<CChar>, vars: seq<int>, left: int, i: nat)
    requires i <= |s| && |vars| == VARIABLE_COUNT
    requires At(s, SkipBlanks(s, i)) != '+' && At(s, SkipBlanks(s, i)) != '-'
    ensures ExprLoop(s, vars, left, i) == Parsed(left, SkipBlanks(s, i))
  {
  }

  /** The loops skip blanks before looking at the next character. */
  lemma TermLoopSkips(s: seq<CChar>, vars: seq<int>, left: int, i: nat)
    requires i <= |s| && |vars| == VARIABLE_COUNT
    ensures TermLoop(s, vars, left, i) == TermLoop(s, vars, left, SkipBlanks(s, i))
  {
    var j := SkipBlanks(s, i);
    assert SkipBlanks(s, j) == j;
  }

  lemma ExprLoopSkips(s: seq<CChar>, vars: seq<int>, left: int, i: nat)
    requires i <= |s| && |vars| == VARIABLE_COUNT
    ensures ExprLoop(s, vars, left, i) == ExprLoop(s, vars, left, SkipBlanks(s, i))
  {
    var j := SkipBlanks(s, i);
    assert SkipBlanks(s, j) == j;
  }

  /** The term loop ends at once on a character it does not continue with. */
  lemma TermLoopStops(s: seq<CChar>, vars: seq<int>, left: int, i: nat)
    requires i <= |s| && |vars| == VARIABLE_COUNT
    requires !IsBlank(At(s, i)) && At(s, i) != '*' && At(s, i) != '/'
    ensures TermLoop(s, vars, left, i) == Parsed(left, i)
  {
    assert SkipBlanks(s, i) == i;
  }

  lemma ExprLoopStops(s: seq<CChar>, vars: seq<int>, left: int, i: nat)
    requires i <= |s| && |vars| == VARIABLE_COUNT
    requires !IsBlank(At(s, i)) && At(s, i) != '+' && At(s, i) != '-'
    ensures ExprLoop(s, vars, left, i) == Parsed(left, i)
  {
    assert SkipBlanks(s, i) == i;
  }

  lemma {:induction false} FactorEvaluates(f: Factor, vars: seq<int>, s: seq<CChar>, i: nat)
    requires FactorOk(f) && |vars| == VARIABLE_COUNT && EvalFactor(f, vars).Some?
    requires Occurs(s, i, PrintFactor(f)) && !IsDigit(At(s, i + |PrintFactor(f)|))
    ensures FactorAt(s, vars, i) == Parsed(EvalFactor(f, vars).value, i + |PrintFactor(f)|)
    decreases f, 1
  {
    var sign: seq<CChar> := if f.negated then "-" else "";
    var k := i + |sign|;
    match f.atom
    case Number(d) =>
      OccursSplit(s, i, sign, d);
      if f.negated {
        assert s[i] == '-';
      }
      FactorNumberStep(s, vars, i, k, f.negated, d);
    case Variable(c) =>
      OccursSplit(s, i, sign, [c]);
      if f.negated {
        assert s[i] == '-';
      }
      assert s[k] == c;
      FactorVariableStep(s, vars, i, k, f.negated, c);
    case Group(e) =>
      assert PrintFactor(f) == sign + "(" + PrintExpression(e) + ")";
      GroupEvaluates(f.negated, e, vars, s, i);
  }

  lemma {:induction false} GroupEvaluates(negated: bool, e: Expression, vars: seq<int>, s: seq<CChar>, i: nat)
    requires ExpressionOk(e) && |vars| == VARIABLE_COUNT && EvalExpression(e, vars).Some?
    requires Occurs(s, i, (if negated then "-" else "") + "(" + PrintExpression(e) + ")")
    ensures var v := EvalExpression(e, vars).value;
      var k := if negated then i + 1 else i;
      FactorAt(s, vars, i) == Parsed(if negated then -v else v, k + |PrintExpression(e)| + 2)
    decreases Factor(negated, Group(e)), 0
  {
    var sign: seq<CChar> := if negated then "-" else "";
    var pe := PrintExpression(e);
    var k := i + |sign|;
    OccursSplit(s, i, sign + "(" + pe, ")");
    OccursSplit(s, i, sign + "(", pe);
    OccursSplit(s, i, sign, "(");
    if negated {
      assert s[i] == '-';
    }
    var m := k + 1 + |pe|;
    assert s[k] == '(' && s[m] == ')';
    ExpressionEvaluates(e, vars, s, k + 1);
    ExprLoopStops(s, vars, EvalExpression(e, vars).value, m);
    FactorGroupStep(s, vars, i, k, negated, EvalExpression(e, vars).value, m);
  }

  lemma {:induction false} TermEvaluates(t: Term, vars: seq<int>, s: seq<CChar>, i: nat)
    requires TermOk(t) && |vars| == VARIABLE_COUNT && EvalTerm(t, vars).Some?
    requires Occurs(s, i, PrintTerm(t)) && !IsDigit(At(s, i + |PrintTerm(t)|))
    ensures TermAt(s, vars, i) == TermLoop(s, vars, EvalTerm(t, vars).value, i + |PrintTerm(t)|)
    decreases t, 1
  {
    match t
    case Single(f) =>
      FactorEvaluates(f, vars, s, i);
    case Times(l, f) =>
      TimesEvaluates(l, f, vars, s, i);
    case Over(l, f) =>
      OverEvaluates(l, f, vars, s, i);
  }

  lemma {:induction false} TimesEvaluates(l: Term, f: Factor, vars: seq<int>, s: seq<CChar>, i: nat)
    requires TermOk(l) && FactorOk(f) && |vars| == VARIABLE_COUNT
    requires EvalTerm(l, vars).Some? && EvalFactor(f, vars).Some?
    requires Occurs(s, i, PrintTerm(l) + "*" + PrintFactor(f))
    requires !IsDigit(At(s, i + |PrintTerm(l)| + 1 + |PrintFactor(f)|))
    ensures TermAt(s, vars, i) ==
      TermLoop(s, vars, EvalTerm(l, vars).value * EvalFactor(f, vars).value, i + |PrintTerm(l)| + 1 + |PrintFactor(f)|)
    decreases Times(l, f), 0
  {
    var pl := PrintTerm(l);
    OperatorSplit(s, i, pl, '*', PrintFactor(f));
    var j := i + |pl|;
    TermEvaluates(l, vars, s, i);
    FactorTail(f, '*', EvalTerm(l, vars).value, vars, s, j);
  }

  /** The operator at j and the factor after it, ending at `end`: one
      round of the loop of parse_term. */
  lemma {:induction false} FactorTail(f: Factor, op: CChar, a: int, vars: seq<int>, s: seq<CChar>, j: nat)
    requires op == '*' || op == '/'
    requires FactorOk(f) && |vars| == VARIABLE_COUNT && EvalFactor(f, vars).Some?
    requires j < |s| && s[j] == op && Occurs(s, j + 1, PrintFactor(f))
    requires !IsDigit(At(s, j + 1 + |PrintFactor(f)|))
    ensures var end := j + 1 + |PrintFactor(f)|;
      var b := EvalFactor(f, vars).value;
      TermLoop(s, vars, a, j) ==
        if op == '*' then TermLoop(s, vars, a * b, end)
        else if b == 0 then Parsed(0, end)
        else TermLoop(s, vars, CDiv(a, b), end)
    decreases f, 2
  {
    FactorEvaluates(f, vars, s, j + 1);
    if op == '*' {
      TermTimesStep(s, vars, a, j, FactorAt(s, vars, j + 1));
    } else {
      TermOverStep(s, vars, a, j, FactorAt(s, vars, j + 1));
    }
  }

  lemma {:induction false} OverEvaluates(l: Term, f: Factor, vars: seq<int>, s: seq<CChar>, i: nat)
    requires TermOk(l) && FactorOk(f) && |vars| == VARIABLE_COUNT
    requires EvalTerm(l, vars).Some? && EvalFactor(f, vars).Some?
    requires Occurs(s, i, PrintTerm(l) + "/" + PrintFactor(f))
    requires !IsDigit(At(s, i + |PrintTerm(l)| + 1 + |PrintFactor(f)|))
    ensures var end := i + |PrintTerm(l)| + 1 + |PrintFactor(f)|;
      var right := EvalFactor(f, vars).value;
      TermAt(s, vars, i) ==
        if right == 0 then Parsed(0, end) else TermLoop(s, vars, CDiv(EvalTerm(l, vars).value, right), end)
    decreases Over(l, f), 0
  {
    var pl := PrintTerm(l);
    OperatorSplit(s, i, pl, '/', PrintFactor(f));
    var j := i + |pl|;
    TermEvaluates(l, vars, s, i);
    FactorTail(f, '/', EvalTerm(l, vars).value, vars, s, j);
  }

  lemma {:induction false} ExpressionEvaluates(e: Expression, vars: seq<int>, s: seq<CChar>, i: nat)
    requires ExpressionOk(e) && |vars| == VARIABLE_COUNT && EvalExpression(e, vars).Some?
    requires Occurs(s, i, PrintExpression(e))
    requires var end := i + |PrintExpression(e)|;
      !IsDigit(At(s, end)) && At(s, SkipBlanks(s, end)) != '*' && At(s, SkipBlanks(s, end)) != '/'
    ensures ExprAt(s, vars, i) == ExprLoop(s, vars, EvalExpression(e, vars).value, i + |PrintExpression(e)|)
    decreases e, 1
  {
    match e
    case Only(t) =>
      TermEvaluates(t, vars, s, i);
      TermRoundStops(s, vars, EvalTerm(t, vars).value, i + |PrintTerm(t)|);
      ExprLoopSkips(s, vars, EvalTerm(t, vars).value, i + |PrintTerm(t)|);
    case Plus(l, t) =>
      SumEvaluates(l, '+', t, vars, s, i);
    case Minus(l, t) =>
      SumEvaluates(l, '-', t, vars, s, i);
  }

  /** Plus and Minus: `op` is the operator between the two operands. */
  lemma {:induction false} SumEvaluates(l: Expression, op: CChar, t: Term, vars: seq<int>, s: seq<CChar>, i: nat)
    requires op == '+' || op == '-'
    requires ExpressionOk(l) && TermOk(t) && |vars| == VARIABLE_COUNT
    requires EvalExpression(l, vars).Some? && EvalTerm(t, vars).Some?
    requires Occurs(s, i, PrintExpression(l) + [op] + PrintTerm(t))
    requires var end := i + |PrintExpression(l)| + 1 + |PrintTerm(t)|;
      !IsDigit(At(s, end)) && At(s, SkipBlanks(s, end)) != '*' && At(s, SkipBlanks(s, end)) != '/'
    ensures var a := EvalExpression(l, vars).value;
      var b := EvalTerm(t, vars).value;
      ExprAt(s, vars, i) ==
        ExprLoop(s, vars, if op == '+' then a + b else a - b, i + |PrintExpression(l)| + 1 + |PrintTerm(t)|)
    decreases (if op == '+' then Plus(l, t) else Minus(l, t)), 0
  {
    var pl := PrintExpression(l);
    var pt := PrintTerm(t);
    OperatorSplit(s, i, pl, op, pt);
    var j := i + |pl|;
    ExpressionEvaluates(l, vars, s, i);
    TermTail(t, op, EvalExpression(l, vars).value, vars, s, j);
  }

  /** The operator at j and the term after it, up to a place where no
      further '*' or '/' follows: one round of the loop of parse_expression. */
  lemma {:induction false} TermTail(t: Term, op: CChar, a: int, vars: seq<int>, s: seq<CChar>, j: nat)
    requires op == '+' || op == '-'
    requires TermOk(t) && |vars| == VARIABLE_COUNT && EvalTerm(t, vars).Some?
    requires j < |s| && s[j] == op && Occurs(s, j + 1, PrintTerm(t))
    requires var end := j + 1 + |PrintTerm(t)|;
      !IsDigit(At(s, end)) && At(s, SkipBlanks(s, end)) != '*' && At(s, SkipBlanks(s, end)) != '/'
    ensures var b := EvalTerm(t, vars).value;
      ExprLoop(s, vars, a, j) == ExprLoop(s, vars, if op == '+' then a + b else a - b, j + 1 + |PrintTerm(t)|)
    decreases t, 2
  {
    TermEvaluates(t, vars, s, j + 1);
    SumRound(s, vars, a, op, j, EvalTerm(t, vars).value, j + 1 + |PrintTerm(t)|);
  }

  /** The operator at j and a term whose product loop ends at `end`, where
      no further '*' or '/' follows. */
  lemma SumRound(s: seq<CChar>, vars: seq<int>, a: int, op: CChar, j: nat, b: int, end: nat)
    requires |vars| == VARIABLE_COUNT && j < end <= |s| && s[j] == op && (op == '+' || op == '-')
    requires TermAt(s, vars, j + 1) == TermLoop(s, vars, b, end)
    requires At(s, SkipBlanks(s, end)) != '*' && At(s, SkipBlanks(s, end)) != '/'
    ensures ExprLoop(s, vars, a, j) == ExprLoop(s, vars, if op == '+' then a + b else a - b, end)
  {
    TermRoundStops(s, vars, b, end);
    if op == '+' {
      ExprPlusStep(s, vars, a, j, b, SkipBlanks(s, end));
      ExprLoopSkips(s, vars, a + b, end);
    } else {
      ExprMinusStep(s, vars, a, j, b, SkipBlanks(s, end));
      ExprLoopSkips(s, vars, a - b, end);
    }
  }

  /** Precedence and associativity: parse_expression applied to the text
      of any expression without a zero divisor, followed by blanks and a
      character that ends it (such as the terminator, ')' or a keyword
      letter), yields the expression's value and stops after the blanks. */
  lemma {:induction false} ParseEvaluates(e: Expression, vars: seq<int>, s: seq<CChar>, i: nat)
    requires ExpressionOk(e) && |vars| == VARIABLE_COUNT && EvalExpression(e, vars).Some?
    requires var end := i + |PrintExpression(e)|;
      Occurs(s, i, PrintExpression(e)) && !IsDigit(At(s, end)) && Closes(At(s, SkipBlanks(s, end)))
    ensures var end := i + |PrintExpression(e)|;
      ExprAt(s, vars, i) == Parsed(EvalExpression(e, vars).value, SkipBlanks(s, end))
  {
    ExpressionEvaluates(e, vars, s, i);
    ExprRoundStops(s, vars, EvalExpression(e, vars).value, i + |PrintExpression(e)|);
  }

  /** A zero divisor: parse_term gives 0 as soon as the divisor is read,
      whatever the left operand, and leaves the cursor after the divisor. */
  lemma {:induction false} DivisionByZero(l: Term, f: Factor, vars: seq<int>, s: seq<CChar>, i: nat)
    requires TermOk(l) && FactorOk(f) && |vars| == VARIABLE_COUNT
    requires EvalTerm(l, vars).Some? && EvalFactor(f, vars) == Some(0)
    requires Occurs(s, i, PrintTerm(Over(l, f))) && !IsDigit(At(s, i + |PrintTerm(Over(l, f))|))
    ensures TermAt(s, vars, i) == Parsed(0, i + |PrintTerm(Over(l, f))|)
  {
    var pl := PrintTerm(l);
    var pf := PrintFactor(f);
    assert PrintTerm(Over(l, f)) == pl + "/" + pf;
    OccursSplit(s, i, pl + "/", pf);
    OccursSplit(s, i, pl, "/");
    var j := i + |pl|;
    assert s[j] == '/';
    TermEvaluates(l, vars, s, i);
    FactorEvaluates(f, vars, s, j + 1);
    TermOverStep(s, vars, EvalTerm(l, vars).value, j, FactorAt(s, vars, j + 1));
  }

  /** Character-by-character occurrence is slice equality. */
  lemma {:induction false} OccursSlice(s: seq<CChar>, i: nat, p: seq<CChar>)
    requires Occurs(s, i, p)
    ensures s[i..i + |p|] == p
    decreases |p|
  {
    if p != [] {
      OccursSlice(s, i + 1, p[1..]);
      assert s[i..i + |p|] == [s[i]] + s[i + 1..i + |p|];
    }
  }

  /** A keyword written at the cursor without blanks before it and with a
      boundary character after it is matched and consumed. */
  lemma KeywordMatches(s: seq<CChar>, j: nat, kw: seq<CChar>)
    requires Occurs(s, j, kw) && |kw| > 0 && !IsBlank(kw[0]) && Boundary(At(s, j + |kw|))
    ensures MatchAt(s, j, kw) == (true, j + |kw|)
  {
    OccursSlice(s, j, kw);
    assert SkipBlanks(s, j) == j;
    assert Take(s[j..], |kw|) == kw;
  }

  /** parse_expression starts by skipping blanks, so a blank before an
      expression changes nothing. */
  lemma ExprSkipsBlank(s: seq<CChar>, vars: seq<int>, i: nat)
    requires i < |s| && IsBlank(s[i]) && |vars| == VARIABLE_COUNT
    ensures ExprAt(s, vars, i) == ExprAt(s, vars, i + 1)
  {
    assert SkipBlanks(s, i) == SkipBlanks(s, i + 1);
    assert FactorAt(s, vars, i) == FactorAt(s, vars, i + 1);
    assert TermAt(s, vars, i) == TermAt(s, vars, i + 1);
  }

  /** The tokenizer state of the interpreter: current_pos as a position in
      the line being executed, and the values of the variables A-Z that
      parse_factor reads. */
  class Parser {
    var line: seq<CChar>
    var pos: nat
    /** The values of the variables A to Z. */
    var vars: seq<int>

    predicate Valid()
      reads this
    {
      |vars| == VARIABLE_COUNT && NoNul(line) && pos <= |line|
    }

    constructor (vars: seq<int>)
      requires |vars| == VARIABLE_COUNT
      ensures Valid() && this.vars == vars && line == [] && pos == 0
    {
      this.vars := vars;
      line := [];
      pos := 0;
    }

    /** current_pos = line, as execute_line starts. */
    method Start(text: seq<CChar>)
      requires |vars| == VARIABLE_COUNT && NoNul(text)
      modifies this
      ensures Valid() && line == text && pos == 0 && vars == old(vars)
    {
      line := text;
      pos := 0;
    }

    /** skip_whitespace. */
    method SkipWhitespace()
      requires Valid()
      modifies this
      ensures Valid() && line == old(line) && vars == old(vars) && pos == SkipBlanks(line, old(pos))
    {
      while IsBlank(At(line, pos))
        invariant Valid() && line == old(line) && vars == old(vars) && old(pos) <= pos
        invariant SkipBlanks(line, old(pos)) == SkipBlanks(line, pos)
        decreases |line| - pos
      {
        pos := pos + 1;
      }
    }

    /** match(keyword): strncmp over the keyword's length, then the
        boundary test on the character after it. */
    method Match(kw: seq<CChar>) returns (matched: bool)
      requires Valid() && NoNul(kw)
      modifies this
      ensures Valid() && line == old(line) && vars == old(vars) && (matched, pos) == MatchAt(line, old(pos), kw)
    {
      SkipWhitespace();
      var rest := line[pos..];
      var cmp := Strncmp(rest, kw, |kw|);
      assert Take(kw, |kw|) == kw;
      CompareZeroIff(Take(rest, |kw|), kw);
      if cmp == 0 && Boundary(At(line, pos + |kw|)) {
        pos := pos + |kw|;
        return true;
      }
      return false;
    }

    /** parse_factor: blanks, the sign, then the operand times the sign. */
    method ParseFactor() returns (v: int)
      requires Valid()
      modifies this
      ensures Valid() && line == old(line) && vars == old(vars) && Parsed(v, pos) == FactorAt(line, vars, old(pos))
      decreases |line| - pos, 1
    {
      SkipWhitespace();
      var sign := 1;
      if At(line, pos) == '-' {
        sign := -1;
        pos := pos + 1;
      }
      var value := ParseOperand();
      v := value * sign;
    }

    /** The branches of parse_factor after the sign. */
    method ParseOperand() returns (v: int)
      requires Valid()
      modifies this
      ensures Valid() && line == old(line) && vars == old(vars) && Parsed(v, pos) == OperandAt(line, vars, old(pos))
      decreases |line| - pos, 0
    {
      var c := At(line, pos);
      v := 0;
      if IsDigit(c) {
        while IsDigit(At(line, pos))
          invariant Valid() && line == old(line) && vars == old(vars) && old(pos) <= pos
          invariant Digits(line, old(pos), 0) == Digits(line, pos, v)
          decreases |line| - pos
        {
          v := v * 10 + DigitValue(line[pos]);
          pos := pos + 1;
        }
      } else if IsVariable(c) {
        v := vars[VariableIndex(c)];
        pos := pos + 1;
      } else if c == '(' {
        pos := pos + 1;
        v := ParseExpression();
        SkipWhitespace();
        if At(line, pos) == ')' {
          pos := pos + 1;
        }
      }
    }

    /** parse_term: a factor, then `*` and `/` with further factors for
        as long as they follow. */
    method ParseTerm() returns (v: int)
      requires Valid()
      modifies this
      ensures Valid() && line == old(line) && vars == old(vars) && Parsed(v, pos) == TermAt(line, vars, old(pos))
      decreases |line| - pos, 3
    {
      ghost var goal := TermAt(line, vars, pos);
      var left := ParseFactor();
      var more := true;
      while more
        invariant Valid() && line == old(line) && vars == old(vars) && old(pos) <= pos
        invariant more ==> goal == TermLoop(line, vars, left, pos)
        invariant !more ==> goal == Parsed(left, pos)
        decreases |line| - pos, more
      {
        left, more := TermStep(left);
      }
      v := left;
    }

    /** One round of parse_term's loop: blanks are skipped; a `*` or `/`
        is consumed with the factor after it and combined into `left`, and
        `more` says whether the loop goes on. A zero divisor ends the term
        with the value 0. */
    method TermStep(left: int) returns (left': int, more: bool)
      requires Valid()
      modifies this
      ensures Valid() && line == old(line) && vars == old(vars) && old(pos) <= pos
      ensures more ==> old(pos) < pos && TermLoop(line, vars, left, old(pos)) == TermLoop(line, vars, left', pos)
      ensures !more ==> TermLoop(line, vars, left, old(pos)) == Parsed(left', pos)
      decreases |line| - pos, 2
    {
      ghost var before := pos;
      SkipWhitespace();
      if At(line, pos) == '*' {
        pos := pos + 1;
        var right := ParseFactor();
        TermRound(line, vars, left, before, right, pos);
        left', more := left * right, true;
      } else if At(line, pos) == '/' {
        pos := pos + 1;
        var right := ParseFactor();
        TermRound(line, vars, left, before, right, pos);
        if right == 0 {
          left', more := 0, false;
        } else {
          left', more := CDiv(left, right), true;
        }
      } else {
        TermRoundStops(line, vars, left, before);
        left', more := left, false;
      }
    }

    /** parse_expression: a term, then `+` and `-` with further terms for
        as long as they follow. */
    method ParseExpression() returns (v: int)
      requires Valid()
      modifies this
      ensures Valid() && line == old(line) && vars == old(vars) && Parsed(v, pos) == ExprAt(line, vars, old(pos))
      decreases |line| - pos, 5
    {
      ghost var goal := ExprAt(line, vars, pos);
      var left := ParseTerm();
      var more := true;
      while more
        invariant Valid() && line == old(line) && vars == old(vars) && old(pos) <= pos
        invariant more ==> goal == ExprLoop(line, vars, left, pos)
        invariant !more ==> goal == Parsed(left, pos)
        decreases |line| - pos, more
      {
        left, more := ExprStep(left);
      }
      v := left;
    }

    /** One round of parse_expression's loop: blanks are skipped; a `+` or
        `-` is consumed with the term after it and combined into `left`, and
        `more` says whether the loop goes on. */
    method ExprStep(left: int) returns (left': int, more: bool)
      requires Valid()
      modifies this
      ensures Valid() && line == old(line) && vars == old(vars) && old(pos) <= pos
      ensures more ==> old(pos) < pos && ExprLoop(line, vars, left, old(pos)) == ExprLoop(line, vars, left', pos)
      ensures !more ==> ExprLoop(line, vars, left, old(pos)) == Parsed(left', pos)
      decreases |line| - pos, 4
    {
      ghost var before := pos;
      SkipWhitespace();
      if At(line, pos) == '+' || At(line, pos) == '-' {
        left' := AddTerm(left, before);
        more := true;
      } else {
        ExprRoundStops(line, vars, left, before);
        left', more := left, false;
      }
    }

    /** The '+' or '-' under the cursor and the term after it. */
    method AddTerm(left: int, ghost before: nat) returns (left': int)
      requires Valid() && before <= pos < |line| && pos == SkipBlanks(line, before)
      requires line[pos] == '+' || line[pos] == '-'
      modifies this
      ensures Valid() && line == old(line) && vars == old(vars) && old(pos) < pos
      ensures ExprLoop(line, vars, left, before) == ExprLoop(line, vars, left', pos)
      decreases |line| - pos, 3
    {
      var plus := line[pos] == '+';
      pos := pos + 1;
      var right := ParseTerm();
      ExprRound(line, vars, left, before, right, pos);
      left' := if plus then left + right else left - right;
    }
  }
}
