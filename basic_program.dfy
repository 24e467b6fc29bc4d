/** The program store of the BASIC interpreter (basic.c): up to 256
    numbered lines kept in program[0..program_line_count), ordered by line
    number. A line's text is the C string its 128-byte buffer holds; store
    copies at most 127 characters and the last byte is never written, so it
    stays the NUL that clear_program put there. */
module BasicProgram {
  import opened CTypes
  import opened KernelString

  const MAX_LINE_LENGTH := 128
  const MAX_PROGRAM_LINES := 256

  /** ProgramLine. */
  datatype ProgramLine = ProgramLine(lineNumber: int, text: seq<CChar>)

  /** The text a line keeps: strncpy of at most 127 characters. */
  function LineText(text: seq<CChar>): (t: seq<CChar>)
    ensures |t| < MAX_LINE_LENGTH && |t| <= |text| && t == text[..|t|]
    ensures |text| < MAX_LINE_LENGTH ==> t == text
  {
    Take(text, MAX_LINE_LENGTH - 1)
  }

  /** Line numbers strictly ascending. */
  predicate Sorted(lines: seq<ProgramLine>)
  {
    forall i, j :: 0 <= i < j < |lines| ==> lines[i].lineNumber < lines[j].lineNumber
  }

  /** Where the first loop of store_line stops: at the first line whose
      number is greater (insert there) or equal (overwrite it); at the end
      when there is none. */
  datatype Slot = Replace(at: nat) | InsertAt(at: nat)

  function ScanFrom(lines: seq<ProgramLine>, num: int, i: nat): (s: Slot)
    requires i <= |lines|
    ensures i <= s.at <= |lines|
    ensures s.Replace? ==> s.at < |lines| && lines[s.at].lineNumber == num
    decreases |lines| - i
  {
    if i == |lines| then InsertAt(i)
    else if lines[i].lineNumber > num then InsertAt(i)
    else if lines[i].lineNumber == num then Replace(i)
    else ScanFrom(lines, num, i + 1)
  }

  lemma {:induction false} ScanFromMeaning(lines: seq<ProgramLine>, num: int, i: nat)
    requires i <= |lines|
    ensures var s := ScanFrom(lines, num, i);
      && (forall k :: i <= k < s.at ==> lines[k].lineNumber < num)
      && (s.InsertAt? && s.at < |lines| ==> lines[s.at].lineNumber > num)
    decreases |lines| - i
  {
    if i < |lines| && lines[i].lineNumber < num {
      ScanFromMeaning(lines, num, i + 1);
    }
  }

  /** The lines after store_line(num, text): an existing number gets the
      new text; a new number is inserted before the first larger one,
      unless the program already holds 256 lines ("?PROGRAM FULL ERROR"). */
  function StoreResult(lines: seq<ProgramLine>, num: int, text: seq<CChar>): seq<ProgramLine>
  {
    match ScanFrom(lines, num, 0)
    case Replace(k) => lines[k := lines[k].(text := LineText(text))]
    case InsertAt(k) =>
      if |lines| >= MAX_PROGRAM_LINES then lines
      else lines[..k] + [ProgramLine(num, LineText(text))] + lines[k..]
  }

  /** find_line_index from index i: the first index holding the number,
      or -1. */
  function FindLine(lines: seq<ProgramLine>, n: int, i: nat): (k: int)
    requires i <= |lines|
    ensures k == -1 || (i <= k < |lines| && lines[k].lineNumber == n)
    decreases |lines| - i
  {
    if i == |lines| then -1
    else if lines[i].lineNumber == n then i
    else FindLine(lines, n, i + 1)
  }

  lemma {:induction false} FindLineMeaning(lines: seq<ProgramLine>, n: int, i: nat)
    requires i <= |lines|
    ensures FindLine(lines, n, i) == -1 <==> forall k :: i <= k < |lines| ==> lines[k].lineNumber != n
    ensures forall k :: i <= k < FindLine(lines, n, i) ==> lines[k].lineNumber != n
    decreases |lines| - i
  {
    if i < |lines| && lines[i].lineNumber != n {
      FindLineMeaning(lines, n, i + 1);
    }
  }

  /** The text stored under a line number, as GOTO and LIST see it. */
  function TextOf(lines: seq<ProgramLine>, n: int): Option<seq<CChar>>
  {
    var k := FindLine(lines, n, 0);
    if k == -1 then None else Some(lines[k].text)
  }

  /** In a sorted program a line number sits at one index only. */
  lemma TextOfSorted(lines: seq<ProgramLine>, n: int, k: nat)
    requires Sorted(lines) && k < |lines| && lines[k].lineNumber == n
    ensures TextOf(lines, n) == Some(lines[k].text)
  {
    FindLineMeaning(lines, n, 0);
  }

  lemma TextOfAbsent(lines: seq<ProgramLine>, n: int)
    requires forall k :: 0 <= k < |lines| ==> lines[k].lineNumber != n
    ensures TextOf(lines, n) == None
  {
    FindLineMeaning(lines, n, 0);
  }

  /** Where each line sits after inserting `line` at index k. */
  lemma InsertedAt(lines: seq<ProgramLine>, k: nat, line: ProgramLine)
    requires k <= |lines|
    ensures var r := lines[..k] + [line] + lines[k..];
      && |r| == |lines| + 1 && r[k] == line
      && (forall i :: 0 <= i < k ==> r[i] == lines[i])
      && (forall i :: k < i < |r| ==> r[i] == lines[i - 1])
  {
  }

  /** store_line keeps the program sorted. */
  lemma StoreKeepsSorted(lines: seq<ProgramLine>, num: int, text: seq<CChar>)
    requires Sorted(lines)
    ensures Sorted(StoreResult(lines, num, text))
  {
    ScanFromMeaning(lines, num, 0);
    match ScanFrom(lines, num, 0)
    case Replace(k) =>
    case InsertAt(k) =>
      if |lines| < MAX_PROGRAM_LINES {
        var r := StoreResult(lines, num, text);
        InsertedAt(lines, k, ProgramLine(num, LineText(text)));
      }
  }

  /** Whether store_line keeps the line: its number is already there, or
      there is room for one more. */
  predicate Stores(lines: seq<ProgramLine>, num: int)
  {
    (exists k :: 0 <= k < |lines| && lines[k].lineNumber == num) || |lines| < MAX_PROGRAM_LINES
  }

  /** On a sorted program store_line acts as a map update: afterwards the
      number holds the new text (clipped to 127 characters) when the line
      is kept, every other number keeps its text, and the count grows by
      one exactly for a new number that fits. */
  lemma {:induction false} StoreIsMapUpdate(lines: seq<ProgramLine>, num: int, text: seq<CChar>, n: int)
    requires Sorted(lines)
    ensures TextOf(StoreResult(lines, num, text), n) ==
      if n == num && Stores(lines, num) then Some(LineText(text)) else TextOf(lines, n)
    ensures |StoreResult(lines, num, text)| ==
      if Stores(lines, num) && forall k :: 0 <= k < |lines| ==> lines[k].lineNumber != num
      then |lines| + 1 else |lines|
  {
    ScanFromMeaning(lines, num, 0);
    StoreKeepsSorted(lines, num, text);
    var r := StoreResult(lines, num, text);
    match ScanFrom(lines, num, 0)
    case Replace(k) =>
      assert r[k].lineNumber == num;
      if n == num {
        TextOfSorted(r, n, k);
      } else {
        ReplaceKeepsOthers(lines, k, LineText(text), n);
      }
    case InsertAt(k) =>
      assert forall j :: 0 <= j < |lines| ==> lines[j].lineNumber != num by {
        forall j | 0 <= j < |lines|
          ensures lines[j].lineNumber != num
        {
          if j >= k {
            assert lines[j].lineNumber >= lines[k].lineNumber;
          }
        }
      }
      if |lines| >= MAX_PROGRAM_LINES {
        assert !Stores(lines, num);
      } else {
        InsertedAt(lines, k, ProgramLine(num, LineText(text)));
        if n == num {
          TextOfSorted(r, n, k);
        } else {
          InsertKeepsOthers(lines, k, ProgramLine(num, LineText(text)), n);
        }
      }
  }

  /** Overwriting the text of the line numbered num leaves what every
      other number holds. */
  lemma ReplaceKeepsOthers(lines: seq<ProgramLine>, k: nat, t: seq<CChar>, n: int)
    requires Sorted(lines) && k < |lines| && lines[k].lineNumber != n
    ensures TextOf(lines[k := lines[k].(text := t)], n) == TextOf(lines, n)
  {
    var r := lines[k := lines[k].(text := t)];
    if i :| 0 <= i < |lines| && lines[i].lineNumber == n {
      TextOfSorted(lines, n, i);
      TextOfSorted(r, n, i);
    } else {
      TextOfAbsent(lines, n);
      TextOfAbsent(r, n);
    }
  }

  /** Inserting a line with another number leaves what n holds. */
  lemma InsertKeepsOthers(lines: seq<ProgramLine>, k: nat, line: ProgramLine, n: int)
    requires k <= |lines| && line.lineNumber != n
    requires Sorted(lines) && Sorted(lines[..k] + [line] + lines[k..])
    ensures TextOf(lines[..k] + [line] + lines[k..], n) == TextOf(lines, n)
  {
    var r := lines[..k] + [line] + lines[k..];
    InsertedAt(lines, k, line);
    if i :| 0 <= i < |lines| && lines[i].lineNumber == n {
      TextOfSorted(lines, n, i);
      TextOfSorted(r, n, if i < k then i else i + 1);
    } else {
      TextOfAbsent(lines, n);
      TextOfAbsent(r, n);
    }
  }

  /** program[] and program_line_count. */
  class ProgramStore {
    const program: array<ProgramLine>
    var count: int

    predicate Valid()
      reads this, program
    {
      program.Length == MAX_PROGRAM_LINES && 0 <= count <= MAX_PROGRAM_LINES && Sorted(program[..count])
    }

    /** The stored lines, program[0..program_line_count). */
    function Lines(): seq<ProgramLine>
      requires Valid()
      reads this, program
    {
      program[..count]
    }

    constructor ()
      ensures Valid() && Lines() == [] && fresh(program)
    {
      program := new ProgramLine[MAX_PROGRAM_LINES](_ => ProgramLine(0, []));
      count := 0;
    }

    /** clear_program: every line zeroed and the count reset. */
    method Clear()
      requires Valid()
      modifies this, program
      ensures Valid() && Lines() == []
      ensures forall i :: 0 <= i < MAX_PROGRAM_LINES ==> program[i] == ProgramLine(0, [])
    {
      var i := 0;
      while i < MAX_PROGRAM_LINES
        invariant 0 <= i <= MAX_PROGRAM_LINES
        invariant forall j :: 0 <= j < i ==> program[j] == ProgramLine(0, [])
      {
        program[i] := ProgramLine(0, []);
        i := i + 1;
      }
      count := 0;
    }

    /** store_line: scan for the place, then overwrite, refuse when full,
        or shift the tail right by one and insert. */
    method StoreLine(num: int, text: seq<CChar>)
      requires Valid()
      modifies this, program
      ensures Valid() && Lines() == StoreResult(old(Lines()), num, text)
      ensures program[count..] == old(program[..])[count..]
    {
      ghost var lines := Lines();
      StoreKeepsSorted(lines, num, text);
      var slot := Scan(num);
      match slot
      case Replace(k) =>
        program[k] := program[k].(text := LineText(text));
        assert program[..count] == lines[k := lines[k].(text := LineText(text))];
      case InsertAt(k) =>
        if count >= MAX_PROGRAM_LINES {
          return;
        }
        InsertLine(k, ProgramLine(num, LineText(text)));
    }

    /** The insert branch of store_line: shift program[k..count) up by one,
        write the line at k and count it. */
    method InsertLine(k: nat, line: ProgramLine)
      requires program.Length == MAX_PROGRAM_LINES && k <= count < MAX_PROGRAM_LINES
      modifies this, program
      ensures count == old(count) + 1
      ensures program[..count] == old(program[..count])[..k] + [line] + old(program[..count])[k..]
      ensures program[count..] == old(program[..])[count..]
    {
      ghost var lines := program[..count];
      ghost var before := program[..];
      ShiftRight(k);
      ghost var moved := program[..];
      program[k] := line;
      assert program[..k] == moved[..k] == before[..k] == lines[..k];
      assert program[k + 1..count + 1] == moved[k + 1..count + 1] == before[k..count] == lines[k..];
      assert program[count + 1..] == moved[count + 1..] == before[count + 1..];
      count := count + 1;
      assert program[..count] == program[..k] + [program[k]] + program[k + 1..count];
    }

    /** The first loop of store_line: where it stops, and whether it stops
        on an equal number. */
    method Scan(num: int) returns (slot: Slot)
      requires Valid()
      ensures slot == ScanFrom(Lines(), num, 0)
    {
      var insertPos := 0;
      while insertPos < count
        invariant 0 <= insertPos <= count
        invariant ScanFrom(Lines(), num, 0) == ScanFrom(Lines(), num, insertPos)
      {
        if program[insertPos].lineNumber > num {
          break;
        }
        if program[insertPos].lineNumber == num {
          return Replace(insertPos);
        }
        insertPos := insertPos + 1;
      }
      return InsertAt(insertPos);
    }

    /** The shift loop of store_line: program[p..count) moves up by one. */
    method ShiftRight(p: int)
      requires program.Length == MAX_PROGRAM_LINES && 0 <= p <= count < MAX_PROGRAM_LINES
      modifies program
      ensures program[..p] == old(program[..p])
      ensures program[p + 1..count + 1] == old(program[p..count])
      ensures program[count + 1..] == old(program[count + 1..])
    {
      var i := count;
      while i > p
        invariant p <= i <= count
        invariant program[..i + 1] == old(program[..i + 1])
        invariant program[i + 1..count + 1] == old(program[i..count])
        invariant program[count + 1..] == old(program[count + 1..])
      {
        program[i] := program[i - 1];
        i := i - 1;
      }
    }

    /** find_line_index. */
    method FindLineIndex(n: int) returns (k: int)
      requires Valid()
      ensures k == FindLine(Lines(), n, 0)
    {
      var i := 0;
      while i < count
        invariant 0 <= i <= count
        invariant FindLine(Lines(), n, 0) == FindLine(Lines(), n, i)
      {
        if program[i].lineNumber == n {
          return i;
        }
        i := i + 1;
      }
      return -1;
    }
  }
}
