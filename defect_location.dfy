/**
 * Where a finding of the current run was in the file of an earlier run.
 * A span `startLine:startColumn-endLine:endColumn` is read back from its
 * text, and a character diff between the earlier file and the current one
 * (runs of kept, removed and added text, in the order of diff-match-patch)
 * is walked to translate the span into the earlier file's coordinates.
 */
module DefectLocation {
  import opened JsStrings

  /** A parsed span. */
  datatype Location = Location(startLine: int, startColumn: int, endLine: int, endColumn: int)

  // ---------------------------------------------------------------------------
  // parseAlarmLocation and stringifyLocation

  /**
   * The matches of the regular expression /[0-9]+/g: runs of digits which,
   * one after the other, are the digits of s in order (DigitRunsDigits), and
   * which a non-digit always ends (DigitRunsSeparated).
   */
  function DigitRuns(s: string): (r: seq<string>)
    ensures forall i :: 0 <= i < |r| ==> |r[i]| >= 1 && AllDigits(r[i])
    decreases |s|
  {
    if s == [] then []
    else if !IsDigit(s[0]) then DigitRuns(s[1..])
    else
      var k := LeadingDigits(s);
      [s[..k]] + DigitRuns(s[k..])
  }

  /** The runs, one after the other, are the digits of s in order: no digit is lost or moved. */
  lemma {:induction false} DigitRunsDigits(s: string)
    ensures Concat(DigitRuns(s)) == DigitsIn(s)
    decreases |s|
  {
    if s != [] {
      if !IsDigit(s[0]) {
        DigitRunsDigits(s[1..]);
      } else {
        var k := LeadingDigits(s);
        DigitRunsDigits(s[k..]);
        ConcatCons(s[..k], DigitRuns(s[k..]));
        DigitsInSplit(s, k);
      }
    }
  }

  /** The digits of s, in order. */
  function DigitsIn(s: string): string
  {
    if s == [] then [] else (if IsDigit(s[0]) then [s[0]] else []) + DigitsIn(s[1..])
  }

  lemma {:induction false} ConcatCons(x: string, ps: seq<string>)
    ensures Concat([x] + ps) == x + Concat(ps)
    decreases |ps|
  {
    if ps == [] {
      assert [x] + ps == [x];
      assert Concat([x]) == Concat([]) + x;
    } else {
      var q := [x] + ps;
      assert q[..|q| - 1] == [x] + ps[..|ps| - 1];
      ConcatCons(x, ps[..|ps| - 1]);
    }
  }

  /** A prefix of digits comes first among the digits. */
  lemma {:induction false} DigitsInSplit(s: string, k: nat)
    requires k <= |s| && AllDigits(s[..k])
    ensures DigitsIn(s) == s[..k] + DigitsIn(s[k..])
    decreases k
  {
    if k > 0 {
      assert IsDigit(s[..k][0]);
      var t := s[1..];
      var u := t[..k - 1];
      assert AllDigits(u) by {
        forall i | 0 <= i < |u| ensures IsDigit(u[i]) {
          assert u[i] == s[..k][i + 1];
        }
      }
      DigitsInSplit(t, k - 1);
      assert s[1..][k - 1..] == s[k..];
      assert s[..k] == [s[0]] + s[1..][..k - 1];
    }
  }

  /** The leading digits stop where the digits of a do, when a non-digit follows a. */
  lemma {:induction false} LeadingDigitsBefore(a: string, x: string)
    requires x == [] || !IsDigit(x[0])
    ensures LeadingDigits(a + x) == LeadingDigits(a)
    decreases |a|
  {
    if a == [] {
      assert a + x == x;
    } else {
      assert (a + x)[0] == a[0];
      assert (a + x)[1..] == a[1..] + x;
      LeadingDigitsBefore(a[1..], x);
    }
  }

  /** A non-digit separates the runs of digits: those before it and those after it. */
  lemma {:induction false} DigitRunsSeparated(a: string, c: char, b: string)
    requires !IsDigit(c)
    ensures DigitRuns(a + [c] + b) == DigitRuns(a) + DigitRuns(b)
    decreases |a|
  {
    var s := a + [c] + b;
    if a == [] {
      assert s == [c] + b;
      DigitRunsSkip(c, b);
    } else if !IsDigit(a[0]) {
      assert s[0] == a[0] && s[1..] == a[1..] + [c] + b;
      DigitRunsSeparated(a[1..], c, b);
    } else {
      assert s[0] == a[0];
      assert s == a + ([c] + b);
      LeadingDigitsBefore(a, [c] + b);
      var k := LeadingDigits(a);
      assert s[..k] == a[..k];
      assert s[k..] == a[k..] + [c] + b;
      DigitRunsSeparated(a[k..], c, b);
    }
  }

  /**
   * parseAlarmLocation: the first four runs of digits, read as startLine,
   * startColumn, endLine and endColumn; None when there are fewer than four.
   */
  function ParseAlarmLocation(s: string): (r: Option<Location>)
    ensures r.Some? <==> |DigitRuns(s)| >= 4
    ensures r.Some? ==> r.value.startLine >= 0 && r.value.startColumn >= 0 && r.value.endLine >= 0 && r.value.endColumn >= 0
  {
    var runs := DigitRuns(s);
    if |runs| < 4 then None
    else Some(Location(DigitsValue(runs[0]), DigitsValue(runs[1]), DigitsValue(runs[2]), DigitsValue(runs[3])))
  }

  /** stringifyLocation. */
  function StringifyLocation(l: Location): string
  {
    IntToString(l.startLine) + ":" + IntToString(l.startColumn) + "-" + IntToString(l.endLine) + ":" + IntToString(l.endColumn)
  }

  /** The '-' of a span text with non-negative numbers splits its start `startLine:startColumn` from its end. */
  lemma StringifyHalves(l: Location)
    requires NonNegative(l)
    ensures Split(StringifyLocation(l), '-') == [NatToString(l.startLine) + ":" + NatToString(l.startColumn),
                                                 NatToString(l.endLine) + ":" + NatToString(l.endColumn)]
  {
    var start := NatToString(l.startLine) + ":" + NatToString(l.startColumn);
    var end := NatToString(l.endLine) + ":" + NatToString(l.endColumn);
    NoMinus(l.startLine, l.startColumn);
    NoMinus(l.endLine, l.endColumn);
    assert StringifyLocation(l) == start + ['-'] + end;
    SplitPrefix(start, '-', end);
    SplitNone(end, '-');
  }

  /** `a:b` for non-negative numbers has no '-'. */
  lemma NoMinus(a: nat, b: nat)
    ensures '-' !in IntToString(a) + ":" + IntToString(b)
  {
    var x, y := NatToString(a), NatToString(b);
    assert !IsDigit('-') && !IsDigit(':');
    assert forall i :: 0 <= i < |x| ==> x[i] != '-';
    assert forall i :: 0 <= i < |y| ==> y[i] != '-';
  }

  predicate NonNegative(l: Location)
  {
    l.startLine >= 0 && l.startColumn >= 0 && l.endLine >= 0 && l.endColumn >= 0
  }

  /** A separator is skipped. */
  lemma DigitRunsSkip(c: char, rest: string)
    requires !IsDigit(c)
    ensures DigitRuns([c] + rest) == DigitRuns(rest)
  {
    assert ([c] + rest)[1..] == rest;
  }

  /** A rendered number followed by a separator is one run of digits. */
  lemma DigitRunsNumber(n: nat, c: char, rest: string)
    requires !IsDigit(c)
    ensures DigitRuns(NatToString(n) + [c] + rest) == [NatToString(n)] + DigitRuns(rest)
  {
    var d := NatToString(n);
    var s := d + ([c] + rest);
    assert d + [c] + rest == s;
    LeadingDigitsPrefix(d, [c] + rest);
    assert s[..|d|] == d;
    assert s[|d|..] == [c] + rest;
    DigitRunsSkip(c, rest);
  }

  /** A rendered number at the end is the last run of digits. */
  lemma DigitRunsLast(n: nat)
    ensures DigitRuns(NatToString(n)) == [NatToString(n)]
  {
    var d := NatToString(n);
    LeadingDigitsPrefix(d, []);
    assert d + [] == d;
    assert d[|d|..] == [];
  }

  /** The text of a span with non-negative numbers is the four runs of digits of its numbers. */
  lemma StringifyRuns(l: Location)
    requires NonNegative(l)
    ensures DigitRuns(StringifyLocation(l))
            == [NatToString(l.startLine), NatToString(l.startColumn), NatToString(l.endLine), NatToString(l.endColumn)]
  {
    var a, b, c, d := NatToString(l.startLine), NatToString(l.startColumn), NatToString(l.endLine), NatToString(l.endColumn);
    var t3 := c + [':'] + d;
    var t2 := b + ['-'] + t3;
    StringifyShape(l);
    DigitRunsLast(l.endColumn);
    DigitRunsNumber(l.endLine, ':', d);
    assert DigitRuns(t3) == [c, d];
    DigitRunsNumber(l.startColumn, '-', t3);
    assert DigitRuns(t2) == [b, c, d];
    DigitRunsNumber(l.startLine, ':', t2);
  }

  lemma StringifyShape(l: Location)
    requires NonNegative(l)
    ensures StringifyLocation(l)
            == NatToString(l.startLine) + [':'] + (NatToString(l.startColumn) + ['-']
               + (NatToString(l.endLine) + [':'] + NatToString(l.endColumn)))
  {
  }

  /** parseAlarmLocation reads back what stringifyLocation writes, in the order start line, start column, end line, end column. */
  lemma ParseStringify(l: Location)
    requires NonNegative(l)
    ensures ParseAlarmLocation(StringifyLocation(l)) == Some(l)
  {
    StringifyRuns(l);
    NatToStringValue(l.startLine);
    NatToStringValue(l.startColumn);
    NatToStringValue(l.endLine);
    NatToStringValue(l.endColumn);
  }

  /** On span texts as stringifyLocation writes them, stringifyLocation gives back the text that was parsed. */
  lemma StringifyParse(s: string, l: Location)
    requires NonNegative(l) && s == StringifyLocation(l)
    ensures ParseAlarmLocation(s).Some? && StringifyLocation(ParseAlarmLocation(s).value) == s
  {
    ParseStringify(l);
  }

  // ---------------------------------------------------------------------------
  // getLastDetectedLocationByDiffChars

  /** One run of a character diff: op -1 removed from the earlier file, 1 added in the current one, 0 kept. */
  datatype DiffRun = DiffRun(op: int, text: string)

  /** The walk's variables: the current position, the added and removed counts, and the span found so far. */
  datatype Cursor = Cursor(
    line: int, column: int, addedLine: int, removedLine: int, addedColumn: int, removedColumn: int, prev: Location)

  function StartCursor(loc: Location): Cursor
  {
    Cursor(1, 1, 0, 0, 0, 0, loc)
  }

  /** What a run leads to: the walk goes on, the span is new text, or the earlier span is found. */
  datatype StepOutcome = Continue(c: Cursor) | Untranslatable | Translated(prev: Location)

  /** The number of line breaks in a run and the length of its last line. */
  function NewLines(text: string): nat
  {
    |Split(text, '\n')| - 1
  }

  function LastLineLength(text: string): nat
  {
    var values := Split(text, '\n');
    |values[|values| - 1]|
  }

  /** The position after a run that is not removed. */
  function NextLine(c: Cursor, text: string): int
  {
    c.line + NewLines(text)
  }

  function NextColumn(c: Cursor, text: string): int
  {
    if NewLines(text) == 0 then c.column + LastLineLength(text) else LastLineLength(text) + 1
  }

  /** The span starts before the position. */
  predicate StartsBefore(loc: Location, line: int, column: int)
  {
    loc.startLine < line || (loc.startLine == line && loc.startColumn < column)
  }

  /** The span ends at or before the position (its end column is exclusive). */
  predicate EndsBy(loc: Location, line: int, column: int)
  {
    loc.endLine < line || (loc.endLine == line && loc.endColumn <= column)
  }

  function ResetColumns(c: Cursor): Cursor
  {
    c.(addedColumn := 0, removedColumn := 0)
  }

  /**
   * A kept run in which the span starts: its earlier start line is the
   * current one less the lines added and plus the lines removed so far; the
   * column moves by the columns added and removed only when the start is on
   * the current line, the column counts being cleared otherwise. A run that
   * ends before the start records nothing.
   */
  function RecordStart(loc: Location, c: Cursor, text: string): (r: Cursor)
    ensures r.line == c.line && r.column == c.column && r.addedLine == c.addedLine && r.removedLine == c.removedLine
    ensures r.prev.endLine == c.prev.endLine && r.prev.endColumn == c.prev.endColumn
    ensures StartsBefore(loc, NextLine(c, text), NextColumn(c, text)) ==>
              r.prev.startLine == loc.startLine - c.addedLine + c.removedLine
    ensures StartsBefore(loc, NextLine(c, text), NextColumn(c, text)) && loc.startLine != c.line ==>
              r.addedColumn == 0 && r.removedColumn == 0 && r.prev.startColumn == loc.startColumn
    ensures StartsBefore(loc, NextLine(c, text), NextColumn(c, text)) && loc.startLine == c.line ==>
              r.addedColumn == c.addedColumn && r.removedColumn == c.removedColumn
              && r.prev.startColumn == loc.startColumn - c.addedColumn + c.removedColumn
    ensures !StartsBefore(loc, NextLine(c, text), NextColumn(c, text)) ==> r == c
  {
    if StartsBefore(loc, NextLine(c, text), NextColumn(c, text)) then
      var r := if loc.startLine != c.line then ResetColumns(c) else c;
      r.(prev := r.prev.(startLine := loc.startLine - r.addedLine + r.removedLine,
                         startColumn := loc.startColumn - r.addedColumn + r.removedColumn))
    else c
  }

  /**
   * The body of the loop for one run. A removed run leaves the position and
   * counts its lines and columns as removed. An added run is new text when
   * the span starts in it; otherwise it moves the position and counts its
   * lines and columns as added. A kept run records the start (RecordStart)
   * and finds the earlier span exactly when the span ends in it, its end
   * moved like its start; otherwise it moves the position.
   */
  function Step(loc: Location, c: Cursor, run: DiffRun): (r: StepOutcome)
    ensures run.op == -1 ==>
              r.Continue? && r.c.line == c.line && r.c.column == c.column
              && r.c.removedLine == c.removedLine + NewLines(run.text)
              && r.c.addedLine == c.addedLine && r.c.prev == c.prev
              && r.c.addedColumn == c.addedColumn
              && r.c.removedColumn == (if NewLines(run.text) == 0 then c.removedColumn + LastLineLength(run.text)
                                       else LastLineLength(run.text))
    ensures run.op == 1 && r.Continue? ==>
              r.c.addedLine == c.addedLine + NewLines(run.text) && r.c.removedLine == c.removedLine
              && r.c.prev == c.prev && r.c.removedColumn == c.removedColumn
              && r.c.addedColumn == (if NewLines(run.text) == 0 then c.addedColumn + LastLineLength(run.text)
                                     else LastLineLength(run.text))
    ensures run.op != -1 && run.op != 1 ==>
              (r.Translated? <==> EndsBy(loc, NextLine(c, run.text), NextColumn(c, run.text)))
    ensures r.Translated? ==>
              var c1 := RecordStart(loc, c, run.text);
              r.prev.startLine == c1.prev.startLine && r.prev.startColumn == c1.prev.startColumn
              && r.prev.endColumn == (if loc.endLine != c.line then loc.endColumn
                                      else loc.endColumn - c1.addedColumn + c1.removedColumn)
    ensures r.Continue? && run.op != -1 && run.op != 1 ==>
              var c1 := RecordStart(loc, c, run.text);
              r.c.prev == c1.prev && r.c.addedLine == c.addedLine && r.c.removedLine == c.removedLine
    ensures run.op == 1 ==>
              (r.Untranslatable? <==> StartsBefore(loc, NextLine(c, run.text), NextColumn(c, run.text)))
    ensures r.Untranslatable? ==> run.op == 1
    ensures r.Translated? ==>
              run.op != -1 && run.op != 1 && EndsBy(loc, NextLine(c, run.text), NextColumn(c, run.text))
              && r.prev.endLine == loc.endLine - c.addedLine + c.removedLine
    ensures r.Continue? && run.op != -1 ==> r.c.line == NextLine(c, run.text) && r.c.column == NextColumn(c, run.text)
    ensures r.Continue? && run.op != -1 && run.op != 1 && NewLines(run.text) != 0 ==>
              r.c.addedColumn == 0 && r.c.removedColumn == 0
  {
    if run.op == -1 then Continue(Removed(c, run.text))
    else if run.op == 1 then Added(loc, c, run.text)
    else Kept(loc, c, run.text)
  }

  /** A removed run: the position stays and its lines and columns count as removed. */
  function Removed(c: Cursor, text: string): (r: Cursor)
    ensures r.line == c.line && r.column == c.column && r.prev == c.prev
    ensures r.addedLine == c.addedLine && r.addedColumn == c.addedColumn
    ensures r.removedLine == c.removedLine + NewLines(text)
    ensures r.removedColumn == (if NewLines(text) == 0 then c.removedColumn + LastLineLength(text) else LastLineLength(text))
  {
    var nl := NewLines(text);
    var last := LastLineLength(text);
    c.(removedColumn := if nl == 0 then c.removedColumn + last else last, removedLine := c.removedLine + nl)
  }

  /** An added run: new text when the span starts in it, otherwise the position moves past it and its lines and columns count as added. */
  function Added(loc: Location, c: Cursor, text: string): (r: StepOutcome)
    ensures !r.Translated?
    ensures r.Untranslatable? <==> StartsBefore(loc, NextLine(c, text), NextColumn(c, text))
    ensures r.Continue? ==>
              r.c.line == NextLine(c, text) && r.c.column == NextColumn(c, text)
              && r.c.addedLine == c.addedLine + NewLines(text) && r.c.removedLine == c.removedLine
              && r.c.prev == c.prev && r.c.removedColumn == c.removedColumn
              && r.c.addedColumn == (if NewLines(text) == 0 then c.addedColumn + LastLineLength(text) else LastLineLength(text))
  {
    var nl := NewLines(text);
    var last := LastLineLength(text);
    if StartsBefore(loc, NextLine(c, text), NextColumn(c, text)) then Untranslatable
    else
      Continue(c.(addedColumn := if nl == 0 then c.addedColumn + last else last,
                  addedLine := c.addedLine + nl, line := NextLine(c, text), column := NextColumn(c, text)))
  }

  /** A kept run: the start is recorded, and the earlier span is found exactly when the span ends in it. */
  function Kept(loc: Location, c: Cursor, text: string): (r: StepOutcome)
    ensures !r.Untranslatable?
    ensures r.Translated? <==> EndsBy(loc, NextLine(c, text), NextColumn(c, text))
    ensures r.Translated? ==>
              var c1 := RecordStart(loc, c, text);
              r.prev.startLine == c1.prev.startLine && r.prev.startColumn == c1.prev.startColumn
              && r.prev.endLine == loc.endLine - c.addedLine + c.removedLine
              && r.prev.endColumn == (if loc.endLine != c.line then loc.endColumn
                                      else loc.endColumn - c1.addedColumn + c1.removedColumn)
    ensures r.Continue? ==>
              var c1 := RecordStart(loc, c, text);
              r.c.prev == c1.prev && r.c.addedLine == c.addedLine && r.c.removedLine == c.removedLine
              && r.c.line == NextLine(c, text) && r.c.column == NextColumn(c, text)
              && (NewLines(text) != 0 ==> r.c.addedColumn == 0 && r.c.removedColumn == 0)
  {
    var c1 := RecordStart(loc, c, text);
    if EndsBy(loc, NextLine(c, text), NextColumn(c, text)) then
      var r := if loc.endLine != c.line then ResetColumns(c1) else c1;
      Translated(r.prev.(endLine := loc.endLine - r.addedLine + r.removedLine,
                         endColumn := loc.endColumn - r.addedColumn + r.removedColumn))
    else
      var r := if NewLines(text) != 0 then ResetColumns(c1) else c1;
      Continue(r.(line := NextLine(c, text), column := NextColumn(c, text)))
  }

  /**
   * The walk over the remaining runs; None when the span is new text or its
   * end is never reached, which it can only be in a kept run.
   */
  function Walk(loc: Location, c: Cursor, runs: seq<DiffRun>): (r: Option<Location>)
    ensures r.Some? ==> exists i :: 0 <= i < |runs| && runs[i].op != -1 && runs[i].op != 1
    decreases |runs|
  {
    if runs == [] then None
    else
      match Step(loc, c, runs[0])
      case Continue(c') =>
        var r := Walk(loc, c', runs[1..]);
        assert r.Some? ==> exists i :: 1 <= i < |runs| && runs[i].op != -1 && runs[i].op != 1 by {
          if r.Some? {
            var i :| 0 <= i < |runs[1..]| && runs[1..][i].op != -1 && runs[1..][i].op != 1;
            assert runs[i + 1] == runs[1..][i];
          }
        }
        r
      case Untranslatable => None
      case Translated(p) => Some(p)
  }

  /**
   * The earlier span of a finding, as text; None where the source returns
   * null, which needs a kept run for a Some. None as well when the location
   * has fewer than four numbers, where the source throws (no number) or
   * computes with NaN (one to three).
   */
  function LastDetectedLocation(location: string, diff: seq<DiffRun>): (r: Option<string>)
    ensures |DigitRuns(location)| < 4 ==> r.None?
    ensures r.Some? ==> exists i :: 0 <= i < |diff| && diff[i].op != -1 && diff[i].op != 1
  {
    match ParseAlarmLocation(location)
    case None => None
    case Some(loc) =>
      match Walk(loc, StartCursor(loc), diff)
      case None => None
      case Some(p) => Some(StringifyLocation(p))
  }

  /** getLastDetectedLocationByDiffChars, run by run. */
  method GetLastDetectedLocationByDiffChars(location: string, diff: seq<DiffRun>) returns (r: Option<string>)
    ensures r == LastDetectedLocation(location, diff)
  {
    var parsed := ParseAlarmLocation(location);
    if parsed.None? {
      return None;
    }
    var loc := parsed.value;
    var c := StartCursor(loc);
    var i := 0;
    while i < |diff|
      invariant 0 <= i <= |diff|
      invariant Walk(loc, StartCursor(loc), diff) == Walk(loc, c, diff[i..])
    {
      assert diff[i..][1..] == diff[i + 1..];
      var part := diff[i];
      var outcome := RunStep(loc, c, part);
      match outcome {
        case Untranslatable => return None;
        case Translated(p) => return Some(StringifyLocation(p));
        case Continue(c') => c := c';
      }
      i := i + 1;
    }
    return None;
  }

  /** The loop body of getLastDetectedLocationByDiffChars for one run. */
  method RunStep(loc: Location, c: Cursor, part: DiffRun) returns (r: StepOutcome)
    ensures r == Step(loc, c, part)
  {
    var values := Split(part.text, '\n');
    var newLineLength := |values| - 1;
    var lastColumnLength := |values[newLineLength]|;
    var nextLine := c.line + newLineLength;
    var nextColumn;
    if newLineLength == 0 {
      nextColumn := c.column + lastColumnLength;
    } else {
      nextColumn := lastColumnLength + 1;
    }
    var cur := c;
    if part.op == -1 {
      if newLineLength == 0 {
        cur := cur.(removedColumn := cur.removedColumn + lastColumnLength);
      } else {
        cur := cur.(removedColumn := lastColumnLength);
      }
      cur := cur.(removedLine := cur.removedLine + newLineLength);
      return Continue(cur);
    } else if part.op == 1 {
      if loc.startLine < nextLine || (loc.startLine == nextLine && loc.startColumn < nextColumn) {
        return Untranslatable;
      }
      if newLineLength == 0 {
        cur := cur.(addedColumn := cur.addedColumn + lastColumnLength);
      } else {
        cur := cur.(addedColumn := lastColumnLength);
      }
      cur := cur.(addedLine := cur.addedLine + newLineLength);
    } else {
      if loc.startLine < nextLine || (loc.startLine == nextLine && loc.startColumn < nextColumn) {
        if loc.startLine != c.line {
          cur := cur.(addedColumn := 0, removedColumn := 0);
        }
        cur := cur.(prev := cur.prev.(startLine := loc.startLine - cur.addedLine + cur.removedLine,
                                      startColumn := loc.startColumn - cur.addedColumn + cur.removedColumn));
      }
      assert cur == RecordStart(loc, c, part.text);
      if loc.endLine < nextLine || (loc.endLine == nextLine && loc.endColumn <= nextColumn) {
        if loc.endLine != c.line {
          cur := cur.(addedColumn := 0, removedColumn := 0);
        }
        return Translated(cur.prev.(endLine := loc.endLine - cur.addedLine + cur.removedLine,
                                    endColumn := loc.endColumn - cur.addedColumn + cur.removedColumn));
      }
      if newLineLength != 0 {
        cur := cur.(addedColumn := 0, removedColumn := 0);
      }
    }
    r := Continue(cur.(line := nextLine, column := nextColumn));
  }

  // ---------------------------------------------------------------------------
  // properties of the walk

  predicate AllKept(runs: seq<DiffRun>)
  {
    forall i :: 0 <= i < |runs| ==> runs[i].op == 0
  }

  /** The position reached after walking the kept runs. */
  function KeptEnd(c: Cursor, runs: seq<DiffRun>): (int, int)
    decreases |runs|
  {
    if runs == [] then (c.line, c.column)
    else KeptEnd(c.(line := NextLine(c, runs[0].text), column := NextColumn(c, runs[0].text)), runs[1..])
  }

  predicate Neutral(c: Cursor, loc: Location)
  {
    c.addedLine == 0 && c.removedLine == 0 && c.addedColumn == 0 && c.removedColumn == 0 && c.prev == loc
  }

  /** Over kept runs nothing is counted, so the span found is the span itself, and it is found once its end is reached. */
  lemma {:induction false} KeptWalk(loc: Location, c: Cursor, runs: seq<DiffRun>)
    requires AllKept(runs) && Neutral(c, loc)
    ensures Walk(loc, c, runs) == None || Walk(loc, c, runs) == Some(loc)
    ensures |runs| >= 1 && EndsBy(loc, KeptEnd(c, runs).0, KeptEnd(c, runs).1) ==> Walk(loc, c, runs) == Some(loc)
    decreases |runs|
  {
    if runs != [] {
      var run := runs[0];
      assert run.op == 0;
      var c1 := RecordStart(loc, c, run.text);
      assert Neutral(c1, loc);
      var nextLine, nextColumn := NextLine(c, run.text), NextColumn(c, run.text);
      if !EndsBy(loc, nextLine, nextColumn) {
        var c' := (if NewLines(run.text) != 0 then ResetColumns(c1) else c1).(line := nextLine, column := nextColumn);
        assert Step(loc, c, run) == Continue(c');
        assert AllKept(runs[1..]) by {
          forall i | 0 <= i < |runs[1..]| ensures runs[1..][i].op == 0 {
            assert runs[1..][i] == runs[i + 1];
          }
        }
        KeptWalk(loc, c', runs[1..]);
        assert KeptEnd(c, runs) == KeptEnd(c', runs[1..]);
      }
    }
  }

  /**
   * With a diff of kept runs only, the translation gives back the span
   * itself when its end lies within the text, and nothing else ever.
   */
  lemma KeptDiffKeepsLocation(l: Location, diff: seq<DiffRun>)
    requires NonNegative(l) && AllKept(diff)
    ensures var r := LastDetectedLocation(StringifyLocation(l), diff);
      (r == None || r == Some(StringifyLocation(l)))
      && (|diff| >= 1 && EndsBy(l, KeptEnd(StartCursor(l), diff).0, KeptEnd(StartCursor(l), diff).1) ==>
            r == Some(StringifyLocation(l)))
  {
    ParseStringify(l);
    KeptWalk(l, StartCursor(l), diff);
  }

  /** A removed run never moves the current position, whatever it holds. */
  lemma RemovedRunStays(loc: Location, c: Cursor, text: string)
    ensures var r := Step(loc, c, DiffRun(-1, text));
      r.Continue? && r.c.line == c.line && r.c.column == c.column
      && r.c.removedColumn == (if NewLines(text) == 0 then c.removedColumn + |text| else LastLineLength(text))
  {
    if NewLines(text) == 0 {
      SplitNone(text, '\n');
    }
  }

  // the example diff: "abc" kept, "X" added, "\ndef\n" kept

  function ExampleDiff(): seq<DiffRun>
  {
    [DiffRun(0, "abc"), DiffRun(1, "X"), DiffRun(0, "\ndef\n")]
  }

  lemma ExampleKeptRun()
    ensures NewLines("abc") == 0 && LastLineLength("abc") == 3
  {
    SplitNone("abc", '\n');
  }

  lemma ExampleAddedRun()
    ensures NewLines("X") == 0 && LastLineLength("X") == 1
  {
    SplitNone("X", '\n');
  }

  lemma ExampleBreaksRun()
    ensures NewLines("\ndef\n") == 2 && LastLineLength("\ndef\n") == 0
  {
    BreaksSplit("\ndef\n", "def");
  }

  lemma BreaksSplit(t: string, w: string)
    requires '\n' !in w && t == ['\n'] + w + ['\n']
    ensures Split(t, '\n') == [[], w, []]
  {
    assert t == [] + ['\n'] + (w + ['\n'] + []);
    SplitPrefix(w, '\n', []);
    SplitPrefix([], '\n', w + ['\n'] + []);
    SplitNone([], '\n');
  }

  /** The diff's runs, one at a time. */
  lemma ExampleDiffRuns(d: seq<DiffRun>)
    requires d == ExampleDiff()
    ensures |d| == 3 && d[0] == DiffRun(0, "abc") && d[1] == DiffRun(1, "X") && d[2] == DiffRun(0, "\ndef\n")
    ensures d[1..][0] == d[1] && d[1..][1..][0] == d[2] && |d[1..][1..][1..]| == 0
  {
  }

  lemma ExampleText(a: nat, b: nat, c: nat, d: nat, s: string)
    requires a < 10 && b < 10 && c < 10 && d < 10
    requires s == [DigitChar(a), ':', DigitChar(b), '-', DigitChar(c), ':', DigitChar(d)]
    ensures s == StringifyLocation(Location(a, b, c, d))
  {
  }

  /** The span 1:4-1:5 is the added "X", so it has no earlier position. */
  lemma ExampleAddedSpan()
    ensures LastDetectedLocation("1:4-1:5", ExampleDiff()) == None
  {
    var d := ExampleDiff();
    ExampleDiffRuns(d);
    ExampleKeptRun();
    ExampleAddedRun();
    var l := Location(1, 4, 1, 5);
    ExampleText(1, 4, 1, 5, "1:4-1:5");
    ParseStringify(l);
    var c := StartCursor(l).(line := 1, column := 4);
    assert Step(l, StartCursor(l), d[0]) == Continue(c);
    assert Step(l, c, d[1]) == Untranslatable;
  }

  /** The span 2:1-2:3 lies after the added text, on a later line, and keeps its numbers. */
  lemma ExampleLaterSpan()
    ensures LastDetectedLocation("2:1-2:3", ExampleDiff()) == Some("2:1-2:3")
  {
    var l := Location(2, 1, 2, 3);
    LaterText(l);
    LaterWalk(l, ExampleDiff());
  }

  lemma LaterText(l: Location)
    requires l == Location(2, 1, 2, 3)
    ensures ParseAlarmLocation("2:1-2:3") == Some(l) && StringifyLocation(l) == "2:1-2:3"
  {
    ExampleText(2, 1, 2, 3, "2:1-2:3");
    ParseStringify(l);
  }

  lemma LaterWalk(l: Location, d: seq<DiffRun>)
    requires l == Location(2, 1, 2, 3) && d == ExampleDiff()
    ensures Walk(l, StartCursor(l), d) == Some(l)
  {
    ExampleDiffRuns(d);
    ExampleKeptRun();
    ExampleAddedRun();
    ExampleBreaksRun();
    var k1 := StartCursor(l).(line := 1, column := 4);
    var k2 := k1.(addedColumn := 1, line := 1, column := 5);
    LaterFirstStep(l, d[0], k1);
    LaterSecondStep(l, k1, d[1], k2);
    LaterThirdStep(l, k2, d[2]);
    ThreeSteps(l, d, k1, k2);
  }

  lemma ThreeSteps(l: Location, d: seq<DiffRun>, k1: Cursor, k2: Cursor)
    requires |d| == 3
    requires Step(l, StartCursor(l), d[0]) == Continue(k1) && Step(l, k1, d[1]) == Continue(k2)
    requires Step(l, k2, d[2]) == Translated(l)
    ensures Walk(l, StartCursor(l), d) == Some(l)
  {
    assert d[1..][0] == d[1] && d[1..][1..][0] == d[2];
    WalkTranslated(l, k2, d[1..][1..]);
    WalkContinue(l, k1, d[1..], k2);
    WalkContinue(l, StartCursor(l), d, k1);
  }

  lemma WalkContinue(loc: Location, c: Cursor, runs: seq<DiffRun>, c': Cursor)
    requires runs != [] && Step(loc, c, runs[0]) == Continue(c')
    ensures Walk(loc, c, runs) == Walk(loc, c', runs[1..])
  {
  }

  lemma WalkTranslated(loc: Location, c: Cursor, runs: seq<DiffRun>)
    requires runs != [] && Step(loc, c, runs[0]).Translated?
    ensures Walk(loc, c, runs) == Some(Step(loc, c, runs[0]).prev)
  {
  }

  lemma LaterFirstStep(l: Location, run: DiffRun, k1: Cursor)
    requires l == Location(2, 1, 2, 3) && run.op == 0 && NewLines(run.text) == 0 && LastLineLength(run.text) == 3
    requires k1 == StartCursor(l).(line := 1, column := 4)
    ensures Step(l, StartCursor(l), run) == Continue(k1)
  {
  }

  lemma LaterSecondStep(l: Location, k1: Cursor, run: DiffRun, k2: Cursor)
    requires l == Location(2, 1, 2, 3) && run.op == 1 && NewLines(run.text) == 0 && LastLineLength(run.text) == 1
    requires k1 == StartCursor(l).(line := 1, column := 4) && k2 == k1.(addedColumn := 1, line := 1, column := 5)
    ensures Step(l, k1, run) == Continue(k2)
  {
  }

  lemma LaterThirdStep(l: Location, k2: Cursor, run: DiffRun)
    requires l == Location(2, 1, 2, 3) && run.op == 0 && NewLines(run.text) == 2 && LastLineLength(run.text) == 0
    requires k2 == Cursor(1, 5, 0, 0, 1, 0, l)
    ensures Step(l, k2, run) == Translated(l)
  {
    assert RecordStart(l, k2, run.text) == Cursor(1, 5, 0, 0, 0, 0, l);
  }
}
