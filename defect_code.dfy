/**
 * The code-fragment extractor of the engine manager: given the lines of a
 * source file and a span `startLine:startColumn-endLine:endColumn` (1-based,
 * end column exclusive), it cuts out the matched text, adds up to 300
 * characters of context on either side (with "..." where the context is cut
 * short), possibly the whole previous and next line, and reports where the
 * matched text sits inside the fragment.
 */
module DefectCode {
  import opened JsStrings

  const DefectCodeMaxSize: nat := 2000
  const DefectCodeExtraSize: nat := 300
  const Ellipsis: string := "..."

  /** A span inside a fragment, in the fragment's own coordinates. */
  datatype SnippetLocation = SnippetLocation(startLine: int, startColumn: int, endLine: int, endColumn: int)

  datatype Fragment = Fragment(code: string, location: SnippetLocation)

  /** Every line of a file split at '\n' is free of '\n'. */
  predicate NoNewlines(lines: seq<string>)
  {
    forall i :: 0 <= i < |lines| ==> '\n' !in lines[i]
  }

  /**
   * The context before (isPrev) or after a position of one line. Before a
   * column inside the line: the whole text before it while the column is at
   * most `extra`, otherwise an ellipsis and the last `extra` characters before
   * it (the ellipsis comes even when those are the whole text before it).
   * From the column on: the text from it while the line ends within `extra`
   * characters of it, otherwise the `extra` + 1 characters from it and an
   * ellipsis.
   */
  function GetExtraCode(lines: seq<string>, line: int, column: int, extra: nat, isPrev: bool): (r: string)
    requires 1 <= line <= |lines|
    ensures isPrev ==> |r| <= extra + 3
    ensures !isPrev ==> |r| <= extra + 4
    ensures '\n' in r ==> '\n' in lines[line - 1]
    ensures isPrev && column == 1 ==> r == ""
    ensures !isPrev && column == |lines[line - 1]| + 1 ==> r == ""
    ensures isPrev && 1 <= column <= |lines[line - 1]| + 1 && column <= extra
            ==> r == lines[line - 1][..column - 1]
    ensures isPrev && 1 < column <= |lines[line - 1]| + 1 && extra < column
            ==> r == Ellipsis + lines[line - 1][column - 1 - extra..column - 1]
    ensures !isPrev && 1 <= column <= |lines[line - 1]| + 1 && column + extra < |lines[line - 1]| + 1
            ==> r == lines[line - 1][column - 1..column + extra] + Ellipsis
    ensures !isPrev && 1 <= column <= |lines[line - 1]| + 1 && |lines[line - 1]| + 1 <= column + extra
            ==> r == lines[line - 1][column - 1..]
  {
    if isPrev then ExtraBefore(lines[line - 1], column, extra) else ExtraAfter(lines[line - 1], column, extra)
  }

  /** The context before `column` of the line `l`. */
  function ExtraBefore(l: string, column: int, extra: nat): (r: string)
    ensures |r| <= extra + 3
    ensures '\n' in r ==> '\n' in l
    ensures column == 1 ==> r == ""
    ensures 1 <= column <= |l| + 1 && column <= extra ==> r == l[..column - 1]
    ensures 1 < column <= |l| + 1 && extra < column ==> r == Ellipsis + l[column - 1 - extra..column - 1]
  {
    if column == 1 then ""
    else if column <= extra then Substring(l, 0, column - 1)
    else
      var piece := Substring(l, column - extra - 1, column - 1);
      assert |piece| <= extra;
      Ellipsis + piece
  }

  /** The context from `column` on of the line `l`. */
  function ExtraAfter(l: string, column: int, extra: nat): (r: string)
    ensures |r| <= extra + 4
    ensures '\n' in r ==> '\n' in l
    ensures column == |l| + 1 ==> r == ""
    ensures 1 <= column <= |l| + 1 && column + extra < |l| + 1 ==> r == l[column - 1..column + extra] + Ellipsis
    ensures 1 <= column <= |l| + 1 && |l| + 1 <= column + extra ==> r == l[column - 1..]
  {
    if column == |l| + 1 then ""
    else if column + extra < |l| + 1 then
      var piece := Substring(l, column - 1, column + extra);
      assert |piece| <= extra + 1;
      piece + Ellipsis
    else SubstringFrom(l, column - 1)
  }

  /** The lines with indices lo .. hi - 1, each followed by '\n'. */
  function MiddleLines(lines: seq<string>, lo: int, hi: int): string
    requires 0 <= lo && hi <= |lines|
    decreases hi - lo
  {
    if hi <= lo then "" else MiddleLines(lines, lo, hi - 1) + lines[hi - 1] + "\n"
  }

  /** Both ends of the span name a line of the file: otherwise the source indexes past the array and throws. */
  predicate InFile(lines: seq<string>, startLine: int, endLine: int)
  {
    1 <= startLine <= |lines| && 1 <= endLine <= |lines|
  }

  /**
   * The matched text alone, before any context is added: the tail of the
   * start line, the lines in between and the head of the end line, so that
   * it runs over as many lines as the span.
   */
  function RawCode(lines: seq<string>, startLine: int, startColumn: int, endLine: int, endColumn: int): (r: string)
    requires InFile(lines, startLine, endLine)
    ensures NoNewlines(lines) && startLine <= endLine ==> CountChar(r, '\n') == endLine - startLine
  {
    if startLine == endLine then
      var r := Substring(lines[startLine - 1], startColumn - 1, endColumn - 1);
      PieceNoNewline(lines, startLine - 1, startColumn - 1, endColumn - 1);
      r
    else
      var first := SubstringFrom(lines[startLine - 1], startColumn - 1) + "\n";
      var middle := if endLine - startLine > 1 then MiddleLines(lines, startLine, endLine - 1) else "";
      var last := Substring(lines[endLine - 1], 0, endColumn - 1);
      RawCodeCount(lines, startLine, startColumn, endLine, endColumn, first, middle, last);
      first + middle + last
  }

  /** A piece of a line has no '\n' when the line has none. */
  lemma PieceNoNewline(lines: seq<string>, i: nat, a: int, b: int)
    requires i < |lines|
    ensures NoNewlines(lines) ==> CountChar(Substring(lines[i], a, b), '\n') == 0
  {
  }

  /** Each of the MiddleLines ends in the only '\n' it adds. */
  lemma {:induction false} MiddleLinesCount(lines: seq<string>, lo: int, hi: int)
    requires 0 <= lo <= hi <= |lines| && NoNewlines(lines)
    ensures CountChar(MiddleLines(lines, lo, hi), '\n') == hi - lo
    decreases hi - lo
  {
    if lo < hi {
      MiddleLinesCount(lines, lo, hi - 1);
      assert '\n' !in lines[hi - 1];
      CountCharConcat(MiddleLines(lines, lo, hi - 1) + lines[hi - 1], "\n", '\n');
      CountCharConcat(MiddleLines(lines, lo, hi - 1), lines[hi - 1], '\n');
    }
  }

  lemma RawCodeCount(lines: seq<string>, startLine: int, startColumn: int, endLine: int, endColumn: int,
                     first: string, middle: string, last: string)
    requires InFile(lines, startLine, endLine) && startLine != endLine
    requires first == SubstringFrom(lines[startLine - 1], startColumn - 1) + "\n"
    requires middle == if endLine - startLine > 1 then MiddleLines(lines, startLine, endLine - 1) else ""
    requires last == Substring(lines[endLine - 1], 0, endColumn - 1)
    ensures NoNewlines(lines) && startLine <= endLine ==> CountChar(first + middle + last, '\n') == endLine - startLine
  {
    if NoNewlines(lines) && startLine <= endLine {
      FirstPieceCount(lines, startLine - 1, startColumn - 1, first);
      var m := endLine - startLine - 1;
      if m > 0 {
        MiddleLinesCount(lines, startLine, endLine - 1);
      } else {
        assert middle == [];
      }
      assert CountChar(middle, '\n') == m;
      PieceNoNewline(lines, endLine - 1, 0, endColumn - 1);
      assert CountChar(last, '\n') == 0;
      SumCount(first, middle, last, 1, m, 0);
    }
  }

  lemma FirstPieceCount(lines: seq<string>, i: nat, a: int, first: string)
    requires i < |lines| && NoNewlines(lines)
    requires first == SubstringFrom(lines[i], a) + "\n"
    ensures CountChar(first, '\n') == 1
  {
    PieceNoNewline(lines, i, a, |lines[i]|);
    CountCharConcat(SubstringFrom(lines[i], a), "\n", '\n');
  }

  lemma SumCount(x: string, y: string, z: string, i: nat, j: nat, k: nat)
    requires CountChar(x, '\n') == i && CountChar(y, '\n') == j && CountChar(z, '\n') == k
    ensures CountChar(x + y + z, '\n') == i + j + k
  {
    CountCharConcat(x, y, '\n');
    CountCharConcat(x + y, z, '\n');
  }

  /** Whether the previous line is put in front of `code` (the context before the span being `prev`). */
  predicate AddsPrevLine(lines: seq<string>, startLine: int, prev: string, code: string)
    requires 1 <= startLine <= |lines|
  {
    |prev| <= DefectCodeExtraSize && 1 < startLine
    && |code| + |lines[startLine - 2]| < DefectCodeMaxSize
  }

  /** Whether the next line is put after `code` (the context after the span being `post`). */
  predicate AddsPostLine(lines: seq<string>, endLine: int, post: string, code: string)
    requires 1 <= endLine <= |lines|
  {
    |post| <= DefectCodeExtraSize && endLine < |lines| - 1
    && |code| + |lines[endLine]| < DefectCodeMaxSize
  }

  /** The extra size used on both sides: none around an oversized match, 300 otherwise. */
  function ExtraSize(raw: string): nat
  {
    if DefectCodeMaxSize < |raw| then 0 else DefectCodeExtraSize
  }

  /** The whole previous line is put in front (never around an oversized match). */
  predicate PrevLineAdded(lines: seq<string>, startLine: int, prev: string, raw: string)
    requires 1 <= startLine <= |lines|
  {
    |raw| <= DefectCodeMaxSize && AddsPrevLine(lines, startLine, prev, prev + raw)
  }

  /** The whole next line is put after `body` (never around an oversized match). */
  predicate PostLineAdded(lines: seq<string>, endLine: int, post: string, raw: string, body: string)
    requires 1 <= endLine <= |lines|
  {
    |raw| <= DefectCodeMaxSize && AddsPostLine(lines, endLine, post, body)
  }

  /** The context put before the matched text. */
  function PrevContext(lines: seq<string>, startLine: int, startColumn: int, raw: string): string
    requires 1 <= startLine <= |lines|
  {
    GetExtraCode(lines, startLine, startColumn, ExtraSize(raw), true)
  }

  /** The context put after the matched text. */
  function PostContext(lines: seq<string>, endLine: int, endColumn: int, raw: string): string
    requires 1 <= endLine <= |lines|
  {
    GetExtraCode(lines, endLine, endColumn, ExtraSize(raw), false)
  }

  /** The fragment up to the matched text, with the previous line when it is added. */
  function WithPrev(lines: seq<string>, startLine: int, startColumn: int, raw: string): string
    requires 1 <= startLine <= |lines|
  {
    var prev := PrevContext(lines, startLine, startColumn, raw);
    if PrevLineAdded(lines, startLine, prev, raw) then lines[startLine - 2] + "\n" + (prev + raw) else prev + raw
  }

  predicate HasPrevLine(lines: seq<string>, startLine: int, startColumn: int, raw: string)
    requires 1 <= startLine <= |lines|
  {
    PrevLineAdded(lines, startLine, PrevContext(lines, startLine, startColumn, raw), raw)
  }

  predicate HasPostLine(lines: seq<string>, startLine: int, startColumn: int, endLine: int, endColumn: int, raw: string)
    requires InFile(lines, startLine, endLine)
  {
    var post := PostContext(lines, endLine, endColumn, raw);
    PostLineAdded(lines, endLine, post, raw, WithPrev(lines, startLine, startColumn, raw) + post)
  }

  /**
   * The fragment once the matched text `raw` is known: its code starts with
   * the previous line when that is added, then the context and the matched
   * text; the span starts on the fragment's second line exactly when the
   * previous line is added, just after the context, and keeps its number of
   * lines; on one line it is as wide as the matched text.
   */
  function Finish(lines: seq<string>, startLine: int, startColumn: int, endLine: int, endColumn: int, raw: string)
    : (r: Fragment)
    requires InFile(lines, startLine, endLine)
    ensures (if HasPrevLine(lines, startLine, startColumn, raw) then lines[startLine - 2] + "\n" else "")
            + PrevContext(lines, startLine, startColumn, raw) + raw <= r.code
    ensures r.location.startLine == (if HasPrevLine(lines, startLine, startColumn, raw) then 2 else 1)
    ensures r.location.startColumn == |PrevContext(lines, startLine, startColumn, raw)| + 1
    ensures r.location.endLine - r.location.startLine == endLine - startLine
    ensures startLine == endLine ==> r.location.endColumn - r.location.startColumn == |raw|
    ensures startLine != endLine ==> r.location.endColumn == endColumn
  {
    var sc := |PrevContext(lines, startLine, startColumn, raw)| + 1;
    var shift := if HasPrevLine(lines, startLine, startColumn, raw) then 1 else 0;
    Fragment(FinishCode(lines, startLine, startColumn, endLine, endColumn, raw),
      SnippetLocation(1 + shift, sc, endLine - startLine + 1 + shift,
                      if startLine == endLine then sc + |raw| else endColumn))
  }

  /** The fragment's code: the previous line when added, the context before, the matched text, the context after, the next line when added. */
  function FinishCode(lines: seq<string>, startLine: int, startColumn: int, endLine: int, endColumn: int, raw: string)
    : (r: string)
    requires InFile(lines, startLine, endLine)
    ensures (if HasPrevLine(lines, startLine, startColumn, raw) then lines[startLine - 2] + "\n" else "")
            + PrevContext(lines, startLine, startColumn, raw) + raw <= r
  {
    var head := WithPrev(lines, startLine, startColumn, raw);
    var body := head + PostContext(lines, endLine, endColumn, raw);
    var code := if HasPostLine(lines, startLine, startColumn, endLine, endColumn, raw) then body + "\n" + lines[endLine] else body;
    WithPrevShape(lines, startLine, startColumn, raw);
    assert head <= body <= code;
    code
  }

  lemma WithPrevShape(lines: seq<string>, startLine: int, startColumn: int, raw: string)
    requires 1 <= startLine <= |lines|
    ensures WithPrev(lines, startLine, startColumn, raw)
            == (if HasPrevLine(lines, startLine, startColumn, raw) then lines[startLine - 2] + "\n" else "")
               + PrevContext(lines, startLine, startColumn, raw) + raw
  {
    var prev := PrevContext(lines, startLine, startColumn, raw);
    if HasPrevLine(lines, startLine, startColumn, raw) {
      assert lines[startLine - 2] + "\n" + (prev + raw) == lines[startLine - 2] + "\n" + prev + raw;
    } else {
      assert "" + prev + raw == prev + raw;
    }
  }

  /**
   * The fragment built for a span, or None where the source throws because a
   * line number of the span is not a line of the file.
   */
  function DefectCode(lines: seq<string>, startLine: int, startColumn: int, endLine: int, endColumn: int): (r: Option<Fragment>)
    ensures r.Some? <==> InFile(lines, startLine, endLine)
  {
    if !InFile(lines, startLine, endLine) then None
    else Some(Finish(lines, startLine, startColumn, endLine, endColumn,
                     RawCode(lines, startLine, startColumn, endLine, endColumn)))
  }

  /** The first half of generateDefectCode: the matched text, accumulated line by line. */
  method AccumulateRawCode(lines: seq<string>, startLine: int, startColumn: int, endLine: int, endColumn: int)
    returns (code: string)
    requires InFile(lines, startLine, endLine)
    ensures code == RawCode(lines, startLine, startColumn, endLine, endColumn)
  {
    if startLine == endLine {
      code := Substring(lines[startLine - 1], startColumn - 1, endColumn - 1);
    } else {
      code := "";
      code := code + SubstringFrom(lines[startLine - 1], startColumn - 1);
      code := code + "\n";
      ghost var head := code;
      if endLine - startLine > 1 {
        var k := startLine;
        while k < endLine - 1
          invariant startLine <= k <= endLine - 1
          invariant code == head + MiddleLines(lines, startLine, k)
        {
          MiddleStep(lines, startLine, k, head, code);
          code := code + lines[k] + "\n";
          k := k + 1;
        }
      }
      RawCodeOf(lines, startLine, startColumn, endLine, endColumn, code);
      code := code + Substring(lines[endLine - 1], 0, endColumn - 1);
    }
  }

  lemma MiddleStep(lines: seq<string>, lo: int, k: int, head: string, code: string)
    requires 0 <= lo <= k < |lines| && code == head + MiddleLines(lines, lo, k)
    ensures code + lines[k] + "\n" == head + MiddleLines(lines, lo, k + 1)
  {
    StringAssoc(head, MiddleLines(lines, lo, k), lines[k] + "\n");
  }

  lemma StringAssoc(a: string, b: string, c: string)
    ensures a + b + c == a + (b + c)
  {
  }

  lemma RawCodeOf(lines: seq<string>, startLine: int, startColumn: int, endLine: int, endColumn: int, code: string)
    requires InFile(lines, startLine, endLine) && startLine != endLine
    requires code == "" + SubstringFrom(lines[startLine - 1], startColumn - 1) + "\n"
                     + (if endLine - startLine > 1 then MiddleLines(lines, startLine, endLine - 1) else "")
    ensures code + Substring(lines[endLine - 1], 0, endColumn - 1) == RawCode(lines, startLine, startColumn, endLine, endColumn)
  {
    assert "" + SubstringFrom(lines[startLine - 1], startColumn - 1) == SubstringFrom(lines[startLine - 1], startColumn - 1);
  }

  /**
   * generateDefectCode: the matched text, then the context and the location
   * adjusted in place; None where the source would throw.
   */
  method GenerateDefectCode(lines: seq<string>, startLine: int, startColumn: int, endLine: int, endColumn: int)
    returns (r: Option<Fragment>)
    ensures r == DefectCode(lines, startLine, startColumn, endLine, endColumn)
  {
    if !(1 <= startLine <= |lines|) || (startLine != endLine && !(1 <= endLine <= |lines|)) {
      return None;
    }
    var code := AccumulateRawCode(lines, startLine, startColumn, endLine, endColumn);
    var f;
    if DefectCodeMaxSize < |code| {
      f := AddShortContext(lines, startLine, startColumn, endLine, endColumn, code);
    } else {
      f := AddContext(lines, startLine, startColumn, endLine, endColumn, code);
    }
    r := Some(f);
  }

  /** The second half of generateDefectCode around an oversized match: no extra context, no extra lines. */
  method AddShortContext(lines: seq<string>, startLine: int, startColumn: int, endLine: int, endColumn: int, raw: string)
    returns (f: Fragment)
    requires InFile(lines, startLine, endLine) && DefectCodeMaxSize < |raw|
    ensures f == Finish(lines, startLine, startColumn, endLine, endColumn, raw)
  {
    var locEndColumn := endColumn;
    var code := raw;
    var prevExtra := GetExtraCode(lines, startLine, startColumn, 0, true);
    var locStartColumn := |prevExtra| + 1;
    if startLine == endLine {
      locEndColumn := locStartColumn + |code|;
    }
    code := prevExtra + code;
    var postExtra := GetExtraCode(lines, endLine, endColumn, 0, false);
    code := code + postExtra;
    assert ExtraSize(raw) == 0;
    f := Fragment(code, SnippetLocation(1, locStartColumn, endLine - startLine + 1, locEndColumn));
  }

  /** The second half of generateDefectCode: up to 300 characters of context and possibly the lines around. */
  method AddContext(lines: seq<string>, startLine: int, startColumn: int, endLine: int, endColumn: int, raw: string)
    returns (f: Fragment)
    requires InFile(lines, startLine, endLine) && |raw| <= DefectCodeMaxSize
    ensures f == Finish(lines, startLine, startColumn, endLine, endColumn, raw)
  {
    var locStartLine := 1;
    var locEndLine := endLine - startLine + 1;
    var locEndColumn := endColumn;
    var code := raw;
    assert ExtraSize(raw) == DefectCodeExtraSize;
    var prevExtra := GetExtraCode(lines, startLine, startColumn, DefectCodeExtraSize, true);
    var locStartColumn := |prevExtra| + 1;
    if startLine == endLine {
      locEndColumn := locStartColumn + |code|;
    }
    code := prevExtra + code;
    ghost var code1 := code;
    if |prevExtra| <= DefectCodeExtraSize && 1 < startLine {
      var prevLine := lines[startLine - 2];
      if |code| + |prevLine| < DefectCodeMaxSize {
        code := prevLine + "\n" + code;
        locStartLine := locStartLine + 1;
        locEndLine := locEndLine + 1;
      }
    }
    assert code == WithPrev(lines, startLine, startColumn, raw);
    assert locStartLine == if HasPrevLine(lines, startLine, startColumn, raw) then 2 else 1;
    var postExtra := GetExtraCode(lines, endLine, endColumn, DefectCodeExtraSize, false);
    code := code + postExtra;
    ghost var code3 := code;
    if |postExtra| <= DefectCodeExtraSize && endLine < |lines| - 1 {
      var postLine := lines[endLine];
      if |code| + |postLine| < DefectCodeMaxSize {
        code := code + "\n" + postLine;
      }
    }
    assert PostLineAdded(lines, endLine, postExtra, raw, code3) ==> code == code3 + "\n" + lines[endLine];
    assert !PostLineAdded(lines, endLine, postExtra, raw, code3) ==> code == code3;
    f := Fragment(code, SnippetLocation(locStartLine, locStartColumn, locEndLine, locEndColumn));
  }

  // ---------------------------------------------------------------------------
  // properties of the fragment

  /**
   * The fragment's span starts on its first line, or on its second when the
   * file's previous line was put in front, and has as many lines as the
   * original span.
   */
  lemma FragmentLines(lines: seq<string>, startLine: int, startColumn: int, endLine: int, endColumn: int)
    requires InFile(lines, startLine, endLine)
    ensures var f := DefectCode(lines, startLine, startColumn, endLine, endColumn).value;
      (f.location.startLine == 1 || f.location.startLine == 2)
      && f.location.endLine - f.location.startLine == endLine - startLine
      && (f.location.startLine == 2 <==>
            HasPrevLine(lines, startLine, startColumn, RawCode(lines, startLine, startColumn, endLine, endColumn)))
      && (f.location.startLine == 2 ==>
            1 < startLine && lines[startLine - 2] + "\n" <= f.code)
  {
  }

  /**
   * The fragment is bounded: at most 7 characters of context around an
   * oversized match, and at most 2000 + 303 + 304 characters otherwise.
   */
  lemma FragmentSize(lines: seq<string>, startLine: int, startColumn: int, endLine: int, endColumn: int)
    requires InFile(lines, startLine, endLine)
    ensures var raw := RawCode(lines, startLine, startColumn, endLine, endColumn);
      var f := DefectCode(lines, startLine, startColumn, endLine, endColumn).value;
      (DefectCodeMaxSize < |raw| ==> |f.code| <= |raw| + 7)
      && (|raw| <= DefectCodeMaxSize ==> |f.code| <= DefectCodeMaxSize + 303 + 304)
  {
  }

  /**
   * The lines of a fragment: the previous line when it was added, then the
   * lines of the matched text with its context, then the next line when it
   * was added.
   */
  lemma FragmentRows(lines: seq<string>, startLine: int, startColumn: int, endLine: int, endColumn: int)
    requires InFile(lines, startLine, endLine) && NoNewlines(lines)
    ensures var raw := RawCode(lines, startLine, startColumn, endLine, endColumn);
      var f := DefectCode(lines, startLine, startColumn, endLine, endColumn).value;
      Split(f.code, '\n')
      == (if HasPrevLine(lines, startLine, startColumn, raw) then [lines[startLine - 2]] else [])
         + Split(PrevContext(lines, startLine, startColumn, raw) + raw + PostContext(lines, endLine, endColumn, raw), '\n')
         + (if HasPostLine(lines, startLine, startColumn, endLine, endColumn, raw) then [lines[endLine]] else [])
  {
    var raw := RawCode(lines, startLine, startColumn, endLine, endColumn);
    var prev := PrevContext(lines, startLine, startColumn, raw);
    var post := PostContext(lines, endLine, endColumn, raw);
    var m := prev + raw + post;
    var body := WithPrev(lines, startLine, startColumn, raw) + post;
    var f := DefectCode(lines, startLine, startColumn, endLine, endColumn).value;
    BodyRows(lines, startLine, startColumn, raw, post);
    if HasPostLine(lines, startLine, startColumn, endLine, endColumn, raw) {
      var nl := lines[endLine];
      assert '\n' !in nl;
      assert f.code == body + ['\n'] + nl;
      SplitSep(body, '\n', nl);
      SplitNone(nl, '\n');
    }
  }

  /** The lines of the fragment before the line after the span is added. */
  lemma BodyRows(lines: seq<string>, startLine: int, startColumn: int, raw: string, post: string)
    requires 1 <= startLine <= |lines| && NoNewlines(lines)
    ensures Split(WithPrev(lines, startLine, startColumn, raw) + post, '\n')
            == (if HasPrevLine(lines, startLine, startColumn, raw) then [lines[startLine - 2]] else [])
               + Split(PrevContext(lines, startLine, startColumn, raw) + raw + post, '\n')
  {
    var prev := PrevContext(lines, startLine, startColumn, raw);
    var m := prev + raw + post;
    if HasPrevLine(lines, startLine, startColumn, raw) {
      var pl := lines[startLine - 2];
      assert '\n' !in pl;
      assert WithPrev(lines, startLine, startColumn, raw) + post == pl + ['\n'] + m;
      SplitPrefix(pl, '\n', m);
    }
  }

  /**
   * The lines of a single-line fragment: the matched line with its context,
   * possibly preceded by the previous line and followed by the next one.
   */
  lemma SingleLineSplit(lines: seq<string>, startLine: int, startColumn: int, endColumn: int)
    requires InFile(lines, startLine, startLine) && NoNewlines(lines)
    ensures var f := DefectCode(lines, startLine, startColumn, startLine, endColumn).value;
      var raw := RawCode(lines, startLine, startColumn, startLine, endColumn);
      var prev := PrevContext(lines, startLine, startColumn, raw);
      var post := PostContext(lines, startLine, endColumn, raw);
      var ls := Split(f.code, '\n');
      1 <= f.location.startLine == f.location.endLine <= |ls|
      && ls[f.location.startLine - 1] == prev + raw + post
      && f.location.startColumn == |prev| + 1
      && f.location.endColumn == |prev| + 1 + |raw|
  {
    var raw := RawCode(lines, startLine, startColumn, startLine, endColumn);
    var prev := PrevContext(lines, startLine, startColumn, raw);
    var post := PostContext(lines, startLine, endColumn, raw);
    assert '\n' !in lines[startLine - 1];
    assert '\n' !in prev + raw + post;
    FragmentRows(lines, startLine, startColumn, startLine, endColumn);
    SplitNone(prev + raw + post, '\n');
  }

  /** Re-slicing the fragment's code at its own location, on its own one line, gives `text`. */
  predicate ReSlices(f: Fragment, text: string)
  {
    var ls := Split(f.code, '\n');
    1 <= f.location.startLine == f.location.endLine <= |ls|
    && Substring(ls[f.location.startLine - 1], f.location.startColumn - 1, f.location.endColumn - 1) == text
  }

  /**
   * For a single-line span, slicing the fragment's span line at
   * [startColumn - 1, endColumn - 1) gives back exactly the matched text.
   */
  lemma SingleLineRecovers(lines: seq<string>, startLine: int, startColumn: int, endColumn: int)
    requires InFile(lines, startLine, startLine) && NoNewlines(lines)
    ensures ReSlices(DefectCode(lines, startLine, startColumn, startLine, endColumn).value,
                     Substring(lines[startLine - 1], startColumn - 1, endColumn - 1))
  {
    SingleLineSplit(lines, startLine, startColumn, endColumn);
    var f := DefectCode(lines, startLine, startColumn, startLine, endColumn).value;
    var raw := RawCode(lines, startLine, startColumn, startLine, endColumn);
    ReSlicesLine(f, PrevContext(lines, startLine, startColumn, raw), raw, PostContext(lines, startLine, endColumn, raw));
    assert raw == Substring(lines[startLine - 1], startColumn - 1, endColumn - 1);
  }

  lemma ReSlicesLine(f: Fragment, prev: string, raw: string, post: string)
    requires 1 <= f.location.startLine == f.location.endLine <= |Split(f.code, '\n')|
    requires Split(f.code, '\n')[f.location.startLine - 1] == prev + raw + post
    requires f.location.startColumn == |prev| + 1 && f.location.endColumn == |prev| + 1 + |raw|
    ensures ReSlices(f, raw)
  {
    assert (prev + raw + post)[|prev|..|prev| + |raw|] == raw;
  }
}
