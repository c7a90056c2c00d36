/**
 * How the two halves of the product meet: the fragment the engine output
 * reader cuts around a finding is what the merger later re-slices with
 * makeCode, so the code compared between runs is the text of the span itself.
 */
module SnippetRoundTrip {
  import opened JsStrings
  import opened DefectCode
  import opened DefectMerger

  /** Re-slicing a one-line fragment at its own location gives the text the span covers in the file. */
  lemma SingleLineCodeRecovered(lines: seq<string>, line: int, startColumn: int, endColumn: int)
    requires InFile(lines, line, line) && NoNewlines(lines)
    ensures var f := DefectCode.DefectCode(lines, line, startColumn, line, endColumn).value;
      MakeCode(Split(f.code, '\n'), f.location) == MakeCode(lines, SnippetLocation(line, startColumn, line, endColumn))
      && MakeCode(lines, SnippetLocation(line, startColumn, line, endColumn))
         == Some(Substring(lines[line - 1], startColumn - 1, endColumn - 1))
  {
    SingleLineRecovers(lines, line, startColumn, endColumn);
    RecoveredFrom(DefectCode.DefectCode(lines, line, startColumn, line, endColumn).value, lines, line, startColumn, endColumn);
  }

  lemma RecoveredFrom(f: Fragment, lines: seq<string>, line: int, startColumn: int, endColumn: int)
    requires 1 <= line <= |lines|
    requires ReSlices(f, Substring(lines[line - 1], startColumn - 1, endColumn - 1))
    ensures MakeCode(Split(f.code, '\n'), f.location) == MakeCode(lines, SnippetLocation(line, startColumn, line, endColumn))
            == Some(Substring(lines[line - 1], startColumn - 1, endColumn - 1))
  {
    OneLineCode(Split(f.code, '\n'), f.location);
    OneLineCode(lines, SnippetLocation(line, startColumn, line, endColumn));
  }

  /** makeCode on a one-line span is the substring of that line. */
  lemma OneLineCode(codes: seq<string>, loc: SnippetLocation)
    requires 1 <= loc.startLine == loc.endLine <= |codes|
    ensures MakeCode(codes, loc) == Some(Substring(codes[loc.startLine - 1], loc.startColumn - 1, loc.endColumn - 1))
  {
  }

  /**
   * Two one-line findings whose spans cover the same text, in two versions of
   * a file and at any line, carry codes that match.
   */
  lemma SameTextCodesMatch(alarm: Alarm, defect: Defect,
                           lines1: seq<string>, line1: int, sc1: int, ec1: int,
                           lines2: seq<string>, line2: int, sc2: int, ec2: int)
    requires InFile(lines1, line1, line1) && NoNewlines(lines1)
    requires InFile(lines2, line2, line2) && NoNewlines(lines2)
    requires Substring(lines1[line1 - 1], sc1 - 1, ec1 - 1) == Substring(lines2[line2 - 1], sc2 - 1, ec2 - 1)
    requires var f := DefectCode.DefectCode(lines1, line1, sc1, line1, ec1).value;
      alarm.codeFragment == Some(f.code) && alarm.codeFragmentLocation == Some(f.location)
    requires var f := DefectCode.DefectCode(lines2, line2, sc2, line2, ec2).value;
      defect.codeFragment == Some(f.code) && defect.codeFragmentLocation == Some(f.location)
    requires alarm.codeFragment != Some("") && defect.codeFragment != Some("")
    ensures CodesMatch(alarm, defect)
  {
    SingleLineRecovers(lines1, line1, sc1, ec1);
    SingleLineRecovers(lines2, line2, sc2, ec2);
    CodesMatchOf(alarm, defect, DefectCode.DefectCode(lines1, line1, sc1, line1, ec1).value,
                 DefectCode.DefectCode(lines2, line2, sc2, line2, ec2).value,
                 Substring(lines1[line1 - 1], sc1 - 1, ec1 - 1));
  }

  lemma CodesMatchOf(alarm: Alarm, defect: Defect, f1: Fragment, f2: Fragment, text: string)
    requires ReSlices(f1, text) && ReSlices(f2, text)
    requires alarm.codeFragment == Some(f1.code) && alarm.codeFragmentLocation == Some(f1.location)
    requires defect.codeFragment == Some(f2.code) && defect.codeFragmentLocation == Some(f2.location)
    requires f1.code != "" && f2.code != ""
    ensures CodesMatch(alarm, defect)
  {
    CodeOfFragment(f1, text);
    CodeOfFragment(f2, text);
  }

  /** A non-empty one-line fragment that re-slices to `text` has the code `text`. */
  lemma CodeOfFragment(f: Fragment, text: string)
    requires ReSlices(f, text) && f.code != ""
    ensures CodeOf(Some(f.code), Some(f.location)) == Code(text)
  {
    OneLineCode(Split(f.code, '\n'), f.location);
  }
}
